/** The ready index of the scheduler as a multiset with a peek, and how its contents follow the jobs. */
module ReadyIndex {
  import opened Prelude
  import opened Domain
  import opened LeaseMachine
  import opened LeaseInvariants

  /** One entry per waiting job and per leftover. */
  ghost predicate IndexOk(ready: multiset<ReadyKey>, jobs: Jobs, stale: set<ReadyKey>) {
    ready == multiset(LiveKeys(jobs) + stale)
  }

  /** `BinaryHeap::peek`: an entry no other entry precedes. */
  method PeekMin(ready: multiset<ReadyKey>) returns (key: ReadyKey)
    requires ready != multiset{}
    ensures key in ready && forall k :: k in ready ==> KeyLe(key, k)
  {
    key :| key in ready;
    var rest := ready[key := 0];
    StrLeReflexive(key.jobId);
    while rest != multiset{}
      invariant key in ready && KeyLe(key, key)
      invariant forall k :: k in rest ==> k in ready
      invariant forall k :: k in ready && k !in rest ==> KeyLe(key, k)
      decreases |rest|
    {
      var other :| other in rest;
      ghost var before := rest;
      rest := rest[other := 0];
      assert forall k :: k in before ==> k == other || k in rest;
      if !KeyLe(key, other) {
        KeyLeBetween(key, other, ready, rest);
        key := other;
      }
    }
  }

  lemma KeyLeBetween(key: ReadyKey, other: ReadyKey, ready: multiset<ReadyKey>, rest: multiset<ReadyKey>)
    requires !KeyLe(key, other)
    requires forall k :: k in ready && k !in rest && k != other ==> KeyLe(key, k)
    ensures forall k :: k in ready && k !in rest ==> KeyLe(other, k)
    ensures KeyLe(other, other)
  {
    KeyLeTotal(key, other);
    KeyLeTotal(other, other);
    forall k | k in ready && k !in rest ensures KeyLe(other, k) {
      if k != other {
        KeyLeTransitive(other, key, k);
      }
    }
  }

  lemma KeyLeTotal(x: ReadyKey, y: ReadyKey)
    ensures KeyLe(x, y) || KeyLe(y, x)
  {
    StrLeTotal(x.dagId, y.dagId);
    StrLeTotal(x.jobId, y.jobId);
  }

  /** A job that starts waiting adds its key, which was not in the index before. */
  lemma PushFollows(ready: multiset<ReadyKey>, jobs: Jobs, stale: set<ReadyKey>, r: JobRef, job: Job)
    requires IndexOk(ready, jobs, stale) && StaleOk(jobs, stale)
    requires r in jobs ==> !Waiting(jobs[r]) && jobs[r].state != Cancelled
    requires Waiting(job)
    ensures IndexOk(ready + multiset{KeyOf(r, job)}, jobs[r := job], stale)
  {
    var key := KeyOf(r, job);
    var jobs' := jobs[r := job];
    forall k ensures k in LiveKeys(jobs') <==> k in LiveKeys(jobs) || k == key {
      LiveRef(jobs, k);
      LiveRef(jobs', k);
    }
    LiveRef(jobs, key);
    assert key !in stale by {
      assert !Leftover(jobs, key);
    }
    assert LiveKeys(jobs') + stale == (LiveKeys(jobs) + stale) + {key};
  }

  /** A job that stops waiting takes its key out. */
  lemma PopFollows(ready: multiset<ReadyKey>, jobs: Jobs, stale: set<ReadyKey>, r: JobRef, job: Job)
    requires IndexOk(ready, jobs, stale) && StaleOk(jobs, stale)
    requires r in jobs && Waiting(jobs[r]) && !Waiting(job)
    ensures KeyOf(r, jobs[r]) in ready
    ensures IndexOk(ready - multiset{KeyOf(r, jobs[r])}, jobs[r := job], stale)
  {
    var key := KeyOf(r, jobs[r]);
    var jobs' := jobs[r := job];
    forall k ensures k in LiveKeys(jobs') <==> k in LiveKeys(jobs) && k != key {
      LiveRef(jobs, k);
      LiveRef(jobs', k);
    }
    LiveRef(jobs, key);
    assert key !in stale by {
      assert !Leftover(jobs, key);
    }
    assert LiveKeys(jobs') + stale == (LiveKeys(jobs) + stale) - {key};
  }

  /** A change that leaves every waiting job as it was and makes none wait leaves the index alone. */
  lemma QuietIndex(jobs: Jobs, jobs': Jobs)
    requires jobs'.Keys == jobs.Keys
    requires forall r :: r in jobs ==> (Waiting(jobs[r]) || Waiting(jobs'[r]) ==> KeyOf(r, jobs'[r]) == KeyOf(r, jobs[r]))
    requires forall r :: r in jobs ==> (Waiting(jobs[r]) <==> Waiting(jobs'[r]))
    ensures LiveKeys(jobs') == LiveKeys(jobs)
  {
    forall k ensures k in LiveKeys(jobs') <==> k in LiveKeys(jobs) {
      LiveRef(jobs, k);
      LiveRef(jobs', k);
    }
  }

  /** Every entry names an existing job, at its current availability; a waiting job is named once. */
  lemma IndexIsExact(ready: multiset<ReadyKey>, jobs: Jobs, stale: set<ReadyKey>)
    requires IndexOk(ready, jobs, stale) && StaleOk(jobs, stale)
    ensures forall k :: k in ready ==>
      && ready[k] == 1
      && RefOf(k) in jobs && k == KeyOf(RefOf(k), jobs[RefOf(k)])
      && (Waiting(jobs[RefOf(k)]) || jobs[RefOf(k)].state == Cancelled)
    ensures forall r :: r in jobs && Waiting(jobs[r]) ==> ready[KeyOf(r, jobs[r])] == 1
    ensures |ready| <= |jobs|
  {
    forall k | k in ready
      ensures RefOf(k) in jobs && k == KeyOf(RefOf(k), jobs[RefOf(k)])
      ensures Waiting(jobs[RefOf(k)]) || jobs[RefOf(k)].state == Cancelled
    {
      LiveRef(jobs, k);
      if k in stale { assert Leftover(jobs, k); }
    }
    forall r | r in jobs && Waiting(jobs[r]) ensures KeyOf(r, jobs[r]) in LiveKeys(jobs) {
    }
    KeysPerRef(LiveKeys(jobs) + stale, jobs, jobs.Keys);
    assert |jobs| == |jobs.Keys|;
  }

  lemma {:induction false} KeysPerRef(keys: set<ReadyKey>, jobs: Jobs, refs: set<JobRef>)
    requires refs <= jobs.Keys
    requires forall k :: k in keys ==> RefOf(k) in refs && k == KeyOf(RefOf(k), jobs[RefOf(k)])
    ensures |keys| <= |refs|
    decreases keys
  {
    if keys != {} {
      var k :| k in keys;
      forall other | other in keys - {k} ensures RefOf(other) in refs - {RefOf(k)} {
      }
      KeysPerRef(keys - {k}, jobs, refs - {RefOf(k)});
      assert |keys| == |keys - {k}| + 1 && |refs| == |refs - {RefOf(k)}| + 1;
    }
  }

  /** Availability comes first in the key order. */
  lemma FutureKeys(ready: multiset<ReadyKey>, least: ReadyKey, now: I64)
    requires least.availableAtMs > now && forall k :: k in ready ==> KeyLe(least, k)
    ensures forall k :: k in ready ==> k.availableAtMs > now
  {
  }
}
