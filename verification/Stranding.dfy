/** When interleaved completions leave a child pending although all its parents have succeeded.

    `saw[p]` is what the release statement of the transaction that completed `p` saw succeeded. A child is
    stranded exactly when no parent's completion saw all the parents; that takes two completions that did not
    see each other. */
module Stranding {
  import opened Domain
  import opened Graphs
  import opened LeaseMachine
  import opened Sql
  import opened StoreConcurrency
  import Backoff
  import V = Validation

  ghost predicate IsParent(deps: Dependencies, p: JobRef, c: JobRef) {
    c.dag in deps && p.dag == c.dag && Dependency(p.job, c.job) in deps[c.dag]
  }

  ghost predicate AllParentsIn(deps: Dependencies, refs: set<JobRef>, c: JobRef) {
    forall p :: IsParent(deps, p, c) ==> p in refs
  }

  /** Some parent's completion saw all the parents of `c` succeeded. */
  ghost predicate Witnessed(deps: Dependencies, saw: map<JobRef, set<JobRef>>, c: JobRef) {
    exists p :: IsParent(deps, p, c) && p in saw && AllParentsIn(deps, saw[p], c)
  }

  ghost predicate HasParent(deps: Dependencies, c: JobRef) {
    exists p :: IsParent(deps, p, c)
  }

  // ----- What the history says about the rows -----

  /** Committed rows: exactly the succeeded ones have a history, which saw succeeded rows only, itself among
      them; a child past waiting has a witness and a child with a witness is not pending. */
  ghost predicate HistoryOk(deps: Dependencies, jobs: Jobs, saw: map<JobRef, set<JobRef>>) {
    && (forall p :: p in saw <==> Won(jobs, p))
    && (forall p :: p in saw ==> p in saw[p] && forall q :: q in saw[p] ==> q in saw && saw[q] <= saw[p])
    && (forall c :: c in jobs && Past(jobs[c]) && HasParent(deps, c) ==> Witnessed(deps, saw, c))
    && (forall c :: c in jobs && Witnessed(deps, saw, c) ==> jobs[c].state != Pending)
  }

  /** The job a completing transaction completes. */
  function Ref(tx: Tx): JobRef
    requires Completes(tx)
  {
    tx.program[0].ref
  }

  /** The release statement has taken its snapshot. */
  predicate HasLooked(tx: Tx) {
    Completes(tx) && (tx.pc == 2 || (tx.pc == 1 && tx.running))
  }

  /** `tx` releases `c` on the strength of what it saw. */
  ghost predicate MayRelease(deps: Dependencies, tx: Tx, c: JobRef) {
    HasLooked(tx) && IsParent(deps, Ref(tx), c) && AllParentsIn(deps, tx.saw, c)
  }

  /** Only a completing transaction makes a row succeeded, and only its own. */
  ghost predicate WritesOk(tx: Tx) {
    && IsProgram(tx.program) && tx.pc <= |tx.program|
    && (forall r :: r in tx.writes && tx.writes[r].state == Succeeded ==> Completes(tx) && r == Ref(tx))
    && (Completes(tx) && tx.pc >= 1 ==> Ref(tx) in tx.writes)
    && (Completes(tx) && Ref(tx) in tx.writes ==> tx.writes[Ref(tx)].state == Succeeded)
  }

  ghost predicate SawOk(tx: Tx, saw: map<JobRef, set<JobRef>>) {
    HasLooked(tx) ==>
      && Ref(tx) in tx.saw
      && forall q :: q in tx.saw ==> q == Ref(tx) || (q in saw && saw[q] <= tx.saw)
  }

  /** Rows still to be released, rows moved past waiting, and rows that can no longer be pending. */
  ghost predicate ReleaseOk(deps: Dependencies, jobs: Jobs, tx: Tx) {
    && (Releasing(tx) ==> forall c :: c in tx.todo ==> MayRelease(deps, tx, c))
    && (forall c :: c in tx.writes && c in jobs && Past(tx.writes[c]) && HasParent(deps, c) ==>
          Past(jobs[c]) || MayRelease(deps, tx, c))
    && (forall c :: c in jobs && MayRelease(deps, tx, c) ==>
          (tx.running && c in tx.todo) || View(jobs, tx)[c].state != Pending)
  }

  ghost predicate TxHistoryOk(db: Db, tx: Tx) {
    WritesOk(tx) && SawOk(tx, db.saw) && ReleaseOk(db.deps, db.jobs, tx)
  }

  ghost predicate FullOk(db: Db) {
    && DbOk(db)
    && HistoryOk(db.deps, db.jobs, db.saw)
    && forall t :: t in db.active ==> TxHistoryOk(db, db.active[t])
  }

  // ----- One transaction at work -----

  lemma FullParts(db: Db, t: nat)
    requires FullOk(db) && t in db.active
    ensures TxHistoryOk(db, db.active[t]) && TxOk(db.deps, db.jobs, db.active[t])
    ensures ForeignKeys(db.deps, db.jobs) && HistoryOk(db.deps, db.jobs, db.saw)
  {
    hide TxHistoryOk, TxOk, HistoryOk, ForeignKeys, Safe;
  }

  /** Steps of one transaction leave the committed history alone. */
  lemma ReplaceFull(db: Db, t: nat, tx: Tx, move: Move)
    requires FullOk(db) && Enabled(db, move) && t in db.active
    requires Apply(db, move) == db.(active := db.active[t := tx])
    requires TxHistoryOk(db, tx)
    ensures FullOk(Apply(db, move))
  {
    hide DbOk, HistoryOk, Apply, Enabled;
    MoveOk(db, move);
    var db' := Apply(db, move);
    forall o | o in db'.active ensures TxHistoryOk(db', db'.active[o]) {
      assert TxHistoryOk(db, db'.active[o]);
      SameTables(db, db', db'.active[o]);
    }
  }

  lemma SameTables(db: Db, db': Db, tx: Tx)
    requires TxHistoryOk(db, tx) && db'.deps == db.deps && db'.jobs == db.jobs && db'.saw == db.saw
    ensures TxHistoryOk(db', tx)
  {
    hide WritesOk, SawOk, ReleaseOk;
  }

  lemma StartFull(db: Db, t: nat)
    requires FullOk(db) && Enabled(db, Start(t))
    ensures FullOk(Apply(db, Start(t)))
  {
    hide FullOk, TxHistoryOk, Started, TxOk, HistoryOk, ForeignKeys;
    FullParts(db, t);
    StartHistory(db, db.active[t]);
    ReplaceFull(db, t, Started(db, db.active[t]), Start(t));
  }

  lemma StartHistory(db: Db, tx: Tx)
    requires TxHistoryOk(db, tx) && TxOk(db.deps, db.jobs, tx)
    requires ForeignKeys(db.deps, db.jobs) && HistoryOk(db.deps, db.jobs, db.saw)
    requires !tx.running && tx.pc < |tx.program|
    ensures TxHistoryOk(db, Started(db, tx))
  {
    hide HistoryOk, ForeignKeys, TxOk, ReleaseOk, SawOk, Rows, Winners, View;
    var tx' := Started(db, tx);
    if tx.program[tx.pc].ReleaseRows? {
      StartSaw(db, tx);
      StartRelease(db, tx);
    } else {
      StartOther(db, tx);
    }
  }

  lemma StartOther(db: Db, tx: Tx)
    requires TxHistoryOk(db, tx) && !tx.running && tx.pc < |tx.program| && !tx.program[tx.pc].ReleaseRows?
    ensures SawOk(Started(db, tx), db.saw) && ReleaseOk(db.deps, db.jobs, Started(db, tx))
  {
    hide Rows, IsParent, AllParentsIn, HasParent, Past;
    var tx' := Started(db, tx);
    assert !HasLooked(tx) && !HasLooked(tx');
    assert View(db.jobs, tx') == View(db.jobs, tx);
  }

  lemma StartSaw(db: Db, tx: Tx)
    requires WritesOk(tx) && TxOk(db.deps, db.jobs, tx) && HistoryOk(db.deps, db.jobs, db.saw)
    requires !tx.running && tx.pc < |tx.program| && tx.program[tx.pc].ReleaseRows?
    ensures SawOk(Started(db, tx), db.saw)
  {
    hide Rows, Safe, ParentsWon, Past, HasParent, Witnessed;
    var view := View(db.jobs, tx);
    forall q | q in Winners(view) ensures q == Ref(tx) || (q in db.saw && db.saw[q] <= Winners(view)) {
      if q !in tx.writes {
        assert Won(db.jobs, q);
        forall w | w in db.saw[q] ensures w in Winners(view) {
          assert w in db.saw && Won(db.jobs, w);
        }
      }
    }
  }

  lemma StartRelease(db: Db, tx: Tx)
    requires WritesOk(tx) && ReleaseOk(db.deps, db.jobs, tx) && ForeignKeys(db.deps, db.jobs)
    requires !tx.running && tx.pc < |tx.program| && tx.program[tx.pc].ReleaseRows?
    ensures ReleaseOk(db.deps, db.jobs, Started(db, tx))
  {
    hide Past, HasParent, AllParentsIn, IsParent, NoUnfinishedParent, ForeignKeys, Winners;
    var tx' := Started(db, tx);
    var view := View(db.jobs, tx);
    assert HasLooked(tx') && !HasLooked(tx) && Ref(tx') == tx.program[tx.pc].parent;
    forall c | c in db.jobs
      ensures c in tx'.todo <==> MayRelease(db.deps, tx', c) && view[c].state == Pending
    {
      ReleaseQualifies(db.deps, db.jobs, view, Ref(tx'), c);
    }
    assert tx'.todo <= view.Keys == db.jobs.Keys + tx.writes.Keys;
    forall c | c in tx'.todo ensures MayRelease(db.deps, tx', c) {
      ReleaseQualifies(db.deps, db.jobs, view, Ref(tx'), c);
    }
  }

  /** What the release statement qualifies, said with parents and winners. */
  lemma ReleaseQualifies(deps: Dependencies, jobs: Jobs, view: Jobs, parent: JobRef, c: JobRef)
    requires ForeignKeys(deps, jobs) && jobs.Keys <= view.Keys
    ensures c.dag == parent.dag && Joins(ReleaseRows(parent), AllRunning(deps), deps, view, c) <==>
            IsParent(deps, parent, c) && AllParentsIn(deps, Winners(view), c)
  {
    hide Winners;
    forall p | IsParent(deps, p, c)
      ensures p in view && (p in Winners(view) <==> view[p].state == Succeeded)
    {
      assert Dependency(p.job, c.job) in deps[c.dag];
      WinnerIs(view, p);
    }
    if c.dag in deps {
      forall e | e in deps[c.dag] && e.to == c.job ensures IsParent(deps, JobRef(c.dag, e.from), c) {
        assert e == Dependency(e.from, c.job);
      }
    }
  }

  lemma WinnerIs(jobs: Jobs, r: JobRef)
    ensures r in Winners(jobs) <==> Won(jobs, r)
  {
  }

  lemma ChangeFull(db: Db, t: nat, row: JobRef)
    requires FullOk(db) && Enabled(db, Change(t, row))
    ensures FullOk(Apply(db, Change(t, row)))
  {
    hide FullOk, TxHistoryOk, Changed, TxOk, HistoryOk, ForeignKeys, View;
    FullParts(db, t);
    ChangeHistory(db, db.active[t], row);
    ReplaceFull(db, t, Changed(db, db.active[t], row), Change(t, row));
  }

  lemma ChangeHistory(db: Db, tx: Tx, row: JobRef)
    requires TxHistoryOk(db, tx) && TxOk(db.deps, db.jobs, tx)
    requires tx.running && tx.pc < |tx.program| && row in tx.todo && row in View(db.jobs, tx)
    ensures TxHistoryOk(db, Changed(db, tx, row))
  {
    hide WritesOk, SawOk, ReleaseOk, TxOk, View;
    ChangeWrites(db, tx, row);
    ChangeRelease(db, tx, row);
    ChangeSaw(db, tx, row);
  }

  lemma ChangeSaw(db: Db, tx: Tx, row: JobRef)
    requires SawOk(tx, db.saw) && tx.pc < |tx.program| && row in View(db.jobs, tx)
    ensures SawOk(Changed(db, tx, row), db.saw)
  {
    hide Where, Set;
  }

  /** Which statements make a row succeeded. */
  lemma SucceedsBy(st: Statement, now: Instant, r: JobRef, job: Job)
    requires Where(st, now, r, job)
    ensures Set(st, now, job).state == Succeeded <==> st.CompleteRow?
    ensures st.CompleteRow? ==> r == st.ref
  {
    hide Backoff.SqlBackoff;
  }

  lemma ChangeWrites(db: Db, tx: Tx, row: JobRef)
    requires WritesOk(tx) && tx.pc < |tx.program| && row in View(db.jobs, tx)
    ensures WritesOk(Changed(db, tx, row))
  {
    hide Where, Set;
    var st := tx.program[tx.pc];
    var job := View(db.jobs, tx)[row];
    if Where(st, tx.now, row, job) {
      SucceedsBy(st, tx.now, row, job);
      if st.ReleaseRows? {
        ReleaseIsPending(st, tx.now, row, job);
      }
    }
  }

  lemma ReleaseIsPending(st: Statement, now: Instant, r: JobRef, job: Job)
    requires st.ReleaseRows?
    ensures Where(st, now, r, job) <==> r.dag == st.parent.dag && job.state == Pending
  {
  }

  lemma ChangeRelease(db: Db, tx: Tx, row: JobRef)
    requires WritesOk(tx) && ReleaseOk(db.deps, db.jobs, tx) && TxOk(db.deps, db.jobs, tx)
    requires tx.running && tx.pc < |tx.program| && row in tx.todo && row in View(db.jobs, tx)
    ensures ReleaseOk(db.deps, db.jobs, Changed(db, tx, row))
  {
    hide WritesOk, TxOk, IsParent, AllParentsIn, HasParent, Where, Set, Past, ReleaseOk;
    var st := tx.program[tx.pc];
    var job := View(db.jobs, tx)[row];
    var tx' := Changed(db, tx, row);
    LookSame(db, tx, row);
    WhichStatement(tx);
    TodoKnown(db.deps, db.jobs, tx);
    if Where(st, tx.now, row, job) {
      WhereIsLive(st, tx.now, row, job);
      NotCancelled(job);
      PendingOrPast(job);
      PastBefore(db, tx, row);
      ChangeKeeps(db, tx, row, tx');
    } else {
      SkipKeeps(db, tx, row, tx');
    }
  }

  lemma LookSame(db: Db, tx: Tx, row: JobRef)
    requires tx.pc < |tx.program| && row in View(db.jobs, tx)
    ensures var tx' := Changed(db, tx, row);
            && tx'.program == tx.program && tx'.pc == tx.pc && tx'.running == tx.running && tx'.saw == tx.saw
  {
    hide Where, Set;
  }

  /** A transaction that has looked is running its release statement. */
  lemma WhichStatement(tx: Tx)
    requires WritesOk(tx) && tx.running && tx.pc < |tx.program|
    ensures tx.program[tx.pc].ReleaseRows? ==> HasLooked(tx) && tx.program[tx.pc].parent == Ref(tx)
    ensures HasLooked(tx) ==> tx.program[tx.pc].ReleaseRows?
  {
  }

  lemma TodoKnown(deps: Dependencies, jobs: Jobs, tx: Tx)
    requires TxOk(deps, jobs, tx)
    ensures tx.todo <= jobs.Keys
  {
  }

  lemma PastBefore(db: Db, tx: Tx, row: JobRef)
    requires ReleaseOk(db.deps, db.jobs, tx) && row in View(db.jobs, tx) && row in db.jobs
    ensures Past(View(db.jobs, tx)[row]) && HasParent(db.deps, row) ==> Past(db.jobs[row]) || MayRelease(db.deps, tx, row)
  {
    hide HasParent, MayRelease, Past;
  }

  ghost predicate SameLook(tx: Tx, tx': Tx) {
    tx'.program == tx.program && tx'.pc == tx.pc && tx'.running == tx.running && tx'.saw == tx.saw
  }

  lemma SameMayRelease(deps: Dependencies, tx: Tx, tx': Tx, c: JobRef)
    requires SameLook(tx, tx')
    ensures MayRelease(deps, tx', c) <==> MayRelease(deps, tx, c)
  {
    hide IsParent, AllParentsIn;
  }

  lemma SkipKeeps(db: Db, tx: Tx, row: JobRef, tx': Tx)
    requires ReleaseOk(db.deps, db.jobs, tx) && tx.running && tx.pc < |tx.program|
    requires row in View(db.jobs, tx) && tx'.todo == tx.todo - {row} && tx'.writes == tx.writes && SameLook(tx, tx')
    requires HasLooked(tx) ==> tx.program[tx.pc].ReleaseRows? && tx.program[tx.pc].parent == Ref(tx)
    requires !Where(tx.program[tx.pc], tx.now, row, View(db.jobs, tx)[row])
    ensures ReleaseOk(db.deps, db.jobs, tx')
  {
    hide HasParent, MayRelease, Past, Where;
    forall c ensures MayRelease(db.deps, tx', c) <==> MayRelease(db.deps, tx, c) {
      SameMayRelease(db.deps, tx, tx', c);
    }
    if MayRelease(db.deps, tx, row) {
      ReleaseLooks(db.deps, tx, row);
      ReleaseIsPending(tx.program[tx.pc], tx.now, row, View(db.jobs, tx)[row]);
    }
  }

  lemma ReleaseLooks(deps: Dependencies, tx: Tx, c: JobRef)
    requires MayRelease(deps, tx, c)
    ensures HasLooked(tx) && c.dag == Ref(tx).dag && HasParent(deps, c)
  {
  }

  lemma ChangeKeeps(db: Db, tx: Tx, row: JobRef, tx': Tx)
    requires ReleaseOk(db.deps, db.jobs, tx) && tx.running && tx.pc < |tx.program| && row in tx.todo
    requires row in View(db.jobs, tx) && tx'.todo <= tx.todo && SameLook(tx, tx')
    requires tx'.todo == tx.todo - {row} || !HasLooked(tx)
    requires row in tx'.writes && tx'.writes == tx.writes[row := tx'.writes[row]] && tx'.writes[row].state != Pending
    requires Past(View(db.jobs, tx)[row]) && row in db.jobs && HasParent(db.deps, row) ==>
               Past(db.jobs[row]) || MayRelease(db.deps, tx, row)
    requires Past(tx'.writes[row]) ==> Past(View(db.jobs, tx)[row]) || Releasing(tx)
    ensures ReleaseOk(db.deps, db.jobs, tx')
  {
    hide HasParent, MayRelease, Past;
    forall c ensures MayRelease(db.deps, tx', c) <==> MayRelease(db.deps, tx, c) {
      SameMayRelease(db.deps, tx, tx', c);
    }
    forall c | c in db.jobs && MayRelease(db.deps, tx', c)
      ensures (tx'.running && c in tx'.todo) || View(db.jobs, tx')[c].state != Pending
    {
      ReleaseLooks(db.deps, tx, c);
    }
  }

  lemma FinishFull(db: Db, t: nat)
    requires FullOk(db) && Enabled(db, Finish(t))
    ensures FullOk(Apply(db, Finish(t)))
  {
    hide FullOk, TxHistoryOk, TxOk, HistoryOk, ForeignKeys, View;
    FullParts(db, t);
    var tx := db.active[t];
    var tx' := tx.(running := false, todo := {}, pc := tx.pc + 1);
    FinishHistory(db, tx, tx');
    ReplaceFull(db, t, tx', Finish(t));
  }

  lemma FinishHistory(db: Db, tx: Tx, tx': Tx)
    requires TxHistoryOk(db, tx) && tx.running && tx.pc < |tx.program|
    requires tx' == tx.(running := false, todo := {}, pc := tx.pc + 1)
    requires tx.todo == {} || tx.program[tx.pc].ClaimRow?
    requires tx.program[tx.pc].CompleteRow? ==> tx.program[tx.pc].ref in tx.writes
    ensures TxHistoryOk(db, tx')
  {
    hide IsParent, AllParentsIn, HasParent, Past;
    assert HasLooked(tx') <==> HasLooked(tx);
    assert View(db.jobs, tx') == View(db.jobs, tx);
    forall c ensures MayRelease(db.deps, tx', c) <==> MayRelease(db.deps, tx, c) {
    }
  }

  lemma BeginFull(db: Db, t: nat, now: Instant, program: seq<Statement>)
    requires FullOk(db) && Enabled(db, Begin(t, now, program))
    ensures FullOk(Apply(db, Begin(t, now, program)))
  {
    hide DbOk, HistoryOk;
    var db' := Apply(db, Begin(t, now, program));
    MoveOk(db, Begin(t, now, program));
    hide TxHistoryOk;
    forall o | o in db'.active ensures TxHistoryOk(db', db'.active[o]) {
      if o == t {
        FirstHistory(db', db'.active[t]);
      } else {
        SameTables(db, db', db.active[o]);
      }
    }
  }

  lemma FirstHistory(db: Db, tx: Tx)
    requires IsProgram(tx.program) && tx.pc == 0 && !tx.running && tx.todo == {} && tx.writes == map[]
    ensures TxHistoryOk(db, tx)
  {
  }

  lemma AbortFull(db: Db, t: nat)
    requires FullOk(db) && t in db.active
    ensures FullOk(Apply(db, Abort(t)))
  {
    hide DbOk, HistoryOk, TxHistoryOk;
    var db' := Apply(db, Abort(t));
    MoveOk(db, Abort(t));
    forall o | o in db'.active ensures TxHistoryOk(db', db'.active[o]) {
      SameTables(db, db', db.active[o]);
    }
  }

  // ----- Commits -----

  lemma CommitFull(db: Db, t: nat)
    requires FullOk(db) && Enabled(db, Commit(t))
    ensures FullOk(Apply(db, Commit(t)))
  {
    hide DbOk, HistoryOk, TxHistoryOk, TxOk, ForeignKeys, V.Validation;
    var db' := Apply(db, Commit(t));
    MoveOk(db, Commit(t));
    FullParts(db, t);
    CommitHistory(db, db.active[t]);
    forall o | o in db'.active ensures TxHistoryOk(db', db'.active[o]) {
      FullParts(db, o);
      DisjointLocks(db, t, o);
      OtherHistory(db, db.active[t], db'.saw, db.active[o]);
      SameTables(db.(jobs := db'.jobs, saw := db'.saw), db', db'.active[o]);
    }
  }

  lemma DisjointLocks(db: Db, t: nat, o: nat)
    requires DbOk(db) && t in db.active && o in db.active && o != t
    ensures forall r :: r in db.active[o].writes ==> r !in db.active[t].writes
  {
    hide TxOk, Safe, ForeignKeys;
  }

  ghost function SawAfter(db: Db, tx: Tx): map<JobRef, set<JobRef>> {
    if Completes(tx) then db.saw[tx.program[0].ref := tx.saw] else db.saw
  }

  /** The job a committing transaction completed had no history before. */
  lemma NewlyWon(db: Db, tx: Tx)
    requires HistoryOk(db.deps, db.jobs, db.saw) && TxOk(db.deps, db.jobs, tx) && WritesOk(tx)
    requires Completes(tx) && tx.pc >= 1
    ensures Ref(tx) !in db.saw && Ref(tx) in tx.writes && Ref(tx) in db.jobs
  {
    hide Safe, Witnessed, HasParent;
  }

  lemma CommitHistory(db: Db, tx: Tx)
    requires HistoryOk(db.deps, db.jobs, db.saw) && TxHistoryOk(db, tx) && TxOk(db.deps, db.jobs, tx)
    requires !tx.running && tx.pc == |tx.program|
    ensures HistoryOk(db.deps, View(db.jobs, tx), SawAfter(db, tx))
  {
    hide SawOk, ReleaseOk, Safe, ParentsWon, Past, HasParent, Witnessed, Won;
    if Completes(tx) {
      NewlyWon(db, tx);
    }
    CommitWinners(db, tx);
    CommitSaw(db, tx);
    CommitWitnesses(db, tx);
    CommitReleases(db, tx);
  }

  lemma CommitWinners(db: Db, tx: Tx)
    requires HistoryOk(db.deps, db.jobs, db.saw) && WritesOk(tx) && TxOk(db.deps, db.jobs, tx)
    requires !tx.running && tx.pc == |tx.program|
    ensures forall p :: p in SawAfter(db, tx) <==> Won(View(db.jobs, tx), p)
  {
    hide Safe, ParentsWon, HasParent, Witnessed;
  }

  lemma CommitSaw(db: Db, tx: Tx)
    requires HistoryOk(db.deps, db.jobs, db.saw) && SawOk(tx, db.saw)
    requires tx.pc == |tx.program| && WritesOk(tx) && (Completes(tx) ==> Ref(tx) !in db.saw)
    ensures var saw' := SawAfter(db, tx);
            forall p :: p in saw' ==> p in saw'[p] && forall q :: q in saw'[p] ==> q in saw' && saw'[q] <= saw'[p]
  {
    hide Won, HasParent, Witnessed, Past;
    var saw' := SawAfter(db, tx);
    assert Completes(tx) ==> HasLooked(tx);
    forall p | p in saw' ensures p in saw'[p] && forall q :: q in saw'[p] ==> q in saw' && saw'[q] <= saw'[p] {
      if !Completes(tx) || p != Ref(tx) {
        assert p in db.saw && saw'[p] == db.saw[p];
      }
    }
  }

  lemma WitnessGrows(deps: Dependencies, saw: map<JobRef, set<JobRef>>, p: JobRef, seen: set<JobRef>, c: JobRef)
    requires p !in saw
    ensures Witnessed(deps, saw[p := seen], c) <==>
            Witnessed(deps, saw, c) || (IsParent(deps, p, c) && AllParentsIn(deps, seen, c))
  {
    hide IsParent, AllParentsIn;
    var saw' := saw[p := seen];
    if Witnessed(deps, saw, c) {
      var w :| IsParent(deps, w, c) && w in saw && AllParentsIn(deps, saw[w], c);
      assert w in saw' && saw'[w] == saw[w];
    }
    if IsParent(deps, p, c) && AllParentsIn(deps, seen, c) {
      assert p in saw' && saw'[p] == seen;
    }
  }

  lemma CommitWitnesses(db: Db, tx: Tx)
    requires HistoryOk(db.deps, db.jobs, db.saw) && ReleaseOk(db.deps, db.jobs, tx)
    requires tx.writes.Keys <= db.jobs.Keys && tx.pc == |tx.program| && (Completes(tx) ==> Ref(tx) !in db.saw)
    ensures forall c :: c in View(db.jobs, tx) && Past(View(db.jobs, tx)[c]) && HasParent(db.deps, c) ==>
              Witnessed(db.deps, SawAfter(db, tx), c)
  {
    hide Past, HasParent, Witnessed, Won, AllParentsIn, IsParent;
    var jobs' := View(db.jobs, tx);
    forall c | c in jobs' && Past(jobs'[c]) && HasParent(db.deps, c) ensures Witnessed(db.deps, SawAfter(db, tx), c) {
      if Completes(tx) {
        WitnessGrows(db.deps, db.saw, Ref(tx), tx.saw, c);
      }
      assert Past(db.jobs[c]) || MayRelease(db.deps, tx, c);
    }
  }

  lemma CommitReleases(db: Db, tx: Tx)
    requires HistoryOk(db.deps, db.jobs, db.saw) && ReleaseOk(db.deps, db.jobs, tx) && WritesOk(tx)
    requires TxOk(db.deps, db.jobs, tx)
    requires !tx.running && tx.pc == |tx.program| && (Completes(tx) ==> Ref(tx) !in db.saw)
    ensures forall c :: c in View(db.jobs, tx) && Witnessed(db.deps, SawAfter(db, tx), c) ==>
              View(db.jobs, tx)[c].state != Pending
  {
    hide Past, HasParent, Witnessed, Won, AllParentsIn, IsParent, Safe;
    var jobs' := View(db.jobs, tx);
    forall c | c in jobs' && Witnessed(db.deps, SawAfter(db, tx), c) ensures jobs'[c].state != Pending {
      if Completes(tx) {
        WitnessGrows(db.deps, db.saw, Ref(tx), tx.saw, c);
        assert HasLooked(tx);
      }
      assert Witnessed(db.deps, db.saw, c) || MayRelease(db.deps, tx, c);
    }
  }

  /** A commit leaves the books of the transactions still open in order. */
  lemma OtherHistory(db: Db, tx: Tx, saw': map<JobRef, set<JobRef>>, other: Tx)
    requires TxHistoryOk(db, other) && HistoryOk(db.deps, db.jobs, db.saw)
    requires TxHistoryOk(db, tx) && TxOk(db.deps, db.jobs, tx) && TxOk(db.deps, db.jobs, other)
    requires !tx.running && tx.pc == |tx.program| && saw' == SawAfter(db, tx)
    requires forall r :: r in other.writes ==> r !in tx.writes
    ensures TxHistoryOk(db.(jobs := View(db.jobs, tx), saw := saw'), other)
  {
    hide ReleaseOk, HistoryOk, TxOk, WritesOk;
    if Completes(tx) {
      assert tx.pc >= 1 by { Programs(tx); }
      NewlyWon(db, tx);
    }
    OtherRelease(db.deps, db.jobs, tx, other);
  }

  lemma Programs(tx: Tx)
    requires WritesOk(tx) && Completes(tx)
    ensures |tx.program| == 2
  {
  }

  lemma OtherRelease(deps: Dependencies, jobs: Jobs, tx: Tx, other: Tx)
    requires ReleaseOk(deps, jobs, other) && TxOk(deps, jobs, tx) && TxOk(deps, jobs, other)
    requires forall r :: r in other.writes ==> r !in tx.writes
    ensures ReleaseOk(deps, View(jobs, tx), other)
  {
    hide Past, HasParent, MayRelease, Safe, ParentsWon, Terminal;
    var jobs' := View(jobs, tx);
    forall c | c in jobs' && MayRelease(deps, other, c)
      ensures (other.running && c in other.todo) || View(jobs', other)[c].state != Pending
    {
      assert c in jobs;
    }
  }

  // ----- New graphs -----

  lemma InsertFull(db: Db, spec: DagSpec, at: Instant)
    requires FullOk(db) && Enabled(db, Insert(spec, at))
    ensures FullOk(Apply(db, Insert(spec, at)))
  {
    hide HistoryOk, TxHistoryOk, TxOk, V.Validation, InitialJobs, V.EdgeSet, Safe, NewGraph, DbOk;
    var db' := Apply(db, Insert(spec, at));
    MoveOk(db, Insert(spec, at));
    InsertedRows(db, spec, at);
    Keys(db);
    NewGraphHistory(db.deps, db.jobs, db.saw, spec.id, V.EdgeSet(spec), InitialJobs(spec, at));
    forall o | o in db'.active ensures TxHistoryOk(db', db'.active[o]) {
      FullParts(db, o);
      NewGraphTxHistory(db, spec.id, V.EdgeSet(spec), InitialJobs(spec, at), db.active[o]);
      SameTables(db.(deps := db'.deps, jobs := db'.jobs), db', db.active[o]);
    }
  }

  /** Parents in the old graphs stay as they are; parents in the new one lie in the new one. */
  lemma NewGraphParents(deps: Dependencies, dag: string, edges: Edges, c: JobRef)
    requires dag !in deps
    ensures c.dag != dag ==> forall p :: IsParent(deps[dag := edges], p, c) <==> IsParent(deps, p, c)
    ensures forall p :: IsParent(deps[dag := edges], p, c) ==> p.dag == c.dag
    ensures c.dag != dag ==> (HasParent(deps[dag := edges], c) <==> HasParent(deps, c))
  {
    if c.dag != dag {
      if HasParent(deps[dag := edges], c) {
        var p :| IsParent(deps[dag := edges], p, c);
        assert IsParent(deps, p, c);
      }
      if HasParent(deps, c) {
        var p :| IsParent(deps, p, c);
        assert IsParent(deps[dag := edges], p, c);
      }
    }
  }

  lemma NewGraphHistory(
    deps: Dependencies, jobs: Jobs, saw: map<JobRef, set<JobRef>>, dag: string, edges: Edges, added: Jobs)
    requires HistoryOk(deps, jobs, saw) && NewGraph(dag, edges, added) && dag !in deps && ForeignKeys(deps, jobs)
    ensures HistoryOk(deps[dag := edges], jobs + added, saw)
  {
    hide IsParent, Past, Witnessed, HasParent, NewGraph;
    var deps' := deps[dag := edges];
    forall p | p in saw ensures p.dag in deps {
      assert Won(jobs, p);
    }
    forall c: JobRef
      ensures c.dag != dag ==> (Witnessed(deps', saw, c) <==> Witnessed(deps, saw, c))
      ensures c.dag != dag ==> (HasParent(deps', c) <==> HasParent(deps, c))
      ensures c.dag == dag ==> !Witnessed(deps', saw, c)
    {
      NewGraphParents(deps, dag, edges, c);
      NewGraphWitnesses(deps, saw, dag, edges, c);
    }
    forall c | c in added ensures c.dag == dag && (Past(added[c]) ==> !HasParent(deps', c)) {
      NoneAbove(deps, dag, edges, added, c);
    }
    NewGraphWinners(jobs, dag, edges, added, saw);
  }

  lemma NewGraphWitnesses(
    deps: Dependencies, saw: map<JobRef, set<JobRef>>, dag: string, edges: Edges, c: JobRef)
    requires dag !in deps && forall p :: p in saw ==> p.dag in deps
    ensures c.dag != dag ==> (Witnessed(deps[dag := edges], saw, c) <==> Witnessed(deps, saw, c))
    ensures c.dag == dag ==> !Witnessed(deps[dag := edges], saw, c)
  {
    hide IsParent;
    NewGraphParents(deps, dag, edges, c);
  }

  lemma NoneAbove(deps: Dependencies, dag: string, edges: Edges, added: Jobs, c: JobRef)
    requires NewGraph(dag, edges, added) && c in added
    ensures c.dag == dag && (Past(added[c]) ==> !HasParent(deps[dag := edges], c))
  {
  }

  lemma NewGraphWinners(jobs: Jobs, dag: string, edges: Edges, added: Jobs, saw: map<JobRef, set<JobRef>>)
    requires NewGraph(dag, edges, added) && (forall r :: r in jobs ==> r.dag != dag)
    requires forall p :: p in saw <==> Won(jobs, p)
    ensures forall p :: p in saw <==> Won(jobs + added, p)
  {
  }

  lemma NewGraphTxHistory(db: Db, dag: string, edges: Edges, added: Jobs, tx: Tx)
    requires TxHistoryOk(db, tx) && TxOk(db.deps, db.jobs, tx)
    requires NewGraph(dag, edges, added) && dag !in db.deps && ForeignKeys(db.deps, db.jobs)
    ensures TxHistoryOk(db.(deps := db.deps[dag := edges], jobs := db.jobs + added), tx)
  {
    hide Past, Safe, IsParent, SawOk;
    var deps' := db.deps[dag := edges];
    forall c: JobRef ensures c.dag != dag ==> (MayRelease(deps', tx, c) <==> MayRelease(db.deps, tx, c))
      ensures c.dag != dag ==> (HasParent(deps', c) <==> HasParent(db.deps, c))
    {
      NewGraphParents(db.deps, dag, edges, c);
    }
    forall c: JobRef | MayRelease(deps', tx, c) ensures c.dag != dag {
      NewGraphParents(db.deps, dag, edges, c);
      assert Ref(tx) in db.jobs;
    }
    hide MayRelease, HasParent, WritesOk;
    assert forall r :: r in db.jobs ==> r.dag != dag;
  }

  lemma FullStep(db: Db, move: Move, db': Db)
    requires FullOk(db) && Next(db, move, db')
    ensures FullOk(db')
  {
    hide FullOk, Apply;
    match move
    case Begin(t, now, program) => BeginFull(db, t, now, program);
    case Start(t) => StartFull(db, t);
    case Change(t, row) => ChangeFull(db, t, row);
    case Finish(t) => FinishFull(db, t);
    case Commit(t) => CommitFull(db, t);
    case Abort(t) => AbortFull(db, t);
    case Insert(spec, at) => InsertFull(db, spec, at);
  }

  lemma InterleavingFull(states: seq<Db>, moves: seq<Move>, i: nat)
    requires IsInterleaving(states, moves) && i <= |moves|
    ensures FullOk(states[i])
  {
    hide Next;
    assert FullOk(EMPTY_DB);
    hide FullOk;
    for j := 0 to i
      invariant FullOk(states[j])
    {
      FullStep(states[j], moves[j], states[j + 1]);
    }
  }

  // ----- Stranded children -----

  ghost predicate AllParentsWon(db: Db, c: JobRef) {
    forall p :: IsParent(db.deps, p, c) ==> Won(db.jobs, p)
  }

  /** Every parent's completion missed some parent. */
  ghost predicate NoneSawAll(deps: Dependencies, saw: map<JobRef, set<JobRef>>, c: JobRef) {
    forall p :: IsParent(deps, p, c) ==> p in saw && !AllParentsIn(deps, saw[p], c)
  }

  /** A child whose parents have all succeeded is still pending exactly when none of their completions saw
      them all. */
  lemma StrandedIff(states: seq<Db>, moves: seq<Move>, i: nat, c: JobRef)
    requires IsInterleaving(states, moves) && i <= |moves|
    requires var db := states[i];
             c in db.jobs && db.jobs[c].state != Cancelled && HasParent(db.deps, c) && AllParentsWon(db, c)
    ensures var db := states[i];
            db.jobs[c].state == Pending <==> NoneSawAll(db.deps, db.saw, c)
  {
    InterleavingFull(states, moves, i);
    var db := states[i];
    hide IsInterleaving, IsParent, DbOk, TxHistoryOk, AllParentsIn, HasParent;
    assert Witnessed(db.deps, db.saw, c) <==> db.jobs[c].state != Pending;
  }

  /** A stranded child has two parents of which neither's completion saw the other succeeded. */
  lemma StrandedByOverlap(states: seq<Db>, moves: seq<Move>, i: nat, c: JobRef) returns (p: JobRef, q: JobRef)
    requires IsInterleaving(states, moves) && i <= |moves|
    requires var db := states[i];
             c in db.jobs && db.jobs[c].state == Pending && HasParent(db.deps, c) && AllParentsWon(db, c)
    ensures var db := states[i];
            && IsParent(db.deps, p, c) && IsParent(db.deps, q, c) && p in db.saw && q in db.saw
            && q !in db.saw[p] && p !in db.saw[q]
  {
    InterleavingFull(states, moves, i);
    StrandedIff(states, moves, i, c);
    var db := states[i];
    hide IsInterleaving, DbOk, TxHistoryOk, HistoryOk, HasParent, IsParent, AllParentsWon;
    p := WidestParent(db, c);
    q :| IsParent(db.deps, q, c) && q !in db.saw[p];
    Incomparable(db, p, q);
  }

  lemma Incomparable(db: Db, p: JobRef, q: JobRef)
    requires HistoryOk(db.deps, db.jobs, db.saw) && p in db.saw && q in db.saw && q !in db.saw[p]
    requires |db.saw[q]| <= |db.saw[p]|
    ensures p !in db.saw[q]
  {
    hide Past, HasParent, Witnessed;
    if p in db.saw[q] {
      assert db.saw[p] <= db.saw[q];
      Smaller(db.saw[p], db.saw[q]);
    }
  }

  lemma Smaller<T>(a: set<T>, b: set<T>)
    requires a <= b && |b| <= |a|
    ensures a == b
  {
    assert |b - a| == |b| - |a|;
  }

  /** The parent whose completion saw most. */
  lemma WidestParent(db: Db, c: JobRef) returns (p: JobRef)
    requires HasParent(db.deps, c) && forall q :: IsParent(db.deps, q, c) ==> q in db.saw
    ensures IsParent(db.deps, p, c) && forall q :: IsParent(db.deps, q, c) ==> |db.saw[q]| <= |db.saw[p]|
  {
    p :| IsParent(db.deps, p, c);
    hide IsParent, HasParent;
    var todo := set q | q in db.saw && IsParent(db.deps, q, c);
    ghost var seen: set<JobRef> := {};
    while todo != {}
      invariant IsParent(db.deps, p, c)
      invariant forall q :: IsParent(db.deps, q, c) ==> q in todo || |db.saw[q]| <= |db.saw[p]|
      decreases todo
    {
      var q :| q in todo;
      if IsParent(db.deps, q, c) && |db.saw[q]| > |db.saw[p]| {
        p := q;
      }
      todo := todo - {q};
    }
  }

  lemma SawStays(db: Db, move: Move, db': Db, c: JobRef, p: JobRef)
    requires FullOk(db) && Next(db, move, db') && c in db.jobs && p in db.saw
    ensures p in db'.saw && db'.saw[p] == db.saw[p]
    ensures forall q :: IsParent(db'.deps, q, c) <==> IsParent(db.deps, q, c)
    ensures c in db'.jobs
  {
    hide Past, HasParent, Witnessed, Safe, ReleaseOk, V.Validation, InitialJobs, LocksOk;
    match move
    case Commit(t) =>
      var tx := db.active[t];
      FullParts(db, t);
      if Completes(tx) {
        NewlyWon(db, tx);
      }
    case _ =>
  }

  /** `c` has the same parents in both states, with the same histories. */
  ghost predicate SamePast(db: Db, db': Db, c: JobRef) {
    && (forall q :: IsParent(db'.deps, q, c) <==> IsParent(db.deps, q, c))
    && forall p :: p in db.saw ==> p in db'.saw && db'.saw[p] == db.saw[p]
  }

  /** A stranded child never becomes ready; only a cancellation of its graph ends its wait. */
  lemma StrandedForever(states: seq<Db>, moves: seq<Move>, i: nat, j: nat, c: JobRef)
    requires IsInterleaving(states, moves) && i <= j <= |moves|
    requires var db := states[i];
             c in db.jobs && db.jobs[c].state == Pending && HasParent(db.deps, c) && AllParentsWon(db, c)
    ensures c in states[j].jobs && (states[j].jobs[c].state == Pending || states[j].jobs[c].state == Cancelled)
  {
    StrandedIff(states, moves, i, c);
    hide Next, FullOk, IsParent, NoneSawAll, HasParent, AllParentsWon, SamePast, AllParentsIn;
    SameAsItself(states[i], c);
    for k := i to j
      invariant c in states[k].jobs && SamePast(states[i], states[k], c)
    {
      InterleavingFull(states, moves, k);
      assert Next(states[k], moves[k], states[k + 1]);
      PastStays(states[i], states[k], moves[k], states[k + 1], c);
    }
    InterleavingFull(states, moves, j);
    StaysStranded(states[i], states[j], c);
  }

  lemma SameAsItself(db: Db, c: JobRef)
    ensures SamePast(db, db, c)
  {
    hide IsParent;
  }

  lemma PastStays(first: Db, db: Db, move: Move, db': Db, c: JobRef)
    requires FullOk(db) && Next(db, move, db') && c in db.jobs && SamePast(first, db, c) && HasParent(first.deps, c)
    requires forall p :: IsParent(first.deps, p, c) ==> p in first.saw
    ensures c in db'.jobs && SamePast(first, db', c)
  {
    hide FullOk, Next, IsParent;
    forall p | p in first.saw ensures p in db'.saw && db'.saw[p] == first.saw[p] {
      SawStays(db, move, db', c, p);
    }
    var w :| IsParent(first.deps, w, c);
    SawStays(db, move, db', c, w);
  }

  lemma PastIsWitnessed(db: Db, c: JobRef)
    requires FullOk(db) && c in db.jobs && HasParent(db.deps, c)
    ensures Witnessed(db.deps, db.saw, c) || db.jobs[c].state == Pending || db.jobs[c].state == Cancelled
  {
    hide DbOk, TxHistoryOk, IsParent, Witnessed, HasParent;
  }

  lemma SameAll(deps: Dependencies, deps': Dependencies, refs: set<JobRef>, c: JobRef)
    requires forall q :: IsParent(deps', q, c) <==> IsParent(deps, q, c)
    ensures AllParentsIn(deps', refs, c) <==> AllParentsIn(deps, refs, c)
    ensures HasParent(deps', c) <==> HasParent(deps, c)
  {
    hide IsParent;
    if w :| IsParent(deps, w, c) {
      assert IsParent(deps', w, c);
    }
    if w :| IsParent(deps', w, c) {
      assert IsParent(deps, w, c);
    }
  }

  lemma StillUnseen(db: Db, db': Db, c: JobRef)
    requires SamePast(db, db', c) && HasParent(db.deps, c) && NoneSawAll(db.deps, db.saw, c)
    ensures HasParent(db'.deps, c) && NoneSawAll(db'.deps, db'.saw, c)
  {
    hide IsParent, AllParentsIn, HasParent;
    SameAll(db.deps, db'.deps, {}, c);
    forall p | IsParent(db'.deps, p, c) ensures p in db'.saw && !AllParentsIn(db'.deps, db'.saw[p], c) {
      assert IsParent(db.deps, p, c);
      SameAll(db.deps, db'.deps, db.saw[p], c);
    }
  }

  lemma NobodyWitnesses(deps: Dependencies, saw: map<JobRef, set<JobRef>>, c: JobRef)
    requires NoneSawAll(deps, saw, c)
    ensures !Witnessed(deps, saw, c)
  {
    hide IsParent, AllParentsIn;
  }

  lemma StaysStranded(db: Db, db': Db, c: JobRef)
    requires FullOk(db') && c in db'.jobs && SamePast(db, db', c)
    requires HasParent(db.deps, c) && NoneSawAll(db.deps, db.saw, c)
    ensures db'.jobs[c].state == Pending || db'.jobs[c].state == Cancelled
  {
    hide FullOk, IsParent, SamePast, HasParent, NoneSawAll, Witnessed;
    StillUnseen(db, db', c);
    NobodyWitnesses(db'.deps, db'.saw, c);
    PastIsWitnessed(db', c);
  }
}
