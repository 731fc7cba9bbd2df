/** Short runs behind remarks of the documentation: a heartbeat may shorten a lease, and the log of a
    dead-lettered or cancelled job may end with a claim. */
module Witnesses {
  import opened Prelude
  import opened Domain
  import opened Backoff
  import opened LeaseMachine
  import opened EventLog
  import opened Sql
  import opened Agreement
  import LI = LeaseInvariants
  import T = StoreModel

  const ONLY := JobRef("older", "older")
  const WAITING := Waiter(OLDER, 1)
  const HELD := LeasedTo(WAITING, "worker", "token", 1001)

  // ----- The scheduler -----

  /** A run and one more call. */
  lemma ExtendRun(states: seq<System>, calls: seq<Call>, replies: seq<Reply>, call: Call)
    returns (states': seq<System>, calls': seq<Call>, replies': seq<Reply>)
    requires IsRun(DEFAULT_CONFIG, states, calls, replies)
    ensures IsRun(DEFAULT_CONFIG, states', calls', replies') && calls' == calls + [call]
    ensures states' == states + [Step(DEFAULT_CONFIG, states[|calls|], call).0]
    ensures replies' == replies + [Step(DEFAULT_CONFIG, states[|calls|], call).1]
  {
    hide Step, IsEmpty;
    var s := states[|calls|];
    var (s', reply) := Step(DEFAULT_CONFIG, s, call);
    states', calls', replies' := states + [s'], calls + [call], replies + [reply];
    assert StepIs(DEFAULT_CONFIG, s, call, s', reply);
    hide StepIs;
    forall i | 0 <= i < |calls'| ensures StepIs(DEFAULT_CONFIG, states'[i], calls'[i], states'[i + 1], replies'[i]) {
      if i < |calls| {
        assert StepIs(DEFAULT_CONFIG, states[i], calls[i], states[i + 1], replies[i]);
      }
    }
  }

  /** A run of the scheduler that ends with one job, waiting. */
  lemma OneWaiting() returns (states: seq<System>, calls: seq<Call>, replies: seq<Reply>)
    ensures IsRun(DEFAULT_CONFIG, states, calls, replies) && |calls| == 1
    ensures states[1] == System(map["older" := {}], map[ONLY := WAITING], {}, 0)
  {
    hide StepIs, IndexSize;
    var s0 := System(map[], map[], {}, 0);
    FewWaiting(s0, ONLY);
    var s1, _ := SubmitOne(s0, T.NO_ROWS, "older", 0, 1);
    states, calls, replies := [s0, s1], [SubmitCall(OLDER, 1)], [SubmitReply(Ok(()))];
  }

  lemma ClaimOnly(s: System, now: I64, leaseMs: I64)
    requires s.jobs.Keys == {ONLY} && Waiting(s.jobs[ONLY]) && s.jobs[ONLY].availableAtMs <= now && s.sequence < U64_MAX
    ensures var token := Token("older", "older", s.sequence + 1);
            && Take(s, "worker", now, leaseMs).1.Some?
            && Take(s, "worker", now, leaseMs).1.value.leaseToken == token
            && Take(s, "worker", now, leaseMs).1.value.leaseExpiresAtMs == SatAdd(now, leaseMs)
            && Take(s, "worker", now, leaseMs).0.dags == s.dags
            && Take(s, "worker", now, leaseMs).0.jobs ==
               s.jobs[ONLY := LeasedTo(s.jobs[ONLY], "worker", token, SatAdd(now, leaseMs))]
  {
    hide KeyLe, Token;
    var key := KeyOf(ONLY, s.jobs[ONLY]);
    assert key in Eligible(s.jobs, now);
    LI.EligibleRef(s.jobs, now, LeastKey(Eligible(s.jobs, now)));
  }

  lemma NothingToReap(s: System, now: I64)
    requires forall r :: r in s.jobs ==> s.jobs[r].state != Leased
    ensures Reap(DEFAULT_CONFIG, s, now).0 == s
  {
    hide Retried;
    assert ReapedJobs(DEFAULT_CONFIG, s.jobs, now) == s.jobs;
  }

  lemma ClaimStep(s: System)
    requires s == System(map["older" := {}], map[ONLY := WAITING], {}, 0)
    ensures var (s', reply) := Step(DEFAULT_CONFIG, s, ClaimCall("worker", 1, 1_000));
            && reply.ClaimReply? && reply.claimed.Ok? && reply.claimed.value.Some?
            && reply.claimed.value.value.leaseToken == Token("older", "older", 1)
            && reply.claimed.value.value.leaseExpiresAtMs == 1_001
            && "older" in s'.dags && ONLY in s'.jobs
            && s'.jobs[ONLY] == LeasedTo(WAITING, "worker", Token("older", "older", 1), 1_001)
  {
    ClaimOnly(s, 1, 1_000);
    NothingToReap(s, 1);
    hide Take, Reap, Token;
  }

  lemma HeartbeatStep(s: System, token: string)
    requires "older" in s.dags && ONLY in s.jobs && s.jobs[ONLY] == LeasedTo(WAITING, "worker", token, 1_001)
    ensures Step(DEFAULT_CONFIG, s, HeartbeatCall(ONLY, "worker", token, 1, 1)).1 == HeartbeatReply(Ok(2))
  {
  }

  /** A run in which a heartbeat is accepted and leaves the lease a shorter time than the claim gave it. */
  lemma HeartbeatCanShorten() returns (states: seq<System>, calls: seq<Call>, replies: seq<Reply>)
    ensures IsRun(DEFAULT_CONFIG, states, calls, replies) && |calls| == 3
    ensures replies[1].ClaimReply? && replies[1].claimed.Ok? && replies[1].claimed.value.Some?
    ensures calls[2].HeartbeatCall? && calls[2].token == replies[1].claimed.value.value.leaseToken
    ensures replies[2].HeartbeatReply? && replies[2].extended.Ok?
    ensures replies[2].extended.value < replies[1].claimed.value.value.leaseExpiresAtMs
  {
    hide Step, IsEmpty, StepIs, Token;
    states, calls, replies := OneWaiting();
    ClaimStep(states[1]);
    states, calls, replies := ExtendRun(states, calls, replies, ClaimCall("worker", 1, 1_000));
    var token := Token("older", "older", 1);
    HeartbeatStep(states[2], token);
    states, calls, replies := ExtendRun(states, calls, replies, HeartbeatCall(ONLY, "worker", token, 1, 1));
  }

  // ----- The store -----

  /** A run and one more transaction. */
  lemma ExtendStoreRun(
    states: seq<T.Tables>, calls: seq<T.StoreCall>, replies: seq<T.StoreReply>, call: T.StoreCall)
    returns (states': seq<T.Tables>, calls': seq<T.StoreCall>, replies': seq<T.StoreReply>)
    requires T.IsStoreRun(states, calls, replies) && T.FreshToken(states[|calls|], call)
    ensures T.IsStoreRun(states', calls', replies') && calls' == calls + [call]
    ensures states' == states + [T.Step(states[|calls|], call).0]
  {
    hide T.Step, T.FreshToken;
    var t := states[|calls|];
    var (t', reply) := T.Step(t, call);
    states', calls', replies' := states + [t'], calls + [call], replies + [reply];
    assert T.StepIs(t, call, t', reply);
    hide T.StepIs;
    forall i | 0 <= i < |calls'|
      ensures T.FreshToken(states'[i], calls'[i]) && T.StepIs(states'[i], calls'[i], states'[i + 1], replies'[i])
    {
      if i < |calls| {
        assert T.FreshToken(states[i], calls[i]) && T.StepIs(states[i], calls[i], states[i + 1], replies[i]);
      }
    }
  }

  ghost predicate HoldsOnly(t: T.Tables) {
    && t.jobs == map[ONLY := HELD] && "older" in t.dags
    && t.events == [Event(ONLY, ClaimEvent, 1, "worker")]
  }

  /** A run of the store that ends with one job, leased under "token" until 1001. */
  lemma OneHeld() returns (states: seq<T.Tables>, calls: seq<T.StoreCall>, replies: seq<T.StoreReply>)
    ensures T.IsStoreRun(states, calls, replies) && |calls| == 2 && HoldsOnly(states[2])
  {
    SubmitTables();
    states, calls, replies := [T.NO_ROWS], [], [];
    hide T.Step, T.StepIs;
    states, calls, replies := ExtendStoreRun(states, calls, replies, T.SubmitTx(OLDER, 1));
    ClaimTables(states[1]);
    states, calls, replies := ExtendStoreRun(states, calls, replies, T.ClaimTx("worker", 1, 1_000, "token"));
  }

  lemma SubmitTables()
    ensures var t' := T.Step(T.NO_ROWS, T.SubmitTx(OLDER, 1)).0;
            t'.jobs == map[ONLY := WAITING] && "older" in t'.dags && t'.events == [] && t'.issued == {}
  {
    StoreTakesOne(T.NO_ROWS, "older", 0, 1);
    hide T.Submit;
  }

  lemma ClaimTables(t: T.Tables)
    requires t.jobs == map[ONLY := WAITING] && "older" in t.dags && t.events == []
    ensures HoldsOnly(T.Step(t, T.ClaimTx("worker", 1, 1_000, "token")).0)
  {
    hide SqlRetried, QueueLe;
    assert T.Reaped(t.jobs, 1) == t.jobs;
    OnlyQueued(t.jobs);
    hide T.Queue, T.Reaped;
  }

  lemma OnlyQueued(jobs: Jobs)
    requires jobs == map[ONLY := WAITING]
    ensures T.Queue(jobs, 1) == {QueueKeyOf(ONLY, WAITING)}
  {
    var key := QueueKeyOf(ONLY, WAITING);
    assert ONLY in jobs && jobs[ONLY] == WAITING;
    forall k ensures k in T.Queue(jobs, 1) <==> k == key {
    }
  }

  lemma EndTables(t: T.Tables)
    requires HoldsOnly(t)
    ensures var t' := T.Step(t, T.ReapTx(2_000)).0;
            t'.events == t.events && ONLY in t'.jobs && t'.jobs[ONLY].state == DeadLettered
    ensures var t' := T.Step(t, T.CancelTx("older")).0;
            t'.events == t.events && ONLY in t'.jobs && t'.jobs[ONLY].state == Cancelled
  {
    assert ONLY in t.jobs && t.jobs[ONLY] == HELD;
  }

  /** Runs in which a reaped job is dead-lettered, and a cancelled one is cancelled, with a claim as the last
      event of its log. */
  lemma LogsCanEndWithClaims()
    returns (
      reaped: seq<T.Tables>, calls: seq<T.StoreCall>, replies: seq<T.StoreReply>,
      cancelled: seq<T.Tables>, calls2: seq<T.StoreCall>, replies2: seq<T.StoreReply>)
    ensures T.IsStoreRun(reaped, calls, replies) && |calls| == 3
    ensures ONLY in reaped[3].jobs && reaped[3].jobs[ONLY].state == DeadLettered
    ensures LogOf(reaped[3].events, ONLY) == [Event(ONLY, ClaimEvent, 1, "worker")]
    ensures T.IsStoreRun(cancelled, calls2, replies2) && |calls2| == 3
    ensures ONLY in cancelled[3].jobs && cancelled[3].jobs[ONLY].state == Cancelled
    ensures LogOf(cancelled[3].events, ONLY) == [Event(ONLY, ClaimEvent, 1, "worker")]
  {
    reaped, calls, replies := OneHeld();
    hide T.Step, T.StepIs;
    var claimed := Event(ONLY, ClaimEvent, 1, "worker");
    EndTables(reaped[2]);
    LogAppend([], claimed, ONLY);
    assert [] + [claimed] == [claimed] && LogOf([], ONLY) == [];
    hide LogOf;
    cancelled, calls2, replies2 := ExtendStoreRun(reaped, calls, replies, T.CancelTx("older"));
    reaped, calls, replies := ExtendStoreRun(reaped, calls, replies, T.ReapTx(2_000));
  }
}
