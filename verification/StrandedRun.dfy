/** A run that strands a child: two parents complete at the same time, and neither release statement sees the
    other's uncommitted success (src/store.rs, `complete`). */
module StrandedRun {
  import opened Prelude
  import opened Domain
  import opened Graphs
  import opened LeaseMachine
  import opened Sql
  import opened StoreConcurrency
  import opened Stranding
  import LI = LeaseInvariants
  import V = Validation

  ghost predicate Reachable(db: Db) {
    exists states, moves :: IsInterleaving(states, moves) && states[|moves|] == db
  }

  lemma Extend(db: Db, move: Move, db': Db)
    requires Reachable(db) && Next(db, move, db')
    ensures Reachable(db')
  {
    hide Next;
    var states, moves :| IsInterleaving(states, moves) && states[|moves|] == db;
    var states', moves' := states + [db'], moves + [move];
    forall i | 0 <= i < |moves'| ensures Next(states'[i], moves'[i], states'[i + 1]) {
      if i < |moves| {
        assert Next(states[i], moves[i], states[i + 1]);
      }
    }
    assert IsInterleaving(states', moves') && states'[|moves'|] == db';
  }

  // ----- The graph -----

  const A := JobRef("d", "a")
  const B := JobRef("d", "b")
  const C := JobRef("d", "c")
  const EDGES: seq<Dependency> := [Dependency("a", "c"), Dependency("b", "c")]

  function Plain(id: string): JobSpec {
    JobSpec(id, Checksum, "", 1, 0)
  }

  const JOIN := DagSpec("d", [Plain("a"), Plain("b"), Plain("c")], EDGES)

  lemma JoinIsValid()
    ensures V.WellFormed(JOIN) && V.Validation(JOIN).Ok?
  {
    hide V.Validation, HasCycle;
    JoinEdges();
    JoinIds();
    assert V.WellFormed(JOIN);
    V.AcceptedIff(JOIN);
    JoinHasNoCycle(V.EdgeSet(JOIN));
  }

  lemma JoinEdges()
    ensures V.EdgeSet(JOIN) == {Dependency("a", "c"), Dependency("b", "c")}
  {
    assert EDGES[0] == Dependency("a", "c") && EDGES[1] == Dependency("b", "c");
  }

  lemma JoinIds()
    ensures V.JobIds(JOIN) == {"a", "b", "c"}
    ensures "a" != "b" && "a" != "c" && "b" != "c"
  {
    assert JOIN.jobs[0] == Plain("a") && JOIN.jobs[1] == Plain("b") && JOIN.jobs[2] == Plain("c");
    assert "a"[0] != "b"[0] && "a"[0] != "c"[0] && "b"[0] != "c"[0];
  }

  lemma JoinHasNoCycle(edges: Edges)
    requires edges == {Dependency("a", "c"), Dependency("b", "c")}
    ensures !HasCycle(edges)
  {
    var order := ["a", "b", "c"];
    var nodes := {"a", "b", "c"};
    assert order[0][0] == 'a' && order[1][0] == 'b' && order[2][0] == 'c';
    assert IsTopologicalOrder(nodes, edges, order);
    OrderExcludesCycle(nodes, edges, order);
  }

  // ----- Statements of this run -----

  const NOW: Instant := 0

  function ClaimProgram(token: string): seq<Statement> {
    [ReapRows, ClaimRow("worker", token, 1000)]
  }

  function CompleteProgram(r: JobRef, token: string): seq<Statement> {
    [CompleteRow(r, "worker", token, ""), ReleaseRows(r)]
  }

  function ClaimedBy(job: Job, token: string): Job {
    LeasedTo(job, "worker", token, 1000)
  }

  function Completed(job: Job): Job {
    job.(state := Succeeded, lease := None, result := Some(""))
  }

  lemma NothingExpired(db: Db, tx: Tx)
    requires tx.writes == map[] && tx.now == NOW
    requires forall r :: r in db.jobs && db.jobs[r].lease.Some? ==> db.jobs[r].lease.value.expiresAtMs == 1000
    ensures Rows(ReapRows, tx.now, AllRunning(db.deps), db.deps, View(db.jobs, tx)) == {}
  {
  }

  ghost predicate Claimable(db: Db, r: JobRef) {
    && r in db.jobs && db.jobs[r].state == Ready && db.jobs[r].availableAtMs == NOW
    && r.dag in db.deps && forall e :: e in db.deps[r.dag] ==> e.to != r.job
  }

  lemma ClaimQualifies(db: Db, r: JobRef, token: string)
    requires Claimable(db, r)
    ensures r in Rows(ClaimRow("worker", token, 1000), NOW, AllRunning(db.deps), db.deps, db.jobs)
  {
  }

  /** A claim whose reap finds nothing to do, up to its second statement. */
  lemma ReapedNothing(db: Db, token: string)
    requires Reachable(db) && db.active == map[]
    requires forall o :: o in db.jobs && db.jobs[o].lease.Some? ==> db.jobs[o].lease.value.expiresAtMs == 1000
    ensures Reachable(Only(db, Tx(NOW, ClaimProgram(token), 1, false, {}, map[], {})))
  {
    hide Reachable, Rows, V.Validation, InitialJobs, View;
    var tx0 := Tx(NOW, ClaimProgram(token), 0, false, {}, map[], {});
    var tx1 := tx0.(running := true);
    NothingExpired(db, tx0);
    Extend(db, Begin(0, NOW, ClaimProgram(token)), Only(db, tx0));
    Extend(Only(db, tx0), Start(0), Only(db, tx1));
    Extend(Only(db, tx1), Finish(0), Only(db, tx0.(pc := 1)));
  }

  /** One claim, start to commit, with no other transaction open. */
  lemma ClaimAlone(db: Db, r: JobRef, token: string)
    requires Reachable(db) && db.active == map[] && Claimable(db, r)
    requires forall o :: o in db.jobs && db.jobs[o].lease.Some? ==> db.jobs[o].lease.value.expiresAtMs == 1000
    ensures Reachable(db.(jobs := db.jobs[r := ClaimedBy(db.jobs[r], token)]))
  {
    hide Reachable, LeasedTo, Rows, V.Validation, InitialJobs;
    var tx2 := Tx(NOW, ClaimProgram(token), 1, false, {}, map[], {});
    var todo := Rows(ClaimRow("worker", token, 1000), NOW, AllRunning(db.deps), db.deps, db.jobs);
    var tx3 := tx2.(running := true, todo := todo);
    var tx4 := tx3.(todo := {}, writes := map[r := ClaimedBy(db.jobs[r], token)]);
    var tx5 := tx4.(running := false, pc := 2);
    ReapedNothing(db, token);
    assert View(db.jobs, tx2) == db.jobs;
    ClaimQualifies(db, r, token);
    hide Claimable;
    Extend(Only(db, tx2), Start(0), Only(db, tx3));
    Extend(Only(db, tx3), Change(0, r), Only(db, tx4));
    Extend(Only(db, tx4), Finish(0), Only(db, tx5));
    CommitAlone(db, tx5);
    assert View(db.jobs, tx5) == db.jobs[r := ClaimedBy(db.jobs[r], token)];
  }

  lemma CommitAlone(db: Db, tx: Tx)
    requires Reachable(Only(db, tx)) && db.active == map[] && !tx.running && tx.pc == |tx.program| && !Completes(tx)
    ensures Reachable(db.(jobs := View(db.jobs, tx)))
  {
    hide Reachable, View;
    assert Only(db, tx).active - {0} == map[];
    Extend(Only(db, tx), Commit(0), db.(jobs := View(db.jobs, tx)));
  }

  function Only(db: Db, tx: Tx): Db {
    db.(active := map[0 := tx])
  }

  // ----- Two completions at once -----

  lemma CompleteQualifies(db: Db, r: JobRef, token: string)
    requires r in db.jobs && Holds(db.jobs[r], "worker", token, NOW)
    ensures Rows(CompleteRow(r, "worker", token, ""), NOW, AllRunning(db.deps), db.deps, db.jobs) == {r}
  {
    hide Holds;
  }

  /** Every child of `r` also waits for `other`, which is still leased in what `r`'s transaction sees. */
  lemma ReleaseSeesNothing(db: Db, view: Jobs, r: JobRef, other: JobRef)
    requires other in view && view[other].state == Leased && SharesChildren(db.deps, r, other)
    ensures Rows(ReleaseRows(r), NOW, AllRunning(db.deps), db.deps, view) == {}
  {
    forall c | c in view && c.dag == r.dag && Dependency(r.job, c.job) in db.deps[r.dag]
      ensures !NoUnfinishedParent(db.deps, view, c)
    {
      assert Dependency(other.job, c.job) in db.deps[c.dag];
      assert JobRef(c.dag, other.job) == other;
    }
  }

  function Fresh(r: JobRef, token: string): Tx {
    Tx(NOW, CompleteProgram(r, token), 0, false, {}, map[], {})
  }

  /** After the first statement. */
  function Half(db: Db, r: JobRef, token: string): Tx
    requires r in db.jobs
  {
    Fresh(r, token).(pc := 1, writes := map[r := Completed(db.jobs[r])])
  }

  /** After the release statement, which found nothing to release. */
  ghost function Full(db: Db, r: JobRef, token: string): Tx
    requires r in db.jobs
  {
    Half(db, r, token).(pc := 2, saw := Winners(View(db.jobs, Half(db, r, token))))
  }

  ghost function Put(db: Db, t: nat, tx: Tx): Db {
    db.(active := db.active[t := tx])
  }

  /** The first statement of one completion, while another transaction may hold other rows. */
  lemma FirstHalf(db: Db, t: nat, r: JobRef, token: string)
    requires Reachable(db) && t in db.active && db.active[t] == Fresh(r, token)
    requires HeldWith(db, r, token)
    requires forall o :: o in db.active && o != t ==> r !in db.active[o].writes
    ensures Reachable(Put(db, t, Half(db, r, token)))
  {
    hide Reachable, Rows, Holds, V.Validation, InitialJobs;
    var tx0 := Fresh(r, token);
    var tx1 := tx0.(running := true, todo := {r});
    var tx2 := tx1.(todo := {}, writes := map[r := Completed(db.jobs[r])]);
    CompleteQualifies(db, r, token);
    assert View(db.jobs, tx0) == db.jobs && View(db.jobs, tx1) == db.jobs;
    Extend(db, Start(t), Put(db, t, tx1));
    assert Put(Put(db, t, tx1), t, tx2) == Put(db, t, tx2);
    assert View(db.jobs, tx1)[r] == db.jobs[r];
    assert Changed(Put(db, t, tx1), tx1, r) == tx2 by {
      assert {r} - {r} == {};
    }
    Extend(Put(db, t, tx1), Change(t, r), Put(db, t, tx2));
    assert Put(Put(db, t, tx2), t, Half(db, r, token)) == Put(db, t, Half(db, r, token));
    Extend(Put(db, t, tx2), Finish(t), Put(db, t, Half(db, r, token)));
  }

  lemma SecondHalf(db: Db, t: nat, r: JobRef, token: string, other: JobRef)
    requires r in db.jobs && other in db.jobs && db.jobs[other].state == Leased && SharesChildren(db.deps, r, other)
    requires Reachable(db) && t in db.active && db.active[t] == Half(db, r, token)
    ensures Reachable(Put(db, t, Full(db, r, token)))
  {
    hide Reachable, Rows, Holds, V.Validation, InitialJobs, Winners;
    var tx0 := Half(db, r, token);
    var tx1 := tx0.(running := true, saw := Winners(View(db.jobs, tx0)));
    ReleaseSeesNothing(db, View(db.jobs, tx0), r, other);
    Extend(db, Start(t), Put(db, t, tx1));
    assert Put(Put(db, t, tx1), t, Full(db, r, token)) == Put(db, t, Full(db, r, token));
    Extend(Put(db, t, tx1), Finish(t), Put(db, t, Full(db, r, token)));
  }

  /** The children of `r` wait for `other` too. */
  ghost predicate SharesChildren(deps: Dependencies, r: JobRef, other: JobRef) {
    && r != other && r.dag == other.dag && r.dag in deps
    && forall e :: e in deps[r.dag] && e.from == r.job ==> Dependency(other.job, e.to) in deps[r.dag]
  }

  ghost predicate HeldWith(db: Db, r: JobRef, token: string) {
    r in db.jobs && Holds(db.jobs[r], "worker", token, NOW)
  }

  lemma BothBegun(db: Db, p: JobRef, q: JobRef, tp: string, tq: string)
    requires Reachable(db) && db.active == map[]
    ensures Reachable(db.(active := map[1 := Fresh(p, tp), 2 := Fresh(q, tq)]))
  {
    hide Reachable;
    var s0 := db.(active := map[1 := Fresh(p, tp)]);
    Extend(db, Begin(1, NOW, CompleteProgram(p, tp)), s0);
    Extend(s0, Begin(2, NOW, CompleteProgram(q, tq)), db.(active := map[1 := Fresh(p, tp), 2 := Fresh(q, tq)]));
  }

  /** Both complete statements have run. */
  lemma BothHalves(db: Db, p: JobRef, q: JobRef, tp: string, tq: string)
    requires Reachable(db) && db.active == map[] && p != q && HeldWith(db, p, tp) && HeldWith(db, q, tq)
    ensures Reachable(db.(active := map[1 := Half(db, p, tp), 2 := Half(db, q, tq)]))
  {
    hide Reachable, Holds;
    BothBegun(db, p, q, tp, tq);
    var s1 := db.(active := map[1 := Fresh(p, tp), 2 := Fresh(q, tq)]);
    FirstHalf(s1, 1, p, tp);
    var s2 := Put(s1, 1, Half(db, p, tp));
    FirstHalf(s2, 2, q, tq);
    assert Put(s2, 2, Half(db, q, tq)).active == map[1 := Half(db, p, tp), 2 := Half(db, q, tq)];
  }

  /** Both jobs end succeeded and no other row changes. */
  lemma Overlap(db: Db, p: JobRef, q: JobRef, tp: string, tq: string) returns (end: Db)
    requires Reachable(db) && db.active == map[] && HeldWith(db, p, tp) && HeldWith(db, q, tq)
    requires SharesChildren(db.deps, p, q) && SharesChildren(db.deps, q, p)
    ensures Reachable(end) && end.active == map[] && end.deps == db.deps
    ensures end.jobs == db.jobs[p := Completed(db.jobs[p])][q := Completed(db.jobs[q])]
  {
    hide Reachable, Winners, Next;
    BothHalves(db, p, q, tp, tq);
    var s3 := db.(active := map[1 := Half(db, p, tp), 2 := Half(db, q, tq)]);
    SecondHalf(s3, 1, p, tp, q);
    var s4 := Put(s3, 1, Full(db, p, tp));
    SecondHalf(s4, 2, q, tq, p);
    var s5 := Put(s4, 2, Full(db, q, tq));
    assert s5.active == map[1 := Full(db, p, tp), 2 := Full(db, q, tq)];
    end := CommitBoth(s5, Full(db, p, tp), Full(db, q, tq));
  }

  lemma CommitBoth(db: Db, tx: Tx, other: Tx) returns (end: Db)
    requires Reachable(db) && db.active == map[1 := tx, 2 := other]
    requires !tx.running && tx.pc == |tx.program| && !other.running && other.pc == |other.program|
    ensures Reachable(end) && end.active == map[] && end.deps == db.deps
    ensures end.jobs == db.jobs + tx.writes + other.writes
  {
    hide Reachable;
    var mid := Apply(db, Commit(1));
    Extend(db, Commit(1), mid);
    assert mid.active == map[2 := other];
    end := Apply(mid, Commit(2));
    Extend(mid, Commit(2), end);
    assert end.active == map[];
  }

  // ----- The run -----

  lemma EmptyIsReachable()
    ensures Reachable(EMPTY_DB)
  {
    var none: seq<Move> := [];
    assert IsInterleaving([EMPTY_DB], none) && [EMPTY_DB][|none|] == EMPTY_DB;
  }

  lemma JoinInserted() returns (db: Db)
    ensures Reachable(db) && db.active == map[]
    ensures db.deps == map["d" := {Dependency("a", "c"), Dependency("b", "c")}]
    ensures A in db.jobs && B in db.jobs && C in db.jobs
    ensures db.jobs[A].state == Ready && db.jobs[B].state == Ready && db.jobs[C].state == Pending
    ensures forall r :: r in db.jobs ==> db.jobs[r].lease.None? && db.jobs[r].availableAtMs == NOW
  {
    hide Reachable, V.Validation, InitialJobs;
    EmptyIsReachable();
    JoinIsValid();
    db := Apply(EMPTY_DB, Insert(JOIN, NOW));
    Extend(EMPTY_DB, Insert(JOIN, NOW), db);
    FirstRows(db);
  }

  /** Insert the graph, then claim `a`, then claim `b`. */
  lemma BothLeased() returns (db: Db)
    ensures Reachable(db) && db.active == map[]
    ensures db.deps == map["d" := {Dependency("a", "c"), Dependency("b", "c")}]
    ensures HeldWith(db, A, "token-a") && HeldWith(db, B, "token-b") && C in db.jobs && db.jobs[C].state == Pending
  {
    hide Reachable, LeasedTo, Holds;
    JoinIds();
    var s0 := JoinInserted();
    LeasedRow(s0.jobs[A], "token-a");
    LeasedRow(s0.jobs[B], "token-b");
    ClaimAlone(s0, A, "token-a");
    var s1 := s0.(jobs := s0.jobs[A := ClaimedBy(s0.jobs[A], "token-a")]);
    ClaimAlone(s1, B, "token-b");
    db := s1.(jobs := s1.jobs[B := ClaimedBy(s1.jobs[B], "token-b")]);
  }

  /** "No child is left pending once all its parents have succeeded" fails when statements interleave: this
      state is reachable, with no transaction open. */
  lemma AChildCanBeStranded() returns (db: Db)
    ensures Reachable(db) && db.active == map[]
    ensures C in db.jobs && db.jobs[C].state == Pending && HasParent(db.deps, C) && AllParentsWon(db, C)
  {
    hide Reachable;
    JoinIds();
    db := BothLeased();
    hide Holds;
    db := Overlap(db, A, B, "token-a", "token-b");
    assert IsParent(db.deps, A, C);
  }

  lemma LeasedRow(job: Job, token: string)
    ensures Holds(ClaimedBy(job, token), "worker", token, NOW)
    ensures ClaimedBy(job, token).lease.value.expiresAtMs == 1000
  {
  }

  lemma FirstRows(db: Db)
    requires db.deps == map["d" := V.EdgeSet(JOIN)] && db.jobs == InitialJobs(JOIN, NOW) && V.WellFormed(JOIN)
    ensures db.deps == map["d" := {Dependency("a", "c"), Dependency("b", "c")}]
    ensures A in db.jobs && B in db.jobs && C in db.jobs
    ensures db.jobs[A].state == Ready && db.jobs[B].state == Ready && db.jobs[C].state == Pending
    ensures forall r :: r in db.jobs ==> db.jobs[r].lease.None? && db.jobs[r].availableAtMs == NOW
  {
    JoinEdges();
    JoinIds();
    LI.InitialJobsOk(JOIN, NOW);
    hide InitialJobs, LI.JobOk, V.WellFormed, V.EdgeSet, V.JobIds, JOIN;
    forall r | r in db.jobs ensures db.jobs[r].lease.None? && db.jobs[r].availableAtMs == NOW {
    }
    StateOf(db.jobs[A]);
    StateOf(db.jobs[B]);
    StateOf(db.jobs[C]);
  }

  lemma StateOf(job: Job)
    requires job == InitialJob(JOIN, job.spec, NOW)
    ensures job.state == if job.spec.id == "c" then Pending else Ready
  {
    JoinEdges();
    hide V.EdgeSet;
    if job.spec.id == "c" {
      assert Dependency("a", "c") in V.EdgeSet(JOIN);
    }
  }
}
