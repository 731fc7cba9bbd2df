/** What keeps children from being stranded: completions of one graph that do not overlap.

    The condition speaks of open transactions only. It can be met from outside, by completing the jobs of a
    graph one at a time. */
module SerialCompletion {
  import opened Domain
  import opened LeaseMachine
  import opened Sql
  import opened StoreConcurrency
  import opened Stranding
  import V = Validation

  predicate SameGraph(tx: Tx, other: Tx) {
    Completes(tx) && Completes(other) && Ref(tx).dag == Ref(other).dag
  }

  /** No two open completions belong to the same graph. */
  ghost predicate Serial(db: Db) {
    forall t, o :: t in db.active && o in db.active && SameGraph(db.active[t], db.active[o]) ==> t == o
  }

  /** Of two completions of a graph, one saw the other. */
  ghost predicate Chain(saw: map<JobRef, set<JobRef>>) {
    forall p, q :: p in saw && q in saw && p.dag == q.dag ==> q in saw[p] || p in saw[q]
  }

  /** An open completion that has looked saw all that its graph has committed. */
  ghost predicate UpToDate(jobs: Jobs, tx: Tx) {
    HasLooked(tx) ==> forall w :: Won(jobs, w) && w.dag == Ref(tx).dag ==> w in tx.saw
  }

  ghost predicate SerialOk(db: Db) {
    Chain(db.saw) && forall t :: t in db.active ==> UpToDate(db.jobs, db.active[t])
  }

  lemma StartSees(db: Db, tx: Tx)
    requires WritesOk(tx) && TxOk(db.deps, db.jobs, tx) && UpToDate(db.jobs, tx) && !tx.running && tx.pc < |tx.program|
    ensures UpToDate(db.jobs, Started(db, tx))
  {
    hide Rows, Safe, ParentsWon;
  }

  lemma ChangeSees(db: Db, tx: Tx, row: JobRef)
    requires UpToDate(db.jobs, tx) && tx.pc < |tx.program| && row in View(db.jobs, tx)
    ensures UpToDate(db.jobs, Changed(db, tx, row))
  {
    hide Where, Set, Won;
  }

  lemma ReplaceSerial(db: Db, t: nat, tx: Tx)
    requires SerialOk(db) && t in db.active && UpToDate(db.jobs, tx)
    ensures SerialOk(db.(active := db.active[t := tx]))
  {
    hide UpToDate, Chain;
  }

  /** What a commit adds to the winners. */
  lemma NewWinners(db: Db, tx: Tx, w: JobRef)
    requires WritesOk(tx) && TxOk(db.deps, db.jobs, tx) && Won(View(db.jobs, tx), w)
    ensures Won(db.jobs, w) || (Completes(tx) && w == Ref(tx))
  {
    hide Safe, ParentsWon;
  }

  lemma CommitChain(db: Db, tx: Tx)
    requires Chain(db.saw) && UpToDate(db.jobs, tx) && HistoryOk(db.deps, db.jobs, db.saw)
    requires WritesOk(tx) && SawOk(tx, db.saw) && !tx.running && tx.pc == |tx.program|
    ensures Chain(SawAfter(db, tx))
  {
    hide Past, HasParent, Witnessed;
    assert Completes(tx) ==> HasLooked(tx);
  }

  lemma CommitSerial(db: Db, t: nat)
    requires FullOk(db) && Serial(db) && SerialOk(db) && Enabled(db, Commit(t))
    ensures SerialOk(Apply(db, Commit(t)))
  {
    hide DbOk, TxHistoryOk, HistoryOk, V.Validation, View, TxOk, ForeignKeys;
    var tx := db.active[t];
    FullParts(db, t);
    CommitHistoryParts(db, tx);
    CommitChain(db, tx);
    var db' := Apply(db, Commit(t));
    forall o | o in db'.active ensures UpToDate(db'.jobs, db'.active[o]) {
      assert o in db.active && o != t && UpToDate(db.jobs, db.active[o]);
      forall w | HasLooked(db.active[o]) && Won(db'.jobs, w) && w.dag == Ref(db.active[o]).dag
        ensures w in db.active[o].saw
      {
        NewWinners(db, tx, w);
      }
    }
  }

  lemma CommitHistoryParts(db: Db, tx: Tx)
    requires TxHistoryOk(db, tx)
    ensures WritesOk(tx) && SawOk(tx, db.saw)
  {
    hide WritesOk, SawOk, ReleaseOk;
  }

  lemma InsertSerial(db: Db, spec: DagSpec, at: Instant)
    requires FullOk(db) && SerialOk(db) && Enabled(db, Insert(spec, at))
    ensures SerialOk(Apply(db, Insert(spec, at)))
  {
    hide FullOk, V.Validation, InitialJobs, V.EdgeSet, NewGraph, HasLooked, Chain;
    InsertParts(db, spec, at);
    forall w ensures Won(db.jobs + InitialJobs(spec, at), w) ==> Won(db.jobs, w) {
    }
  }

  lemma InsertParts(db: Db, spec: DagSpec, at: Instant)
    requires FullOk(db) && Enabled(db, Insert(spec, at))
    ensures forall r :: r in InitialJobs(spec, at) ==> InitialJobs(spec, at)[r].state != Succeeded
  {
    hide TxHistoryOk, HistoryOk, DbOk, V.Validation, InitialJobs, V.EdgeSet, ForeignKeys;
    InsertedRows(db, spec, at);
  }

  lemma SerialStep(db: Db, move: Move, db': Db)
    requires FullOk(db) && Serial(db) && SerialOk(db) && Next(db, move, db')
    ensures SerialOk(db')
  {
    hide FullOk, Serial, SerialOk, TxOk, V.Validation, InitialJobs, Started, Changed, HistoryOk, ForeignKeys;
    match move
    case Begin(t, now, program) => BeginSerial(db, t, now, program);
    case Start(t) =>
      OpenParts(db, t);
      StartSees(db, db.active[t]);
      ReplaceSerial(db, t, Started(db, db.active[t]));
    case Change(t, row) =>
      OpenParts(db, t);
      ChangeSees(db, db.active[t], row);
      ReplaceSerial(db, t, Changed(db, db.active[t], row));
    case Finish(t) =>
      OpenParts(db, t);
      var tx := db.active[t];
      var tx' := tx.(running := false, todo := {}, pc := tx.pc + 1);
      FinishSees(db.jobs, tx, tx');
      ReplaceSerial(db, t, tx');
    case Commit(t) => CommitSerial(db, t);
    case Abort(t) => AbortSerial(db, t);
    case Insert(spec, at) => InsertSerial(db, spec, at);
  }

  lemma OpenParts(db: Db, t: nat)
    requires FullOk(db) && SerialOk(db) && t in db.active
    ensures UpToDate(db.jobs, db.active[t]) && WritesOk(db.active[t]) && TxOk(db.deps, db.jobs, db.active[t])
  {
    hide DbOk, HistoryOk, UpToDate, WritesOk, TxOk, SawOk, ReleaseOk, ForeignKeys;
    FullParts(db, t);
  }

  lemma FinishSees(jobs: Jobs, tx: Tx, tx': Tx)
    requires WritesOk(tx) && UpToDate(jobs, tx) && tx.running && tx.pc < |tx.program|
    requires tx' == tx.(running := false, todo := {}, pc := tx.pc + 1)
    ensures UpToDate(jobs, tx')
  {
    hide Won;
    assert HasLooked(tx') ==> HasLooked(tx);
  }

  lemma BeginSerial(db: Db, t: nat, now: Instant, program: seq<Statement>)
    requires SerialOk(db) && Enabled(db, Begin(t, now, program))
    ensures SerialOk(Apply(db, Begin(t, now, program)))
  {
    hide Won, Chain;
  }

  lemma AbortSerial(db: Db, t: nat)
    requires SerialOk(db) && Enabled(db, Abort(t))
    ensures SerialOk(Apply(db, Abort(t)))
  {
    hide UpToDate, Chain;
  }

  lemma SerialHistory(states: seq<Db>, moves: seq<Move>, i: nat)
    requires IsInterleaving(states, moves) && i <= |moves| && forall k :: 0 <= k < i ==> Serial(states[k])
    ensures SerialOk(states[i])
  {
    assert SerialOk(EMPTY_DB);
    hide Next, FullOk, Serial, SerialOk;
    for j := 0 to i
      invariant SerialOk(states[j])
    {
      InterleavingFull(states, moves, j);
      assert Next(states[j], moves[j], states[j + 1]);
      SerialStep(states[j], moves[j], states[j + 1]);
    }
  }

  /** While completions of one graph never overlap, no child is left pending once all its parents have
      succeeded. */
  lemma SerialNeverStrands(states: seq<Db>, moves: seq<Move>, i: nat, c: JobRef)
    requires IsInterleaving(states, moves) && i <= |moves| && forall k :: 0 <= k < i ==> Serial(states[k])
    requires var db := states[i]; c in db.jobs && HasParent(db.deps, c) && AllParentsWon(db, c)
    ensures states[i].jobs[c].state != Pending
  {
    SerialHistory(states, moves, i);
    hide IsInterleaving, UpToDate, HasParent, AllParentsWon;
    if states[i].jobs[c].state == Pending {
      var p, q := StrandedByOverlap(states, moves, i, c);
    }
  }
}
