/** A committed cancellation is final, at any interleaving of statements (src/store.rs, `cancel`). */
module Cancellation {
  import opened Domain
  import opened LeaseMachine
  import opened Sql
  import opened StoreConcurrency
  import V = Validation

  predicate Cancels(tx: Tx) {
    |tx.program| == 1 && tx.program[0].CancelRows?
  }

  /** Once its statement has started, a cancellation has put every row of its graph behind it or still to do. */
  ghost predicate Sweeps(db: Db, tx: Tx) {
    Cancels(tx) && (tx.pc == 1 || (tx.pc == 0 && tx.running)) ==>
      var dag := tx.program[0].dag;
      && dag in db.deps
      && forall r :: r in db.jobs && r.dag == dag ==> (tx.running && r in tx.todo) || Terminal(View(db.jobs, tx)[r])
  }

  ghost predicate SweepInv(db: Db) {
    forall t :: t in db.active ==> Sweeps(db, db.active[t])
  }

  lemma StartSweep(db: Db, tx: Tx)
    requires tx.pc < |tx.program| && FindsGraph(db.deps, tx.program[tx.pc])
    ensures Sweeps(db, Started(db, tx))
  {
    hide Terminal, Winners;
  }

  lemma CancelRow(st: Statement, now: Instant, r: JobRef, job: Job)
    requires st.CancelRows?
    ensures Where(st, now, r, job) <==> r.dag == st.dag && !Terminal(job)
    ensures Terminal(Set(st, now, job))
  {
  }

  lemma ChangeSweep(db: Db, tx: Tx, row: JobRef)
    requires Sweeps(db, tx) && tx.running && tx.pc < |tx.program| && row in View(db.jobs, tx)
    ensures Sweeps(db, Changed(db, tx, row))
  {
    hide Where, Set, Terminal;
    if Cancels(tx) {
      CancelRow(tx.program[0], tx.now, row, View(db.jobs, tx)[row]);
    }
  }

  lemma FinishSweep(db: Db, tx: Tx, tx': Tx)
    requires Sweeps(db, tx) && tx.running && tx.pc < |tx.program|
    requires tx.todo == {} || tx.program[tx.pc].ClaimRow?
    requires tx' == tx.(running := false, todo := {}, pc := tx.pc + 1)
    ensures Sweeps(db, tx')
  {
    hide Terminal;
    assert View(db.jobs, tx') == View(db.jobs, tx);
  }

  /** A commit changes no terminal row and adds none. */
  lemma OtherSweep(db: Db, tx: Tx, db': Db, other: Tx)
    requires Sweeps(db, other) && TxOk(db.deps, db.jobs, tx)
    requires forall r :: r in other.writes ==> r !in tx.writes
    requires db'.jobs == View(db.jobs, tx) && db'.deps == db.deps
    ensures Sweeps(db', other)
  {
    hide Terminal, Safe, ParentsWon;
  }

  lemma InsertSweep(db: Db, spec: DagSpec, at: Instant, tx: Tx)
    requires DbOk(db) && Enabled(db, Insert(spec, at)) && Sweeps(db, tx)
    ensures Sweeps(Apply(db, Insert(spec, at)), tx)
  {
    hide TxOk, Safe, LocksOk, V.Validation, InitialJobs, V.EdgeSet, Terminal;
    InsertedRows(db, spec, at);
  }

  lemma SameTable(db: Db, db': Db, tx: Tx)
    requires Sweeps(db, tx) && db'.deps == db.deps && db'.jobs == db.jobs
    ensures Sweeps(db', tx)
  {
    hide Terminal;
  }

  lemma ReplaceSweep(db: Db, t: nat, tx: Tx)
    requires SweepInv(db) && t in db.active && Sweeps(db, tx)
    ensures SweepInv(db.(active := db.active[t := tx]))
  {
    hide Sweeps;
    var db' := db.(active := db.active[t := tx]);
    forall o | o in db'.active ensures Sweeps(db', db'.active[o]) {
      SameTable(db, db', db'.active[o]);
    }
  }

  lemma CommitSweep(db: Db, t: nat)
    requires DbOk(db) && SweepInv(db) && Enabled(db, Commit(t))
    ensures SweepInv(Apply(db, Commit(t)))
  {
    hide Sweeps, TxOk, Safe, ForeignKeys, View;
    var db' := Apply(db, Commit(t));
    forall o | o in db'.active ensures Sweeps(db', db'.active[o]) {
      assert o in db.active && o != t;
      OtherSweep(db, db.active[t], db', db.active[o]);
    }
  }

  lemma OthersSweep(db: Db, db': Db)
    requires SweepInv(db) && db'.deps == db.deps && db'.jobs == db.jobs
    requires forall t :: t in db'.active ==> Sweeps(db', db'.active[t]) || (t in db.active && db'.active[t] == db.active[t])
    ensures SweepInv(db')
  {
    hide Sweeps;
    forall t | t in db'.active ensures Sweeps(db', db'.active[t]) {
      if t in db.active && db'.active[t] == db.active[t] {
        SameTable(db, db', db.active[t]);
      }
    }
  }

  lemma InsertsSweep(db: Db, spec: DagSpec, at: Instant)
    requires DbOk(db) && SweepInv(db) && Enabled(db, Insert(spec, at))
    ensures SweepInv(Apply(db, Insert(spec, at)))
  {
    hide Sweeps, DbOk, V.Validation, InitialJobs, V.EdgeSet;
    forall t | t in db.active ensures Sweeps(Apply(db, Insert(spec, at)), db.active[t]) {
      InsertSweep(db, spec, at, db.active[t]);
    }
  }

  lemma MoveSweep(db: Db, move: Move, db': Db)
    requires DbOk(db) && SweepInv(db) && Next(db, move, db')
    ensures SweepInv(db')
  {
    hide DbOk, SweepInv, Sweeps, V.Validation, InitialJobs, Changed, Started;
    match move
    case Begin(t, now, program) => BeginSweep(db, t, now, program);
    case Start(t) =>
      StartSweep(db, db.active[t]);
      ReplaceSweep(db, t, Started(db, db.active[t]));
    case Change(t, row) =>
      OpenSweep(db, t);
      ChangeSweep(db, db.active[t], row);
      ReplaceSweep(db, t, Changed(db, db.active[t], row));
    case Finish(t) =>
      OpenSweep(db, t);
      var tx := db.active[t];
      var tx' := tx.(running := false, todo := {}, pc := tx.pc + 1);
      FinishSweep(db, tx, tx');
      ReplaceSweep(db, t, tx');
    case Commit(t) => CommitSweep(db, t);
    case Abort(t) => AbortSweep(db, t);
    case Insert(spec, at) => InsertsSweep(db, spec, at);
  }

  lemma BeginSweep(db: Db, t: nat, now: Instant, program: seq<Statement>)
    requires SweepInv(db) && Enabled(db, Begin(t, now, program))
    ensures SweepInv(Apply(db, Begin(t, now, program)))
  {
    hide SweepInv;
    OthersSweep(db, Apply(db, Begin(t, now, program)));
  }

  lemma AbortSweep(db: Db, t: nat)
    requires SweepInv(db) && Enabled(db, Abort(t))
    ensures SweepInv(Apply(db, Abort(t)))
  {
    hide SweepInv, Sweeps;
    OthersSweep(db, Apply(db, Abort(t)));
  }

  lemma OpenSweep(db: Db, t: nat)
    requires SweepInv(db) && t in db.active
    ensures Sweeps(db, db.active[t])
  {
    hide Sweeps;
  }

  lemma InterleavingSweeps(states: seq<Db>, moves: seq<Move>, i: nat)
    requires IsInterleaving(states, moves) && i <= |moves|
    ensures SweepInv(states[i])
  {
    assert SweepInv(EMPTY_DB);
    hide Next, DbOk, SweepInv;
    for j := 0 to i
      invariant SweepInv(states[j])
    {
      InterleavingOk(states, moves, j);
      assert Next(states[j], moves[j], states[j + 1]);
      MoveSweep(states[j], moves[j], states[j + 1]);
    }
  }

  /** A graph cancelled for good: it exists and all its rows are terminal. */
  ghost predicate Over(db: Db, dag: string) {
    dag in db.deps && forall r :: r in db.jobs && r.dag == dag ==> Terminal(db.jobs[r])
  }

  lemma OverStays(db: Db, move: Move, db': Db, dag: string)
    requires DbOk(db) && Next(db, move, db') && Over(db, dag)
    ensures Over(db', dag)
  {
    hide Safe, LocksOk, Terminal, V.Validation, InitialJobs, V.EdgeSet;
    match move
    case Commit(t) => assert TxOk(db.deps, db.jobs, db.active[t]);
    case Insert(spec, at) => InsertedRows(db, spec, at);
    case _ =>
  }

  lemma CommitEnds(db: Db, t: nat)
    requires Enabled(db, Commit(t)) && Sweeps(db, db.active[t]) && Cancels(db.active[t])
    requires TxOk(db.deps, db.jobs, db.active[t])
    ensures Over(Apply(db, Commit(t)), db.active[t].program[0].dag)
  {
    hide Terminal, Safe, ParentsWon;
  }

  /** Once the cancellation of a graph has committed, every row of the graph is terminal for good, whatever
      the transactions still in flight do. */
  lemma CancelledForGood(states: seq<Db>, moves: seq<Move>, i: nat, j: nat, t: nat, r: JobRef)
    requires IsInterleaving(states, moves) && i < j <= |moves| && moves[i] == Commit(t)
    requires t in states[i].active && Cancels(states[i].active[t])
    requires r in states[j].jobs && r.dag == states[i].active[t].program[0].dag
    ensures Terminal(states[j].jobs[r])
  {
    hide DbOk, Terminal, Sweeps;
    InterleavingSweeps(states, moves, i);
    InterleavingOk(states, moves, i);
    assert Next(states[i], moves[i], states[i + 1]);
    OpenTx(states[i], t);
    CommitEnds(states[i], t);
    hide Next, Over;
    for k := i + 1 to j
      invariant Over(states[k], r.dag)
    {
      InterleavingOk(states, moves, k);
      assert Next(states[k], moves[k], states[k + 1]);
      OverStays(states[k], moves[k], states[k + 1], r.dag);
    }
    OverAt(states[j], r);
  }

  lemma OpenTx(db: Db, t: nat)
    requires DbOk(db) && t in db.active
    ensures TxOk(db.deps, db.jobs, db.active[t])
  {
    hide TxOk, Safe;
  }

  lemma OverAt(db: Db, r: JobRef)
    requires Over(db, r.dag) && r in db.jobs
    ensures Terminal(db.jobs[r])
  {
    hide Terminal;
  }
}
