/** The store below the level of transactions: the statements of concurrent transactions interleave under
    PostgreSQL's READ COMMITTED isolation (src/store.rs).

    A statement sees the rows committed when it starts and its own transaction's writes, and picks the rows it
    qualifies. It then changes them one by one: it waits for the row's lock, checks the row's own condition
    again on the newest version, and keeps the lock until its transaction ends. The joins are not checked
    again. Transactions may begin, commit and abort at any time. */
module StoreConcurrency {
  import opened Domain
  import opened Graphs
  import opened LeaseMachine
  import opened Sql
  import Backoff
  import LI = LeaseInvariants
  import V = Validation

  /** `todo` holds the rows the running statement still has to change, `saw` the jobs that its release
      statement saw succeeded. */
  datatype Tx = Tx(
    now: Instant,
    program: seq<Statement>,
    pc: nat,
    running: bool,
    todo: set<JobRef>,
    writes: Jobs,
    saw: set<JobRef>)

  /** The committed rows, the open transactions, and for each succeeded job what its release statement saw. */
  datatype Db = Db(deps: Dependencies, jobs: Jobs, active: map<nat, Tx>, saw: map<JobRef, set<JobRef>>)

  const EMPTY_DB := Db(map[], map[], map[], map[])

  /** The statement lists of the transactions. */
  predicate IsProgram(p: seq<Statement>) {
    || p == [ReapRows]
    || (|p| == 1 && (p[0].HeartbeatRow? || p[0].FailRow? || p[0].CancelRows?))
    || (|p| == 2 && p[0] == ReapRows && p[1].ClaimRow?)
    || (|p| == 2 && p[0].CompleteRow? && p[1] == ReleaseRows(p[0].ref))
  }

  predicate Completes(tx: Tx) {
    tx.program != [] && tx.program[0].CompleteRow?
  }

  /** What a transaction sees: committed rows and its own writes. */
  function View(jobs: Jobs, tx: Tx): Jobs {
    jobs + tx.writes
  }

  predicate Won(jobs: Jobs, r: JobRef) {
    r in jobs && jobs[r].state == Succeeded
  }

  ghost function Winners(jobs: Jobs): set<JobRef> {
    set r | r in jobs && jobs[r].state == Succeeded
  }

  /** Claims in cancelled graphs are not excluded here: this only adds interleavings. */
  function AllRunning(deps: Dependencies): Dags {
    map d | d in deps :: RunningDag
  }

  datatype Move =
    | Begin(tx: nat, now: Instant, program: seq<Statement>)
    | Start(tx: nat)
    | Change(tx: nat, row: JobRef)
    | Finish(tx: nat)
    | Commit(tx: nat)
    | Abort(tx: nat)
    | Insert(spec: DagSpec, at: Instant)

  /** A cancellation first updates the row of its graph and gives up when there is none. */
  predicate FindsGraph(deps: Dependencies, st: Statement) {
    st.CancelRows? ==> st.dag in deps
  }

  ghost predicate Enabled(db: Db, move: Move) {
    match move
    case Begin(t, _, program) => t !in db.active && IsProgram(program)
    case Start(t) =>
      && t in db.active && !db.active[t].running && db.active[t].pc < |db.active[t].program|
      && FindsGraph(db.deps, db.active[t].program[db.active[t].pc])
    case Change(t, row) =>
      && t in db.active && db.active[t].running && db.active[t].pc < |db.active[t].program|
      && row in db.active[t].todo && row in View(db.jobs, db.active[t])
      && forall o :: o in db.active && o != t ==> row !in db.active[o].writes
    case Finish(t) =>
      t in db.active &&
      var tx := db.active[t];
      && tx.running && tx.pc < |tx.program|
      && (tx.todo == {} || tx.program[tx.pc].ClaimRow?)
      && (tx.program[tx.pc].CompleteRow? ==> tx.program[tx.pc].ref in tx.writes)
    case Commit(t) => t in db.active && !db.active[t].running && db.active[t].pc == |db.active[t].program|
    case Abort(t) => t in db.active
    case Insert(spec, _) => V.Validation(spec).Ok? && spec.id !in db.deps
  }

  /** The statement takes its snapshot and qualifies its rows. */
  ghost function Started(db: Db, tx: Tx): Tx
    requires tx.pc < |tx.program|
  {
    var st := tx.program[tx.pc];
    var view := View(db.jobs, tx);
    tx.(running := true,
        todo := Rows(st, tx.now, AllRunning(db.deps), db.deps, view),
        saw := if st.ReleaseRows? then Winners(view) else tx.saw)
  }

  /** One row: changed if it still passes on its newest version. A claim changes one row only. */
  ghost function Changed(db: Db, tx: Tx, row: JobRef): Tx
    requires tx.pc < |tx.program| && row in View(db.jobs, tx)
  {
    var st := tx.program[tx.pc];
    var job := View(db.jobs, tx)[row];
    if Where(st, tx.now, row, job) then
      tx.(writes := tx.writes[row := Set(st, tx.now, job)], todo := if st.ClaimRow? then {} else tx.todo - {row})
    else tx.(todo := tx.todo - {row})
  }

  ghost function Apply(db: Db, move: Move): Db
    requires Enabled(db, move)
  {
    match move
    case Begin(t, now, program) => db.(active := db.active[t := Tx(now, program, 0, false, {}, map[], {})])
    case Start(t) => db.(active := db.active[t := Started(db, db.active[t])])
    case Change(t, row) => db.(active := db.active[t := Changed(db, db.active[t], row)])
    case Finish(t) =>
      var tx := db.active[t];
      db.(active := db.active[t := tx.(running := false, todo := {}, pc := tx.pc + 1)])
    case Commit(t) =>
      var tx := db.active[t];
      db.(jobs := View(db.jobs, tx),
          active := db.active - {t},
          saw := if Completes(tx) then db.saw[tx.program[0].ref := tx.saw] else db.saw)
    case Abort(t) => db.(active := db.active - {t})
    case Insert(spec, at) =>
      db.(deps := db.deps[spec.id := V.EdgeSet(spec)], jobs := db.jobs + InitialJobs(spec, at))
  }

  ghost predicate Next(db: Db, move: Move, db': Db) {
    Enabled(db, move) && db' == Apply(db, move)
  }

  /** Any interleaving from the empty database. */
  ghost predicate IsInterleaving(states: seq<Db>, moves: seq<Move>) {
    && |states| == |moves| + 1
    && states[0] == EMPTY_DB
    && forall i :: 0 <= i < |moves| ==> Next(states[i], moves[i], states[i + 1])
  }

  // ----- Safety -----

  /** Past waiting for its parents, and not cancelled. */
  predicate Past(job: Job) {
    job.state != Pending && job.state != Cancelled
  }

  ghost predicate ParentsWon(deps: Dependencies, jobs: Jobs, r: JobRef) {
    r.dag in deps ==> forall e :: e in deps[r.dag] && e.to == r.job ==> Won(jobs, JobRef(r.dag, e.from))
  }

  ghost predicate Safe(deps: Dependencies, jobs: Jobs) {
    forall r :: r in jobs && Past(jobs[r]) ==> ParentsWon(deps, jobs, r)
  }

  /** Edges join rows of their graph, and every row belongs to a graph. */
  ghost predicate ForeignKeys(deps: Dependencies, jobs: Jobs) {
    && (forall r :: r in jobs ==> r.dag in deps)
    && forall d, e :: d in deps && e in deps[d] ==> JobRef(d, e.from) in jobs
  }

  ghost predicate Releasing(tx: Tx) {
    tx.running && tx.pc < |tx.program| && tx.program[tx.pc].ReleaseRows?
  }

  /** A transaction writes only rows that are not terminal, sees no unsafe row, and releases only rows whose
      parents it sees succeeded. */
  ghost predicate TxOk(deps: Dependencies, jobs: Jobs, tx: Tx) {
    && (forall r :: r in tx.writes ==> r in jobs && !Terminal(jobs[r]) && tx.writes[r].state != Pending)
    && tx.todo <= jobs.Keys
    && Safe(deps, View(jobs, tx))
    && (Releasing(tx) ==> forall r :: r in tx.todo ==> ParentsWon(deps, View(jobs, tx), r))
  }

  ghost predicate LocksOk(active: map<nat, Tx>) {
    forall t, o, r :: t in active && o in active && r in active[t].writes && r in active[o].writes ==> t == o
  }

  ghost predicate DbOk(db: Db) {
    && ForeignKeys(db.deps, db.jobs)
    && Safe(db.deps, db.jobs)
    && LocksOk(db.active)
    && forall t :: t in db.active ==> TxOk(db.deps, db.jobs, db.active[t])
  }

  /** A row's own condition never holds of a terminal row, and no statement sets a row pending. */
  lemma WhereIsLive(st: Statement, now: Instant, r: JobRef, job: Job)
    requires Where(st, now, r, job)
    ensures !Terminal(job) && Set(st, now, job).state != Pending
    ensures job.state == Pending && Past(Set(st, now, job)) ==> st.ReleaseRows?
  {
    hide Backoff.SqlBackoff, Holds, LeasedTo;
    HoldsLeased(st, now, r, job);
  }

  lemma HoldsLeased(st: Statement, now: Instant, r: JobRef, job: Job)
    requires Where(st, now, r, job)
    ensures st.HeartbeatRow? || st.CompleteRow? || st.FailRow? ==> job.state == Leased
    ensures st.ClaimRow? ==> LeasedTo(job, st.owner, st.token, now + st.leaseMs).state == Leased
  {
  }

  lemma WonGrows(deps: Dependencies, jobs: Jobs, jobs': Jobs, r: JobRef)
    requires ParentsWon(deps, jobs, r) && forall p :: Won(jobs, p) ==> Won(jobs', p)
    ensures ParentsWon(deps, jobs', r)
  {
  }

  /** Changing one live row keeps a safe view safe. */
  lemma ChangeSafe(deps: Dependencies, view: Jobs, r: JobRef, job: Job)
    requires Safe(deps, view) && r in view && !Terminal(view[r])
    requires Past(job) ==> Past(view[r]) || ParentsWon(deps, view, r)
    ensures Safe(deps, view[r := job])
    ensures forall p :: Won(view, p) ==> Won(view[r := job], p)
  {
    var view' := view[r := job];
    forall c | c in view' && Past(view'[c]) ensures ParentsWon(deps, view', c) {
      WonGrows(deps, view, view', c);
    }
  }

  lemma ChangedOk(db: Db, tx: Tx, row: JobRef)
    requires TxOk(db.deps, db.jobs, tx) && tx.running && tx.pc < |tx.program|
    requires row in tx.todo && row in View(db.jobs, tx)
    ensures TxOk(db.deps, db.jobs, Changed(db, tx, row))
    ensures Changed(db, tx, row).writes.Keys <= tx.writes.Keys + {row}
  {
    hide Where, Set, Safe, Past, ParentsWon, Won;
    var st := tx.program[tx.pc];
    var view := View(db.jobs, tx);
    if Where(st, tx.now, row, view[row]) {
      WhereIsLive(st, tx.now, row, view[row]);
      var job := Set(st, tx.now, view[row]);
      NotCancelled(view[row]);
      PendingOrPast(view[row]);
      ChangeSafe(db.deps, view, row, job);
      var tx' := Changed(db, tx, row);
      assert View(db.jobs, tx') == view[row := job];
      forall r | Releasing(tx') && r in tx'.todo ensures ParentsWon(db.deps, View(db.jobs, tx'), r) {
        WonGrows(db.deps, view, view[row := job], r);
      }
    }
  }

  lemma NotCancelled(job: Job)
    requires !Terminal(job)
    ensures job.state != Cancelled && job.state != Succeeded
  {
  }

  lemma PendingOrPast(job: Job)
    requires job.state != Cancelled
    ensures job.state == Pending || Past(job)
  {
  }

  lemma BeginOk(db: Db, t: nat, now: Instant, program: seq<Statement>)
    requires DbOk(db) && t !in db.active && IsProgram(program)
    ensures DbOk(Apply(db, Begin(t, now, program)))
  {
    hide Safe, ForeignKeys;
    var tx := Tx(now, program, 0, false, {}, map[], {});
    assert View(db.jobs, tx) == db.jobs;
  }

  /** Replacing the state of one transaction, its locks being its own. */
  lemma ReplaceTx(db: Db, t: nat, tx: Tx)
    requires DbOk(db) && t in db.active && TxOk(db.deps, db.jobs, tx)
    requires forall o, r :: o in db.active && o != t && r in db.active[o].writes ==> r !in tx.writes
    ensures DbOk(db.(active := db.active[t := tx]))
  {
    hide Safe, ForeignKeys, TxOk;
  }

  lemma OwnLocks(db: Db, t: nat)
    requires DbOk(db) && t in db.active
    ensures forall o, r :: o in db.active && o != t && r in db.active[o].writes ==> r !in db.active[t].writes
    ensures TxOk(db.deps, db.jobs, db.active[t])
  {
    hide Safe, ForeignKeys, TxOk;
  }

  /** The release statement's anti-join, read on a snapshot with all parent rows. */
  lemma StartOk(db: Db, t: nat)
    requires DbOk(db) && Enabled(db, Start(t))
    ensures DbOk(Apply(db, Start(t)))
  {
    hide DbOk, TxOk, Rows;
    var tx := db.active[t];
    OwnLocks(db, t);
    StartedOk(db, tx);
    ReplaceTx(db, t, Started(db, tx));
  }

  lemma Keys(db: Db)
    requires DbOk(db)
    ensures ForeignKeys(db.deps, db.jobs) && Safe(db.deps, db.jobs)
  {
  }

  lemma StartedOk(db: Db, tx: Tx)
    requires DbOk(db) && TxOk(db.deps, db.jobs, tx) && tx.pc < |tx.program|
    ensures TxOk(db.deps, db.jobs, Started(db, tx))
    ensures Started(db, tx).writes == tx.writes
  {
    hide Safe, DbOk, Won, NoUnfinishedParent;
    var tx' := Started(db, tx);
    Keys(db);
    if Releasing(tx') {
      forall r | r in tx'.todo ensures ParentsWon(db.deps, View(db.jobs, tx'), r) {
        SnapshotParents(db.deps, View(db.jobs, tx), r);
      }
    }
  }

  lemma SnapshotParents(deps: Dependencies, view: Jobs, r: JobRef)
    requires ForeignKeysOf(deps, view) && NoUnfinishedParent(deps, view, r)
    ensures ParentsWon(deps, view, r)
  {
  }

  ghost predicate ForeignKeysOf(deps: Dependencies, view: Jobs) {
    forall d, e :: d in deps && e in deps[d] ==> JobRef(d, e.from) in view
  }

  lemma ChangeOk(db: Db, t: nat, row: JobRef)
    requires DbOk(db) && Enabled(db, Change(t, row))
    ensures DbOk(Apply(db, Change(t, row)))
  {
    hide DbOk, TxOk, Changed, View;
    OwnLocks(db, t);
    ChangedOk(db, db.active[t], row);
    ReplaceTx(db, t, Changed(db, db.active[t], row));
  }

  lemma FinishOk(db: Db, t: nat)
    requires DbOk(db) && Enabled(db, Finish(t))
    ensures DbOk(Apply(db, Finish(t)))
  {
    hide DbOk, Safe;
    OwnLocks(db, t);
    var tx := db.active[t];
    var tx' := tx.(running := false, todo := {}, pc := tx.pc + 1);
    assert View(db.jobs, tx') == View(db.jobs, tx);
    ReplaceTx(db, t, tx');
  }

  lemma AbortOk(db: Db, t: nat)
    requires DbOk(db) && t in db.active
    ensures DbOk(Apply(db, Abort(t)))
  {
    hide Safe, ForeignKeys, TxOk;
  }

  lemma CommitOk(db: Db, t: nat)
    requires DbOk(db) && Enabled(db, Commit(t))
    ensures DbOk(Apply(db, Commit(t)))
  {
    hide TxOk, Safe, ForeignKeys, View;
    var tx := db.active[t];
    var db' := Apply(db, Commit(t));
    OwnLocks(db, t);
    CommittedRows(db, tx);
    forall o | o in db'.active ensures TxOk(db'.deps, db'.jobs, db'.active[o]) {
      assert o in db.active && o != t;
      OtherTxOk(db.deps, db.jobs, tx, db.active[o]);
    }
  }

  lemma CommittedRows(db: Db, tx: Tx)
    requires ForeignKeys(db.deps, db.jobs) && TxOk(db.deps, db.jobs, tx)
    ensures ForeignKeys(db.deps, View(db.jobs, tx)) && Safe(db.deps, View(db.jobs, tx))
    ensures View(db.jobs, tx).Keys == db.jobs.Keys
  {
    hide Safe, ParentsWon;
  }

  /** A commit does not disturb the transactions still open: what they saw won stays won. */
  lemma OtherTxOk(deps: Dependencies, jobs: Jobs, tx: Tx, other: Tx)
    requires TxOk(deps, jobs, tx) && TxOk(deps, jobs, other) && forall r :: r in other.writes ==> r !in tx.writes
    ensures TxOk(deps, View(jobs, tx), other)
  {
    hide ParentsWon, Past;
    var jobs' := View(jobs, tx);
    forall r | Won(View(jobs, other), r) || Won(jobs', r) ensures Won(View(jobs', other), r) {
    }
    forall c | c in View(jobs', other) && Past(View(jobs', other)[c]) ensures ParentsWon(deps, View(jobs', other), c) {
      if c in other.writes {
        assert ParentsWon(deps, View(jobs, other), c);
        WonGrows(deps, View(jobs, other), View(jobs', other), c);
      } else {
        assert ParentsWon(deps, jobs', c);
        WonGrows(deps, jobs', View(jobs', other), c);
      }
    }
    forall r | Releasing(other) && r in other.todo ensures ParentsWon(deps, View(jobs', other), r) {
      WonGrows(deps, View(jobs, other), View(jobs', other), r);
    }
  }

  lemma InsertOk(db: Db, spec: DagSpec, at: Instant)
    requires DbOk(db) && Enabled(db, Insert(spec, at))
    ensures DbOk(Apply(db, Insert(spec, at)))
  {
    hide TxOk, Safe, V.Validation, InitialJobs, V.EdgeSet, LI.JobOk, NewGraph, View;
    var db' := Apply(db, Insert(spec, at));
    InsertedRows(db, spec, at);
    forall o | o in db'.active ensures TxOk(db'.deps, db'.jobs, db'.active[o]) {
      NewGraphTx(db.deps, db.jobs, spec.id, V.EdgeSet(spec), InitialJobs(spec, at), db.active[o]);
    }
    NewGraphRows(db.deps, db.jobs, spec.id, V.EdgeSet(spec), InitialJobs(spec, at));
  }

  lemma NewGraphRows(deps: Dependencies, jobs: Jobs, dag: string, edges: Edges, added: Jobs)
    requires Safe(deps, jobs) && ForeignKeys(deps, jobs) && NewGraph(dag, edges, added) && dag !in deps
    ensures Safe(deps[dag := edges], jobs + added)
  {
    hide Safe, NewGraph;
    assert jobs + map[] == jobs && jobs + added + map[] == jobs + added;
    NewGraphSafe(deps, jobs, dag, edges, added, map[]);
  }

  /** The rows and edges of a graph that joins. */
  ghost predicate NewGraph(dag: string, edges: Edges, added: Jobs) {
    && (forall r :: r in added ==> r.dag == dag && (added[r].state == Ready || added[r].state == Pending))
    && (forall r :: r in added && added[r].state == Ready ==> forall e :: e in edges ==> e.to != r.job)
    && forall e :: e in edges ==> JobRef(dag, e.from) in added
  }

  lemma InsertedRows(db: Db, spec: DagSpec, at: Instant)
    requires DbOk(db) && Enabled(db, Insert(spec, at))
    ensures NewGraph(spec.id, V.EdgeSet(spec), InitialJobs(spec, at))
    ensures ForeignKeys(db.deps[spec.id := V.EdgeSet(spec)], db.jobs + InitialJobs(spec, at))
  {
    hide V.Validation, InitialJobs, LI.JobOk, Safe, TxOk, LocksOk, HasCycle;
    V.AcceptedIff(spec);
    LI.InitialJobsOk(spec, at);
    V.EndpointsOfWellFormed(spec);
    hide V.WellFormed;
    var added := InitialJobs(spec, at);
    forall r | r in added && added[r].state == Ready ensures forall e :: e in V.EdgeSet(spec) ==> e.to != r.job {
    }
  }

  lemma NewGraphSafe(deps: Dependencies, jobs: Jobs, dag: string, edges: Edges, added: Jobs, writes: Jobs)
    requires Safe(deps, jobs + writes) && NewGraph(dag, edges, added) && dag !in deps
    requires (forall r :: r in jobs ==> r.dag in deps) && writes.Keys <= jobs.Keys
    ensures Safe(deps[dag := edges], jobs + added + writes)
    ensures forall r: JobRef :: r.dag in deps && ParentsWon(deps, jobs + writes, r) ==>
              ParentsWon(deps[dag := edges], jobs + added + writes, r)
  {
    var before, after := jobs + writes, jobs + added + writes;
    forall r | r in before ensures r in after && after[r] == before[r] && r.dag in deps {
    }
    forall r: JobRef | r.dag in deps && ParentsWon(deps, before, r) ensures ParentsWon(deps[dag := edges], after, r) {
    }
    hide ParentsWon;
    forall r | r in after && Past(after[r]) ensures ParentsWon(deps[dag := edges], after, r) {
      if r in before {
        assert ParentsWon(deps, before, r);
      } else {
        NoParents(deps[dag := edges], after, r);
      }
    }
  }

  lemma NoParents(deps: Dependencies, jobs: Jobs, r: JobRef)
    requires r.dag in deps ==> forall e :: e in deps[r.dag] ==> e.to != r.job
    ensures ParentsWon(deps, jobs, r)
  {
  }

  lemma NewGraphTx(deps: Dependencies, jobs: Jobs, dag: string, edges: Edges, added: Jobs, tx: Tx)
    requires TxOk(deps, jobs, tx) && NewGraph(dag, edges, added) && dag !in deps && ForeignKeys(deps, jobs)
    ensures TxOk(deps[dag := edges], jobs + added, tx)
  {
    hide Safe, ParentsWon;
    NewGraphSafe(deps, jobs, dag, edges, added, tx.writes);
  }

  /** Every move keeps the invariant. */
  lemma MoveOk(db: Db, move: Move)
    requires DbOk(db) && Enabled(db, move)
    ensures DbOk(Apply(db, move))
  {
    hide DbOk, Apply;
    match move
    case Begin(t, now, program) => BeginOk(db, t, now, program);
    case Start(t) => StartOk(db, t);
    case Change(t, row) => ChangeOk(db, t, row);
    case Finish(t) => FinishOk(db, t);
    case Commit(t) => CommitOk(db, t);
    case Abort(t) => AbortOk(db, t);
    case Insert(spec, at) => InsertOk(db, spec, at);
  }

  lemma NextOk(db: Db, move: Move, db': Db)
    requires DbOk(db) && Next(db, move, db')
    ensures DbOk(db')
  {
    hide DbOk, Apply;
    MoveOk(db, move);
  }

  lemma InterleavingOk(states: seq<Db>, moves: seq<Move>, i: nat)
    requires IsInterleaving(states, moves) && i <= |moves|
    ensures DbOk(states[i])
  {
    hide Next;
    assert DbOk(EMPTY_DB);
    hide DbOk;
    for j := 0 to i
      invariant DbOk(states[j])
    {
      NextOk(states[j], moves[j], states[j + 1]);
    }
  }

  /** In every committed state of every interleaving, a job that is ready, waiting for a retry, leased,
      succeeded or dead-lettered has only succeeded parents. */
  lemma StatementLevelSafety(states: seq<Db>, moves: seq<Move>, i: nat, r: JobRef, e: Dependency)
    requires IsInterleaving(states, moves) && i <= |moves|
    requires r in states[i].jobs && r.dag in states[i].deps && e in states[i].deps[r.dag] && e.to == r.job
    requires states[i].jobs[r].state != Pending && states[i].jobs[r].state != Cancelled
    ensures Won(states[i].jobs, JobRef(r.dag, e.from))
  {
    hide Next, TxOk, LocksOk, ForeignKeys;
    InterleavingOk(states, moves, i);
    assert ParentsWon(states[i].deps, states[i].jobs, r);
  }

  lemma MoveFreezes(db: Db, move: Move, db': Db, r: JobRef)
    requires DbOk(db) && Next(db, move, db') && r in db.jobs && Terminal(db.jobs[r])
    ensures r in db'.jobs && db'.jobs[r] == db.jobs[r]
  {
    hide Safe, LocksOk, Terminal, V.Validation;
    match move
    case Commit(t) => assert TxOk(db.deps, db.jobs, db.active[t]);
    case Insert(spec, at) => NewRowsElsewhere(db, spec, at);
    case _ =>
  }

  lemma NewRowsElsewhere(db: Db, spec: DagSpec, at: Instant)
    requires DbOk(db) && Enabled(db, Insert(spec, at))
    ensures InitialJobs(spec, at).Keys !! db.jobs.Keys
  {
    hide TxOk, Safe, V.Validation, InitialJobs, V.EdgeSet, LI.JobOk;
    V.AcceptedIff(spec);
    LI.InitialJobsOk(spec, at);
  }

  /** A row once terminal is never changed again, whatever the transactions still in flight do. */
  lemma TerminalRowsFrozen(states: seq<Db>, moves: seq<Move>, i: nat, j: nat, r: JobRef)
    requires IsInterleaving(states, moves) && i <= j <= |moves|
    requires r in states[i].jobs && Terminal(states[i].jobs[r])
    ensures r in states[j].jobs && states[j].jobs[r] == states[i].jobs[r]
  {
    hide Next, DbOk, Terminal;
    for k := i to j
      invariant r in states[k].jobs && states[k].jobs[r] == states[i].jobs[r]
    {
      InterleavingOk(states, moves, k);
      assert Next(states[k], moves[k], states[k + 1]);
      MoveFreezes(states[k], moves[k], states[k + 1], r);
    }
  }
}
