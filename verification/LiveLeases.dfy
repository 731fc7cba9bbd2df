/** A claim never takes over a lease that is still live, at any interleaving of statements
    (src/store.rs, `claim` with its reap). */
module LiveLeases {
  import opened Domain
  import opened LeaseMachine
  import opened Sql
  import opened StoreConcurrency
  import Backoff
  import LI = LeaseInvariants
  import V = Validation

  predicate IsClaim(program: seq<Statement>) {
    |program| == 2 && program[0] == ReapRows && program[1].ClaimRow?
  }

  /** The table's check constraint: a lease exists exactly on leased rows. */
  predicate Shaped(job: Job) {
    job.lease.Some? <==> job.state == Leased
  }

  ghost predicate AllShaped(jobs: Jobs) {
    forall r :: r in jobs ==> Shaped(jobs[r])
  }

  /** What a claim at `now` may make of a committed row: an overdue lease is taken off and the row put out of
      this claim's reach, or a row without a lease is leased beyond `now`. */
  predicate ClaimWrite(now: Instant, job: Job, job': Job) {
    || (&& Expired(job, now) && job'.lease.None?
        && (job'.state == DeadLettered || (job'.state == RetryWait && job'.availableAtMs > now)))
    || (job.lease.None? && job'.state == Leased && job'.lease.Some? && job'.lease.value.expiresAtMs > now)
  }

  ghost predicate TxRows(jobs: Jobs, tx: Tx) {
    && AllShaped(tx.writes)
    && IsProgram(tx.program) && tx.pc <= |tx.program|
    && (IsClaim(tx.program) ==> forall r :: r in tx.writes ==> r in jobs && ClaimWrite(tx.now, jobs[r], tx.writes[r]))
  }

  ghost predicate RowsInv(db: Db) {
    AllShaped(db.jobs) && forall t :: t in db.active ==> TxRows(db.jobs, db.active[t])
  }

  lemma SetShaped(st: Statement, now: Instant, r: JobRef, job: Job)
    requires Where(st, now, r, job) && Shaped(job)
    ensures Shaped(Set(st, now, job))
  {
    hide Backoff.SqlBackoff;
  }

  /** A claim's statements on a row it has not written, and the row conditions after it has. */
  lemma ClaimStatement(st: Statement, now: Instant, r: JobRef, job: Job)
    requires st.ReapRows? || st.ClaimRow?
    ensures Where(st, now, r, job) && Shaped(job) ==> ClaimWrite(now, job, Set(st, now, job))
    ensures forall before :: ClaimWrite(now, before, job) ==> !Where(st, now, r, job)
  {
    RetryLater(job, now);
    hide SqlRetried;
  }

  lemma RetryLater(job: Job, now: Instant)
    ensures SqlRetried(job, now).lease.None?
    ensures SqlRetried(job, now).state == DeadLettered ||
            (SqlRetried(job, now).state == RetryWait && SqlRetried(job, now).availableAtMs > now)
  {
    Positive(job.attempts);
    hide Backoff.SqlBackoff;
  }

  lemma Positive(attempts: nat)
    ensures Backoff.SqlBackoff(attempts) > 0
  {
  }

  lemma ChangeRows(db: Db, tx: Tx, row: JobRef)
    requires AllShaped(db.jobs) && TxRows(db.jobs, tx) && tx.pc < |tx.program| && row in View(db.jobs, tx)
    requires row in db.jobs
    ensures TxRows(db.jobs, Changed(db, tx, row))
  {
    hide Where, Set, Shaped, ClaimWrite;
    var st := tx.program[tx.pc];
    var job := View(db.jobs, tx)[row];
    if Where(st, tx.now, row, job) {
      SetShaped(st, tx.now, row, job);
      if IsClaim(tx.program) {
        ClaimStatement(st, tx.now, row, job);
        assert row !in tx.writes;
      }
    }
  }

  lemma ReplaceRows(db: Db, t: nat, tx: Tx)
    requires RowsInv(db) && t in db.active && TxRows(db.jobs, tx)
    ensures RowsInv(db.(active := db.active[t := tx]))
  {
    hide AllShaped, TxRows;
  }

  lemma CommitShaped(jobs: Jobs, tx: Tx)
    requires AllShaped(jobs) && TxRows(jobs, tx)
    ensures AllShaped(View(jobs, tx))
  {
    hide Shaped, ClaimWrite;
  }

  lemma OtherRows(jobs: Jobs, tx: Tx, other: Tx)
    requires TxRows(jobs, other) && forall r :: r in other.writes ==> r !in tx.writes
    ensures TxRows(View(jobs, tx), other)
  {
    hide Shaped, ClaimWrite;
  }

  lemma CommitInv(db: Db, t: nat)
    requires DbOk(db) && RowsInv(db) && Enabled(db, Commit(t))
    ensures RowsInv(Apply(db, Commit(t)))
  {
    hide TxRows, AllShaped, TxOk, Safe, ForeignKeys, View;
    var db' := Apply(db, Commit(t));
    CommitShaped(db.jobs, db.active[t]);
    forall o | o in db'.active ensures TxRows(db'.jobs, db'.active[o]) {
      assert o in db.active && o != t;
      OtherRows(db.jobs, db.active[t], db.active[o]);
    }
  }

  lemma InsertInv(db: Db, spec: DagSpec, at: Instant)
    requires DbOk(db) && RowsInv(db) && Enabled(db, Insert(spec, at))
    ensures RowsInv(Apply(db, Insert(spec, at)))
  {
    hide DbOk, V.Validation, V.WellFormed, InitialJobs, LI.JobOk, ClaimWrite;
    NewRowsElsewhere(db, spec, at);
    V.AcceptedIff(spec);
    LI.InitialJobsOk(spec, at);
  }

  lemma BeginInv(db: Db, t: nat, now: Instant, program: seq<Statement>)
    requires RowsInv(db) && Enabled(db, Begin(t, now, program))
    ensures RowsInv(Apply(db, Begin(t, now, program)))
  {
    hide Shaped, ClaimWrite, IsClaim;
  }

  lemma MoveInv(db: Db, move: Move, db': Db)
    requires DbOk(db) && RowsInv(db) && Next(db, move, db')
    ensures RowsInv(db')
  {
    hide RowsInv, V.Validation, InitialJobs, Changed, Rows, Winners, Safe, LocksOk;
    match move
    case Begin(t, now, program) => BeginInv(db, t, now, program);
    case Start(t) =>
      OpenRows(db, t);
      SameRows(db.jobs, db.active[t], Started(db, db.active[t]));
      ReplaceRows(db, t, Started(db, db.active[t]));
    case Change(t, row) =>
      OpenRows(db, t);
      assert TxOk(db.deps, db.jobs, db.active[t]);
      ChangeRows(db, db.active[t], row);
      ReplaceRows(db, t, Changed(db, db.active[t], row));
    case Finish(t) =>
      OpenRows(db, t);
      var tx := db.active[t];
      var tx' := tx.(running := false, todo := {}, pc := tx.pc + 1);
      SameRows(db.jobs, tx, tx');
      ReplaceRows(db, t, tx');
    case Commit(t) => CommitInv(db, t);
    case Abort(t) => AbortInv(db, t);
    case Insert(spec, at) => InsertInv(db, spec, at);
  }

  lemma OpenRows(db: Db, t: nat)
    requires RowsInv(db) && t in db.active
    ensures AllShaped(db.jobs) && TxRows(db.jobs, db.active[t])
  {
    hide AllShaped, TxRows;
  }

  lemma SameRows(jobs: Jobs, tx: Tx, tx': Tx)
    requires TxRows(jobs, tx) && tx'.writes == tx.writes && tx'.program == tx.program && tx'.now == tx.now
    requires tx'.pc <= |tx.program|
    ensures TxRows(jobs, tx')
  {
    hide AllShaped, ClaimWrite;
  }

  lemma AbortInv(db: Db, t: nat)
    requires RowsInv(db) && Enabled(db, Abort(t))
    ensures RowsInv(Apply(db, Abort(t)))
  {
    hide AllShaped, TxRows;
  }

  lemma InterleavingRows(states: seq<Db>, moves: seq<Move>, i: nat)
    requires IsInterleaving(states, moves) && i <= |moves|
    ensures RowsInv(states[i])
  {
    assert RowsInv(EMPTY_DB);
    hide Next, DbOk, RowsInv;
    for j := 0 to i
      invariant RowsInv(states[j])
    {
      InterleavingOk(states, moves, j);
      assert Next(states[j], moves[j], states[j + 1]);
      MoveInv(states[j], moves[j], states[j + 1]);
    }
  }

  /** When a claim commits, a row that was leased is either as it was or has lost a lease that was overdue at
      the claim's time; it is never leased to the claimant. */
  lemma NeverStolen(states: seq<Db>, moves: seq<Move>, i: nat, t: nat, r: JobRef)
    requires IsInterleaving(states, moves) && i < |moves| && moves[i] == Commit(t)
    requires t in states[i].active && IsClaim(states[i].active[t].program)
    requires r in states[i].jobs && states[i].jobs[r].lease.Some?
    ensures r in states[i + 1].jobs
    ensures || states[i + 1].jobs[r] == states[i].jobs[r]
            || (states[i + 1].jobs[r].lease.None?
                && states[i].jobs[r].lease.value.expiresAtMs <= states[i].active[t].now)
  {
    InterleavingRows(states, moves, i);
    assert Next(states[i], moves[i], states[i + 1]);
    hide IsInterleaving, Next, IsClaim;
    CommitKeeps(states[i], moves[i], states[i + 1], t);
    OpenRows(states[i], t);
  }

  lemma CommitKeeps(db: Db, move: Move, db': Db, t: nat)
    requires Next(db, move, db') && move == Commit(t) && t in db.active
    ensures db'.jobs == View(db.jobs, db.active[t])
  {
    hide View;
  }
}
