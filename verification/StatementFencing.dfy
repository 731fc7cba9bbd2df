/** Fencing below the level of transactions: in every interleaving of statements a lease token is on at most
    one row, and once its lease has ended no transaction that presents it commits (src/store.rs).

    Lease tokens are random there; here every claim begins with a token that no earlier claim began with. */
module StatementFencing {
  import opened Domain
  import opened LeaseMachine
  import opened Sql
  import opened StoreConcurrency
  import Backoff
  import LI = LeaseInvariants
  import T = StoreModel
  import V = Validation

  // ----- Tokens -----

  predicate ClaimsWith(program: seq<Statement>, token: string) {
    |program| == 2 && program[1].ClaimRow? && program[1].token == token
  }

  /** The token a move brings into play. */
  ghost function IssuedBy(move: Move): set<string> {
    if move.Begin? && |move.program| == 2 && move.program[1].ClaimRow? then {move.program[1].token} else {}
  }

  ghost function Issued(moves: seq<Move>): set<string> {
    if moves == [] then {} else Issued(moves[..|moves| - 1]) + IssuedBy(moves[|moves| - 1])
  }

  ghost predicate TokensFresh(moves: seq<Move>) {
    forall i :: 0 <= i < |moves| ==> Issued(moves[..i]) !! IssuedBy(moves[i])
  }

  /** The compare-and-set statements. */
  predicate Guarded(st: Statement) {
    st.HeartbeatRow? || st.CompleteRow? || st.FailRow?
  }

  /** The transaction has passed its compare-and-set with `token`. */
  predicate Presents(tx: Tx, token: string) {
    tx.program != [] && Guarded(tx.program[0]) && tx.program[0].token == token && tx.program[0].ref in tx.writes
  }

  predicate Accepts(db: Db, move: Move, token: string) {
    move.Commit? && move.tx in db.active && Presents(db.active[move.tx], token)
  }

  /** An accepted completion or failure. */
  predicate Outcome(db: Db, move: Move, token: string) {
    Accepts(db, move, token) && !db.active[move.tx].program[0].HeartbeatRow?
  }

  // ----- The invariant -----

  /** Committed tokens were issued, and no two rows carry the same one. */
  ghost predicate CommittedOk(jobs: Jobs, issued: set<string>) {
    && (forall r, token :: T.HasToken(jobs, r, token) ==> token in issued)
    && forall r1, r2, token :: T.HasToken(jobs, r1, token) && T.HasToken(jobs, r2, token) ==> r1 == r2
  }

  predicate MayStillClaim(tx: Tx) {
    tx.pc == 0 || (tx.pc == 1 && (!tx.running || tx.todo != {}))
  }

  /** A claim's token is on no committed row, and on at most one row it has written. */
  ghost predicate ClaimOk(jobs: Jobs, issued: set<string>, tx: Tx) {
    forall token :: ClaimsWith(tx.program, token) ==>
      && token in issued
      && (forall r :: !T.HasToken(jobs, r, token))
      && (MayStillClaim(tx) ==> forall r :: !T.HasToken(tx.writes, r, token))
      && forall r1, r2 :: T.HasToken(tx.writes, r1, token) && T.HasToken(tx.writes, r2, token) ==> r1 == r2
  }

  /** Written rows carry the claim's own token or the one committed there. */
  ghost predicate WrittenOk(jobs: Jobs, tx: Tx) {
    forall r, token :: T.HasToken(tx.writes, r, token) ==> ClaimsWith(tx.program, token) || T.HasToken(jobs, r, token)
  }

  /** A passed compare-and-set found its token committed; an outcome has taken it off. */
  ghost predicate GuardOk(jobs: Jobs, tx: Tx) {
    tx.program != [] && Guarded(tx.program[0]) ==>
      var st := tx.program[0];
      && (st.CompleteRow? && tx.pc >= 1 ==> st.ref in tx.writes)
      && (st.ref in tx.writes ==>
            && T.HasToken(jobs, st.ref, st.token)
            && (!st.HeartbeatRow? ==> tx.writes[st.ref].lease.None?))
  }

  ghost predicate TxLeaseOk(jobs: Jobs, issued: set<string>, tx: Tx) {
    && IsProgram(tx.program) && tx.pc <= |tx.program|
    && ClaimOk(jobs, issued, tx) && WrittenOk(jobs, tx) && GuardOk(jobs, tx)
  }

  ghost predicate ClaimsApart(active: map<nat, Tx>) {
    forall t, o, token ::
      t in active && o in active && ClaimsWith(active[t].program, token) && ClaimsWith(active[o].program, token) ==> t == o
  }

  ghost predicate LeaseInv(db: Db, issued: set<string>) {
    && CommittedOk(db.jobs, issued)
    && ClaimsApart(db.active)
    && forall t :: t in db.active ==> TxLeaseOk(db.jobs, issued, db.active[t])
  }

  // ----- One row -----

  /** Where a changed row's token comes from. */
  lemma TokenAfterSet(st: Statement, now: Instant, r: JobRef, job: Job)
    requires Where(st, now, r, job)
    ensures var job' := Set(st, now, job);
            && (job'.lease.Some? ==>
                  || (st.ClaimRow? && job'.lease.value.token == st.token)
                  || (job.lease.Some? && job'.lease.value.token == job.lease.value.token))
            && (Guarded(st) ==> r == st.ref && job.lease.Some? && job.lease.value.token == st.token)
            && (st.CompleteRow? || st.FailRow? || st.ReapRows? ==> job'.lease.None?)
            && (st.ReleaseRows? ==> job'.lease == job.lease)
  {
    hide Backoff.SqlBackoff;
  }

  lemma ViewToken(jobs: Jobs, tx: Tx, r: JobRef, token: string)
    requires WrittenOk(jobs, tx) && T.HasToken(View(jobs, tx), r, token)
    ensures ClaimsWith(tx.program, token) || T.HasToken(jobs, r, token)
  {
    if r in tx.writes {
      assert T.HasToken(tx.writes, r, token);
    }
  }

  lemma ChangeLeases(db: Db, issued: set<string>, tx: Tx, row: JobRef)
    requires TxLeaseOk(db.jobs, issued, tx) && tx.running && tx.pc < |tx.program| && row in tx.todo
    requires row in View(db.jobs, tx)
    ensures TxLeaseOk(db.jobs, issued, Changed(db, tx, row))
  {
    hide Where, Set, T.HasToken, WrittenOk, GuardOk, ClaimOk, View;
    var st := tx.program[tx.pc];
    var job := View(db.jobs, tx)[row];
    var tx' := Changed(db, tx, row);
    if Where(st, tx.now, row, job) {
      TokenAfterSet(st, tx.now, row, job);
      WriteWritten(db.jobs, tx, row, job, tx');
      WriteGuard(db.jobs, tx, row, job, tx');
      WriteClaim(db.jobs, issued, tx, row, job, tx');
    } else {
      SkipLeases(db.jobs, issued, tx, row, tx');
    }
  }

  lemma SkipLeases(jobs: Jobs, issued: set<string>, tx: Tx, row: JobRef, tx': Tx)
    requires TxLeaseOk(jobs, issued, tx) && tx' == tx.(todo := tx.todo - {row}) && row in tx.todo && tx.running
    ensures TxLeaseOk(jobs, issued, tx')
  {
    hide T.HasToken;
    assert MayStillClaim(tx') ==> MayStillClaim(tx);
  }

  /** What changing one row does to a transaction. */
  ghost predicate Wrote(tx: Tx, row: JobRef, job: Job, tx': Tx)
    requires tx.pc < |tx.program|
  {
    var st := tx.program[tx.pc];
    && tx'.program == tx.program && tx'.pc == tx.pc && tx'.running == tx.running
    && tx'.todo == (if st.ClaimRow? then {} else tx.todo - {row})
    && tx'.writes == tx.writes[row := Set(st, tx.now, job)]
    && Where(st, tx.now, row, job)
  }

  lemma WriteWritten(jobs: Jobs, tx: Tx, row: JobRef, job: Job, tx': Tx)
    requires WrittenOk(jobs, tx) && IsProgram(tx.program) && tx.pc < |tx.program| && Wrote(tx, row, job, tx')
    requires row in View(jobs, tx) && job == View(jobs, tx)[row]
    ensures WrittenOk(jobs, tx')
  {
    hide Where, Set, View;
    var st := tx.program[tx.pc];
    TokenAfterSet(st, tx.now, row, job);
    forall r, token | T.HasToken(tx'.writes, r, token)
      ensures ClaimsWith(tx'.program, token) || T.HasToken(jobs, r, token)
    {
      if r == row {
        if !(st.ClaimRow? && st.token == token) {
          assert T.HasToken(View(jobs, tx), row, token);
          ViewToken(jobs, tx, row, token);
        }
      } else {
        assert T.HasToken(tx.writes, r, token);
      }
    }
  }

  lemma WriteGuard(jobs: Jobs, tx: Tx, row: JobRef, job: Job, tx': Tx)
    requires WrittenOk(jobs, tx) && GuardOk(jobs, tx) && IsProgram(tx.program) && tx.pc < |tx.program|
    requires Wrote(tx, row, job, tx') && row in View(jobs, tx) && job == View(jobs, tx)[row]
    ensures GuardOk(jobs, tx')
  {
    hide Where, Set, WrittenOk;
    var st := tx.program[tx.pc];
    TokenAfterSet(st, tx.now, row, job);
    if Guarded(tx.program[0]) && row == tx.program[0].ref {
      if tx.pc == 0 {
        ViewToken(jobs, tx, row, st.token);
      } else {
        assert row in tx.writes && job == tx.writes[row];
      }
    }
  }

  lemma WriteClaim(jobs: Jobs, issued: set<string>, tx: Tx, row: JobRef, job: Job, tx': Tx)
    requires ClaimOk(jobs, issued, tx) && WrittenOk(jobs, tx) && IsProgram(tx.program) && tx.pc < |tx.program|
    requires Wrote(tx, row, job, tx') && row in View(jobs, tx) && job == View(jobs, tx)[row] && row in tx.todo
    requires tx.running
    ensures ClaimOk(jobs, issued, tx')
  {
    hide Where, Set, WrittenOk;
    var st := tx.program[tx.pc];
    TokenAfterSet(st, tx.now, row, job);
    forall token, r | ClaimsWith(tx.program, token) && T.HasToken(tx'.writes, r, token)
      ensures r == row && st.ClaimRow?
    {
      assert MayStillClaim(tx);
      assert r != row ==> T.HasToken(tx.writes, r, token);
    }
  }

  // ----- Moves -----

  lemma InvParts(db: Db, issued: set<string>, t: nat)
    requires LeaseInv(db, issued) && t in db.active
    ensures TxLeaseOk(db.jobs, issued, db.active[t]) && CommittedOk(db.jobs, issued)
  {
    hide TxLeaseOk, CommittedOk;
  }

  lemma ReplaceLeases(db: Db, issued: set<string>, t: nat, tx: Tx)
    requires LeaseInv(db, issued) && t in db.active
    requires tx.program == db.active[t].program && TxLeaseOk(db.jobs, issued, tx)
    ensures LeaseInv(db.(active := db.active[t := tx]), issued)
  {
    hide TxLeaseOk, CommittedOk, ClaimsWith;
  }

  lemma BeginLeases(db: Db, issued: set<string>, t: nat, now: Instant, program: seq<Statement>)
    requires LeaseInv(db, issued) && t !in db.active && IsProgram(program)
    requires issued !! IssuedBy(Begin(t, now, program))
    ensures LeaseInv(Apply(db, Begin(t, now, program)), issued + IssuedBy(Begin(t, now, program)))
  {
    hide TxLeaseOk;
    var move := Begin(t, now, program);
    var db', issued' := Apply(db, move), issued + IssuedBy(move);
    forall o | o in db'.active ensures TxLeaseOk(db'.jobs, issued', db'.active[o]) {
      if o == t {
        FirstLeases(db.jobs, issued, move, db'.active[t]);
      } else {
        MoreIssued(db.jobs, issued, issued', db.active[o]);
      }
    }
    forall o, token | o in db.active && ClaimsWith(db.active[o].program, token) ensures token in issued {
      ClaimIssued(db.jobs, issued, db.active[o], token);
    }
  }

  lemma ClaimIssued(jobs: Jobs, issued: set<string>, tx: Tx, token: string)
    requires TxLeaseOk(jobs, issued, tx) && ClaimsWith(tx.program, token)
    ensures token in issued && forall r :: !T.HasToken(jobs, r, token)
  {
  }

  lemma FirstLeases(jobs: Jobs, issued: set<string>, move: Move, tx: Tx)
    requires CommittedOk(jobs, issued) && move.Begin? && issued !! IssuedBy(move)
    requires tx.program == move.program && IsProgram(tx.program) && tx.pc == 0 && tx.writes == map[]
    ensures TxLeaseOk(jobs, issued + IssuedBy(move), tx)
  {
    forall token, r | ClaimsWith(tx.program, token) ensures !T.HasToken(jobs, r, token) {
      assert token in IssuedBy(move);
    }
  }

  lemma MoreIssued(jobs: Jobs, issued: set<string>, issued': set<string>, tx: Tx)
    requires TxLeaseOk(jobs, issued, tx) && issued <= issued'
    ensures TxLeaseOk(jobs, issued', tx)
  {
    hide T.HasToken, ClaimsWith;
  }

  lemma StartLeases(jobs: Jobs, issued: set<string>, tx: Tx, tx': Tx)
    requires TxLeaseOk(jobs, issued, tx) && !tx.running && tx.pc < |tx.program|
    requires tx' == tx.(running := true, todo := tx'.todo, saw := tx'.saw)
    ensures TxLeaseOk(jobs, issued, tx')
  {
    hide T.HasToken;
  }

  lemma FinishLeases(jobs: Jobs, issued: set<string>, tx: Tx, tx': Tx)
    requires TxLeaseOk(jobs, issued, tx) && tx.running && tx.pc < |tx.program|
    requires tx' == tx.(running := false, todo := {}, pc := tx.pc + 1)
    requires tx.program[tx.pc].CompleteRow? ==> tx.program[tx.pc].ref in tx.writes
    ensures TxLeaseOk(jobs, issued, tx')
  {
    hide T.HasToken;
  }

  lemma CommitRows(jobs: Jobs, issued: set<string>, tx: Tx)
    requires CommittedOk(jobs, issued) && TxLeaseOk(jobs, issued, tx)
    ensures CommittedOk(View(jobs, tx), issued)
  {
    forall r, token | T.HasToken(View(jobs, tx), r, token)
      ensures token in issued
      ensures (ClaimsWith(tx.program, token) && T.HasToken(tx.writes, r, token)) ||
              (!ClaimsWith(tx.program, token) && T.HasToken(jobs, r, token))
    {
      CommittedToken(jobs, issued, tx, r, token);
    }
    hide T.HasToken, View;
  }

  /** Where a row of the view has its token from. */
  lemma CommittedToken(jobs: Jobs, issued: set<string>, tx: Tx, r: JobRef, token: string)
    requires CommittedOk(jobs, issued) && TxLeaseOk(jobs, issued, tx) && T.HasToken(View(jobs, tx), r, token)
    ensures token in issued
    ensures if ClaimsWith(tx.program, token) then T.HasToken(tx.writes, r, token) else T.HasToken(jobs, r, token)
  {
    ViewToken(jobs, tx, r, token);
    assert r !in tx.writes ==> T.HasToken(jobs, r, token);
  }

  /** A commit takes away no row that another transaction has written, and adds no token it relies on. */
  lemma OtherLeases(jobs: Jobs, issued: set<string>, tx: Tx, other: Tx)
    requires CommittedOk(jobs, issued) && TxLeaseOk(jobs, issued, tx) && TxLeaseOk(jobs, issued, other)
    requires forall r :: r in other.writes ==> r !in tx.writes
    requires forall token :: !(ClaimsWith(tx.program, token) && ClaimsWith(other.program, token))
    ensures TxLeaseOk(View(jobs, tx), issued, other)
  {
    var jobs' := View(jobs, tx);
    forall token, r | ClaimsWith(other.program, token) ensures !T.HasToken(jobs', r, token) {
      if T.HasToken(jobs', r, token) {
        CommittedToken(jobs, issued, tx, r, token);
      }
    }
    forall r, token | r in other.writes && T.HasToken(jobs, r, token) ensures T.HasToken(jobs', r, token) {
    }
    assert WrittenOk(jobs', other) by {
      forall r, token | T.HasToken(other.writes, r, token)
        ensures ClaimsWith(other.program, token) || T.HasToken(jobs', r, token)
      {
        assert r in other.writes;
      }
    }
    hide T.HasToken, View, WrittenOk;
  }

  lemma CommitLeases(db: Db, issued: set<string>, t: nat)
    requires DbOk(db) && LeaseInv(db, issued) && Enabled(db, Commit(t))
    ensures LeaseInv(Apply(db, Commit(t)), issued)
  {
    hide TxLeaseOk, CommittedOk, TxOk, Safe, ForeignKeys, View, ClaimsWith;
    var tx := db.active[t];
    var db' := Apply(db, Commit(t));
    InvParts(db, issued, t);
    CommitRows(db.jobs, issued, tx);
    forall o | o in db'.active ensures TxLeaseOk(db'.jobs, issued, db'.active[o]) {
      assert o in db.active && o != t;
      InvParts(db, issued, o);
      OtherLeases(db.jobs, issued, tx, db.active[o]);
    }
  }

  lemma InsertLeases(db: Db, issued: set<string>, spec: DagSpec, at: Instant)
    requires DbOk(db) && LeaseInv(db, issued) && Enabled(db, Insert(spec, at))
    ensures LeaseInv(Apply(db, Insert(spec, at)), issued)
  {
    hide DbOk, V.Validation, V.WellFormed, InitialJobs, TxLeaseOk, LI.JobOk, Enabled;
    NewRowsElsewhere(db, spec, at);
    assert V.Validation(spec).Ok? by { InsertIsValid(db, spec, at); }
    V.AcceptedIff(spec);
    LI.InitialJobsOk(spec, at);
    var added := InitialJobs(spec, at);
    forall r, token ensures T.HasToken(db.jobs + added, r, token) <==> T.HasToken(db.jobs, r, token) {
    }
    forall o | o in db.active ensures TxLeaseOk(db.jobs + added, issued, db.active[o]) {
      SameTokens(db.jobs, db.jobs + added, issued, db.active[o]);
    }
  }

  lemma InsertIsValid(db: Db, spec: DagSpec, at: Instant)
    requires Enabled(db, Insert(spec, at))
    ensures V.Validation(spec).Ok?
  {
    hide V.Validation;
  }

  lemma SameTokens(jobs: Jobs, jobs': Jobs, issued: set<string>, tx: Tx)
    requires TxLeaseOk(jobs, issued, tx)
    requires forall r, token :: T.HasToken(jobs', r, token) <==> T.HasToken(jobs, r, token)
    ensures TxLeaseOk(jobs', issued, tx)
  {
    hide T.HasToken, ClaimsWith;
  }

  lemma MoveLeases(db: Db, issued: set<string>, move: Move, db': Db)
    requires DbOk(db) && LeaseInv(db, issued) && Next(db, move, db') && issued !! IssuedBy(move)
    ensures LeaseInv(db', issued + IssuedBy(move))
  {
    hide DbOk, LeaseInv, TxLeaseOk, V.Validation, InitialJobs, Changed, Rows, Winners;
    assert !move.Begin? ==> issued + IssuedBy(move) == issued;
    match move
    case Begin(t, now, program) => BeginLeases(db, issued, t, now, program);
    case Start(t) =>
      InvParts(db, issued, t);
      StartLeases(db.jobs, issued, db.active[t], Started(db, db.active[t]));
      ReplaceLeases(db, issued, t, Started(db, db.active[t]));
    case Change(t, row) =>
      InvParts(db, issued, t);
      ChangeLeases(db, issued, db.active[t], row);
      SameProgram(db, db.active[t], row);
      ReplaceLeases(db, issued, t, Changed(db, db.active[t], row));
    case Finish(t) =>
      InvParts(db, issued, t);
      var tx := db.active[t];
      var tx' := tx.(running := false, todo := {}, pc := tx.pc + 1);
      FinishLeases(db.jobs, issued, tx, tx');
      ReplaceLeases(db, issued, t, tx');
    case Commit(t) => CommitLeases(db, issued, t);
    case Abort(t) => AbortLeases(db, issued, t);
    case Insert(spec, at) => InsertLeases(db, issued, spec, at);
  }

  lemma SameProgram(db: Db, tx: Tx, row: JobRef)
    requires tx.pc < |tx.program| && row in View(db.jobs, tx)
    ensures Changed(db, tx, row).program == tx.program
  {
    hide Where, Set;
  }

  lemma AbortLeases(db: Db, issued: set<string>, t: nat)
    requires LeaseInv(db, issued) && t in db.active
    ensures LeaseInv(Apply(db, Abort(t)), issued)
  {
    hide TxLeaseOk, CommittedOk, ClaimsWith;
  }

  lemma InterleavingLeases(states: seq<Db>, moves: seq<Move>, i: nat)
    requires IsInterleaving(states, moves) && TokensFresh(moves) && i <= |moves|
    ensures LeaseInv(states[i], Issued(moves[..i]))
  {
    hide Next, IssuedBy;
    assert LeaseInv(EMPTY_DB, {});
    hide LeaseInv, DbOk;
    assert moves[..0] == [];
    for j := 0 to i
      invariant LeaseInv(states[j], Issued(moves[..j]))
    {
      InterleavingOk(states, moves, j);
      MoveLeases(states[j], Issued(moves[..j]), moves[j], states[j + 1]);
      assert moves[..j + 1][..j] == moves[..j];
    }
  }

  // ----- Fencing -----

  /** An issued token that no committed row carries and no open claim may still write. */
  ghost predicate Retired(db: Db, issued: set<string>, token: string) {
    && token in issued
    && (forall r :: !T.HasToken(db.jobs, r, token))
    && forall t :: t in db.active ==> !ClaimsWith(db.active[t].program, token)
  }

  lemma RetiredRejects(db: Db, issued: set<string>, move: Move, token: string)
    requires LeaseInv(db, issued) && Retired(db, issued, token)
    ensures !Accepts(db, move, token)
  {
    hide ClaimOk, WrittenOk, CommittedOk, T.HasToken;
    if move.Commit? && move.tx in db.active {
      assert GuardOk(db.jobs, db.active[move.tx]);
    }
  }

  lemma SettledTokens(db: Db, issued: set<string>, move: Move, db': Db, r: JobRef, token: string)
    requires DbOk(db) && LeaseInv(db, issued) && Next(db, move, db') && T.HasToken(db'.jobs, r, token)
    ensures T.HasToken(db.jobs, r, token) ||
            (move.Commit? && move.tx in db.active && ClaimsWith(db.active[move.tx].program, token))
  {
    hide DbOk, ClaimOk, GuardOk, CommittedOk, V.Validation, InitialJobs, Changed, Started, V.WellFormed, LI.JobOk;
    match move
    case Commit(t) =>
      InvParts(db, issued, t);
      ViewToken(db.jobs, db.active[t], r, token);
    case Insert(spec, at) =>
      V.AcceptedIff(spec);
      LI.InitialJobsOk(spec, at);
    case _ =>
  }

  lemma SettledClaims(db: Db, move: Move, db': Db, t: nat, token: string)
    requires Next(db, move, db') && t in db'.active && ClaimsWith(db'.active[t].program, token)
    ensures (t in db.active && ClaimsWith(db.active[t].program, token)) || token in IssuedBy(move)
  {
    hide V.Validation, InitialJobs, Rows, Winners, Where, Set;
  }

  lemma RetiredStays(db: Db, issued: set<string>, move: Move, db': Db, token: string)
    requires DbOk(db) && LeaseInv(db, issued) && Next(db, move, db') && issued !! IssuedBy(move)
    requires Retired(db, issued, token)
    ensures Retired(db', issued + IssuedBy(move), token)
  {
    hide DbOk, LeaseInv, Next, T.HasToken, ClaimsWith, IssuedBy;
    forall r ensures !T.HasToken(db'.jobs, r, token) {
      if T.HasToken(db'.jobs, r, token) {
        SettledTokens(db, issued, move, db', r, token);
      }
    }
    forall t | t in db'.active ensures !ClaimsWith(db'.active[t].program, token) {
      if ClaimsWith(db'.active[t].program, token) {
        SettledClaims(db, move, db', t, token);
      }
    }
  }

  lemma HeldApart(db: Db, issued: set<string>, r: JobRef, token: string)
    requires LeaseInv(db, issued) && T.HasToken(db.jobs, r, token)
    ensures token in issued
    ensures forall t :: t in db.active ==> !ClaimsWith(db.active[t].program, token)
    ensures forall c :: T.HasToken(db.jobs, c, token) ==> c == r
  {
    hide WrittenOk, GuardOk, T.HasToken;
    forall t | t in db.active ensures !ClaimsWith(db.active[t].program, token) {
      assert ClaimOk(db.jobs, issued, db.active[t]);
    }
  }

  /** A commit that takes a committed lease off its row retires the token. */
  lemma EndRetires(db: Db, issued: set<string>, move: Move, db': Db, r: JobRef, token: string)
    requires DbOk(db) && LeaseInv(db, issued) && Next(db, move, db') && issued !! IssuedBy(move)
    requires T.HasToken(db.jobs, r, token) && !T.HasToken(db'.jobs, r, token)
    ensures Retired(db', issued + IssuedBy(move), token)
  {
    hide DbOk, LeaseInv, Next, T.HasToken, ClaimsWith, IssuedBy;
    HeldApart(db, issued, r, token);
    forall c ensures !T.HasToken(db'.jobs, c, token) {
      if T.HasToken(db'.jobs, c, token) {
        SettledTokens(db, issued, move, db', c, token);
      }
    }
    forall t | t in db'.active ensures !ClaimsWith(db'.active[t].program, token) {
      if ClaimsWith(db'.active[t].program, token) {
        SettledClaims(db, move, db', t, token);
      }
    }
  }

  /** Once a committed lease has ended, no transaction that presents its token ever commits, in any interleaving. */
  lemma InterleavedFencing(states: seq<Db>, moves: seq<Move>, r: JobRef, token: string, i: nat, j: nat)
    requires IsInterleaving(states, moves) && TokensFresh(moves) && i < j < |moves|
    requires T.HasToken(states[i].jobs, r, token) && !T.HasToken(states[i + 1].jobs, r, token)
    ensures !Accepts(states[j], moves[j], token)
  {
    hide DbOk, LeaseInv, Next, T.HasToken, Retired, Accepts, IssuedBy, Issued, TokensFresh;
    Facts(states, moves, i);
    EndRetires(states[i], Issued(moves[..i]), moves[i], states[i + 1], r, token);
    for k := i + 1 to j
      invariant Retired(states[k], Issued(moves[..k]), token)
    {
      Facts(states, moves, k);
      RetiredStays(states[k], Issued(moves[..k]), moves[k], states[k + 1], token);
    }
    Facts(states, moves, j);
    RetiredRejects(states[j], Issued(moves[..j]), moves[j], token);
  }

  lemma Facts(states: seq<Db>, moves: seq<Move>, i: nat)
    requires IsInterleaving(states, moves) && TokensFresh(moves) && i < |moves|
    ensures DbOk(states[i]) && LeaseInv(states[i], Issued(moves[..i])) && Next(states[i], moves[i], states[i + 1])
    ensures Issued(moves[..i]) !! IssuedBy(moves[i])
    ensures Issued(moves[..i + 1]) == Issued(moves[..i]) + IssuedBy(moves[i])
  {
    hide DbOk, LeaseInv, Next, IssuedBy;
    InterleavingOk(states, moves, i);
    InterleavingLeases(states, moves, i);
    assert moves[..i + 1][..i] == moves[..i];
  }

  lemma OutcomeEnds(db: Db, issued: set<string>, move: Move, token: string)
    requires LeaseInv(db, issued) && Enabled(db, move) && Outcome(db, move, token)
    ensures var r := db.active[move.tx].program[0].ref;
            T.HasToken(db.jobs, r, token) && !T.HasToken(Apply(db, move).jobs, r, token)
  {
    hide ClaimOk, WrittenOk, CommittedOk;
    InvParts(db, issued, move.tx);
  }

  /** No token commits two outcomes, in any interleaving. */
  lemma OneOutcomeInterleaved(states: seq<Db>, moves: seq<Move>, token: string, i: nat, j: nat)
    requires IsInterleaving(states, moves) && TokensFresh(moves) && i < |moves| && j < |moves|
    requires Outcome(states[i], moves[i], token) && Outcome(states[j], moves[j], token)
    ensures i == j
  {
    hide DbOk, LeaseInv, Apply, T.HasToken, Enabled;
    if i != j {
      var first, second := if i < j then i else j, if i < j then j else i;
      Facts(states, moves, first);
      OutcomeEnds(states[first], Issued(moves[..first]), moves[first], token);
      InterleavedFencing(states, moves, states[first].active[moves[first].tx].program[0].ref, token, first, second);
    }
  }

  // ----- Exclusion -----

  /** No two open transactions hold a change of the same row; and over all they see, committed or not, a token
      is on one row only. */
  lemma ClaimsExclude(
    states: seq<Db>, moves: seq<Move>, i: nat, t: nat, o: nat, r1: JobRef, r2: JobRef, token: string)
    requires IsInterleaving(states, moves) && TokensFresh(moves) && i <= |moves|
    requires t in states[i].active && o in states[i].active
    ensures r1 in states[i].active[t].writes && r1 in states[i].active[o].writes ==> t == o
    ensures var db := states[i];
            && T.HasToken(View(db.jobs, db.active[t]), r1, token)
            && T.HasToken(View(db.jobs, db.active[o]), r2, token)
            ==> r1 == r2
  {
    hide Next, TxOk, Safe, ForeignKeys, T.HasToken, TxLeaseOk, CommittedOk, View, ClaimsWith;
    InterleavingOk(states, moves, i);
    InterleavingLeases(states, moves, i);
    var db, issued := states[i], Issued(moves[..i]);
    InvParts(db, issued, t);
    InvParts(db, issued, o);
    if T.HasToken(View(db.jobs, db.active[t]), r1, token) && T.HasToken(View(db.jobs, db.active[o]), r2, token) {
      OneRow(db.jobs, issued, db.active[t], db.active[o], t == o, r1, r2, token);
    }
  }

  lemma OneRow(
    jobs: Jobs, issued: set<string>, tx: Tx, other: Tx, same: bool, r1: JobRef, r2: JobRef, token: string)
    requires CommittedOk(jobs, issued) && TxLeaseOk(jobs, issued, tx) && TxLeaseOk(jobs, issued, other)
    requires if same then tx == other else !(ClaimsWith(tx.program, token) && ClaimsWith(other.program, token))
    requires T.HasToken(View(jobs, tx), r1, token) && T.HasToken(View(jobs, other), r2, token)
    ensures r1 == r2
  {
    hide T.HasToken, View, WrittenOk, GuardOk;
    CommittedToken(jobs, issued, tx, r1, token);
    CommittedToken(jobs, issued, other, r2, token);
  }
}
