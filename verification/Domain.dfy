/** Value objects of a submitted job graph and the admission checks that do not look at the graph
    (src/domain.rs). */
module Domain {
  import opened Prelude

  const MAX_DAG_ID_BYTES := 64
  const MAX_JOB_ID_BYTES := 64
  const MAX_JOBS_PER_DAG := 1_000
  const MAX_DEPENDENCIES_PER_DAG := 10_000
  const MAX_PAYLOAD_BYTES := 4_096

  datatype JobKind = Delay | Checksum | Uppercase

  /** The ranges of Rust's `u16` and `i16`. */
  type U16 = x: int | 0 <= x <= 0xFFFF
  type I16 = x: int | -0x8000 <= x <= 0x7FFF

  datatype JobSpec = JobSpec(id: string, kind: JobKind, payload: string, maxAttempts: U16, priority: I16)

  /** An edge: `from` must succeed before `to` may run. */
  datatype Dependency = Dependency(from: string, to: string)

  datatype DagSpec = DagSpec(id: string, jobs: seq<JobSpec>, dependencies: seq<Dependency>)

  datatype JobState = Pending | Ready | RetryWait | Leased | Succeeded | DeadLettered | Cancelled

  datatype ValidationError =
    | InvalidIdentifier(value: string)
    | InvalidJobCount
    | InvalidDependencyCount
    | DuplicateJob(job: string)
    | UnknownJob(unknown: string)
    | Cycle
    | PayloadTooLarge
    | InvalidDelay
    | InvalidPolicy

  predicate IdentifierByte(c: char) {
    'a' <= c <= 'z' || 'A' <= c <= 'Z' || '0' <= c <= '9' || c == '-' || c == '_'
  }

  predicate ValidIdentifier(value: string, maxBytes: nat) {
    value != [] && |value| <= maxBytes && forall c <- value :: IdentifierByte(c)
  }

  /** `str::parse::<u64>`: an optional plus sign and at least one digit. A value beyond 64 bits is a
      parse error there and above every limit here, so both end in the same verdict. */
  predicate ValidDelay(payload: string) {
    var digits := if payload != [] && payload[0] == '+' then payload[1..] else payload;
    digits != [] && (forall c <- digits :: '0' <= c <= '9') && DecimalValue(digits) <= 5_000
  }

  function PayloadError(kind: JobKind, payload: string): Option<ValidationError> {
    if |payload| > MAX_PAYLOAD_BYTES then Some(PayloadTooLarge)
    else if kind == Delay && !ValidDelay(payload) then Some(InvalidDelay)
    else None
  }

  predicate ValidPolicy(job: JobSpec) {
    1 <= job.maxAttempts <= 20 && -100 <= job.priority <= 100
  }

  /** The first complaint about one job, duplicates aside. */
  function JobError(job: JobSpec): Option<ValidationError> {
    if !ValidIdentifier(job.id, MAX_JOB_ID_BYTES) then Some(InvalidIdentifier(job.id))
    else if PayloadError(job.kind, job.payload).Some? then PayloadError(job.kind, job.payload)
    else if !ValidPolicy(job) then Some(InvalidPolicy)
    else None
  }
}
