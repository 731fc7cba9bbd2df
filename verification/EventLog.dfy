/** The append-only event log of one job, and the grammar it follows (src/store.rs, `job_events`). */
module EventLog {
  import opened Prelude
  import opened Domain
  import opened LeaseMachine

  datatype EventKind = ClaimEvent | OutcomeEvent(outcome: JobState)

  datatype Event = Event(ref: JobRef, kind: EventKind, attempt: nat, owner: string)

  /** The events of one job, in order. */
  ghost function LogOf(events: seq<Event>, r: JobRef): seq<Event> {
    if events == [] then []
    else
      var last := events[|events| - 1];
      LogOf(events[..|events| - 1], r) + if last.ref == r then [last] else []
  }

  lemma LogAppend(events: seq<Event>, e: Event, r: JobRef)
    ensures LogOf(events + [e], r) == LogOf(events, r) + if e.ref == r then [e] else []
  {
    assert (events + [e])[..|events|] == events;
  }

  lemma {:induction false} LogEmpty(events: seq<Event>, r: JobRef)
    requires forall e :: e in events ==> e.ref != r
    ensures LogOf(events, r) == []
  {
    if events != [] {
      assert events[|events| - 1] in events;
      assert forall e :: e in events[..|events| - 1] ==> e in events;
      LogEmpty(events[..|events| - 1], r);
    }
  }

  /** What a log says: so many claims, and whether the last one is still without an outcome event, has been
      sent back, or has been closed for good. */
  datatype Reading = Reading(claims: nat, phase: Phase)

  datatype Phase = Idle | Open | Closed(how: JobState)

  /** Reads one more event; `None` if it cannot come next. A claim may follow an open claim, because an
      expired lease is reclaimed without an event. */
  function ReadEvent(before: Reading, e: Event, maxAttempts: nat): Option<Reading> {
    match e.kind
    case ClaimEvent =>
      if !before.phase.Closed? && e.attempt == before.claims + 1 then Some(Reading(e.attempt, Open)) else None
    case OutcomeEvent(state) =>
      if !(before.phase.Open? && e.attempt == before.claims) then None
      else if state == RetryWait && e.attempt < maxAttempts then Some(Reading(before.claims, Idle))
      else if state == Succeeded || (state == DeadLettered && e.attempt == maxAttempts)
      then Some(Reading(before.claims, Closed(state)))
      else None
  }

  ghost function ReadLog(log: seq<Event>, maxAttempts: nat): Option<Reading> {
    if log == [] then Some(Reading(0, Idle))
    else
      match ReadLog(log[..|log| - 1], maxAttempts)
      case None => None
      case Some(before) => ReadEvent(before, log[|log| - 1], maxAttempts)
  }

  lemma ReadAppend(log: seq<Event>, e: Event, maxAttempts: nat)
    ensures ReadLog(log + [e], maxAttempts) ==
            match ReadLog(log, maxAttempts) case None => None case Some(before) => ReadEvent(before, e, maxAttempts)
  {
    assert (log + [e])[..|log|] == log;
  }

  /** The row of a job and the reading of its log belong together. */
  ghost predicate LogFits(job: Job, reading: Option<Reading>) {
    && reading.Some?
    && reading.value.claims == job.attempts
    && match job.state
       case Pending | Ready => reading.value.phase == Idle
       case RetryWait => !reading.value.phase.Closed?
       case Leased => reading.value.phase == Open
       case Succeeded => reading.value.phase == Closed(Succeeded)
       case DeadLettered => reading.value.phase == Open || reading.value.phase == Closed(DeadLettered)
       case Cancelled => !reading.value.phase.Closed?
  }

  ghost predicate LogsOk(jobs: Jobs, events: seq<Event>) {
    && (forall e :: e in events ==> e.ref in jobs)
    && forall r :: r in jobs ==> LogFits(jobs[r], ReadLog(LogOf(events, r), jobs[r].spec.maxAttempts))
  }

  // ----- What a readable log looks like -----

  ghost function ClaimsIn(log: seq<Event>): nat {
    if log == [] then 0
    else ClaimsIn(log[..|log| - 1]) + if log[|log| - 1].kind == ClaimEvent then 1 else 0
  }

  /** Claims are numbered 1, 2, 3, ...; an outcome directly follows its claim and carries its number; a
      dead letter carries the whole budget; nothing follows a success or a dead letter. */
  ghost predicate EventOk(log: seq<Event>, i: int, maxAttempts: nat)
    requires 0 <= i < |log|
  {
    && (i > 0 ==> log[i - 1].kind != OutcomeEvent(Succeeded) && log[i - 1].kind != OutcomeEvent(DeadLettered))
    && match log[i].kind
       case ClaimEvent => log[i].attempt == ClaimsIn(log[..i]) + 1
       case OutcomeEvent(how) =>
         && i > 0 && log[i - 1].kind == ClaimEvent && log[i].attempt == log[i - 1].attempt
         && (how == Succeeded || (how == RetryWait && log[i].attempt < maxAttempts)
             || (how == DeadLettered && log[i].attempt == maxAttempts))
  }

  ghost predicate WellShaped(log: seq<Event>, maxAttempts: nat) {
    forall i :: 0 <= i < |log| ==> EventOk(log, i, maxAttempts)
  }

  lemma {:induction false} PrefixReadable(log: seq<Event>, maxAttempts: nat, k: nat)
    requires ReadLog(log, maxAttempts).Some? && k <= |log|
    ensures ReadLog(log[..k], maxAttempts).Some?
    decreases |log|
  {
    if k == |log| {
      assert log[..k] == log;
    } else {
      PrefixReadable(log[..|log| - 1], maxAttempts, k);
      assert log[..|log| - 1][..k] == log[..k];
    }
  }

  /** The reading after event `i` comes from the reading before it. */
  lemma ReadAt(log: seq<Event>, maxAttempts: nat, i: nat)
    requires ReadLog(log, maxAttempts).Some? && i < |log|
    ensures var before, after := ReadLog(log[..i], maxAttempts), ReadLog(log[..i + 1], maxAttempts);
            before.Some? && after.Some? && after == ReadEvent(before.value, log[i], maxAttempts)
  {
    PrefixReadable(log, maxAttempts, i);
    PrefixReadable(log, maxAttempts, i + 1);
    assert log[..i + 1] == log[..i] + [log[i]];
    ReadAppend(log[..i], log[i], maxAttempts);
  }

  lemma {:induction false} ReadingCounts(log: seq<Event>, maxAttempts: nat)
    requires ReadLog(log, maxAttempts).Some?
    ensures ReadLog(log, maxAttempts).value.claims == ClaimsIn(log)
  {
    if log != [] {
      ReadingCounts(log[..|log| - 1], maxAttempts);
    }
  }

  /** The phase of a reading is decided by the last event alone. */
  lemma PhaseIs(log: seq<Event>, maxAttempts: nat)
    requires ReadLog(log, maxAttempts).Some?
    ensures var reading := ReadLog(log, maxAttempts).value;
            if log == [] then reading.phase == Idle
            else
              var last := log[|log| - 1];
              && last.attempt == reading.claims
              && reading.phase == match last.kind
                                  case ClaimEvent => Open
                                  case OutcomeEvent(how) => if how == RetryWait then Idle else Closed(how)
  {
  }

  /** Every readable log has the shape. */
  lemma ReadableIsWellShaped(log: seq<Event>, maxAttempts: nat)
    requires ReadLog(log, maxAttempts).Some?
    ensures WellShaped(log, maxAttempts)
  {
    hide ReadLog, ClaimsIn;
    forall i | 0 <= i < |log| ensures EventOk(log, i, maxAttempts) {
      ReadAt(log, maxAttempts, i);
      ReadingCounts(log[..i], maxAttempts);
      PhaseIs(log[..i], maxAttempts);
    }
  }

  /** A readable log that is not empty holds a claim. */
  lemma {:induction false} NonEmptyCounts(log: seq<Event>, maxAttempts: nat)
    requires ReadLog(log, maxAttempts).Some? && log != []
    ensures ReadLog(log, maxAttempts).value.claims >= 1
  {
    var head := log[..|log| - 1];
    if head == [] {
      assert ReadLog(head, maxAttempts) == Some(Reading(0, Idle));
    } else {
      PrefixReadable(log, maxAttempts, |log| - 1);
      NonEmptyCounts(head, maxAttempts);
    }
  }
}
