/** A client that plays any list of calls against a scheduler object. Whatever it observes is a run of the
    lease machine, so every statement about runs is a statement about the class. */
module Replay {
  import opened Backoff
  import opened LeaseMachine
  import opened LeaseInvariants
  import opened Coupling
  import S = Scheduler

  method Execute(scheduler: S.Scheduler, call: Call) returns (reply: Reply)
    requires scheduler.Valid()
    modifies scheduler
    ensures scheduler.Valid()
    ensures StepIs(scheduler.config, old(scheduler.model), call, scheduler.model, reply)
  {
    hide Inv, Coupled, Submit, Claim, Heartbeat, Complete, Fail, Reap, Cancel;
    match call
    case SubmitCall(spec, now) =>
      var r := scheduler.Submit(spec, now);
      reply := SubmitReply(r);
    case ClaimCall(owner, now, leaseMs) =>
      var r := scheduler.Claim(owner, now, leaseMs);
      reply := ClaimReply(r);
    case HeartbeatCall(ref, owner, token, now, leaseMs) =>
      var r := scheduler.Heartbeat(ref.dag, ref.job, owner, token, now, leaseMs);
      reply := HeartbeatReply(r);
    case CompleteCall(ref, owner, token, result, now) =>
      var r := scheduler.Complete(ref.dag, ref.job, owner, token, result, now);
      reply := CompleteReply(r);
    case FailCall(ref, owner, token, now) =>
      var r := scheduler.Fail(ref.dag, ref.job, owner, token, now);
      reply := FailReply(r);
    case ReapCall(now) =>
      var n := scheduler.Reap(now);
      reply := ReapReply(n);
    case CancelCall(dag) =>
      var r := scheduler.Cancel(dag);
      reply := CancelReply(r);
  }

  method Replay(config: SchedulerConfig, calls: seq<Call>) returns (replies: seq<Reply>, ghost states: seq<System>)
    ensures IsRun(config, states, calls, replies)
  {
    hide Inv, Coupled, StepIs;
    var scheduler := new S.Scheduler(config);
    states, replies := [scheduler.model], [];
    for i := 0 to |calls|
      invariant fresh(scheduler) && scheduler.Valid() && scheduler.config == config
      invariant |states| == i + 1 && |replies| == i
      invariant IsEmpty(states[0]) && states[i] == scheduler.model
      invariant forall k :: 0 <= k < i ==> StepIs(config, states[k], calls[k], states[k + 1], replies[k])
    {
      var reply := Execute(scheduler, calls[i]);
      states, replies := states + [scheduler.model], replies + [reply];
    }
  }
}
