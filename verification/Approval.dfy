/** The approval protocol of tool_guard.py and soul_review.py: a gate registers
    a future under a fresh request id, broadcasts the request, and waits for a
    decision from any surface, for its timeout, or for a cancellation of its own
    task.  Every stretch of code between two awaits is one step; any number of
    gates and decisions interleave.  Breaking off a wait for a value that has
    already arrived is possible with the `asyncio.wait_for` of Python 3.12 and
    later; the runs of Python 3.11, where the value wins, are among these. */
module Approval {
  import opened Text

  /** The two modules differ only in how a gate cleans up. */
  datatype Kind = ToolGuard | SoulReview

  datatype Future = Unset | SetTo(approved: bool) | Withdrawn

  datatype Outcome =
    | Approved
    | Rejected
    | TimedOut
    | CancelledWaiting
    | CancelledBroadcasting

  /** Where a gate's task stands.  In `Resuming` its wait was broken off, and
      the task has not run since. */
  datatype Phase =
    | Broadcasting(left: nat)
    | Waiting
    | Resuming(outcome: Outcome)
    | Finished(outcome: Outcome)

  /** One call of `resolve_decision`, whether its id was registered at the time,
      and what it returned. */
  datatype Decision = Decision(req: nat, approved: bool, registered: bool, accepted: bool)

  datatype State = State(
    broadcasters: nat, pending: set<nat>, futures: map<nat, Future>, gates: map<nat, Phase>, log: seq<Decision>)

  const INIT: State := State(0, {}, map[], map[], [])

  datatype Step =
    | SetBroadcasters(n: nat)
    | Start(req: nat)
    | Broadcast(req: nat)
    | Expire(req: nat)
    | Cancel(req: nat)
    | Wake(req: nat)
    | Resume(req: nat)
    | Decide(req: nat, approved: bool)

  predicate In(s: State, req: nat) { req in s.gates && req in s.futures }

  predicate Enabled(s: State, step: Step) {
    match step
    case SetBroadcasters(_) => true
    case Start(r) => r !in s.gates && s.broadcasters > 0
    case Broadcast(r) => In(s, r) && s.gates[r].Broadcasting?
    case Expire(r) => In(s, r) && s.gates[r].Waiting?
    case Cancel(r) => In(s, r) && !s.gates[r].Finished?
    case Wake(r) => In(s, r) && s.gates[r].Waiting? && s.futures[r].SetTo?
    case Resume(r) => In(s, r) && s.gates[r].Resuming?
    case Decide(r, _) => r in s.pending ==> r in s.futures
  }

  /** `resolve_decision`: the entry goes; only an unset future takes the value. */
  function Decided(s: State, r: nat, approved: bool): State
    requires r in s.pending ==> r in s.futures
  {
    var registered := r in s.pending;
    var accepted := registered && s.futures[r].Unset?;
    s.(pending := s.pending - {r},
       futures := if accepted then s.futures[r := SetTo(approved)] else s.futures,
       log := s.log + [Decision(r, approved, registered, accepted)])
  }

  /** Breaking off a wait withdraws the future unless it has its value already. */
  function BrokenOff(s: State, r: nat, outcome: Outcome): State
    requires In(s, r)
  {
    s.(gates := s.gates[r := Resuming(outcome)],
       futures := if s.futures[r].Unset? then s.futures[r := Withdrawn] else s.futures)
  }

  /** Which entries a gate removes itself: tool_guard's `finally` covers the
      wait but not the broadcast before it; soul_review removes its entry only
      on a timeout. */
  predicate CleansUp(kind: Kind, outcome: Outcome) {
    match kind
    case ToolGuard => outcome != CancelledBroadcasting
    case SoulReview => outcome == TimedOut
  }

  function Ended(kind: Kind, s: State, r: nat, outcome: Outcome): State {
    s.(gates := s.gates[r := Finished(outcome)],
       pending := if CleansUp(kind, outcome) then s.pending - {r} else s.pending)
  }

  function Next(kind: Kind, s: State, step: Step): State
    requires Enabled(s, step)
  {
    match step
    case SetBroadcasters(n) => s.(broadcasters := n)
    case Start(r) =>
      s.(pending := s.pending + {r}, futures := s.futures[r := Unset],
         gates := s.gates[r := Broadcasting(s.broadcasters)])
    case Broadcast(r) =>
      s.(gates := s.gates[r := if s.gates[r].left <= 1 then Waiting else Broadcasting(s.gates[r].left - 1)])
    case Expire(r) => BrokenOff(s, r, TimedOut)
    case Cancel(r) =>
      if s.gates[r].Broadcasting? then Ended(kind, s, r, CancelledBroadcasting)
      else BrokenOff(s, r, CancelledWaiting)
    case Wake(r) => Ended(kind, s, r, if s.futures[r].approved then Approved else Rejected)
    case Resume(r) => Ended(kind, s, r, s.gates[r].outcome)
    case Decide(r, approved) => Decided(s, r, approved)
  }

  ghost predicate Legal(kind: Kind, s: State, steps: seq<Step>)
    decreases |steps|
  {
    steps == [] || (Enabled(s, steps[0]) && Legal(kind, Next(kind, s, steps[0]), steps[1..]))
  }

  function Run(kind: Kind, s: State, steps: seq<Step>): State
    requires Legal(kind, s, steps)
    decreases |steps|
  {
    if steps == [] then s else Run(kind, Next(kind, s, steps[0]), steps[1..])
  }

  // ---------------------------------------------------------------------
  // The invariant of every run
  // ---------------------------------------------------------------------

  /** The decisions that came while their request was registered. */
  function Heard(log: seq<Decision>, r: nat): seq<Decision> {
    if log == [] then []
    else
      var d := log[|log| - 1];
      Heard(log[..|log| - 1], r) + if d.req == r && d.registered then [d] else []
  }

  lemma HeardAppend(log: seq<Decision>, d: Decision, r: nat)
    ensures Heard(log + [d], r) == Heard(log, r) + if d.req == r && d.registered then [d] else []
  {
  }

  predicate FutureOk(f: Future, heard: seq<Decision>) {
    && |heard| <= 1
    && (f.Unset? ==> heard == [])
    && (f.SetTo? ==> |heard| == 1 && heard[0].approved == f.approved && heard[0].accepted)
    && (f.Withdrawn? && heard != [] ==> !heard[0].accepted)
  }

  predicate PhaseOk(p: Phase, f: Future) {
    match p
    case Broadcasting(_) => !f.Withdrawn?
    case Waiting => !f.Withdrawn?
    case Resuming(o) => !f.Unset? && (o == TimedOut || o == CancelledWaiting)
    case Finished(o) => (o == Approved ==> f == SetTo(true)) && (o == Rejected ==> f == SetTo(false))
  }

  /** Whether the gate itself has removed its entry. */
  predicate Removed(kind: Kind, p: Phase) { p.Finished? && CleansUp(kind, p.outcome) }

  ghost predicate GateOk(kind: Kind, s: State, r: nat) {
    var heard := Heard(s.log, r);
    if r in s.gates then
      && r in s.futures && FutureOk(s.futures[r], heard) && PhaseOk(s.gates[r], s.futures[r])
      && (r in s.pending <==> heard == [] && !Removed(kind, s.gates[r]))
    else r !in s.pending && heard == []
  }

  ghost predicate Inv(kind: Kind, s: State) { forall r: nat :: GateOk(kind, s, r) }

  lemma InitInv(kind: Kind)
    ensures Inv(kind, INIT)
  {
  }

  lemma NextKeeps(kind: Kind, s: State, step: Step)
    requires Inv(kind, s) && Enabled(s, step)
    ensures Inv(kind, Next(kind, s, step))
  {
    hide Heard;
    var t := Next(kind, s, step);
    forall r: nat
      ensures GateOk(kind, t, r)
    {
      assert GateOk(kind, s, r);
      if step.Decide? {
        HeardAppend(s.log, t.log[|s.log|], r);
      }
    }
  }

  lemma {:induction false} RunKeeps(kind: Kind, s: State, steps: seq<Step>)
    requires Inv(kind, s) && Legal(kind, s, steps)
    ensures Inv(kind, Run(kind, s, steps))
    decreases |steps|
  {
    hide Inv, Next, Enabled;
    if steps == [] {
    } else {
      NextKeeps(kind, s, steps[0]);
      RunKeeps(kind, Next(kind, s, steps[0]), steps[1..]);
    }
  }

  ghost predicate Reachable(kind: Kind, s: State) {
    exists steps :: Legal(kind, INIT, steps) && Run(kind, INIT, steps) == s
  }

  lemma ReachableInv(kind: Kind, s: State)
    requires Reachable(kind, s)
    ensures Inv(kind, s)
  {
    hide Inv, Run, Legal;
    var steps :| Legal(kind, INIT, steps) && Run(kind, INIT, steps) == s;
    InitInv(kind);
    RunKeeps(kind, INIT, steps);
  }

  // ---------------------------------------------------------------------
  // Results
  // ---------------------------------------------------------------------

  /** Each request hears at most one decision, the first made while it is
      registered, so at most one call per id returns True. */
  lemma SettledAtMostOnce(kind: Kind, s: State, i: nat, j: nat)
    requires Reachable(kind, s) && i < |s.log| && j < |s.log|
    requires s.log[i].req == s.log[j].req && s.log[i].registered && s.log[j].registered
    ensures i == j
  {
    ReachableInv(kind, s);
    assert GateOk(kind, s, s.log[i].req);
    if i != j {
      TwoHeard(s.log, if i < j then i else j, if i < j then j else i);
      assert false;
    }
  }

  lemma {:induction false} TwoHeard(log: seq<Decision>, i: nat, j: nat)
    requires i < j < |log| && log[i].req == log[j].req && log[i].registered && log[j].registered
    ensures |Heard(log, log[i].req)| >= 2
    decreases |log|
  {
    var n := |log| - 1;
    if j < n {
      TwoHeard(log[..n], i, j);
    } else {
      OneHeard(log[..n], i);
    }
  }

  lemma {:induction false} OneHeard(log: seq<Decision>, i: nat)
    requires i < |log| && log[i].registered
    ensures |Heard(log, log[i].req)| >= 1
    decreases |log|
  {
    if i == |log| - 1 {
    } else {
      OneHeard(log[..|log| - 1], i);
    }
  }

  lemma {:induction false} HeardIsLogged(log: seq<Decision>, r: nat)
    requires Heard(log, r) != []
    ensures exists i :: 0 <= i < |log| && log[i] == Heard(log, r)[0] && log[i].req == r && log[i].registered
    decreases |log|
  {
    var n := |log| - 1;
    if Heard(log[..n], r) != [] {
      HeardIsLogged(log[..n], r);
      var i :| 0 <= i < n && log[..n][i] == Heard(log[..n], r)[0] && log[..n][i].req == r && log[..n][i].registered;
      assert log[i] == Heard(log, r)[0];
    } else {
      assert log[n] == Heard(log, r)[0];
    }
  }

  /** A gate returns APPROVED only if the one decision heard for its own id was
      an approval, and that call returned True; likewise for an explicit no. */
  lemma ApprovedOnlyByApproval(kind: Kind, s: State, r: nat)
    requires Reachable(kind, s) && r in s.gates
    requires s.gates[r] == Finished(Approved) || s.gates[r] == Finished(Rejected)
    ensures exists i :: 0 <= i < |s.log| && s.log[i] == Decision(r, s.gates[r].outcome == Approved, true, true)
  {
    ReachableInv(kind, s);
    assert GateOk(kind, s, r);
    HeardIsLogged(s.log, r);
  }

  /** Which entries outlive their gate: with tool_guard exactly those of gates
      cancelled during their broadcast and not decided since; with soul_review
      also those of gates cancelled while waiting. */
  lemma LeftBehindExactly(kind: Kind, s: State, r: nat)
    requires Reachable(kind, s) && r in s.gates && s.gates[r].Finished?
    ensures r in s.pending <==>
      && (forall i :: 0 <= i < |s.log| ==> !(s.log[i].req == r && s.log[i].registered))
      && (s.gates[r].outcome == CancelledBroadcasting || (kind == SoulReview && s.gates[r].outcome == CancelledWaiting))
  {
    ReachableInv(kind, s);
    assert GateOk(kind, s, r);
    if Heard(s.log, r) != [] {
      HeardIsLogged(s.log, r);
    } else {
      forall i | 0 <= i < |s.log| && s.log[i].req == r
        ensures !s.log[i].registered
      {
        if s.log[i].registered {
          OneHeard(s.log, i);
        }
      }
    }
  }

  // The same, read off the steps of the run.

  predicate Decides(step: Step, r: nat) { step.Decide? && step.req == r }

  ghost predicate SomeDecides(steps: seq<Step>, r: nat) {
    exists i :: 0 <= i < |steps| && Decides(steps[i], r)
  }

  ghost predicate DecidedAfterStart(steps: seq<Step>, r: nat) {
    exists i, j :: 0 <= i < j < |steps| && steps[i] == Start(r) && Decides(steps[j], r)
  }

  /** The step cancels the gate where its module cleans nothing up: while it
      broadcasts, or for soul_review at any time. */
  predicate Strikes(kind: Kind, s: State, step: Step, r: nat) {
    step == Cancel(r) && (kind == SoulReview || (r in s.gates && s.gates[r].Broadcasting?))
  }

  ghost predicate CancelStrikes(kind: Kind, s: State, steps: seq<Step>, r: nat)
    requires Legal(kind, s, steps)
    decreases |steps|
  {
    steps != [] && (Strikes(kind, s, steps[0], r) || CancelStrikes(kind, Next(kind, s, steps[0]), steps[1..], r))
  }

  /** The gate ends, or has ended, by a cancellation that cleans nothing up. */
  predicate IsStruck(kind: Kind, s: State, r: nat) {
    r in s.gates && match s.gates[r]
                    case Resuming(o) => kind == SoulReview && o == CancelledWaiting
                    case Finished(o) => o == CancelledBroadcasting || (kind == SoulReview && o == CancelledWaiting)
                    case _ => false
  }

  lemma StepStrikes(kind: Kind, s: State, step: Step, r: nat)
    requires Inv(kind, s) && Enabled(s, step)
    ensures IsStruck(kind, Next(kind, s, step), r) <==> IsStruck(kind, s, r) || Strikes(kind, s, step, r)
  {
    assert GateOk(kind, s, r);
  }

  lemma {:induction false} RunStrikes(kind: Kind, s: State, steps: seq<Step>, r: nat)
    requires Inv(kind, s) && Legal(kind, s, steps)
    ensures IsStruck(kind, Run(kind, s, steps), r) <==> IsStruck(kind, s, r) || CancelStrikes(kind, s, steps, r)
    decreases |steps|
  {
    hide Inv, Next, Enabled, IsStruck, Strikes;
    if steps == [] {
    } else {
      StepStrikes(kind, s, steps[0], r);
      NextKeeps(kind, s, steps[0]);
      RunStrikes(kind, Next(kind, s, steps[0]), steps[1..], r);
    }
  }

  /** A gate never comes back, once it has started or ended. */
  lemma StepOfGate(kind: Kind, s: State, step: Step, r: nat)
    requires Enabled(s, step) && r in s.gates
    ensures var t := Next(kind, s, step);
            r in t.gates && (s.gates[r].Finished? ==> t.gates[r] == s.gates[r])
  {
  }

  lemma {:induction false} EndedForGood(kind: Kind, s: State, steps: seq<Step>, r: nat)
    requires Legal(kind, s, steps) && r in s.gates
    ensures var t := Run(kind, s, steps);
            r in t.gates && (s.gates[r].Finished? ==> t.gates[r] == s.gates[r])
    decreases |steps|
  {
    hide Next, Enabled;
    if steps == [] {
    } else {
      StepOfGate(kind, s, steps[0], r);
      EndedForGood(kind, Next(kind, s, steps[0]), steps[1..], r);
    }
  }

  lemma StepIsHeard(kind: Kind, s: State, step: Step, r: nat)
    requires Inv(kind, s) && Enabled(s, step)
    ensures var was, now := Heard(s.log, r), Heard(Next(kind, s, step).log, r);
            if r in s.gates && !Removed(kind, s.gates[r])
            then now == [] <==> was == [] && !Decides(step, r)
            else now == was
  {
    hide Heard;
    assert GateOk(kind, s, r);
    if step.Decide? {
      HeardAppend(s.log, Next(kind, s, step).log[|s.log|], r);
    }
  }

  lemma FirstOrLaterDecides(steps: seq<Step>, r: nat)
    requires steps != []
    ensures SomeDecides(steps, r) <==> Decides(steps[0], r) || SomeDecides(steps[1..], r)
    ensures DecidedAfterStart(steps, r) <==>
            (steps[0] == Start(r) && SomeDecides(steps[1..], r)) || DecidedAfterStart(steps[1..], r)
  {
    hide Decides;
    var rest := steps[1..];
    assert forall i :: 0 <= i < |rest| ==> rest[i] == steps[i + 1];
    assert forall i :: 1 <= i < |steps| ==> steps[i] == rest[i - 1];
  }

  /** While the entry is not removed by the gate itself, every decision is heard. */
  lemma {:induction false} HeardSinceStart(kind: Kind, s: State, steps: seq<Step>, r: nat)
    requires Inv(kind, s) && Legal(kind, s, steps) && r in s.gates
    requires var t := Run(kind, s, steps); r in t.gates && !Removed(kind, t.gates[r])
    ensures Heard(Run(kind, s, steps).log, r) == [] <==> Heard(s.log, r) == [] && !SomeDecides(steps, r)
    decreases |steps|
  {
    EndedForGood(kind, s, steps, r);
    hide Inv, Next, Enabled, Heard, Decides;
    if steps == [] {
    } else {
      StepIsHeard(kind, s, steps[0], r);
      StepOfGate(kind, s, steps[0], r);
      NextKeeps(kind, s, steps[0]);
      FirstOrLaterDecides(steps, r);
      HeardSinceStart(kind, Next(kind, s, steps[0]), steps[1..], r);
    }
  }

  lemma StepBeforeStart(kind: Kind, s: State, step: Step, r: nat)
    requires Inv(kind, s) && Enabled(s, step) && r !in s.gates
    ensures r in Next(kind, s, step).gates <==> step == Start(r)
    ensures Heard(s.log, r) == []
  {
    assert GateOk(kind, s, r);
  }

  lemma {:induction false} HeardInRun(kind: Kind, s: State, steps: seq<Step>, r: nat)
    requires Inv(kind, s) && Legal(kind, s, steps) && r !in s.gates
    requires var t := Run(kind, s, steps); r in t.gates && !Removed(kind, t.gates[r])
    ensures Heard(Run(kind, s, steps).log, r) == [] <==> !DecidedAfterStart(steps, r)
    decreases |steps|
  {
    hide Inv, Next, Enabled, Heard, Decides;
    if steps == [] {
    } else {
      StepBeforeStart(kind, s, steps[0], r);
      StepIsHeard(kind, s, steps[0], r);
      NextKeeps(kind, s, steps[0]);
      FirstOrLaterDecides(steps, r);
      if steps[0] == Start(r) {
        HeardSinceStart(kind, Next(kind, s, steps[0]), steps[1..], r);
        LaterThanStart(steps[1..], r);
      } else {
        HeardInRun(kind, Next(kind, s, steps[0]), steps[1..], r);
      }
    }
  }

  lemma LaterThanStart(steps: seq<Step>, r: nat)
    ensures DecidedAfterStart(steps, r) ==> SomeDecides(steps, r)
  {
  }

  /** The entry of an ended gate is left behind if and only if a cancellation
      struck it where its module cleans nothing up, and no decision for it came
      at any time after its start. */
  lemma LeftBehindByItsRun(kind: Kind, steps: seq<Step>, r: nat)
    requires Legal(kind, INIT, steps)
    requires var s := Run(kind, INIT, steps); r in s.gates && s.gates[r].Finished?
    ensures r in Run(kind, INIT, steps).pending <==>
            CancelStrikes(kind, INIT, steps, r) && !DecidedAfterStart(steps, r)
  {
    hide Legal, Run, CancelStrikes, DecidedAfterStart, Heard;
    var s := Run(kind, INIT, steps);
    InitInv(kind);
    RunKeeps(kind, INIT, steps);
    RunStrikes(kind, INIT, steps, r);
    assert GateOk(kind, s, r);
    if !Removed(kind, s.gates[r]) {
      HeardInRun(kind, INIT, steps, r);
    }
  }

  /** The comment in tool_guard says the entry is always cleaned up; a gate
      cancelled while it broadcasts leaves its entry behind. */
  lemma CancelledBroadcastLeaks()
    ensures var steps := [SetBroadcasters(1), Start(7), Cancel(7)];
            && Legal(ToolGuard, INIT, steps)
            && var s := Run(ToolGuard, INIT, steps);
               7 in s.pending && s.gates[7] == Finished(CancelledBroadcasting)
  {
  }

  const LATE: seq<Step> := [SetBroadcasters(1), Start(7), Broadcast(7), Decide(7, true), Expire(7), Resume(7)]

  /** A True from `resolve_decision` is no promise: from Python 3.12 on, the
      timeout may still break off the wait before the gate's task has run. */
  lemma AcceptedMayTimeOut()
    ensures Legal(ToolGuard, INIT, LATE)
    ensures var s := Run(ToolGuard, INIT, LATE);
            7 in s.gates && s.gates[7] == Finished(TimedOut) && s.log == [Decision(7, true, true, true)]
  {
    hide Legal, Run;
    var s1 := Next(ToolGuard, INIT, LATE[0]);
    var s2 := Next(ToolGuard, s1, LATE[1]);
    var s3 := Next(ToolGuard, s2, LATE[2]);
    assert s3.gates[7] == Waiting && s3.futures[7] == Unset && s3.log == [] && 7 in s3.pending;
    DecidedThenExpired(s3);
    RunFrom(ToolGuard, s2, LATE, 2);
    RunFrom(ToolGuard, s1, LATE, 1);
    RunFrom(ToolGuard, INIT, LATE, 0);
    assert LATE[0..] == LATE;
  }

  lemma RunFrom(kind: Kind, s: State, steps: seq<Step>, k: nat)
    requires k < |steps| && Enabled(s, steps[k]) && Legal(kind, Next(kind, s, steps[k]), steps[k + 1..])
    ensures Legal(kind, s, steps[k..])
    ensures Run(kind, s, steps[k..]) == Run(kind, Next(kind, s, steps[k]), steps[k + 1..])
  {
    hide Next, Enabled;
    assert steps[k..][1..] == steps[k + 1..];
  }

  lemma DecidedThenExpired(s: State)
    requires In(s, 7) && s.gates[7] == Waiting && s.futures[7] == Unset && s.log == [] && 7 in s.pending
    ensures Legal(ToolGuard, s, LATE[3..])
    ensures var t := Run(ToolGuard, s, LATE[3..]);
            7 in t.gates && t.gates[7] == Finished(TimedOut) && t.log == [Decision(7, true, true, true)]
  {
    var s4 := Next(ToolGuard, s, LATE[3]);
    var s5 := Next(ToolGuard, s4, LATE[4]);
    var s6 := Next(ToolGuard, s5, LATE[5]);
    assert LATE[6..] == [] && Legal(ToolGuard, s6, LATE[6..]);
    assert Run(ToolGuard, s6, LATE[6..]) == s6;
    hide Legal, Run;
    RunFrom(ToolGuard, s5, LATE, 5);
    RunFrom(ToolGuard, s4, LATE, 4);
    RunFrom(ToolGuard, s, LATE, 3);
  }

  // Whose decision it is, read off the steps of the run.

  /** The first decision for r among the steps. */
  function Answer(steps: seq<Step>, r: nat): Option<bool> {
    if steps == [] then None
    else if steps[0].Decide? && steps[0].req == r then Some(steps[0].approved)
    else Answer(steps[1..], r)
  }

  /** The first decision for r after the gate of r has started. */
  function FirstAnswer(steps: seq<Step>, r: nat): Option<bool> {
    if steps == [] then None
    else if steps[0] == Start(r) then Answer(steps[1..], r)
    else FirstAnswer(steps[1..], r)
  }

  lemma {:induction false} AnswerIsAStep(steps: seq<Step>, r: nat)
    requires Answer(steps, r).Some?
    ensures exists j :: 0 <= j < |steps| && steps[j] == Decide(r, Answer(steps, r).value)
  {
    if steps[0].Decide? && steps[0].req == r {
    } else {
      AnswerIsAStep(steps[1..], r);
      var j :| 0 <= j < |steps[1..]| && steps[1..][j] == Decide(r, Answer(steps[1..], r).value);
      assert steps[j + 1] == steps[1..][j];
    }
  }

  lemma {:induction false} FirstAnswerIsAStep(steps: seq<Step>, r: nat)
    requires FirstAnswer(steps, r).Some?
    ensures exists j :: 0 <= j < |steps| && steps[j] == Decide(r, FirstAnswer(steps, r).value)
  {
    var rest := steps[1..];
    if steps[0] == Start(r) {
      AnswerIsAStep(rest, r);
    } else {
      FirstAnswerIsAStep(rest, r);
    }
    var j :| 0 <= j < |rest| && rest[j] == Decide(r, FirstAnswer(steps, r).value);
    assert steps[j + 1] == rest[j];
  }

  lemma HeardGrows(kind: Kind, s: State, step: Step, r: nat)
    requires Inv(kind, s) && Enabled(s, step)
    ensures var was, now := Heard(s.log, r), Heard(Next(kind, s, step).log, r);
            && (was != [] ==> now == was)
            && (was == [] && now != [] ==>
                  r in s.gates && step.Decide? && step.req == r && now[0].approved == step.approved)
            && (was == now == [] && r in s.gates && step.Decide? && step.req == r ==> Removed(kind, s.gates[r]))
  {
    hide Heard;
    assert GateOk(kind, s, r);
    if step.Decide? {
      HeardAppend(s.log, Next(kind, s, step).log[|s.log|], r);
    }
  }

  lemma {:induction false} HeardForGood(kind: Kind, s: State, steps: seq<Step>, r: nat)
    requires Inv(kind, s) && Legal(kind, s, steps) && Heard(s.log, r) != []
    ensures Heard(Run(kind, s, steps).log, r) == Heard(s.log, r)
    decreases |steps|
  {
    hide Inv, Next, Enabled, Heard;
    if steps == [] {
    } else {
      HeardGrows(kind, s, steps[0], r);
      NextKeeps(kind, s, steps[0]);
      HeardForGood(kind, Next(kind, s, steps[0]), steps[1..], r);
    }
  }

  /** What a gate's own clean-up has removed is never heard of again. */
  lemma {:induction false} RemovedIsDeaf(kind: Kind, s: State, steps: seq<Step>, r: nat)
    requires Inv(kind, s) && Legal(kind, s, steps) && r in s.gates && Removed(kind, s.gates[r])
    ensures Heard(Run(kind, s, steps).log, r) == Heard(s.log, r)
    decreases |steps|
  {
    hide Inv, Next, Enabled, Heard;
    if steps == [] {
    } else {
      StepIsHeard(kind, s, steps[0], r);
      StepOfGate(kind, s, steps[0], r);
      NextKeeps(kind, s, steps[0]);
      RemovedIsDeaf(kind, Next(kind, s, steps[0]), steps[1..], r);
    }
  }

  lemma {:induction false} HeardIsTheAnswer(kind: Kind, s: State, steps: seq<Step>, r: nat)
    requires Inv(kind, s) && Legal(kind, s, steps) && Heard(s.log, r) == []
    requires Heard(Run(kind, s, steps).log, r) != []
    ensures var approved := Some(Heard(Run(kind, s, steps).log, r)[0].approved);
            approved == if r in s.gates then Answer(steps, r) else FirstAnswer(steps, r)
    decreases |steps|
  {
    hide Inv, Next, Enabled, Heard, Removed;
    if steps == [] {
    } else {
      var t := Next(kind, s, steps[0]);
      HeardGrows(kind, s, steps[0], r);
      NextKeeps(kind, s, steps[0]);
      if r in s.gates {
        StepOfGate(kind, s, steps[0], r);
        if Removed(kind, s.gates[r]) {
          RemovedIsDeaf(kind, s, steps, r);
        }
      } else {
        StepBeforeStart(kind, s, steps[0], r);
      }
      if Heard(t.log, r) != [] {
        HeardForGood(kind, t, steps[1..], r);
      } else {
        HeardIsTheAnswer(kind, t, steps[1..], r);
      }
    }
  }

  /** A gate that ends approved, or with an explicit no, passes on the first
      answer that any surface gave for its own id after it had started. */
  lemma FirstAnswerDecides(kind: Kind, steps: seq<Step>, r: nat)
    requires Legal(kind, INIT, steps)
    requires var s := Run(kind, INIT, steps);
             r in s.gates && (s.gates[r] == Finished(Approved) || s.gates[r] == Finished(Rejected))
    ensures var approved := Run(kind, INIT, steps).gates[r] == Finished(Approved);
            && FirstAnswer(steps, r) == Some(approved)
            && exists j :: 0 <= j < |steps| && steps[j] == Decide(r, approved)
  {
    hide Legal, Run, Heard;
    var s := Run(kind, INIT, steps);
    InitInv(kind);
    RunKeeps(kind, INIT, steps);
    assert GateOk(kind, s, r);
    NothingHeard(r);
    HeardIsTheAnswer(kind, INIT, steps, r);
    FirstAnswerIsAStep(steps, r);
  }

  lemma NothingHeard(r: nat)
    ensures Heard([], r) == []
  {
  }

  // Timeouts and broadcasts.

  predicate EndsBy(s: State, r: nat, outcome: Outcome) {
    r in s.gates && (s.gates[r] == Resuming(outcome) || s.gates[r] == Finished(outcome))
  }

  /** A gate times out only if its timeout expired. */
  lemma {:induction false} TimedOutByExpiry(kind: Kind, s: State, steps: seq<Step>, r: nat)
    requires Legal(kind, s, steps) && !EndsBy(s, r, TimedOut) && EndsBy(Run(kind, s, steps), r, TimedOut)
    ensures exists i :: 0 <= i < |steps| && steps[i] == Expire(r)
    decreases |steps|
  {
    if steps == [] {
    } else {
      var t := Next(kind, s, steps[0]);
      if !EndsBy(t, r, TimedOut) {
        TimedOutByExpiry(kind, t, steps[1..], r);
        var i :| 0 <= i < |steps[1..]| && steps[1..][i] == Expire(r);
        assert steps[i + 1] == Expire(r);
      } else {
        assert steps[0] == Expire(r);
      }
    }
  }

  function Broadcasts(steps: seq<Step>, r: nat): nat {
    if steps == [] then 0 else Broadcasts(steps[1..], r) + if steps[0] == Broadcast(r) then 1 else 0
  }

  /** How many broadcasters the gate of r found when it started. */
  ghost function Audience(kind: Kind, s: State, steps: seq<Step>, r: nat): nat
    requires Legal(kind, s, steps)
    decreases |steps|
  {
    if steps == [] then 0
    else if steps[0] == Start(r) then s.broadcasters
    else Audience(kind, Next(kind, s, steps[0]), steps[1..], r)
  }

  /** How many broadcasts a gate has still before it. */
  function ToGo(p: Phase): nat { if p.Broadcasting? then p.left else 0 }

  predicate Sound(p: Phase) { (p.Broadcasting? ==> p.left > 0) && p != Resuming(CancelledBroadcasting) }

  predicate CutShort(p: Phase) { p == Finished(CancelledBroadcasting) }

  lemma StepBroadcasts(kind: Kind, s: State, step: Step, r: nat)
    requires Enabled(s, step) && r in s.gates && Sound(s.gates[r])
    ensures var p, q, n := s.gates[r], Next(kind, s, step).gates[r], if step == Broadcast(r) then 1 else 0;
            && (CutShort(p) ==> CutShort(q) && n == 0)
            && (!CutShort(p) && !CutShort(q) ==> ToGo(p) == ToGo(q) + n)
            && (!CutShort(p) && CutShort(q) ==> ToGo(p) > 0 && n == 0)
            && Sound(q)
  {
  }

  lemma {:induction false} BroadcastsToGo(kind: Kind, s: State, steps: seq<Step>, r: nat)
    requires Legal(kind, s, steps) && r in s.gates && Sound(s.gates[r])
    ensures var p, t := s.gates[r], Run(kind, s, steps);
            && r in t.gates
            && (CutShort(p) ==> CutShort(t.gates[r]) && Broadcasts(steps, r) == 0)
            && (!CutShort(p) ==>
                  if CutShort(t.gates[r]) then Broadcasts(steps, r) < ToGo(p)
                  else ToGo(p) == ToGo(t.gates[r]) + Broadcasts(steps, r))
    decreases |steps|
  {
    hide Next, Enabled;
    if steps == [] {
    } else {
      StepOfGate(kind, s, steps[0], r);
      StepBroadcasts(kind, s, steps[0], r);
      BroadcastsToGo(kind, Next(kind, s, steps[0]), steps[1..], r);
    }
  }

  /** A gate waits only after every broadcaster that it found has been called;
      one that is cancelled while it broadcasts leaves some out. */
  lemma {:induction false} AllAreCalled(kind: Kind, s: State, steps: seq<Step>, r: nat)
    requires Legal(kind, s, steps) && r !in s.gates && r in Run(kind, s, steps).gates
    ensures var p, called, found := Run(kind, s, steps).gates[r], Broadcasts(steps, r), Audience(kind, s, steps, r);
            match p
            case Broadcasting(left) => called + left == found
            case Finished(CancelledBroadcasting) => called < found
            case _ => called == found
    decreases |steps|
  {
    if steps == [] {
    } else {
      var t := Next(kind, s, steps[0]);
      if steps[0] == Start(r) {
        assert t.gates[r] == Broadcasting(s.broadcasters);
        BroadcastsToGo(kind, t, steps[1..], r);
      } else {
        assert r !in t.gates && steps[0] != Broadcast(r);
        AllAreCalled(kind, t, steps[1..], r);
      }
    }
  }

  // When a decision that was accepted takes effect.

  predicate BreaksOff(step: Step, r: nat) { step == Expire(r) || step == Cancel(r) }

  ghost predicate SomeBreaksOff(steps: seq<Step>, r: nat) {
    exists i :: 0 <= i < |steps| && BreaksOff(steps[i], r)
  }

  /** The gate was broken off: it is about to end without a decision, or has. */
  predicate IsBrokenOff(s: State, r: nat) {
    r in s.gates && match s.gates[r]
                    case Resuming(_) => true
                    case Finished(o) => o != Approved && o != Rejected
                    case _ => false
  }

  lemma StepBreaksOff(kind: Kind, s: State, step: Step, r: nat)
    requires Inv(kind, s) && Enabled(s, step)
    ensures IsBrokenOff(Next(kind, s, step), r) <==> IsBrokenOff(s, r) || BreaksOff(step, r)
  {
    assert GateOk(kind, s, r);
  }

  lemma {:induction false} RunBreaksOff(kind: Kind, s: State, steps: seq<Step>, r: nat)
    requires Inv(kind, s) && Legal(kind, s, steps)
    ensures IsBrokenOff(Run(kind, s, steps), r) <==> IsBrokenOff(s, r) || SomeBreaksOff(steps, r)
    decreases |steps|
  {
    hide Inv, Next, Enabled, IsBrokenOff, BreaksOff;
    if steps == [] {
    } else {
      StepBreaksOff(kind, s, steps[0], r);
      NextKeeps(kind, s, steps[0]);
      RunBreaksOff(kind, Next(kind, s, steps[0]), steps[1..], r);
      FirstOrLater(steps, r);
    }
  }

  lemma FirstOrLater(steps: seq<Step>, r: nat)
    requires steps != []
    ensures SomeBreaksOff(steps, r) <==> BreaksOff(steps[0], r) || SomeBreaksOff(steps[1..], r)
  {
    hide BreaksOff;
    if i :| 0 <= i < |steps[1..]| && BreaksOff(steps[1..][i], r) {
      assert BreaksOff(steps[i + 1], r);
    }
    if i :| 1 <= i < |steps| && BreaksOff(steps[i], r) {
      assert BreaksOff(steps[1..][i - 1], r);
    }
  }

  /** Once its gate has ended, an accepted decision has taken effect (the
      outcome is the decision's) if and only if neither the gate's timeout nor
      a cancellation struck during the run. */
  lemma AcceptedTakesEffectExactly(kind: Kind, steps: seq<Step>, r: nat, i: nat)
    requires Legal(kind, INIT, steps)
    requires var s := Run(kind, INIT, steps);
             && r in s.gates && s.gates[r].Finished?
             && i < |s.log| && s.log[i].req == r && s.log[i].accepted
    ensures var s := Run(kind, INIT, steps);
            s.gates[r].outcome == (if s.log[i].approved then Approved else Rejected) <==> !SomeBreaksOff(steps, r)
  {
    hide Legal, Run, SomeBreaksOff;
    var s := Run(kind, INIT, steps);
    InitInv(kind);
    RunKeeps(kind, INIT, steps);
    RunBreaksOff(kind, INIT, steps, r);
    assert Reachable(kind, s);
    if !IsBrokenOff(s, r) {
      ApprovedOnlyByApproval(kind, s, r);
      var j :| 0 <= j < |s.log| && s.log[j] == Decision(r, s.gates[r].outcome == Approved, true, true);
      AcceptedWasRegistered(kind, INIT, steps);
      SettledAtMostOnce(kind, s, i, j);
    }
  }

  ghost predicate AcceptedRegistered(log: seq<Decision>) {
    forall i :: 0 <= i < |log| && log[i].accepted ==> log[i].registered
  }

  lemma {:induction false} AcceptedWasRegistered(kind: Kind, s: State, steps: seq<Step>)
    requires Legal(kind, s, steps) && AcceptedRegistered(s.log)
    ensures AcceptedRegistered(Run(kind, s, steps).log)
    decreases |steps|
  {
    if steps == [] {
    } else {
      AcceptedWasRegistered(kind, Next(kind, s, steps[0]), steps[1..]);
    }
  }

  // ---------------------------------------------------------------------
  // The registry itself
  // ---------------------------------------------------------------------

  /** The module-level dictionary of pending requests. */
  class Registry {
    var pending: set<nat>
    var futures: map<nat, Future>

    ghost function View(): State
      reads this
    {
      State(0, pending, futures, map[], [])
    }

    constructor ()
      ensures View() == INIT
    {
      pending, futures := {}, map[];
    }

    /** A gate enters its future under its request id. */
    method Open(req: nat)
      modifies this
      ensures pending == old(pending) + {req} && futures == old(futures)[req := Unset]
    {
      futures := futures[req := Unset];
      pending := pending + {req};
    }

    method ResolveDecision(req: nat, approved: bool) returns (resolved: bool)
      requires pending <= futures.Keys
      modifies this
      ensures var t := Decided(old(View()), req, approved);
              pending == t.pending && futures == t.futures && resolved == t.log[0].accepted
      ensures resolved <==> req in old(pending) && old(futures)[req] == Unset
      ensures pending == old(pending) - {req}
      ensures futures == if resolved then old(futures)[req := SetTo(approved)] else old(futures)
      ensures pending <= futures.Keys
    {
      if req !in pending {
        assert pending - {req} == pending;
        return false;
      }
      pending := pending - {req};
      if !futures[req].Unset? {
        return false;
      }
      futures := futures[req := SetTo(approved)];
      resolved := true;
    }
  }
}
