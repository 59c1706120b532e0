/** What holds over whole runs of the dispatch protocol. */
module DispatchTheorems {
  import opened Text
  import opened Reminders
  import opened DispatchProtocol

  /** The states of all runs, from an empty table and idle dispatchers. */
  ghost predicate Reachable(origins: map<nat, set<string>>, s: State) {
    exists steps :: Legal(Init(origins), steps) && Run(Init(origins), steps) == s
  }

  lemma ReachableInv(origins: map<nat, set<string>>, s: State)
    requires Reachable(origins, s)
    ensures Inv(s)
  {
    hide Inv;
    var steps :| Legal(Init(origins), steps) && Run(Init(origins), steps) == s;
    InitInv(origins);
    RunKeeps(Init(origins), steps);
  }

  // ---------------------------------------------------------------------
  // Whatever the origins
  // ---------------------------------------------------------------------

  /** No reminder is claimed twice at a time: neither by two dispatchers nor
      twice by one. */
  lemma AtMostOneClaim(origins: map<nat, set<string>>, s: State, d: nat, i: nat, e: nat, j: nat)
    requires Reachable(origins, s) && d in s.dispatchers && e in s.dispatchers
    requires i < |s.dispatchers[d].phase.Held()| && j < |s.dispatchers[e].phase.Held()|
    requires s.dispatchers[d].phase.Held()[i].id == s.dispatchers[e].phase.Held()[j].id
    ensures d == e && i == j
  {
    ReachableInv(origins, s);
    var p, q := s.dispatchers[d].phase, s.dispatchers[e].phase;
    assert DispatcherOk(s, d, p) && DispatcherOk(s, e, q);
    assert HeldOk(s, d, p.Held()[i]) && HeldOk(s, e, q.Held()[j]);
  }

  /** A one-shot reminder is reported delivered at most once over the whole
      run, and never after it was cancelled. */
  lemma OneShotAtMostOnce(origins: map<nat, set<string>>, s: State, id: nat)
    requires Reachable(origins, s) && id in s.log && s.log[id].repeat <= 0.0
    ensures s.log[id].deliveries <= 1
    ensures s.log[id].cancelled ==> s.log[id].deliveries == 0
  {
    ReachableInv(origins, s);
    assert Account(s.log[id], RowOf(s, id), id in s.holder, Settling(s, id));
  }

  ghost predicate IsHeld(s: State, id: nat) { exists d :: IsHeldBy(s, id, d) }

  predicate IsPending(s: State, id: nat) { id in s.rows && !s.rows[id].fired }

  ghost predicate IsDone(s: State, id: nat) {
    id in s.rows && s.rows[id].fired && !IsHeld(s, id) && id in s.log && s.log[id].deliveries > 0
  }

  predicate IsDropped(s: State, id: nat) { id in s.log && s.log[id].dropped }

  predicate IsCancelled(s: State, id: nat) { id in s.log && s.log[id].cancelled }

  function One(b: bool): nat { if b then 1 else 0 }

  /** Every reminder ever added is in exactly one of five places, and a dropped
      or cancelled one has no claim outstanding. */
  lemma Conservation(origins: map<nat, set<string>>, s: State, id: nat)
    requires Reachable(origins, s) && 1 <= id < s.nextId
    ensures One(IsPending(s, id)) + One(IsHeld(s, id)) + One(IsDone(s, id)) + One(IsDropped(s, id))
          + One(IsCancelled(s, id)) == 1
  {
    ReachableInv(origins, s);
    HeldIffHolder(s, id);
    assert Account(s.log[id], RowOf(s, id), id in s.holder, Settling(s, id));
  }

  lemma HeldIffHolder(s: State, id: nat)
    requires Inv(s)
    ensures IsHeld(s, id) <==> id in s.holder
  {
  }

  /** The retry counter never reaches the limit. */
  lemma AttemptsBelowLimit(origins: map<nat, set<string>>, s: State, id: nat)
    requires Reachable(origins, s) && id in s.rows
    ensures s.rows[id].attempts < MAX_RETRIES
  {
    ReachableInv(origins, s);
    assert Account(s.log[id], RowOf(s, id), id in s.holder, Settling(s, id));
  }

  /** A cancelled id stays cancelled: no step claims or delivers it again. */
  lemma CancelledStep(s: State, step: Step, id: nat)
    requires Inv(s) && Enabled(s, step) && IsCancelled(s, id)
    ensures IsCancelled(Next(s, step), id) && Next(s, step).log[id] == s.log[id]
  {
    assert Account(s.log[id], RowOf(s, id), id in s.holder, Settling(s, id));
    match step
    case Deliver(d, _) =>
      assert DispatcherOk(s, d, s.dispatchers[d].phase) && HeldOk(s, d, s.dispatchers[d].phase.Held()[0]);
    case Finalize(d) =>
      assert DispatcherOk(s, d, s.dispatchers[d].phase) && HeldOk(s, d, s.dispatchers[d].phase.Held()[0]);
    case _ =>
  }

  /** Once a cancel has succeeded, nothing more happens to the reminder in any
      continuation of the run: no delivery, successful or failed, even if the
      cancel fell between a dispatcher's SELECT and its UPDATE. */
  lemma {:induction false} CancelledForGood(s: State, steps: seq<Step>, id: nat)
    requires Inv(s) && Legal(s, steps) && IsCancelled(s, id)
    ensures id in Run(s, steps).log && Run(s, steps).log[id] == s.log[id]
    decreases |steps|
  {
    hide Inv, Enabled, Next;
    if steps == [] {
    } else {
      CancelledStep(s, steps[0], id);
      NextKeeps(s, steps[0]);
      CancelledForGood(Next(s, steps[0]), steps[1..], id);
    }
  }

  /** A cancel that reports success cancels; one that does not changes nothing. */
  lemma CancelReportsTruth(s: State, id: nat, scope: Option<string>, user: Option<string>)
    requires Inv(s)
    ensures var t := Next(s, Cancel(id, scope, user));
            if Cancels(s.rows, id, scope, user)
            then IsCancelled(t, id) && id !in t.rows && !IsHeld(t, id)
            else t == s
  {
  }

  // ---------------------------------------------------------------------
  // What single steps do, in numbers
  // ---------------------------------------------------------------------

  /** x is due + j repeat. */
  predicate IsSlot(x: real, due: real, repeat: real, j: nat) { x == due + j as real * repeat }

  /** The row is due again at the first of due + repeat, due + 2 repeat, ...
      that is later than now. */
  ghost predicate DueAtNextSlot(row: Row, due: real, repeat: real, now: real) {
    && (exists k: nat :: k >= 1 && IsSlot(row.dueAt, due, repeat, k))
    && row.dueAt > now
    && forall j: nat, x: real :: j >= 1 && IsSlot(x, due, repeat, j) && x > now ==> row.dueAt <= x
  }

  lemma NextSlotIsDue(row: Row, due: real, repeat: real, now: real)
    requires repeat > 0.0 && row.dueAt == NextSlot(due, repeat, now)
    ensures DueAtNextSlot(row, due, repeat, now)
  {
    hide SlotCount;
    NextSlotIsLeast(due, repeat, now);
    assert IsSlot(row.dueAt, due, repeat, SlotCount(due, repeat, now));
    forall j: nat, x: real | j >= 1 && IsSlot(x, due, repeat, j) && x > now
      ensures row.dueAt <= x
    {
      assert x == Slot(due, repeat, j);
    }
  }

  /** A finalization, by its outcome: a success, and the last of 4320 failures,
      make a recurring reminder due at its next slot with no failures counted,
      and leave a one-shot consumed; any other failure is counted and makes the
      reminder due 20 seconds later.  Other rows, and what the row says, stay. */
  lemma FinalizeExactly(s: State, d: nat)
    requires Inv(s) && Enabled(s, Finalize(d))
    ensures var p, t := s.dispatchers[d].phase, Next(s, Finalize(d));
            var c, delivered := p.queue[0], p.attempted.value;
            && c.id in s.rows && t.rows.Keys == s.rows.Keys
            && (forall id :: id in s.rows && id != c.id ==> t.rows[id] == s.rows[id])
            && var was, row := s.rows[c.id], t.rows[c.id];
               && row == was.(dueAt := row.dueAt, attempts := row.attempts, fired := row.fired)
               && if !delivered && c.row.attempts + 1 < 4320
                  then !row.fired && row.dueAt == p.now + 20.0 && row.attempts == c.row.attempts + 1
                  else if c.row.repeat > 0.0
                  then !row.fired && row.attempts == 0 && DueAtNextSlot(row, c.row.dueAt, c.row.repeat, p.now)
                  else row == was
  {
    var p := s.dispatchers[d].phase;
    assert DispatcherOk(s, d, p) && HeldOk(s, d, p.Held()[0]);
    hide Inv, DispatcherOk, HeldOk, NextSlot, DueAtNextSlot;
    var c, t := p.queue[0], Next(s, Finalize(d));
    if c.row.repeat > 0.0 && t.rows[c.id].dueAt == NextSlot(c.row.dueAt, c.row.repeat, p.now) {
      NextSlotIsDue(t.rows[c.id], c.row.dueAt, c.row.repeat, p.now);
    }
  }

  /** A SELECT reads exactly the unfired rows of the dispatcher's origins whose
      time has come. */
  lemma SelectExactly(s: State, d: nat, now: real, found: seq<Claim>, id: nat)
    requires Enabled(s, Select(d, now, found))
    ensures (exists i :: 0 <= i < |found| && found[i].id == id) <==>
            && id in s.rows && !s.rows[id].fired && s.rows[id].dueAt <= now
            && s.rows[id].origin in s.dispatchers[d].origins
    ensures Next(s, Select(d, now, found)).rows == s.rows
  {
    if id in s.rows && IsDue(s.rows[id], s.dispatchers[d].origins, now) {
      var i :| 0 <= i < |found| && found[i] == Claim(id, s.rows[id]);
    }
  }

  /** A cancel takes exactly a pending row with the caller's origin and target,
      where the caller gives them. */
  lemma CancelExactly(s: State, id: nat, scope: Option<string>, user: Option<string>)
    requires Inv(s)
    ensures var t := Next(s, Cancel(id, scope, user));
            if && id in s.rows && !s.rows[id].fired
               && (scope.Some? ==> s.rows[id].origin == scope.value)
               && (user.Some? ==> s.rows[id].target == Some(user.value))
            then t.rows == s.rows - {id} && IsCancelled(t, id)
            else t == s
  {
  }

  lemma AddExactly(s: State, text: string, dueAt: real, repeat: real, origin: string, target: Option<string>)
    requires Inv(s)
    ensures var t := Next(s, Add(text, dueAt, repeat, origin, target));
            && s.nextId !in s.rows && t.nextId == s.nextId + 1
            && t.rows == s.rows[s.nextId := Row(text, dueAt, repeat, origin, target, 0, false)]
            && t.dispatchers == s.dispatchers
  {
  }

  // ---------------------------------------------------------------------
  // Counted on the steps of a run
  // ---------------------------------------------------------------------

  /** The step hands this reminder to a surface. */
  predicate Hands(s: State, step: Step, id: nat)
  {
    step.Deliver? && AtHead(s, step.d, false) && s.dispatchers[step.d].phase.queue[0].id == id
  }

  /** How many deliveries of a reminder the steps report as reached, or as
      failed. */
  ghost function Reports(s: State, steps: seq<Step>, id: nat, reached: bool): nat
    requires Legal(s, steps)
    decreases |steps|
  {
    if steps == [] then 0
    else
      (if Hands(s, steps[0], id) && steps[0].reached == reached then 1 else 0)
      + Reports(Next(s, steps[0]), steps[1..], id, reached)
  }

  lemma StepReports(s: State, step: Step, id: nat)
    requires IdsOk(s) && Enabled(s, step) && id in s.log
    ensures var h, t := s.log[id], Next(s, step);
            && id in t.log && t.log[id].repeat == h.repeat
            && t.log[id].deliveries == h.deliveries + (if Hands(s, step, id) && step.reached then 1 else 0)
            && t.log[id].failures == h.failures + (if Hands(s, step, id) && !step.reached then 1 else 0)
  {
    hide FinalizeRow, ClaimRow, ListsDue;
  }

  lemma NotYetAdded(s: State, step: Step, id: nat)
    requires IdsOk(s) && Enabled(s, step) && id !in s.log
    ensures !Hands(s, step, id)
    ensures var t := Next(s, step); id in t.log ==> t.log[id].deliveries == t.log[id].failures == 0
  {
    hide FinalizeRow, ClaimRow, ListsDue;
  }

  function DeliveriesOf(s: State, id: nat): nat { if id in s.log then s.log[id].deliveries else 0 }

  function FailuresOf(s: State, id: nat): nat { if id in s.log then s.log[id].failures else 0 }

  /** The books agree with the steps. */
  lemma {:induction false} BooksAreSteps(s: State, steps: seq<Step>, id: nat)
    requires Inv(s) && Legal(s, steps)
    ensures DeliveriesOf(Run(s, steps), id) == DeliveriesOf(s, id) + Reports(s, steps, id, true)
    ensures FailuresOf(Run(s, steps), id) == FailuresOf(s, id) + Reports(s, steps, id, false)
    decreases |steps|
  {
    if steps == [] {
    } else {
      InvIds(s);
      hide Inv, IdsOk, Enabled, Next, Hands;
      if id in s.log {
        StepReports(s, steps[0], id);
      } else {
        NotYetAdded(s, steps[0], id);
      }
      NextKeeps(s, steps[0]);
      BooksAreSteps(Next(s, steps[0]), steps[1..], id);
    }
  }

  lemma InvIds(s: State)
    requires Inv(s)
    ensures IdsOk(s)
  {
  }

  /** No run has two steps that report one and the same one-shot reminder as
      delivered. */
  lemma OneShotReportedOnce(origins: map<nat, set<string>>, steps: seq<Step>, id: nat)
    requires Legal(Init(origins), steps)
    requires var s := Run(Init(origins), steps); id in s.log && s.log[id].repeat <= 0.0
    ensures Reports(Init(origins), steps, id, true) <= 1
  {
    hide Inv, Legal, Run, Reports;
    InitInv(origins);
    BooksAreSteps(Init(origins), steps, id);
    OneShotAtMostOnce(origins, Run(Init(origins), steps), id);
  }

  /** After a cancel that succeeded, no step of the run hands the reminder to
      anyone. */
  lemma NothingAfterCancel(
    s: State, id: nat, scope: Option<string>, user: Option<string>, steps: seq<Step>, reached: bool)
    requires Inv(s) && Cancels(s.rows, id, scope, user) && Legal(Next(s, Cancel(id, scope, user)), steps)
    ensures Reports(Next(s, Cancel(id, scope, user)), steps, id, reached) == 0
  {
    CancelReportsTruth(s, id, scope, user);
    NextKeeps(s, Cancel(id, scope, user));
    hide Inv, Legal, Run, Reports, Next;
    var t := Next(s, Cancel(id, scope, user));
    CancelledForGood(t, steps, id);
    BooksAreSteps(t, steps, id);
  }
}
