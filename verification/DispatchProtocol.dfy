/** Any number of dispatchers over one reminder table (tools/scheduler.py), as a
    step system: the SELECT, every single UPDATE, every delivery and every
    finalization is a step of its own, and adds, cancels and the steps of other
    dispatchers may fall between any two of them. */
module DispatchProtocol {
  import opened Text
  import opened Reminders

  // ---------------------------------------------------------------------
  // States
  // ---------------------------------------------------------------------

  /** Where a dispatcher stands in its pass; `now` is the pass's clock reading.
      While serving, the head of the queue is being delivered, or has been
      attempted and waits for its finalization. */
  datatype Phase =
    | Idle
    | Claiming(now: real, candidates: seq<Claim>, claimed: seq<Claim>)
    | Serving(now: real, queue: seq<Claim>, attempted: Option<bool>)
  {
    /** The claims taken and not finalized yet. */
    function Held(): seq<Claim> {
      match this
      case Idle => []
      case Claiming(_, _, claimed) => claimed
      case Serving(_, queue, _) => queue
    }

    /** The rows selected and not tried yet. */
    function Pending(): seq<Claim> { if Claiming? then candidates else [] }
  }

  datatype Dispatcher = Dispatcher(origins: set<string>, phase: Phase)

  /** What has happened to one reminder so far. */
  datatype History = History(
    first: real, repeat: real, deliveries: nat, failures: nat, streak: nat, cancelled: bool, dropped: bool)

  datatype State = State(
    rows: Table, nextId: nat, dispatchers: map<nat, Dispatcher>,
    holder: map<nat, nat>, log: map<nat, History>)

  function Init(origins: map<nat, set<string>>): State {
    State(map[], 1, map d | d in origins :: Dispatcher(origins[d], Idle), map[], map[])
  }

  // ---------------------------------------------------------------------
  // Steps
  // ---------------------------------------------------------------------

  datatype Step =
    | Add(text: string, dueAt: real, repeat: real, origin: string, target: Option<string>)
    | Cancel(id: nat, scope: Option<string>, user: Option<string>)
    | Select(d: nat, now: real, found: seq<Claim>)
    | TryClaim(d: nat)
    | EndClaiming(d: nat)
    | Deliver(d: nat, reached: bool)
    | Finalize(d: nat)
    | EndPass(d: nat)

  predicate AtClaiming(s: State, d: nat) { d in s.dispatchers && s.dispatchers[d].phase.Claiming? }

  predicate AtServing(s: State, d: nat) { d in s.dispatchers && s.dispatchers[d].phase.Serving? }

  predicate AtHead(s: State, d: nat, attempted: bool) {
    && AtServing(s, d) && s.dispatchers[d].phase.attempted.Some? == attempted
    && s.dispatchers[d].phase.queue != [] && s.dispatchers[d].phase.queue[0].id in s.log
  }

  ghost predicate Enabled(s: State, step: Step) {
    match step
    case Add(_, _, _, _, _) => true
    case Cancel(_, _, _) => true
    case Select(d, now, found) =>
      && d in s.dispatchers && s.dispatchers[d].phase == Idle
      && ListsDue(found, s.rows, s.dispatchers[d].origins, now)
    case TryClaim(d) => AtClaiming(s, d) && s.dispatchers[d].phase.candidates != []
    case EndClaiming(d) => AtClaiming(s, d) && s.dispatchers[d].phase.candidates == []
    case Deliver(d, _) => AtHead(s, d, false)
    case Finalize(d) => AtHead(s, d, true)
    case EndPass(d) => AtServing(s, d) && s.dispatchers[d].phase.queue == []
  }

  function Become(s: State, d: nat, phase: Phase): State
    requires d in s.dispatchers
  {
    s.(dispatchers := s.dispatchers[d := s.dispatchers[d].(phase := phase)])
  }

  function Added(s: State, row: Row): State {
    s.(rows := s.rows[s.nextId := row],
       log := s.log[s.nextId := History(row.dueAt, row.repeat, 0, 0, 0, false, false)],
       nextId := s.nextId + 1)
  }

  function Cancelled(s: State, id: nat): State
    requires id in s.log
  {
    s.(rows := s.rows - {id}, log := s.log[id := s.log[id].(cancelled := true)])
  }

  function Claimed(s: State, d: nat): State
    requires Enabled(s, TryClaim(d)) && Claimable(s.rows, s.dispatchers[d].phase.candidates[0].id)
  {
    var p := s.dispatchers[d].phase;
    var c := p.candidates[0];
    Become(s, d, Claiming(p.now, p.candidates[1..], p.claimed + [c]))
      .(rows := ClaimRow(s.rows, c.id), holder := s.holder[c.id := d])
  }

  function AfterDeliver(h: History, reached: bool): History {
    if reached then h.(deliveries := h.deliveries + 1)
    else h.(failures := h.failures + 1, streak := h.streak + 1)
  }

  function Delivered(s: State, d: nat, reached: bool): State
    requires AtHead(s, d, false)
  {
    var p := s.dispatchers[d].phase;
    var id := p.queue[0].id;
    Become(s, d, p.(attempted := Some(reached))).(log := s.log[id := AfterDeliver(s.log[id], reached)])
  }

  function Finalized(s: State, d: nat): State
    requires AtHead(s, d, true)
  {
    var p := s.dispatchers[d].phase;
    var c, delivered := p.queue[0], p.attempted.value;
    Become(s, d, Serving(p.now, p.queue[1..], None))
      .(rows := FinalizeRow(s.rows, c, delivered, p.now), holder := s.holder - {c.id},
        log := s.log[c.id := AfterFinalize(s.log[c.id], c, delivered)])
  }

  function Next(s: State, step: Step): State
    requires Enabled(s, step)
  {
    match step
    case Add(text, dueAt, repeat, origin, target) => Added(s, Row(text, dueAt, repeat, origin, target, 0, false))
    case Cancel(id, scope, user) => if Cancels(s.rows, id, scope, user) && id in s.log then Cancelled(s, id) else s
    case Select(d, now, found) => Become(s, d, Claiming(now, found, []))
    case TryClaim(d) =>
      var p := s.dispatchers[d].phase;
      if Claimable(s.rows, p.candidates[0].id) then Claimed(s, d)
      else Become(s, d, p.(candidates := p.candidates[1..]))
    case EndClaiming(d) =>
      var p := s.dispatchers[d].phase;
      Become(s, d, Serving(p.now, p.claimed, None))
    case Deliver(d, reached) => Delivered(s, d, reached)
    case Finalize(d) => Finalized(s, d)
    case EndPass(d) => Become(s, d, Idle)
  }

  predicate GivesUp(c: Claim, delivered: bool) { !delivered && c.row.attempts + 1 >= MAX_RETRIES }

  /** A streak of failures ends with a success or, for a recurring reminder,
      with the skip to its next slot. */
  function AfterFinalize(h: History, c: Claim, delivered: bool): History {
    h.(streak := if c.row.Recurring() && (delivered || GivesUp(c, delivered)) then 0 else h.streak,
       dropped := h.dropped || (GivesUp(c, delivered) && !c.row.Recurring()))
  }

  ghost predicate Legal(s: State, steps: seq<Step>)
    decreases |steps|
  {
    steps == [] || (Enabled(s, steps[0]) && Legal(Next(s, steps[0]), steps[1..]))
  }

  function Run(s: State, steps: seq<Step>): State
    requires Legal(s, steps)
    decreases |steps|
  {
    if steps == [] then s else Run(Next(s, steps[0]), steps[1..])
  }

  // ---------------------------------------------------------------------
  // The invariant of every run
  // ---------------------------------------------------------------------

  ghost predicate Distinct(claims: seq<Claim>) {
    forall i, j :: 0 <= i < j < |claims| ==> claims[i].id != claims[j].id
  }

  /** A claim that dispatcher d holds: its row is fired and still there. */
  predicate HeldOk(s: State, d: nat, c: Claim) {
    && c.id in s.holder && s.holder[c.id] == d
    && c.id in s.rows && s.rows[c.id].fired && s.rows[c.id].repeat == c.row.repeat
  }

  /** A row selected earlier: it may be gone or taken by now, but it has kept
      its period, and its id belongs to no other reminder. */
  predicate PendingOk(s: State, c: Claim) {
    c.id in s.log && (c.id in s.rows ==> s.rows[c.id].repeat == c.row.repeat)
  }

  ghost predicate DispatcherOk(s: State, d: nat, p: Phase) {
    && Distinct(p.Held())
    && (forall i :: 0 <= i < |p.Held()| ==> HeldOk(s, d, p.Held()[i]))
    && (forall i :: 0 <= i < |p.Pending()| ==> PendingOk(s, p.Pending()[i]))
  }

  ghost predicate IsHeldBy(s: State, id: nat, d: nat) {
    && d in s.dispatchers
    && var held := s.dispatchers[d].phase.Held();
       exists i :: 0 <= i < |held| && held[i].id == id
  }

  /** The reminder was delivered and its finalization is still to come. */
  predicate Settling(s: State, id: nat) {
    && id in s.holder && s.holder[id] in s.dispatchers
    && var p := s.dispatchers[s.holder[id]].phase;
       p.Serving? && p.attempted == Some(true) && p.queue != [] && p.queue[0].id == id
  }

  /** Books of one reminder. */
  predicate Account(h: History, row: Option<Row>, held: bool, settling: bool) {
    match row
    case None => h.cancelled && !h.dropped && !held && (h.repeat <= 0.0 ==> h.deliveries == 0)
    case Some(r) =>
      && !h.cancelled && r.repeat == h.repeat
      && r.attempts < MAX_RETRIES
      && (held ==> r.fired)
      && if r.Recurring() then !h.dropped && (r.fired ==> held)
         else if !r.fired then h.deliveries == 0 && !h.dropped
         else if held then h.deliveries == (if settling then 1 else 0) && !h.dropped
         else h.deliveries == (if h.dropped then 0 else 1)
  }

  function RowOf(s: State, id: nat): Option<Row> { if id in s.rows then Some(s.rows[id]) else None }

  ghost predicate IdsOk(s: State) {
    && s.nextId >= 1
    && (forall id: nat :: id in s.log <==> 1 <= id < s.nextId)
    && s.rows.Keys <= s.log.Keys && s.holder.Keys <= s.rows.Keys
  }

  ghost predicate DispatchersOk(s: State) {
    forall d :: d in s.dispatchers ==> DispatcherOk(s, d, s.dispatchers[d].phase)
  }

  ghost predicate HoldersOk(s: State) { forall id :: id in s.holder ==> IsHeldBy(s, id, s.holder[id]) }

  ghost predicate BooksOk(s: State) {
    forall id :: id in s.log ==> Account(s.log[id], RowOf(s, id), id in s.holder, Settling(s, id))
  }

  ghost predicate Inv(s: State) { IdsOk(s) && DispatchersOk(s) && HoldersOk(s) && BooksOk(s) }

  lemma InitInv(origins: map<nat, set<string>>)
    ensures Inv(Init(origins))
  {
  }

  /** Steps that leave what the dispatchers hold, and every row that is held or
      listed, as it was. */
  lemma DispatchersKept(s: State, t: State)
    requires IdsOk(s) && DispatchersOk(s) && s.log.Keys <= t.log.Keys
    requires forall id :: id in s.holder ==>
      id in t.holder && t.holder[id] == s.holder[id] && id in t.rows && t.rows[id] == s.rows[id]
    requires forall id :: id in s.log && id in t.rows ==> id in s.rows && t.rows[id].repeat == s.rows[id].repeat
    requires t.dispatchers == s.dispatchers
    ensures DispatchersOk(t)
  {
  }

  lemma AddKeepsBooks(s: State, row: Row)
    requires IdsOk(s) && BooksOk(s) && row.attempts == 0 && !row.fired
    ensures IdsOk(Added(s, row)) && BooksOk(Added(s, row))
  {
  }

  lemma AddKeeps(s: State, row: Row)
    requires Inv(s) && row.attempts == 0 && !row.fired
    ensures Inv(Added(s, row))
  {
    hide Account;
    DispatchersKept(s, Added(s, row));
    HoldersKept(s, Added(s, row));
    AddKeepsBooks(s, row);
  }

  lemma CancelKeeps(s: State, id: nat)
    requires Inv(s) && Claimable(s.rows, id)
    ensures Inv(Cancelled(s, id))
  {
    var t := Cancelled(s, id);
    assert Account(s.log[id], RowOf(s, id), id in s.holder, Settling(s, id));
    DispatchersKept(s, t);
    HoldersKept(s, t);
    hide DispatcherOk, IsHeldBy, DispatchersOk, HoldersOk;
    forall x | x in t.log
      ensures Account(t.log[x], RowOf(t, x), x in t.holder, Settling(t, x))
    {
      assert Account(s.log[x], RowOf(s, x), x in s.holder, Settling(s, x));
      assert Settling(s, x) == Settling(t, x);
    }
  }

  lemma HoldersKept(s: State, t: State)
    requires HoldersOk(s) && t.holder == s.holder && t.dispatchers.Keys == s.dispatchers.Keys
    requires forall d :: d in s.dispatchers ==> t.dispatchers[d].phase.Held() == s.dispatchers[d].phase.Held()
    ensures HoldersOk(t)
  {
  }

  lemma PhaseChangeKeepsDispatchers(s: State, d: nat, phase: Phase)
    requires DispatchersOk(s) && d in s.dispatchers
    requires phase.Held() == s.dispatchers[d].phase.Held()
    requires forall i :: 0 <= i < |phase.Pending()| ==> PendingOk(s, phase.Pending()[i])
    ensures DispatchersOk(Become(s, d, phase))
  {
  }

  lemma PhaseChangeKeepsBooks(s: State, d: nat, phase: Phase)
    requires BooksOk(s) && d in s.dispatchers
    requires phase.Serving? ==> phase.attempted == None
    requires s.dispatchers[d].phase.Serving? ==> s.dispatchers[d].phase.queue == []
    ensures BooksOk(Become(s, d, phase))
  {
    hide Account;
    var t := Become(s, d, phase);
    assert forall id :: id in s.log ==> Settling(s, id) == Settling(t, id) && RowOf(s, id) == RowOf(t, id);
  }

  /** Steps that change one dispatcher's phase and nothing it holds. */
  lemma PhaseChangeKeeps(s: State, d: nat, phase: Phase)
    requires Inv(s) && d in s.dispatchers
    requires phase.Held() == s.dispatchers[d].phase.Held()
    requires forall i :: 0 <= i < |phase.Pending()| ==> PendingOk(s, phase.Pending()[i])
    requires phase.Serving? ==> phase.attempted == None
    requires s.dispatchers[d].phase.Serving? ==> s.dispatchers[d].phase.queue == []
    ensures Inv(Become(s, d, phase))
  {
    hide Account, DispatchersOk, HoldersOk, BooksOk;
    PhaseChangeKeepsDispatchers(s, d, phase);
    HoldersKept(s, Become(s, d, phase));
    PhaseChangeKeepsBooks(s, d, phase);
  }

  lemma ClaimKeepsDispatchers(s: State, d: nat)
    requires DispatchersOk(s) && Enabled(s, TryClaim(d)) && Claimable(s.rows, s.dispatchers[d].phase.candidates[0].id)
    ensures DispatchersOk(Claimed(s, d))
  {
    var t := Claimed(s, d);
    var p := s.dispatchers[d].phase;
    var c := p.candidates[0];
    assert DispatcherOk(s, d, p) && PendingOk(s, p.Pending()[0]);
    forall e | e in t.dispatchers
      ensures DispatcherOk(t, e, t.dispatchers[e].phase)
    {
      var q, q' := s.dispatchers[e].phase, t.dispatchers[e].phase;
      assert DispatcherOk(s, e, q);
      assert forall i :: 0 <= i < |q.Held()| ==> HeldOk(s, e, q.Held()[i]) && q.Held()[i].id != c.id;
      assert forall i :: 0 <= i < |q'.Held()| ==> q'.Held()[i] == if i < |q.Held()| then q.Held()[i] else c;
      assert forall i :: 0 <= i < |q'.Held()| ==> HeldOk(t, e, q'.Held()[i]);
      forall i | 0 <= i < |q'.Pending()|
        ensures PendingOk(t, q'.Pending()[i])
      {
        assert q'.Pending()[i] == if e == d then q.Pending()[i + 1] else q.Pending()[i];
      }
    }
  }

  /** A claim goes to a row that nobody holds. */
  lemma ClaimKeepsBooks(s: State, d: nat)
    requires IdsOk(s) && BooksOk(s) && Enabled(s, TryClaim(d))
    requires Claimable(s.rows, s.dispatchers[d].phase.candidates[0].id)
    ensures IdsOk(Claimed(s, d)) && BooksOk(Claimed(s, d))
  {
    var t := Claimed(s, d);
    var c := s.dispatchers[d].phase.candidates[0];
    assert Account(s.log[c.id], RowOf(s, c.id), c.id in s.holder, Settling(s, c.id));
    forall id | id in t.log
      ensures Account(t.log[id], RowOf(t, id), id in t.holder, Settling(t, id))
    {
      if id != c.id {
        assert Account(s.log[id], RowOf(s, id), id in s.holder, Settling(s, id));
        assert Settling(s, id) == Settling(t, id);
      }
    }
  }

  lemma ClaimKeepsHolders(s: State, d: nat)
    requires HoldersOk(s) && Enabled(s, TryClaim(d)) && Claimable(s.rows, s.dispatchers[d].phase.candidates[0].id)
    ensures HoldersOk(Claimed(s, d))
  {
    var t := Claimed(s, d);
    var p := s.dispatchers[d].phase;
    var c := p.candidates[0];
    forall id | id in t.holder
      ensures IsHeldBy(t, id, t.holder[id])
    {
      var held := t.dispatchers[t.holder[id]].phase.Held();
      if id == c.id {
        assert held[|p.claimed|] == c;
      } else {
        assert IsHeldBy(s, id, s.holder[id]);
        var was := s.dispatchers[s.holder[id]].phase.Held();
        var i :| 0 <= i < |was| && was[i].id == id;
        assert held[i] == was[i];
      }
    }
  }

  lemma DeliverKeepsDispatchers(s: State, d: nat, reached: bool)
    requires DispatchersOk(s) && AtHead(s, d, false)
    ensures DispatchersOk(Delivered(s, d, reached))
  {
  }

  lemma DeliverKeepsHolders(s: State, d: nat, reached: bool)
    requires HoldersOk(s) && AtHead(s, d, false)
    ensures HoldersOk(Delivered(s, d, reached))
  {
  }

  lemma DeliverKeepsBooks(s: State, d: nat, reached: bool)
    requires IdsOk(s) && BooksOk(s) && AtHead(s, d, false)
    requires HeldOk(s, d, s.dispatchers[d].phase.queue[0])
    ensures IdsOk(Delivered(s, d, reached)) && BooksOk(Delivered(s, d, reached))
  {
  }

  /** The claim finalized is the only one on its row. */
  lemma OnlyClaim(s: State, d: nat, e: nat, i: nat)
    requires DispatchersOk(s) && AtHead(s, d, true) && e in s.dispatchers
    requires i < |s.dispatchers[e].phase.Held()|
    ensures s.dispatchers[e].phase.Held()[i].id == s.dispatchers[d].phase.queue[0].id <==> e == d && i == 0
  {
  }

  lemma FinalizeKeepsDispatchers(s: State, d: nat)
    requires DispatchersOk(s) && AtHead(s, d, true)
    ensures DispatchersOk(Finalized(s, d))
  {
    var t := Finalized(s, d);
    var c := s.dispatchers[d].phase.queue[0];
    forall e | e in t.dispatchers
      ensures DispatcherOk(t, e, t.dispatchers[e].phase)
    {
      var q, q' := s.dispatchers[e].phase, t.dispatchers[e].phase;
      assert DispatcherOk(s, e, q);
      forall i | 0 <= i < |q'.Held()|
        ensures HeldOk(t, e, q'.Held()[i])
      {
        var j := if e == d then i + 1 else i;
        assert q'.Held()[i] == q.Held()[j];
        OnlyClaim(s, d, e, j);
        assert HeldOk(s, e, q.Held()[j]);
      }
      assert forall i :: 0 <= i < |q'.Pending()| ==> PendingOk(s, q'.Pending()[i]) && PendingOk(t, q'.Pending()[i]);
    }
  }

  lemma FinalizeKeepsHolders(s: State, d: nat)
    requires HoldersOk(s) && AtHead(s, d, true)
    ensures HoldersOk(Finalized(s, d))
  {
  }

  lemma FinalizeKeepsBooks(s: State, d: nat)
    requires IdsOk(s) && BooksOk(s) && AtHead(s, d, true) && HeldOk(s, d, s.dispatchers[d].phase.queue[0])
    ensures BooksOk(Finalized(s, d)) && IdsOk(Finalized(s, d))
  {
    hide NextSlot;
    var t := Finalized(s, d);
    var p := s.dispatchers[d].phase;
    var c := p.queue[0];
    assert Account(s.log[c.id], RowOf(s, c.id), true, p.attempted.value);
    forall id | id in t.log
      ensures Account(t.log[id], RowOf(t, id), id in t.holder, Settling(t, id))
    {
      assert Account(s.log[id], RowOf(s, id), id in s.holder, Settling(s, id));
      if id != c.id {
        assert Settling(s, id) == Settling(t, id);
      }
    }
  }

  /** Every step of every interleaving keeps the invariant. */
  lemma NextKeeps(s: State, step: Step)
    requires Inv(s) && Enabled(s, step)
    ensures Inv(Next(s, step))
  {
    hide Account, FinalizeRow, ClaimRow, Claimed, Delivered, Finalized, Added, Cancelled;
    match step
    case Add(text, dueAt, repeat, origin, target) => AddKeeps(s, Row(text, dueAt, repeat, origin, target, 0, false));
    case Cancel(id, scope, user) =>
      if Cancels(s.rows, id, scope, user) && id in s.log {
        CancelKeeps(s, id);
      }
    case Select(d, now, found) => PhaseChangeKeeps(s, d, Claiming(now, found, []));
    case TryClaim(d) =>
      var p := s.dispatchers[d].phase;
      assert DispatcherOk(s, d, p);
      if Claimable(s.rows, p.candidates[0].id) {
        ClaimKeepsDispatchers(s, d);
        ClaimKeepsHolders(s, d);
        ClaimKeepsBooks(s, d);
      } else {
        var p' := p.(candidates := p.candidates[1..]);
        assert forall i :: 0 <= i < |p'.Pending()| ==> p'.Pending()[i] == p.Pending()[i + 1];
        PhaseChangeKeeps(s, d, p');
      }
    case EndClaiming(d) =>
      var p := s.dispatchers[d].phase;
      PhaseChangeKeeps(s, d, Serving(p.now, p.claimed, None));
    case Deliver(d, reached) =>
      var p := s.dispatchers[d].phase;
      assert DispatcherOk(s, d, p) && HeldOk(s, d, p.Held()[0]);
      DeliverKeepsDispatchers(s, d, reached);
      DeliverKeepsHolders(s, d, reached);
      DeliverKeepsBooks(s, d, reached);
    case Finalize(d) =>
      var p := s.dispatchers[d].phase;
      assert DispatcherOk(s, d, p) && HeldOk(s, d, p.Held()[0]);
      FinalizeKeepsDispatchers(s, d);
      FinalizeKeepsHolders(s, d);
      FinalizeKeepsBooks(s, d);
    case EndPass(d) => PhaseChangeKeeps(s, d, Idle);
  }

  lemma {:induction false} RunKeeps(s: State, steps: seq<Step>)
    requires Inv(s) && Legal(s, steps)
    ensures Inv(Run(s, steps))
    decreases |steps|
  {
    hide Enabled, Next, Inv;
    if steps == [] {
    } else {
      NextKeeps(s, steps[0]);
      RunKeeps(Next(s, steps[0]), steps[1..]);
    }
  }
}
