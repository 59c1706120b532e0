/** What the dispatch protocol adds when, as intended, no two dispatchers serve
    the same origin: claims are fresh, retries are counted exactly, due times
    move forward, and recurring reminders keep their rhythm. */
module DisjointOrigins {
  import opened Text
  import opened Reminders
  import opened DispatchProtocol
  import opened DispatchTheorems

  ghost predicate Disjoint(s: State) {
    forall d, e :: d in s.dispatchers && e in s.dispatchers && d != e ==>
      s.dispatchers[d].origins !! s.dispatchers[e].origins
  }

  /** The clock reading of a pass, by which all its claims were due. */
  predicate DueBy(p: Phase, c: Claim) {
    match p
    case Idle => false
    case Claiming(now, _, _) => c.row.dueAt <= now
    case Serving(now, _, _) => c.row.dueAt <= now
  }

  /** A held claim carries the stored values. */
  predicate HeldFresh(s: State, d: nat, c: Claim)
    requires d in s.dispatchers
  {
    && c.id in s.rows && s.rows[c.id] == c.row.(fired := true) && !c.row.fired
    && c.row.origin in s.dispatchers[d].origins && DueBy(s.dispatchers[d].phase, c)
  }

  /** A row selected and not tried yet is as it was read, or cancelled. */
  predicate PendingFresh(s: State, d: nat, c: Claim)
    requires d in s.dispatchers
  {
    && (c.id in s.rows ==> s.rows[c.id] == c.row) && !c.row.fired
    && c.row.origin in s.dispatchers[d].origins && DueBy(s.dispatchers[d].phase, c)
  }

  ghost predicate FreshAt(s: State, d: nat)
    requires d in s.dispatchers
  {
    var p := s.dispatchers[d].phase;
    && (forall i :: 0 <= i < |p.Held()| ==> HeldFresh(s, d, p.Held()[i]))
    && (forall i :: 0 <= i < |p.Pending()| ==> PendingFresh(s, d, p.Pending()[i]))
    && Distinct(p.Pending())
  }

  ghost predicate Fresh(s: State) { forall d :: d in s.dispatchers ==> FreshAt(s, d) }

  /** The reminder's last delivery failed and its finalization is to come. */
  predicate Failing(s: State, id: nat) {
    && id in s.holder && s.holder[id] in s.dispatchers
    && var p := s.dispatchers[s.holder[id]].phase;
       p.Serving? && p.attempted == Some(false) && p.queue != [] && p.queue[0].id == id
  }

  ghost predicate OnBeat(due: real, h: History) { exists k: nat :: due == Slot(h.first, h.repeat, k) }

  /** Counting of failures, and the rhythm of a recurring reminder. */
  ghost predicate Counts(h: History, row: Option<Row>, failing: bool) {
    && (h.dropped ==> h.failures == MAX_RETRIES)
    && h.streak <= h.failures && (h.repeat <= 0.0 ==> h.failures == h.streak)
    && (row.Some? ==>
          && (!h.dropped ==> h.streak == row.value.attempts + One(failing))
          && (h.repeat > 0.0 && h.failures == 0 ==> OnBeat(row.value.dueAt, h)))
  }

  ghost predicate CountsOk(s: State) {
    forall id :: id in s.log ==> Counts(s.log[id], RowOf(s, id), Failing(s, id))
  }

  ghost predicate Strict(s: State) { Inv(s) && Disjoint(s) && Fresh(s) && CountsOk(s) }

  // ---------------------------------------------------------------------
  // Freshness is kept
  // ---------------------------------------------------------------------

  /** Steps that leave all dispatchers alone, and every row that is held or
      listed unless it is gone. */
  lemma FreshKept(s: State, t: State)
    requires Inv(s) && Fresh(s) && t.dispatchers == s.dispatchers
    requires forall id :: id in s.rows && s.rows[id].fired ==> id in t.rows
    requires forall id :: id in s.log && id in t.rows ==> id in s.rows && t.rows[id] == s.rows[id]
    ensures Fresh(t)
  {
    forall d | d in t.dispatchers
      ensures FreshAt(t, d)
    {
      var p := s.dispatchers[d].phase;
      assert FreshAt(s, d) && DispatcherOk(s, d, p);
      assert forall i :: 0 <= i < |p.Held()| ==> HeldFresh(s, d, p.Held()[i]) && HeldFresh(t, d, p.Held()[i]);
      assert forall i :: 0 <= i < |p.Pending()| ==>
        PendingOk(s, p.Pending()[i]) && PendingFresh(s, d, p.Pending()[i]) && PendingFresh(t, d, p.Pending()[i]);
    }
  }

  lemma SelectFresh(s: State, d: nat, now: real, found: seq<Claim>)
    requires Fresh(s) && Enabled(s, Select(d, now, found))
    ensures Fresh(Become(s, d, Claiming(now, found, [])))
  {
  }

  /** A phase change that keeps or shortens what is held and pending. */
  lemma PhaseFresh(s: State, d: nat, phase: Phase, drop: nat)
    requires Fresh(s) && d in s.dispatchers
    requires var p := s.dispatchers[d].phase;
             && phase.Held() == p.Held() && drop <= |p.Pending()| && phase.Pending() == p.Pending()[drop..]
             && (if phase.Idle? then phase.Held() == [] else forall c :: DueBy(p, c) ==> DueBy(phase, c))
    ensures Fresh(Become(s, d, phase))
  {
  }

  /** Of the due rows a dispatcher has read, no other dispatcher has read one. */
  lemma ClaimFresh(s: State, d: nat)
    requires DispatchersOk(s) && Disjoint(s) && Fresh(s) && Enabled(s, TryClaim(d))
    requires Claimable(s.rows, s.dispatchers[d].phase.candidates[0].id)
    ensures Fresh(Claimed(s, d))
  {
    var t := Claimed(s, d);
    var c := s.dispatchers[d].phase.candidates[0];
    assert FreshAt(s, d) && PendingFresh(s, d, s.dispatchers[d].phase.Pending()[0]);
    forall e | e in t.dispatchers
      ensures FreshAt(t, e)
    {
      var p, q := s.dispatchers[e].phase, t.dispatchers[e].phase;
      assert FreshAt(s, e) && DispatcherOk(s, e, p);
      forall i | 0 <= i < |q.Held()|
        ensures HeldFresh(t, e, q.Held()[i])
      {
        if i < |p.Held()| {
          assert q.Held()[i] == p.Held()[i] && HeldFresh(s, e, p.Held()[i]) && HeldOk(s, e, p.Held()[i]);
        }
      }
      forall i | 0 <= i < |q.Pending()|
        ensures PendingFresh(t, e, q.Pending()[i])
      {
        var j := if e == d then i + 1 else i;
        assert q.Pending()[i] == p.Pending()[j] && PendingFresh(s, e, p.Pending()[j]);
        assert e == d ==> p.Pending()[j].id != p.Pending()[0].id;
        assert q.Pending()[i].id != c.id;
      }
      assert Distinct(q.Pending()) by {
        assert forall i :: 0 <= i < |q.Pending()| ==> q.Pending()[i] == p.Pending()[if e == d then i + 1 else i];
      }
    }
  }

  lemma DeliverFresh(s: State, d: nat, reached: bool)
    requires Fresh(s) && AtHead(s, d, false)
    ensures Fresh(Delivered(s, d, reached))
  {
    var t := Delivered(s, d, reached);
    forall e | e in t.dispatchers
      ensures FreshAt(t, e)
    {
      assert FreshAt(s, e);
      var p, q := s.dispatchers[e].phase, t.dispatchers[e].phase;
      assert p.Held() == q.Held() && p.Pending() == q.Pending();
      assert forall i :: 0 <= i < |q.Held()| ==> HeldFresh(s, e, p.Held()[i]) && HeldFresh(t, e, q.Held()[i]);
      assert forall i :: 0 <= i < |q.Pending()| ==>
        PendingFresh(s, e, p.Pending()[i]) && PendingFresh(t, e, q.Pending()[i]);
    }
  }

  lemma FinalizeFresh(s: State, d: nat)
    requires DispatchersOk(s) && Fresh(s) && AtHead(s, d, true)
    ensures Fresh(Finalized(s, d))
  {
    var t := Finalized(s, d);
    var head := s.dispatchers[d].phase.queue[0];
    assert DispatcherOk(s, d, s.dispatchers[d].phase) && HeldOk(s, d, s.dispatchers[d].phase.Held()[0]);
    forall e | e in t.dispatchers
      ensures FreshAt(t, e)
    {
      var p, q := s.dispatchers[e].phase, t.dispatchers[e].phase;
      assert FreshAt(s, e);
      forall i | 0 <= i < |q.Held()|
        ensures HeldFresh(t, e, q.Held()[i])
      {
        var j := if e == d then i + 1 else i;
        assert q.Held()[i] == p.Held()[j] && HeldFresh(s, e, p.Held()[j]);
        OnlyClaim(s, d, e, j);
      }
      forall i | 0 <= i < |q.Pending()|
        ensures PendingFresh(t, e, q.Pending()[i])
      {
        assert q.Pending()[i] == p.Pending()[i] && PendingFresh(s, e, p.Pending()[i]);
      }
    }
  }

  lemma NextFresh(s: State, step: Step)
    requires Inv(s) && Disjoint(s) && Fresh(s) && Enabled(s, step)
    ensures Fresh(Next(s, step))
  {
    hide Claimed, Delivered, Finalized, FreshAt, DispatcherOk, ListsDue;
    match step
    case Add(_, _, _, _, _) => FreshKept(s, Next(s, step));
    case Cancel(_, _, _) => FreshKept(s, Next(s, step));
    case Select(d, now, found) => SelectFresh(s, d, now, found);
    case TryClaim(d) =>
      var p := s.dispatchers[d].phase;
      if Claimable(s.rows, p.candidates[0].id) {
        ClaimFresh(s, d);
      } else {
        PhaseFresh(s, d, p.(candidates := p.candidates[1..]), 1);
      }
    case EndClaiming(d) =>
      var p := s.dispatchers[d].phase;
      PhaseFresh(s, d, Serving(p.now, p.claimed, None), 0);
    case Deliver(d, reached) => DeliverFresh(s, d, reached);
    case Finalize(d) => FinalizeFresh(s, d);
    case EndPass(d) => PhaseFresh(s, d, Idle, 0);
  }

  // ---------------------------------------------------------------------
  // Counting is kept
  // ---------------------------------------------------------------------

  lemma AddCounts(s: State, row: Row)
    requires Inv(s) && CountsOk(s) && row.attempts == 0
    ensures CountsOk(Added(s, row))
  {
    var t := Added(s, row);
    hide DispatchersOk, HoldersOk, BooksOk;
    forall id | id in t.log
      ensures Counts(t.log[id], RowOf(t, id), Failing(t, id))
    {
      if id in s.log {
        assert Counts(s.log[id], RowOf(s, id), Failing(s, id));
        assert Failing(s, id) == Failing(t, id);
      } else {
        assert Slot(row.dueAt, row.repeat, 0) == row.dueAt;
        assert OnBeat(row.dueAt, t.log[id]);
      }
    }
  }

  lemma CancelCounts(s: State, id: nat)
    requires CountsOk(s) && id in s.log
    ensures CountsOk(Cancelled(s, id))
  {
  }

  /** The rhythm depends only on the first due time and the period. */
  lemma SameBeat(due: real, h: History, h': History)
    requires OnBeat(due, h) && h'.first == h.first && h'.repeat == h.repeat
    ensures OnBeat(due, h')
  {
  }

  lemma PhaseCounts(s: State, d: nat, phase: Phase)
    requires CountsOk(s) && d in s.dispatchers
    requires phase.Serving? ==> phase.attempted == None
    requires s.dispatchers[d].phase.Serving? ==> s.dispatchers[d].phase.queue == []
    ensures CountsOk(Become(s, d, phase))
  {
  }

  lemma ClaimCounts(s: State, d: nat)
    requires CountsOk(s) && Enabled(s, TryClaim(d))
    requires Claimable(s.rows, s.dispatchers[d].phase.candidates[0].id)
    requires s.dispatchers[d].phase.candidates[0].id !in s.holder
    ensures CountsOk(Claimed(s, d))
  {
  }

  lemma DeliverCounts(s: State, d: nat, reached: bool)
    requires CountsOk(s) && AtHead(s, d, false)
    requires HeldOk(s, d, s.dispatchers[d].phase.queue[0])
    requires !s.log[s.dispatchers[d].phase.queue[0].id].dropped
    ensures CountsOk(Delivered(s, d, reached))
  {
  }

  lemma FinalizeCounts(s: State, d: nat)
    requires CountsOk(s) && AtHead(s, d, true)
    requires HeldOk(s, d, s.dispatchers[d].phase.queue[0]) && HeldFresh(s, d, s.dispatchers[d].phase.queue[0])
    requires var id := s.dispatchers[d].phase.queue[0].id;
             !s.log[id].dropped && s.log[id].repeat == s.rows[id].repeat && s.rows[id].attempts < MAX_RETRIES
    ensures CountsOk(Finalized(s, d))
  {
    var t := Finalized(s, d);
    var p := s.dispatchers[d].phase;
    var c := p.queue[0];
    forall id | id in t.log
      ensures Counts(t.log[id], RowOf(t, id), Failing(t, id))
    {
      assert Counts(s.log[id], RowOf(s, id), Failing(s, id));
      if id == c.id {
        assert Failing(s, id) == !p.attempted.value && !Failing(t, id);
        if t.log[id].repeat > 0.0 && t.log[id].failures == 0 {
          NextSlotOnBeat(c.row, s.log[id], p.now);
          SameBeat(t.rows[id].dueAt, s.log[id], t.log[id]);
        }
      } else {
        assert Failing(s, id) == Failing(t, id);
      }
    }
  }

  lemma NextSlotOnBeat(row: Row, h: History, now: real)
    requires OnBeat(row.dueAt, h) && row.repeat == h.repeat > 0.0
    ensures OnBeat(NextSlot(row.dueAt, row.repeat, now), h)
  {
    var k: nat :| row.dueAt == Slot(h.first, h.repeat, k);
    var j := SlotCount(row.dueAt, row.repeat, now);
    SlotOfSlot(h.first, h.repeat, k, j);
    assert NextSlot(row.dueAt, row.repeat, now) == Slot(h.first, h.repeat, k + j);
  }

  lemma UnfiredIsFree(s: State, id: nat)
    requires Inv(s) && Claimable(s.rows, id)
    ensures id !in s.holder
  {
  }

  lemma HeadFacts(s: State, d: nat, attempted: bool)
    requires Inv(s) && Fresh(s) && AtHead(s, d, attempted)
    ensures var c := s.dispatchers[d].phase.queue[0];
            && HeldOk(s, d, c) && HeldFresh(s, d, c)
            && !s.log[c.id].dropped && s.log[c.id].repeat == s.rows[c.id].repeat && s.rows[c.id].attempts < MAX_RETRIES
  {
  }

  lemma NextCounts(s: State, step: Step)
    requires Inv(s) && Fresh(s) && CountsOk(s) && Enabled(s, step)
    ensures CountsOk(Next(s, step))
  {
    hide CountsOk, IdsOk, FinalizeRow, ListsDue;
    hide Claimed, Delivered, Finalized, Inv, Fresh, HeldOk, HeldFresh, Counts;
    match step
    case Add(text, dueAt, repeat, origin, target) => AddCounts(s, Row(text, dueAt, repeat, origin, target, 0, false));
    case Cancel(id, scope, user) =>
      if Cancels(s.rows, id, scope, user) && id in s.log {
        CancelCounts(s, id);
      }
    case Select(d, now, found) => PhaseCounts(s, d, Claiming(now, found, []));
    case TryClaim(d) =>
      var p := s.dispatchers[d].phase;
      var id := p.candidates[0].id;
      if Claimable(s.rows, id) {
        UnfiredIsFree(s, id);
        ClaimCounts(s, d);
      } else {
        PhaseCounts(s, d, p.(candidates := p.candidates[1..]));
      }
    case EndClaiming(d) => PhaseCounts(s, d, Serving(s.dispatchers[d].phase.now, s.dispatchers[d].phase.claimed, None));
    case Deliver(d, reached) =>
      HeadFacts(s, d, false);
      DeliverCounts(s, d, reached);
    case Finalize(d) =>
      HeadFacts(s, d, true);
      FinalizeCounts(s, d);
    case EndPass(d) => PhaseCounts(s, d, Idle);
  }

  /** The origins a dispatcher serves never change. */
  lemma NextOrigins(s: State, step: Step)
    requires Disjoint(s) && Enabled(s, step)
    ensures Disjoint(Next(s, step))
  {
  }

  lemma NextStrict(s: State, step: Step)
    requires Strict(s) && Enabled(s, step)
    ensures Strict(Next(s, step))
  {
    NextKeeps(s, step);
    NextFresh(s, step);
    NextCounts(s, step);
    NextOrigins(s, step);
    hide Inv, Fresh, CountsOk, Disjoint, Next, Enabled;
  }

  lemma {:induction false} RunStrict(s: State, steps: seq<Step>)
    requires Strict(s) && Legal(s, steps)
    ensures Strict(Run(s, steps))
    decreases |steps|
  {
    hide Strict, Enabled, Next;
    if steps == [] {
    } else {
      NextStrict(s, steps[0]);
      RunStrict(Next(s, steps[0]), steps[1..]);
    }
  }

  lemma ReachableStrict(origins: map<nat, set<string>>, s: State)
    requires Reachable(origins, s) && Disjoint(Init(origins))
    ensures Strict(s)
  {
    hide Strict, Legal, Run, Disjoint;
    var steps :| Legal(Init(origins), steps) && Run(Init(origins), steps) == s;
    InitStrict(origins);
    RunStrict(Init(origins), steps);
  }

  lemma InitStrict(origins: map<nat, set<string>>)
    requires Disjoint(Init(origins))
    ensures Strict(Init(origins))
  {
  }

  // ---------------------------------------------------------------------
  // Results
  // ---------------------------------------------------------------------

  /** At the moment a claim succeeds, the record carries the row's stored
      values, its due time among them, and that time has come. */
  lemma ClaimCarriesStoredValues(origins: map<nat, set<string>>, s: State, d: nat)
    requires Reachable(origins, s) && Disjoint(Init(origins))
    requires Enabled(s, TryClaim(d)) && Claimable(s.rows, s.dispatchers[d].phase.candidates[0].id)
    ensures var p := s.dispatchers[d].phase;
            s.rows[p.candidates[0].id] == p.candidates[0].row && p.candidates[0].row.dueAt <= p.now
  {
    ReachableStrict(origins, s);
    assert FreshAt(s, d) && PendingFresh(s, d, s.dispatchers[d].phase.Pending()[0]);
  }

  /** A one-shot reminder is dropped after exactly MAX_RETRIES failed
      deliveries, and until then the table counts its failures. */
  lemma DroppedAfterMaxRetries(origins: map<nat, set<string>>, s: State, id: nat)
    requires Reachable(origins, s) && Disjoint(Init(origins)) && id in s.log && s.log[id].repeat <= 0.0
    ensures s.log[id].dropped ==> s.log[id].failures == MAX_RETRIES
    ensures IsPending(s, id) ==> s.log[id].failures == s.rows[id].attempts < MAX_RETRIES
  {
    ReachableStrict(origins, s);
    assert Counts(s.log[id], RowOf(s, id), Failing(s, id));
    assert Account(s.log[id], RowOf(s, id), id in s.holder, Settling(s, id));
  }

  lemma StrictParts(s: State)
    requires Strict(s)
    ensures Inv(s) && Fresh(s)
  {
  }

  /** A finalization that gives a row back to the table moves its due time
      strictly forward, and past the pass's clock reading. */
  lemma UnfireMovesForward(origins: map<nat, set<string>>, s: State, d: nat)
    requires Reachable(origins, s) && Disjoint(Init(origins)) && Enabled(s, Finalize(d))
    ensures var id := s.dispatchers[d].phase.queue[0].id;
            var t := Next(s, Finalize(d));
            && id in s.rows && id in t.rows && s.rows[id].fired
            && (!t.rows[id].fired ==>
                  t.rows[id].dueAt > s.rows[id].dueAt && t.rows[id].dueAt > s.dispatchers[d].phase.now)
  {
    hide Strict, Inv, Reachable, Disjoint;
    ReachableStrict(origins, s);
    StrictParts(s);
    HeadFacts(s, d, true);
    var p := s.dispatchers[d].phase;
    var c := p.queue[0].row;
    if c.Recurring() {
      NextSlotIsLeast(c.dueAt, c.repeat, p.now);
    }
  }

  /** Without failed deliveries, every due time of a recurring reminder is the
      first one plus a whole number of periods. */
  lemma KeepsItsRhythm(origins: map<nat, set<string>>, s: State, id: nat)
    requires Reachable(origins, s) && Disjoint(Init(origins)) && id in s.rows && id in s.log
    requires s.rows[id].Recurring() && s.log[id].failures == 0
    ensures exists k: nat :: s.rows[id].dueAt == Slot(s.log[id].first, s.rows[id].repeat, k)
  {
    ReachableStrict(origins, s);
    assert Counts(s.log[id], RowOf(s, id), Failing(s, id));
    assert Account(s.log[id], RowOf(s, id), id in s.holder, Settling(s, id));
  }

  // ---------------------------------------------------------------------
  // Why the origins have to be disjoint
  // ---------------------------------------------------------------------

  lemma {:induction false} RunAppend(s: State, steps: seq<Step>, step: Step)
    requires Legal(s, steps) && Enabled(Run(s, steps), step)
    ensures Legal(s, steps + [step]) && Run(s, steps + [step]) == Next(Run(s, steps), step)
    decreases |steps|
  {
    hide Enabled, Next;
    if steps == [] {
      assert [step][1..] == [] && steps + [step] == [step];
    } else {
      RunAppend(Next(s, steps[0]), steps[1..], step);
      assert (steps + [step])[1..] == steps[1..] + [step];
    }
  }

  lemma ReachableStep(origins: map<nat, set<string>>, s: State, step: Step)
    requires Reachable(origins, s) && Enabled(s, step)
    ensures Reachable(origins, Next(s, step))
  {
    hide Enabled, Next;
    var steps :| Legal(Init(origins), steps) && Run(Init(origins), steps) == s;
    RunAppend(Init(origins), steps, step);
  }

  const READ_AT: real := 1.0

  function Early(o: string): Row { Row("tea", 0.0, 0.0, o, None, 0, false) }

  /** One reminder, and where two of the dispatchers stand. */
  ghost predicate Scene(origins: map<nat, set<string>>, s: State, d: nat, atD: Phase, e: nat, atE: Phase, row: Row) {
    && Reachable(origins, s) && s.rows == map[1 := row] && s.log.Keys == {1}
    && d != e && d in origins && e in origins && d in s.dispatchers && e in s.dispatchers
    && s.dispatchers[d] == Dispatcher(origins[d], atD) && s.dispatchers[e] == Dispatcher(origins[e], atE)
  }

  /** A dispatcher reads the one due row. */
  lemma ReadsEarly(origins: map<nat, set<string>>, s: State, d: nat, e: nat, atE: Phase, o: string)
    returns (t: State)
    requires Scene(origins, s, d, Idle, e, atE, Early(o)) && o in origins[d]
    ensures Scene(origins, t, d, Claiming(READ_AT, [Claim(1, Early(o))], []), e, atE, Early(o))
  {
    hide Reachable;
    var found := [Claim(1, Early(o))];
    assert ListsDue(found, s.rows, origins[d], READ_AT) by {
      assert found[0] in found;
    }
    ReachableStep(origins, s, Select(d, READ_AT, found));
    t := Next(s, Select(d, READ_AT, found));
  }

  lemma BothHaveRead(origins: map<nat, set<string>>, d: nat, e: nat, o: string) returns (s: State)
    requires d in origins && e in origins && d != e && o in origins[d] && o in origins[e]
    ensures var reading := Claiming(READ_AT, [Claim(1, Early(o))], []);
            Scene(origins, s, d, reading, e, reading, Early(o))
  {
    s := Init(origins);
    assert Legal(s, []) && Run(s, []) == s;
    var add := Add("tea", 0.0, 0.0, o, None);
    ReachableStep(origins, s, add);
    s := Next(s, add);
    hide Reachable;
    s := ReadsEarly(origins, s, d, e, Idle, o);
    s := ReadsEarly(origins, s, e, d, Claiming(READ_AT, [Claim(1, Early(o))], []), o);
  }

  lemma TakesEarly(origins: map<nat, set<string>>, s: State, d: nat, atD: Phase, e: nat, o: string)
    returns (t: State)
    requires Scene(origins, s, d, atD, e, Claiming(READ_AT, [Claim(1, Early(o))], []), Early(o))
    ensures Scene(origins, t, d, atD, e, Claiming(READ_AT, [], [Claim(1, Early(o))]), Early(o).(fired := true))
  {
    hide Reachable;
    ReachableStep(origins, s, TryClaim(e));
    t := Next(s, TryClaim(e));
    assert t.rows == map[1 := Early(o).(fired := true)];
    assert t.dispatchers[e].phase == Claiming(READ_AT, [], [Claim(1, Early(o))]);
  }

  lemma ServesEarly(origins: map<nat, set<string>>, s: State, d: nat, atD: Phase, e: nat, o: string)
    returns (t: State)
    requires Scene(origins, s, d, atD, e, Claiming(READ_AT, [], [Claim(1, Early(o))]), Early(o).(fired := true))
    ensures Scene(origins, t, d, atD, e, Serving(READ_AT, [Claim(1, Early(o))], Some(false)), Early(o).(fired := true))
  {
    hide Reachable;
    ReachableStep(origins, s, EndClaiming(e));
    t := Next(s, EndClaiming(e));
    assert t.dispatchers[e].phase == Serving(READ_AT, [Claim(1, Early(o))], None);
    ReachableStep(origins, t, Deliver(e, false));
    t := Next(t, Deliver(e, false));
  }

  lemma GivesEarlyBack(origins: map<nat, set<string>>, s: State, d: nat, atD: Phase, e: nat, o: string)
    returns (t: State)
    requires Scene(origins, s, d, atD, e, Serving(READ_AT, [Claim(1, Early(o))], Some(false)), Early(o).(fired := true))
    ensures Scene(origins, t, d, atD, e, Serving(READ_AT, [], None),
                  Early(o).(dueAt := READ_AT + RETRY_BACKOFF, attempts := 1))
  {
    hide Reachable;
    ReachableStep(origins, s, Finalize(e));
    t := Next(s, Finalize(e));
    assert t.rows == map[1 := Early(o).(dueAt := READ_AT + RETRY_BACKOFF, attempts := 1)];
    assert t.dispatchers[e].phase == Serving(READ_AT, [], None);
  }

  /** The next UPDATE of dispatcher d will claim its row. */
  ghost predicate AboutToClaim(s: State, d: nat) {
    Enabled(s, TryClaim(d)) && Claimable(s.rows, s.dispatchers[d].phase.candidates[0].id)
  }

  /** What d has read of that row is what is stored, and it is due. */
  predicate HasReadStored(s: State, d: nat)
    requires AtClaiming(s, d) && s.dispatchers[d].phase.candidates != []
    requires Claimable(s.rows, s.dispatchers[d].phase.candidates[0].id)
  {
    var p := s.dispatchers[d].phase;
    s.rows[p.candidates[0].id] == p.candidates[0].row && p.candidates[0].row.dueAt <= p.now
  }

  /** Whenever two dispatchers share an origin: both read a due row of it, the
      second claims it, fails and gives it back, due later; the first still
      claims it, before it is due again and with a stale count. */
  lemma SharedOriginGoesStale(origins: map<nat, set<string>>, d: nat, e: nat, o: string) returns (s: State)
    requires d in origins && e in origins && d != e && o in origins[d] && o in origins[e]
    ensures Reachable(origins, s) && AboutToClaim(s, d) && !HasReadStored(s, d)
    ensures var p := s.dispatchers[d].phase;
            var id := p.candidates[0].id;
            s.rows[id].dueAt > p.now && s.rows[id].attempts != p.candidates[0].row.attempts
  {
    hide Reachable;
    var reading := Claiming(READ_AT, [Claim(1, Early(o))], []);
    s := BothHaveRead(origins, d, e, o);
    s := TakesEarly(origins, s, d, reading, e, o);
    s := ServesEarly(origins, s, d, reading, e, o);
    s := GivesEarlyBack(origins, s, d, reading, e, o);
  }

  /** Every claim that succeeds, in any run, is of the row as stored. */
  ghost predicate ClaimsAreFresh(origins: map<nat, set<string>>) {
    forall s, d :: Reachable(origins, s) && AboutToClaim(s, d) ==> HasReadStored(s, d)
  }

  /** All claims of all runs carry the stored, due row if and only if no two
      dispatchers serve the same origin. */
  lemma FreshIffDisjoint(origins: map<nat, set<string>>)
    ensures ClaimsAreFresh(origins) <==> Disjoint(Init(origins))
  {
    hide Reachable, HasReadStored;
    if Disjoint(Init(origins)) {
      forall s, d | Reachable(origins, s) && AboutToClaim(s, d)
        ensures HasReadStored(s, d)
      {
        FreshWhenDisjoint(origins, s, d);
      }
    } else {
      var d, e, o := SharedOrigin(origins);
      var s := SharedOriginGoesStale(origins, d, e, o);
      assert !ClaimsAreFresh(origins);
    }
  }

  lemma FreshWhenDisjoint(origins: map<nat, set<string>>, s: State, d: nat)
    requires Disjoint(Init(origins)) && Reachable(origins, s) && AboutToClaim(s, d)
    ensures HasReadStored(s, d)
  {
    hide Reachable, Disjoint;
    ClaimCarriesStoredValues(origins, s, d);
  }

  lemma SharedOrigin(origins: map<nat, set<string>>) returns (d: nat, e: nat, o: string)
    requires !Disjoint(Init(origins))
    ensures d in origins && e in origins && d != e && o in origins[d] && o in origins[e]
  {
    var s := Init(origins).dispatchers;
    d, e :| d in s && e in s && d != e && !(s[d].origins !! s[e].origins);
    o :| o in origins[d] && o in origins[e];
  }
}
