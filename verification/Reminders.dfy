/** The reminder table of tools/scheduler.py and the SQL statements that act on
    it.  Each statement is one atomic step; the functions here say what it does
    to the table, and the class runs them in place. */
module Reminders {
  import opened Text

  /** Seconds by which a missed delivery moves the due time forward. */
  const RETRY_BACKOFF: real := 20.0

  /** 24 hours of retries at that backoff. */
  const MAX_RETRIES: nat := 24 * 3600 / 20

  datatype Row = Row(
    text: string, dueAt: real, repeat: real, origin: string, target: Option<string>,
    attempts: nat, fired: bool)
  {
    predicate Recurring() { repeat > 0.0 }
  }

  /** What a SELECT reads of a row. */
  datatype Claim = Claim(id: nat, row: Row)

  type Table = map<nat, Row>

  // ---------------------------------------------------------------------
  // The next slot of a recurring reminder
  // ---------------------------------------------------------------------

  /** How many periods after `due` the first slot later than `now` lies. */
  function SlotCount(due: real, repeat: real, now: real): (k: nat)
    requires repeat > 0.0
    ensures k >= 1
  {
    if now < due + repeat then 1
    else
      assert (now - due) / repeat >= 1.0;
      ((now - due) / repeat).Floor + 1
  }

  function Slot(due: real, repeat: real, k: nat): real { due + k as real * repeat }

  function NextSlot(due: real, repeat: real, now: real): real
    requires repeat > 0.0
  {
    Slot(due, repeat, SlotCount(due, repeat, now))
  }

  /** From that count on, and not before, the slots are later than now. */
  lemma LateFrom(due: real, repeat: real, now: real, j: nat)
    requires repeat > 0.0 && j >= 1
    ensures Slot(due, repeat, j) > now <==> j >= SlotCount(due, repeat, now)
  {
    var k := SlotCount(due, repeat, now);
    if now < due + repeat {
      MulAtMost(1, j, repeat);
      assert 1 as real * repeat == repeat;
    } else {
      var q := (now - due) / repeat;
      Quotient(q, now - due, repeat);
      CompareWithQuotient(q, now - due, repeat, j as real);
      assert j >= k <==> j as real > q;
    }
  }

  lemma CompareWithQuotient(q: real, x: real, c: real, j: real)
    requires c > 0.0 && q * c == x
    ensures j * c > x <==> j > q
  {
  }

  /** The next slot is the least of due + repeat, due + 2 repeat, ... that is
      later than now. */
  lemma NextSlotIsLeast(due: real, repeat: real, now: real)
    requires repeat > 0.0
    ensures NextSlot(due, repeat, now) > now && NextSlot(due, repeat, now) > due
    ensures forall j: nat :: j >= 1 && Slot(due, repeat, j) > now ==> NextSlot(due, repeat, now) <= Slot(due, repeat, j)
  {
    var k := SlotCount(due, repeat, now);
    LateFrom(due, repeat, now, k);
    MulAtMost(1, k, repeat);
    assert 1 as real * repeat == repeat;
    forall j: nat | j >= 1
      ensures Slot(due, repeat, j) > now ==> NextSlot(due, repeat, now) <= Slot(due, repeat, j)
    {
      LateFrom(due, repeat, now, j);
      if j >= k {
        MulAtMost(k, j, repeat);
      }
    }
  }

  lemma Quotient(q: real, x: real, c: real)
    requires c > 0.0 && q == x / c
    ensures q * c == x
  {
  }

  lemma MulAtMost(i: nat, j: nat, c: real)
    requires i <= j && c > 0.0
    ensures i as real * c <= j as real * c
  {
  }

  /** A slot of a slot is a slot. */
  lemma SlotOfSlot(due: real, repeat: real, i: nat, j: nat)
    ensures Slot(Slot(due, repeat, i), repeat, j) == Slot(due, repeat, i + j)
  {
  }

  /** The loop of the source: add the period until the slot is later than now. */
  method FindNextSlot(due: real, repeat: real, now: real) returns (next: real)
    requires repeat > 0.0
    ensures next == NextSlot(due, repeat, now)
  {
    next := due + repeat;
    ghost var k, end := 1, SlotCount(due, repeat, now);
    LateFrom(due, repeat, now, k);
    assert 1 as real * repeat == repeat;
    while next <= now
      invariant 1 <= k <= end && next == Slot(due, repeat, k)
      invariant next > now <==> k >= end
      decreases end - k
    {
      assert (k + 1) as real * repeat == k as real * repeat + repeat;
      next := next + repeat;
      k := k + 1;
      LateFrom(due, repeat, now, k);
    }
  }

  // ---------------------------------------------------------------------
  // The statements
  // ---------------------------------------------------------------------

  predicate Matches(row: Row, origin: Option<string>, target: Option<string>) {
    (origin.Some? ==> row.origin == origin.value) && (target.Some? ==> row.target == target)
  }

  /** DELETE ... WHERE id=? AND fired=0 AND the caller's scope. */
  predicate Cancels(rows: Table, id: nat, origin: Option<string>, target: Option<string>) {
    id in rows && !rows[id].fired && Matches(rows[id], origin, target)
  }

  predicate IsDue(row: Row, origins: set<string>, now: real) {
    !row.fired && row.dueAt <= now && row.origin in origins
  }

  /** A listing of exactly the due rows, each once; SQL leaves the order open. */
  ghost predicate ListsDue(found: seq<Claim>, rows: Table, origins: set<string>, now: real) {
    && (forall i :: 0 <= i < |found| ==>
          found[i].id in rows && rows[found[i].id] == found[i].row && IsDue(found[i].row, origins, now))
    && (forall i, j :: 0 <= i < j < |found| ==> found[i].id != found[j].id)
    && (forall id :: id in rows && IsDue(rows[id], origins, now) ==> Claim(id, rows[id]) in found)
  }

  /** UPDATE ... SET fired=1 WHERE id=? AND fired=0 affects the row. */
  predicate Claimable(rows: Table, id: nat) { id in rows && !rows[id].fired }

  function ClaimRow(rows: Table, id: nat): Table
    requires Claimable(rows, id)
  {
    rows[id := rows[id].(fired := true)]
  }

  /** The row after the delivery attempt of a claim taken at time `now`. */
  function FinalRow(row: Row, c: Row, delivered: bool, now: real): Row {
    if delivered then
      if c.Recurring() then row.(fired := false, dueAt := NextSlot(c.dueAt, c.repeat, now), attempts := 0) else row
    else if c.attempts + 1 < MAX_RETRIES then
      row.(fired := false, dueAt := now + RETRY_BACKOFF, attempts := c.attempts + 1)
    else
      if c.Recurring() then row.(fired := false, dueAt := NextSlot(c.dueAt, c.repeat, now), attempts := 0) else row
  }

  function FinalizeRow(rows: Table, c: Claim, delivered: bool, now: real): Table {
    if c.id in rows then rows[c.id := FinalRow(rows[c.id], c.row, delivered, now)] else rows
  }

  /** Marking every listed row marks exactly the due ones. */
  lemma ClaimedAll(found: seq<Claim>, before: Table, after: Table, origins: set<string>, now: real)
    requires ListsDue(found, before, origins, now) && after.Keys == before.Keys
    requires forall j :: 0 <= j < |found| ==> after[found[j].id] == found[j].row.(fired := true)
    requires forall id :: id in after && (forall j :: 0 <= j < |found| ==> found[j].id != id) ==>
      after[id] == before[id]
    ensures after == map id | id in before ::
      if IsDue(before[id], origins, now) then before[id].(fired := true) else before[id]
  {
  }

  class ReminderStore {
    var rows: Table
    var nextId: nat

    constructor ()
      ensures rows == map[] && nextId == 1
    {
      rows, nextId := map[], 1;
    }

    method Add(text: string, dueAt: real, repeat: real, origin: string, target: Option<string>) returns (id: nat)
      modifies this
      ensures id == old(nextId) && nextId == id + 1
      ensures rows == old(rows)[id := Row(text, dueAt, repeat, origin, target, 0, false)]
    {
      id := nextId;
      rows := rows[id := Row(text, dueAt, repeat, origin, target, 0, false)];
      nextId := nextId + 1;
    }

    method Cancel(id: nat, origin: Option<string>, target: Option<string>) returns (gone: bool)
      modifies this`rows
      ensures gone <==> Cancels(old(rows), id, origin, target)
      ensures rows == if gone then old(rows) - {id} else old(rows)
    {
      gone := id in rows && !rows[id].fired && Matches(rows[id], origin, target);
      if gone {
        rows := rows - {id};
      }
    }

    /** SELECT: the due rows in an order of the database's choosing. */
    method SelectDue(origins: set<string>, now: real) returns (found: seq<Claim>)
      ensures ListsDue(found, rows, origins, now)
    {
      found := [];
      var todo: set<nat> := set id: nat | id in rows && IsDue(rows[id], origins, now);
      while todo != {}
        invariant forall i :: 0 <= i < |found| ==>
          && found[i].id in rows && rows[found[i].id] == found[i].row
          && IsDue(found[i].row, origins, now) && found[i].id !in todo
        invariant forall i, j :: 0 <= i < j < |found| ==> found[i].id != found[j].id
        invariant forall id :: id in todo ==> id in rows && IsDue(rows[id], origins, now)
        invariant forall id :: id in rows && IsDue(rows[id], origins, now) ==>
          id in todo || Claim(id, rows[id]) in found
        decreases |todo|
      {
        var id: nat :| id in todo;
        todo := todo - {id};
        found := found + [Claim(id, rows[id])];
      }
    }

    /** UPDATE ... SET fired=1: true if the row was still unfired. */
    method TryClaim(id: nat) returns (claimed: bool)
      modifies this`rows
      ensures claimed <==> Claimable(old(rows), id)
      ensures rows == if claimed then ClaimRow(old(rows), id) else old(rows)
    {
      claimed := id in rows && !rows[id].fired;
      if claimed {
        rows := rows[id := rows[id].(fired := true)];
      }
    }

    /** Undisturbed, a claim takes exactly the due rows of its origins: each
        once, with the values stored; the other rows keep theirs. */
    method ClaimDue(origins: set<string>, now: real) returns (claimed: seq<Claim>)
      modifies this`rows
      ensures ListsDue(claimed, old(rows), origins, now)
      ensures rows == map id | id in old(rows) ::
        if IsDue(old(rows)[id], origins, now) then old(rows)[id].(fired := true) else old(rows)[id]
    {
      claimed := [];
      var candidates := SelectDue(origins, now);
      for i := 0 to |candidates|
        invariant claimed == candidates[..i]
        invariant rows.Keys == old(rows).Keys
        invariant forall j :: 0 <= j < i ==> rows[candidates[j].id] == candidates[j].row.(fired := true)
        invariant forall id :: id in rows && (forall j :: 0 <= j < i ==> candidates[j].id != id) ==>
          rows[id] == old(rows)[id]
      {
        var ok := TryClaim(candidates[i].id);
        if ok {
          claimed := claimed + [candidates[i]];
        }
      }
      assert claimed == candidates;
      ClaimedAll(candidates, old(rows), rows, origins, now);
    }

    /** Decides a claimed row's fate after the delivery attempt. */
    method Finalize(c: Claim, delivered: bool, now: real)
      modifies this`rows
      ensures rows == FinalizeRow(old(rows), c, delivered, now)
    {
      var recurring := c.row.repeat > 0.0;
      if delivered {
        if recurring {
          var next := FindNextSlot(c.row.dueAt, c.row.repeat, now);
          Reschedule(c.id, next, 0);
        }
      } else if c.row.attempts + 1 < MAX_RETRIES {
        Reschedule(c.id, now + RETRY_BACKOFF, c.row.attempts + 1);
      } else if recurring {
        var next := FindNextSlot(c.row.dueAt, c.row.repeat, now);
        Reschedule(c.id, next, 0);
      }
    }

    /** UPDATE ... SET fired=0, due_at=?, attempts=? WHERE id=?. */
    method Reschedule(id: nat, dueAt: real, attempts: nat)
      modifies this`rows
      ensures rows ==
        if id in old(rows)
        then old(rows)[id := old(rows)[id].(fired := false, dueAt := dueAt, attempts := attempts)]
        else old(rows)
    {
      if id in rows {
        rows := rows[id := rows[id].(fired := false, dueAt := dueAt, attempts := attempts)];
      }
    }
  }
}
