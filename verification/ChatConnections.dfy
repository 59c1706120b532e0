/** Many connections on one chat database (chat_store.py): each opens it, brings
    the index up to date once, and then writes and searches, with every SQL
    statement a step of its own. */
module ChatConnections {
  import opened Text
  import opened ChatSearch
  import opened ChatIndex

  /** How far a connection has come: the schema script has run; the marker was
      looked for and missing; the rows were counted; the index was rebuilt; in
      use. */
  datatype Phase = Opened | Unmarked | Counted(any: bool) | Rebuilt | Ready

  datatype World = World(db: Db, connections: map<nat, Phase>)

  datatype Step =
    | Open(c: nat)
    | CheckMarker(c: nat)
    | Count(c: nat)
    | Rebuild(c: nat)
    | Mark(c: nat)
    | Fail(c: nat)
    | Insert(c: nat, m: Message)
    | Delete(c: nat, ids: set<nat>)
    | Update(c: nat, id: nat, content: string)
    | SetSessions(c: nat, sessions: map<string, Session>)
    | Close(c: nat)
  {
    predicate Writes() { Insert? || Delete? || Update? }
  }

  predicate At(w: World, c: nat, p: Phase) { c in w.connections && w.connections[c] == p }

  predicate Enabled(w: World, step: Step) {
    match step
    case Open(c) => c !in w.connections
    case CheckMarker(c) => At(w, c, Opened)
    case Count(c) => At(w, c, Unmarked)
    case Rebuild(c) => At(w, c, Counted(true))
    case Mark(c) => At(w, c, Counted(false)) || At(w, c, Rebuilt)
    case Fail(c) => c in w.connections && w.connections[c] != Ready
    case Insert(c, _) => At(w, c, Ready)
    case Delete(c, _) => At(w, c, Ready)
    case Update(c, id, _) => At(w, c, Ready) && id in w.db.messages
    case SetSessions(c, _) => At(w, c, Ready)
    case Close(c) => At(w, c, Ready)
  }

  function Next(w: World, step: Step): World
    requires Enabled(w, step)
  {
    match step
    case Open(c) => w.(connections := w.connections[c := Opened])
    case CheckMarker(c) => w.(connections := w.connections[c := if w.db.built then Ready else Unmarked])
    case Count(c) => w.(connections := w.connections[c := Counted(|w.db.messages| != 0)])
    case Rebuild(c) =>
      World(w.db.(index := Exact(w.db.messages)), w.connections[c := Rebuilt])
    case Mark(c) => World(w.db.(built := true), w.connections[c := Ready])
    case Fail(c) => w.(connections := w.connections[c := Ready])
    case Insert(_, m) => w.(db := Inserted(w.db, m))
    case Delete(_, ids) => w.(db := Deleted(w.db, ids))
    case Update(_, id, content) => w.(db := UpdatedRow(w.db, id, content))
    case SetSessions(_, sessions) => w.(db := w.db.(sessions := sessions))
    case Close(c) => w.(connections := w.connections - {c})
  }

  ghost predicate Legal(w: World, steps: seq<Step>)
    decreases |steps|
  {
    steps == [] || (Enabled(w, steps[0]) && Legal(Next(w, steps[0]), steps[1..]))
  }

  function Run(w: World, steps: seq<Step>): World
    requires Legal(w, steps)
    decreases |steps|
  {
    if steps == [] then w else Run(Next(w, steps[0]), steps[1..])
  }

  /** No connection writes to the table before the marker is set. */
  ghost predicate Careful(w: World, steps: seq<Step>)
    requires Legal(w, steps)
    decreases |steps|
  {
    steps == [] || ((steps[0].Writes() ==> w.db.built) && Careful(Next(w, steps[0]), steps[1..]))
  }

  /** A database file as an older version, without the index, left it; a fresh
      file is the case without rows. */
  ghost predicate Legacy(w: World) {
    w.connections == map[] && !w.db.built && w.db.index == EMPTY_INDEX && IdsOk(w.db)
  }

  // ---------------------------------------------------------------------
  // The index in every reachable state
  // ---------------------------------------------------------------------

  /** The index has entries of table rows only. */
  ghost predicate Within(db: Db) { db.index.entries <= AllPostings(db.messages) }

  /** The index has all the entries it should have. */
  ghost predicate Whole(db: Db) { db.index.entries == AllPostings(db.messages) }

  /** Whoever has seen no rows, has rebuilt, or has set the marker can rely on
      the entries being all there. */
  ghost predicate Inv(w: World) {
    && IdsOk(w.db) && Within(w.db)
    && (!Whole(w.db) ==> !w.db.built && forall c :: c in w.connections ==> !Relies(w.connections[c]))
  }

  predicate Relies(p: Phase) { p == Counted(false) || p == Rebuilt }

  lemma InsertKeeps(db: Db, m: Message)
    requires IdsOk(db) && Within(db)
    ensures IdsOk(Inserted(db, m)) && Within(Inserted(db, m)) && (Whole(db) ==> Whole(Inserted(db, m)))
  {
    hide PostingsOf, AllPostings;
    var after := Inserted(db, m);
    forall e: Posting
      ensures e in after.index.entries ==> e in AllPostings(after.messages)
      ensures Whole(db) && e in AllPostings(after.messages) ==> e in after.index.entries
    {
      InAll(db.messages, e);
      InAll(after.messages, e);
      PostingRow(db.nextId, m.content);
    }
  }

  lemma DeleteKeeps(db: Db, ids: set<nat>)
    requires Within(db)
    ensures Within(Deleted(db, ids)) && (Whole(db) ==> Whole(Deleted(db, ids)))
  {
    hide PostingsOf, AllPostings;
    var after := Deleted(db, ids);
    forall e: Posting
      ensures e in after.index.entries ==> e in AllPostings(after.messages)
      ensures Whole(db) && e in AllPostings(after.messages) ==> e in after.index.entries
    {
      InAll(db.messages, e);
      InAll(after.messages, e);
      InAll(Only(db.messages, ids), e);
    }
  }

  lemma UpdateKeeps(db: Db, id: nat, content: string)
    requires id in db.messages && Within(db)
    ensures Within(UpdatedRow(db, id, content)) && (Whole(db) ==> Whole(UpdatedRow(db, id, content)))
  {
    hide PostingsOf, AllPostings;
    var after := UpdatedRow(db, id, content);
    PostingRow(id, db.messages[id].content);
    PostingRow(id, content);
    forall e: Posting
      ensures e in after.index.entries ==> e in AllPostings(after.messages)
      ensures Whole(db) && e in AllPostings(after.messages) ==> e in after.index.entries
    {
      InAll(db.messages, e);
      InAll(after.messages, e);
    }
  }

  lemma NextKeeps(w: World, step: Step)
    requires Inv(w) && Enabled(w, step)
    ensures Inv(Next(w, step))
  {
    hide AllPostings, PostingsOf;
    match step
    case Insert(_, m) => InsertKeeps(w.db, m);
    case Delete(_, ids) => DeleteKeeps(w.db, ids);
    case Update(_, id, content) => UpdateKeeps(w.db, id, content);
    case Count(_) => NoRowsNoPostings();
    case _ =>
  }

  lemma NoRowsNoPostings()
    ensures Exact(map[]) == EMPTY_INDEX
  {
  }

  lemma {:induction false} RunKeeps(w: World, steps: seq<Step>)
    requires Inv(w) && Legal(w, steps)
    ensures Inv(Run(w, steps))
    decreases |steps|
  {
    hide Inv, Next, Enabled;
    if steps == [] {
    } else {
      NextKeeps(w, steps[0]);
      RunKeeps(Next(w, steps[0]), steps[1..]);
    }
  }

  lemma LegacyInv(w: World)
    requires Legacy(w)
    ensures Inv(w)
  {
  }

  /** A delete or an update of a row whose content is not in the index. */
  ghost predicate Blind(w: World, step: Step)
    requires Enabled(w, step)
  {
    match step
    case Delete(_, ids) => !(AllPostings(Only(w.db.messages, ids)) <= w.db.index.entries)
    case Update(_, id, _) => !(PostingsOf(id, w.db.messages[id].content) <= w.db.index.entries)
    case _ => false
  }

  ghost predicate Settled(w: World) {
    w.db.built && forall c :: c in w.connections ==> w.connections[c] == Opened || w.connections[c] == Ready
  }

  /** Once the marker is set and the backfills under way are through, nobody
      rebuilds again. */
  lemma {:induction false} RebuiltOnce(w: World, steps: seq<Step>)
    requires Settled(w) && Legal(w, steps)
    ensures forall i :: 0 <= i < |steps| ==> !steps[i].Rebuild? && !steps[i].Mark?
    decreases |steps|
  {
    hide AllPostings, PostingsOf;
    if steps == [] {
    } else {
      RebuiltOnce(Next(w, steps[0]), steps[1..]);
      assert forall i :: 1 <= i < |steps| ==> steps[i] == steps[1..][i - 1];
    }
  }

  /** With the marker set no step is blind, so none can do damage. */
  lemma NoStepIsBlind(w: World, step: Step)
    requires Inv(w) && Enabled(w, step) && (step.Writes() ==> w.db.built)
    ensures !Blind(w, step)
  {
  }

  lemma {:induction false} CarefulDoesNoDamage(w: World, steps: seq<Step>)
    requires Inv(w) && Legal(w, steps) && Careful(w, steps) && !w.db.index.corrupt
    ensures !Run(w, steps).db.index.corrupt
    decreases |steps|
  {
    hide Inv, Enabled, AllPostings, PostingsOf;
    if steps == [] {
    } else {
      NextKeeps(w, steps[0]);
      NoStepIsBlind(w, steps[0]);
      CarefulDoesNoDamage(Next(w, steps[0]), steps[1..]);
    }
  }

  /** In every interleaving in which nobody writes before the marker is set,
      the marker, once set, means that the index holds exactly the postings of
      the table: through inserts, deletes, updates and repeated rebuilds. */
  lemma BuiltMeansExact(w: World, steps: seq<Step>)
    requires Legacy(w) && Legal(w, steps) && Careful(w, steps)
    ensures Run(w, steps).db.built ==> Run(w, steps).db.index == Exact(Run(w, steps).db.messages)
  {
    hide Legal, Run, Careful;
    LegacyInv(w);
    RunKeeps(w, steps);
    CarefulDoesNoDamage(w, steps);
  }

  // ---------------------------------------------------------------------
  // When backfills may fail
  // ---------------------------------------------------------------------

  predicate Touches(step: Step, id: nat) {
    match step
    case Delete(_, ids) => id in ids
    case Update(_, x, _) => x == id
    case _ => false
  }

  /** The step deletes or updates one of these rows, with content long enough
      for the index to have something of it. */
  ghost predicate TouchesOne(step: Step, rows: Messages) {
    exists id :: id in rows && |rows[id].content| >= 3 && Touches(step, id)
  }

  ghost predicate SomeTouch(steps: seq<Step>, rows: Messages) {
    exists i :: 0 <= i < |steps| && TouchesOne(steps[i], rows)
  }

  ghost predicate SomeRebuild(steps: seq<Step>) { exists i :: 0 <= i < |steps| && steps[i].Rebuild? }

  /** The index was rebuilt at some time, or no searchable row that predates it
      was deleted or updated. */
  ghost predicate Harmless(rows: Messages, steps: seq<Step>) { SomeRebuild(steps) || !SomeTouch(steps, rows) }

  /** The rows in `raw` are as the older version left them, and exactly their
      postings are missing. */
  ghost predicate Raw(db: Db, raw: Messages) {
    && IdsOk(db)
    && (forall id :: id in raw ==> id in db.messages && db.messages[id] == raw[id])
    && db.index.entries == AllPostings(db.messages - raw.Keys)
  }

  function Left(raw: Messages, step: Step): Messages { map id | id in raw && !Touches(step, id) :: raw[id] }

  lemma SomePosting(id: nat, text: string)
    ensures |text| >= 3 <==> PostingsOf(id, text) != {}
    ensures |text| >= 3 ==> Trigram(id, 0, text, 0) in PostingsOf(id, text)
  {
  }

  /** A step is blind exactly if it touches a searchable row that is raw. */
  lemma BlindExactly(w: World, step: Step, raw: Messages)
    requires Raw(w.db, raw) && Enabled(w, step)
    ensures Blind(w, step) <==> TouchesOne(step, raw)
  {
    hide PostingsOf, AllPostings;
    var messages := w.db.messages;
    forall id | id in messages
      ensures id in raw && |messages[id].content| >= 3 ==> !(PostingsOf(id, messages[id].content) <= w.db.index.entries)
      ensures id !in raw || |messages[id].content| < 3 ==> PostingsOf(id, messages[id].content) <= w.db.index.entries
    {
      SomePosting(id, messages[id].content);
      PostingRow(id, messages[id].content);
      forall e: Posting ensures e in w.db.index.entries <==> e in AllPostings(messages - raw.Keys) {
        InAll(messages - raw.Keys, e);
      }
      RowEntries(messages, raw, id);
    }
    if step.Delete? {
      DeleteReads(messages, step.ids, w.db.index.entries);
    }
  }

  lemma RowEntries(messages: Messages, raw: Messages, id: nat)
    requires id in messages
    ensures id !in raw ==> PostingsOf(id, messages[id].content) <= AllPostings(messages - raw.Keys)
    ensures id in raw ==> PostingsOf(id, messages[id].content) !! AllPostings(messages - raw.Keys)
  {
    hide PostingsOf, AllPostings;
    PostingRow(id, messages[id].content);
    forall e | e in PostingsOf(id, messages[id].content)
      ensures e in AllPostings(messages - raw.Keys) <==> id !in raw
    {
      InAll(messages - raw.Keys, e);
    }
  }

  /** A DELETE finds all its entries exactly if each of its rows does. */
  lemma DeleteReads(messages: Messages, ids: set<nat>, entries: set<Posting>)
    ensures AllPostings(Only(messages, ids)) <= entries <==>
            forall id :: id in ids && id in messages ==> PostingsOf(id, messages[id].content) <= entries
  {
    hide PostingsOf, AllPostings;
    forall id, e | id in ids && id in messages && e in PostingsOf(id, messages[id].content)
      ensures e in AllPostings(Only(messages, ids))
    {
      PostingRow(id, messages[id].content);
      InAll(Only(messages, ids), e);
    }
    forall e | e in AllPostings(Only(messages, ids))
      ensures e.row in ids && e.row in messages && e in PostingsOf(e.row, messages[e.row].content)
    {
      InAll(Only(messages, ids), e);
    }
  }

  lemma InsertRaw(db: Db, m: Message, raw: Messages)
    requires Raw(db, raw)
    ensures Raw(Inserted(db, m), raw)
  {
    hide PostingsOf, AllPostings;
    var after := Inserted(db, m);
    PostingRow(db.nextId, m.content);
    forall e: Posting ensures e in after.index.entries <==> e in AllPostings(after.messages - raw.Keys) {
      InAll(db.messages - raw.Keys, e);
      InAll(after.messages - raw.Keys, e);
    }
  }

  lemma DeleteRaw(db: Db, ids: set<nat>, raw: Messages, left: Messages)
    requires Raw(db, raw) && left == raw - ids
    ensures Raw(Deleted(db, ids), left)
  {
    hide PostingsOf, AllPostings;
    var after := Deleted(db, ids);
    forall e: Posting ensures e in after.index.entries <==> e in AllPostings(after.messages - left.Keys) {
      InAll(db.messages - raw.Keys, e);
      InAll(Only(db.messages, ids), e);
      InAll(after.messages - left.Keys, e);
    }
  }

  lemma UpdateRaw(db: Db, id: nat, content: string, raw: Messages, left: Messages)
    requires Raw(db, raw) && id in db.messages && left == raw - {id}
    ensures Raw(UpdatedRow(db, id, content), left)
  {
    hide PostingsOf, AllPostings;
    var after := UpdatedRow(db, id, content);
    PostingRow(id, db.messages[id].content);
    PostingRow(id, content);
    forall e: Posting ensures e in after.index.entries <==> e in AllPostings(after.messages - left.Keys) {
      InAll(db.messages - raw.Keys, e);
      InAll(after.messages - left.Keys, e);
    }
  }

  lemma LeftIs(raw: Messages, step: Step)
    ensures Left(raw, step) == match step
                               case Delete(_, ids) => raw - ids
                               case Update(_, id, _) => raw - {id}
                               case _ => raw
  {
  }

  /** Short of a rebuild, only touching a raw row makes it less raw, and only
      touching a searchable one does damage. */
  lemma RawStep(w: World, step: Step, raw: Messages)
    requires Raw(w.db, raw) && Enabled(w, step) && !step.Rebuild?
    ensures Raw(Next(w, step).db, Left(raw, step))
    ensures Next(w, step).db.index.corrupt <==> w.db.index.corrupt || TouchesOne(step, raw)
  {
    hide PostingsOf, AllPostings, Raw, TouchesOne, Left;
    BlindExactly(w, step, raw);
    LeftIs(raw, step);
    match step
    case Insert(_, m) => InsertRaw(w.db, m, raw);
    case Delete(_, ids) => DeleteRaw(w.db, ids, raw, Left(raw, step));
    case Update(_, id, content) => UpdateRaw(w.db, id, content, raw, Left(raw, step));
    case _ => OtherRaw(w, step, raw);
  }

  lemma OtherRaw(w: World, step: Step, raw: Messages)
    requires Raw(w.db, raw) && Enabled(w, step) && !step.Writes() && !step.Rebuild?
    ensures Raw(Next(w, step).db, raw)
  {
    hide AllPostings;
  }

  lemma LegacyRaw(w: World)
    requires Legacy(w)
    ensures Raw(w.db, w.db.messages)
  {
    assert w.db.messages - w.db.messages.Keys == map[];
    NoRowsNoPostings();
  }

  lemma FirstOrLaterTouch(steps: seq<Step>, raw: Messages)
    requires steps != []
    ensures SomeTouch(steps, raw) <==> TouchesOne(steps[0], raw) || SomeTouch(steps[1..], Left(raw, steps[0]))
  {
    hide Touches;
    var left, rest := Left(raw, steps[0]), steps[1..];
    if SomeTouch(steps, raw) && !TouchesOne(steps[0], raw) {
      var i :| 0 <= i < |steps| && TouchesOne(steps[i], raw);
      assert rest[i - 1] == steps[i] && TouchesOne(rest[i - 1], left);
    }
    if SomeTouch(rest, left) {
      var i :| 0 <= i < |rest| && TouchesOne(rest[i], left);
      assert TouchesOne(steps[i + 1], raw);
    }
  }

  lemma {:induction false} WithoutRebuild(w: World, steps: seq<Step>, raw: Messages)
    requires Raw(w.db, raw) && Legal(w, steps) && !SomeRebuild(steps)
    ensures Run(w, steps).db.index.corrupt <==> w.db.index.corrupt || SomeTouch(steps, raw)
    decreases |steps|
  {
    hide Raw, Next, Enabled, TouchesOne, Left;
    if steps == [] {
    } else {
      assert !steps[0].Rebuild? && forall i :: 0 <= i < |steps[1..]| ==> steps[1..][i] == steps[i + 1];
      RawStep(w, steps[0], raw);
      FirstOrLaterTouch(steps, raw);
      WithoutRebuild(Next(w, steps[0]), steps[1..], Left(raw, steps[0]));
    }
  }

  lemma ExactStep(w: World, step: Step)
    requires IdsOk(w.db) && Enabled(w, step)
    ensures IdsOk(Next(w, step).db)
    ensures step.Rebuild? || w.db.index == Exact(w.db.messages) ==>
              Next(w, step).db.index == Exact(Next(w, step).db.messages)
  {
    hide AllPostings, PostingsOf;
    if w.db.index == Exact(w.db.messages) {
      match step
      case Insert(_, m) => InsertKeepsExact(w.db, m);
      case Delete(_, ids) => DeletedKeepsExact(w.db, ids);
      case Update(_, id, content) => UpdateKeepsExact(w.db, id, content);
      case _ =>
    }
  }

  /** An exact index stays exact; a rebuild makes it exact for good. */
  lemma {:induction false} RebuildLasts(w: World, steps: seq<Step>)
    requires IdsOk(w.db) && Legal(w, steps) && (w.db.index == Exact(w.db.messages) || SomeRebuild(steps))
    ensures Run(w, steps).db.index == Exact(Run(w, steps).db.messages)
    decreases |steps|
  {
    hide Exact, Next, Enabled, IdsOk;
    if steps == [] {
    } else {
      ExactStep(w, steps[0]);
      if SomeRebuild(steps) && !steps[0].Rebuild? {
        var i :| 0 <= i < |steps| && steps[i].Rebuild?;
        assert steps[1..][i - 1].Rebuild?;
      }
      RebuildLasts(Next(w, steps[0]), steps[1..]);
    }
  }

  /** In every run, failed backfills included: with the marker set, the index
      is exactly that of the table if and only if it was rebuilt at some time,
      or no searchable row of the old file was deleted or updated. */
  lemma BuiltIsExactUnlessDamaged(w: World, steps: seq<Step>)
    requires Legacy(w) && Legal(w, steps) && Run(w, steps).db.built
    ensures Run(w, steps).db.index == Exact(Run(w, steps).db.messages) <==> Harmless(w.db.messages, steps)
  {
    hide Legal, Run, SomeRebuild, SomeTouch;
    if SomeRebuild(steps) {
      RebuildLasts(w, steps);
    } else {
      LegacyInv(w);
      RunKeeps(w, steps);
      LegacyRaw(w);
      WithoutRebuild(w, steps, w.db.messages);
    }
  }

  ghost predicate ReadyMeansBuilt(w: World) {
    forall c :: c in w.connections && w.connections[c] == Ready ==> w.db.built
  }

  /** The code's own order gives that care for free unless a backfill fails. */
  lemma {:induction false} CarefulWithoutFailure(w: World, steps: seq<Step>)
    requires ReadyMeansBuilt(w) && Legal(w, steps)
    requires forall i :: 0 <= i < |steps| ==> !steps[i].Fail?
    ensures Careful(w, steps) && ReadyMeansBuilt(Run(w, steps))
    decreases |steps|
  {
    hide Deleted, Inserted, UpdatedRow;
    if steps == [] {
    } else {
      KeepsBuilt(w, steps[0]);
      CarefulWithoutFailure(Next(w, steps[0]), steps[1..]);
    }
  }

  lemma KeepsBuilt(w: World, step: Step)
    requires ReadyMeansBuilt(w) && Enabled(w, step) && !step.Fail?
    ensures ReadyMeansBuilt(Next(w, step)) && (step.Writes() ==> w.db.built)
  {
  }

  // ---------------------------------------------------------------------
  // Searching
  // ---------------------------------------------------------------------

  predicate InScope(db: Db, id: nat, source: Option<string>, owner: Option<string>)
    requires id in db.messages
  {
    && db.messages[id].session in db.sessions
    && var s := db.sessions[db.messages[id].session];
       source.Some? ==> s.source == source.value && (owner.Some? ==> s.owner == owner)
  }

  /** The rows a search may return, before ranking and LIMIT. */
  ghost function Hits(db: Db, query: string, source: Option<string>, owner: Option<string>): set<nat> {
    var q := Strip(query);
    if q == "" then {}
    else if |q| >= 3 then
      set id | id in db.messages && PhraseMatch(db.index.entries, id, q) && InScope(db, id, source, owner)
    else
      set id | id in db.messages && Like(LikePattern(q), db.messages[id].content) && InScope(db, id, source, owner)
  }

  lemma ExactIsIndexed(db: Db, id: nat)
    requires db.index == Exact(db.messages) && id in db.messages
    ensures Indexed(db.index.entries, id, db.messages[id].content)
  {
  }

  /** A search in any run, failed backfills included, once the marker is set
      over an undamaged index: both routes find exactly the messages in scope
      that contain the query. */
  lemma SearchFindsExactly(
    w: World, steps: seq<Step>, query: string, source: Option<string>, owner: Option<string>)
    requires Legacy(w) && Legal(w, steps) && Run(w, steps).db.built && Harmless(w.db.messages, steps)
    ensures var db := Run(w, steps).db;
            forall id :: id in Hits(db, query, source, owner) <==>
              && Strip(query) != "" && id in db.messages
              && Contains(db.messages[id].content, Strip(query))
              && db.messages[id].session in db.sessions
              && (source.Some? ==> db.sessions[db.messages[id].session].source == source.value)
              && (source.Some? && owner.Some? ==> db.sessions[db.messages[id].session].owner == Some(owner.value))
  {
    hide Legal, Run, Harmless, Strip, Contains, PhraseMatch, Like, LikePattern;
    BuiltIsExactUnlessDamaged(w, steps);
    var db, q := Run(w, steps).db, Strip(query);
    forall id: nat | id in db.messages && q != ""
      ensures id in Hits(db, query, source, owner)
              <==> Contains(db.messages[id].content, q) && InScope(db, id, source, owner)
    {
      if |q| >= 3 {
        ExactIsIndexed(db, id);
        PhraseIsContains(db.index.entries, id, db.messages[id].content, q);
      } else {
        LikeIsContains(q, db.messages[id].content);
      }
    }
  }

  /** Whatever the state of the index: a caller who gives a surface and a user
      gets messages of that user's sessions on that surface only; one who gives
      a surface, of that surface only. */
  lemma NobodyElsesMessages(db: Db, query: string, source: string, owner: Option<string>, id: nat)
    requires id in Hits(db, query, Some(source), owner)
    ensures id in db.messages && db.messages[id].session in db.sessions
    ensures var s := db.sessions[db.messages[id].session];
            s.source == source && (owner.Some? ==> s.owner == Some(owner.value))
  {
  }

  /** A connection in use, in a run without failed backfills, can rely on it. */
  lemma ReadyCanSearch(w: World, steps: seq<Step>, c: nat)
    requires Legacy(w) && Legal(w, steps) && (forall i :: 0 <= i < |steps| ==> !steps[i].Fail?)
    requires At(Run(w, steps), c, Ready)
    ensures Run(w, steps).db.built && Harmless(w.db.messages, steps)
  {
    hide Legal, Run, Harmless, Careful;
    CarefulWithoutFailure(w, steps);
    BuiltMeansExact(w, steps);
    BuiltIsExactUnlessDamaged(w, steps);
  }

  // ---------------------------------------------------------------------
  // What a swallowed error can do
  // ---------------------------------------------------------------------

  const OLD_MESSAGE: Message := Message("s", "user", "hello", 0.0)

  const OLD_FILE: World := World(Db(map[1 := OLD_MESSAGE], map[], 2, EMPTY_INDEX, false), map[])

  lemma RunCons(w: World, step: Step, steps: seq<Step>, all: seq<Step>)
    requires Enabled(w, step) && Legal(Next(w, step), steps) && all == [step] + steps
    ensures Legal(w, all) && Run(w, all) == Run(Next(w, step), steps)
  {
    hide Next, Enabled;
    assert all[1..] == steps;
  }

  /** A connection that finds no rows and no marker sets it. */
  lemma EmptyGetsMarked(w: World, c: nat)
    requires w.db.messages == map[] && !w.db.built && c !in w.connections
    ensures var steps := [Open(c), CheckMarker(c), Count(c), Mark(c)];
            Legal(w, steps) && Run(w, steps).db.built
  {
    var w1 := Next(w, Open(c));
    var w2 := Next(w1, CheckMarker(c));
    var w3 := Next(w2, Count(c));
    var w4 := Next(w3, Mark(c));
    hide Next, Enabled;
    assert Legal(w4, []) && Run(w4, []).db.built;
    RunCons(w3, Mark(c), [], [Mark(c)]);
    RunCons(w2, Count(c), [Mark(c)], [Count(c), Mark(c)]);
    RunCons(w1, CheckMarker(c), [Count(c), Mark(c)], [CheckMarker(c), Count(c), Mark(c)]);
    RunCons(w, Open(c), [CheckMarker(c), Count(c), Mark(c)], [Open(c), CheckMarker(c), Count(c), Mark(c)]);
  }

  const BLIND_DELETE: seq<Step> := [Open(1), Fail(1), Delete(1, {1}), Open(2), CheckMarker(2), Count(2), Mark(2)]

  lemma BlindDeleteIsLegal()
    ensures Legal(OLD_FILE, BLIND_DELETE) && Run(OLD_FILE, BLIND_DELETE).db.built
  {
    hide Legal, Run, AllPostings, PostingsOf;
    var w1 := Next(OLD_FILE, Open(1));
    var w2 := Next(w1, Fail(1));
    var w3 := Next(w2, Delete(1, {1}));
    assert w3.db.messages == map[] && 2 !in w3.connections;
    EmptyGetsMarked(w3, 2);
    hide Next;
    RunCons(w2, Delete(1, {1}), BLIND_DELETE[3..], BLIND_DELETE[2..]);
    RunCons(w1, Fail(1), BLIND_DELETE[2..], BLIND_DELETE[1..]);
    RunCons(OLD_FILE, Open(1), BLIND_DELETE[1..], BLIND_DELETE);
  }

  /** The backfill swallows its errors.  A connection whose backfill failed may
      delete the only row that predates the index; the next one then counts no
      rows, skips the rebuild and sets the marker over a corrupt index. */
  lemma FailedBackfillCanCorrupt()
    ensures Legacy(OLD_FILE) && Legal(OLD_FILE, BLIND_DELETE)
    ensures Run(OLD_FILE, BLIND_DELETE).db.built && Run(OLD_FILE, BLIND_DELETE).db.index.corrupt
  {
    hide Legal, Run;
    BlindDeleteIsLegal();
    assert Touches(BLIND_DELETE[2], 1) && TouchesOne(BLIND_DELETE[2], OLD_FILE.db.messages);
    LegacyRaw(OLD_FILE);
    WithoutRebuild(OLD_FILE, BLIND_DELETE, OLD_FILE.db.messages);
  }
}
