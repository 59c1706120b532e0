/** The stored messages and their full-text index (chat_store.py): triggers keep
    the index in step with the table, and a one-time rebuild, started by
    whichever connection comes first, brings in the rows that predate it. */
module ChatIndex {
  import opened Text
  import opened ChatSearch

  datatype Message = Message(session: string, role: string, content: string, createdAt: real)

  /** `owner` is the label column: the client or user the session belongs to. */
  datatype Session = Session(source: string, owner: Option<string>, createdAt: real, updatedAt: real)

  type Messages = map<nat, Message>

  /** The postings of the index.  Feeding a delete with text that is not
      indexed corrupts an external-content index for good. */
  datatype Index = Index(entries: set<Posting>, corrupt: bool)

  datatype Db = Db(messages: Messages, sessions: map<string, Session>, nextId: nat, index: Index, built: bool)

  function AllPostings(messages: Messages): set<Posting> {
    set id, e | id in messages && e in PostingsOf(id, messages[id].content) :: e
  }

  /** What the index should be: the postings computed from the table. */
  function Exact(messages: Messages): Index { Index(AllPostings(messages), false) }

  const EMPTY_INDEX: Index := Index({}, false)

  // ---------------------------------------------------------------------
  // Triggers
  // ---------------------------------------------------------------------

  function IndexInsert(ix: Index, id: nat, content: string): Index {
    ix.(entries := ix.entries + PostingsOf(id, content))
  }

  /** The 'delete' command, fed the old content. */
  function IndexDelete(ix: Index, id: nat, content: string): Index {
    var gone := PostingsOf(id, content);
    Index(ix.entries - gone, ix.corrupt || !(gone <= ix.entries))
  }

  function Inserted(db: Db, m: Message): Db {
    db.(messages := db.messages[db.nextId := m], nextId := db.nextId + 1,
        index := IndexInsert(db.index, db.nextId, m.content))
  }

  /** One row of a DELETE, with its trigger. */
  function DeletedRow(db: Db, id: nat): Db
    requires id in db.messages
  {
    db.(messages := db.messages - {id}, index := IndexDelete(db.index, id, db.messages[id].content))
  }

  /** One row of an UPDATE of the content, with its trigger. */
  function UpdatedRow(db: Db, id: nat, content: string): Db
    requires id in db.messages
  {
    db.(messages := db.messages[id := db.messages[id].(content := content)],
        index := IndexInsert(IndexDelete(db.index, id, db.messages[id].content), id, content))
  }

  /** Ids are handed out in order and never again (AUTOINCREMENT). */
  ghost predicate IdsOk(db: Db) { forall id :: id in db.messages ==> id < db.nextId }

  lemma PostingRow(id: nat, text: string)
    ensures forall e :: e in PostingsOf(id, text) ==> e.row == id
  {
  }

  /** A posting belongs to the table if its own row has it. */
  lemma InAll(messages: Messages, e: Posting)
    ensures e in AllPostings(messages) <==> e.row in messages && e in PostingsOf(e.row, messages[e.row].content)
  {
  }

  lemma InsertKeepsExact(db: Db, m: Message)
    requires IdsOk(db) && db.index == Exact(db.messages)
    ensures IdsOk(Inserted(db, m)) && Inserted(db, m).index == Exact(Inserted(db, m).messages)
    ensures db.nextId !in db.messages && Inserted(db, m).messages == db.messages[db.nextId := m]
  {
    hide PostingsOf, AllPostings;
    var after := Inserted(db, m);
    forall e: Posting
      ensures e in after.index.entries <==> e in AllPostings(after.messages)
    {
      InAll(db.messages, e);
      InAll(after.messages, e);
      PostingRow(db.nextId, m.content);
    }
  }

  lemma DeleteKeepsExact(db: Db, id: nat)
    requires id in db.messages && db.index == Exact(db.messages)
    ensures DeletedRow(db, id).index == Exact(DeletedRow(db, id).messages)
    ensures DeletedRow(db, id).messages == db.messages - {id}
  {
    hide PostingsOf, AllPostings;
    var after := DeletedRow(db, id);
    PostingRow(id, db.messages[id].content);
    forall e: Posting
      ensures e in after.index.entries <==> e in AllPostings(after.messages)
      ensures e in PostingsOf(id, db.messages[id].content) ==> e in db.index.entries
    {
      InAll(db.messages, e);
      InAll(after.messages, e);
    }
  }

  lemma UpdateKeepsExact(db: Db, id: nat, content: string)
    requires id in db.messages && db.index == Exact(db.messages)
    ensures UpdatedRow(db, id, content).index == Exact(UpdatedRow(db, id, content).messages)
    ensures UpdatedRow(db, id, content).messages == db.messages[id := db.messages[id].(content := content)]
  {
    hide PostingsOf, AllPostings;
    var after := UpdatedRow(db, id, content);
    PostingRow(id, db.messages[id].content);
    PostingRow(id, content);
    forall e: Posting
      ensures e in after.index.entries <==> e in AllPostings(after.messages)
      ensures e in PostingsOf(id, db.messages[id].content) ==> e in db.index.entries
    {
      InAll(db.messages, e);
      InAll(after.messages, e);
    }
  }

  // ---------------------------------------------------------------------
  // Statements
  // ---------------------------------------------------------------------

  function Only(messages: Messages, ids: set<nat>): Messages { map id | id in ids && id in messages :: messages[id] }

  /** DELETE FROM messages WHERE ...: a whole set of rows. */
  function Deleted(db: Db, ids: set<nat>): Db {
    var gone := AllPostings(Only(db.messages, ids));
    db.(messages := db.messages - ids,
        index := Index(db.index.entries - gone, db.index.corrupt || !(gone <= db.index.entries)))
  }

  /** One more row with its trigger: the order of the rows makes no difference. */
  lemma DeleteOneMore(db: Db, ids: set<nat>, id: nat)
    requires id in db.messages && id !in ids
    ensures id in Deleted(db, ids).messages
    ensures DeletedRow(Deleted(db, ids), id) == Deleted(db, ids + {id})
  {
    hide PostingsOf, AllPostings;
    var content := db.messages[id].content;
    var some, more := AllPostings(Only(db.messages, ids)), AllPostings(Only(db.messages, ids + {id}));
    PostingRow(id, content);
    forall e: Posting
      ensures e in more <==> e in some || e in PostingsOf(id, content)
      ensures !(e in some && e in PostingsOf(id, content))
    {
      InAll(Only(db.messages, ids), e);
      InAll(Only(db.messages, ids + {id}), e);
    }
    var l, r := DeletedRow(Deleted(db, ids), id), Deleted(db, ids + {id});
    assert l.messages == r.messages;
    assert l.index.entries == r.index.entries;
    assert more == some + PostingsOf(id, content);
    assert l.index.corrupt == r.index.corrupt;
  }

  lemma DeletedKeepsExact(db: Db, ids: set<nat>)
    requires db.index == Exact(db.messages)
    ensures Deleted(db, ids).index == Exact(Deleted(db, ids).messages)
    ensures Deleted(db, ids).messages == db.messages - ids
  {
    hide PostingsOf, AllPostings;
    var after := Deleted(db, ids);
    forall e: Posting
      ensures e in after.index.entries <==> e in AllPostings(after.messages)
      ensures e in AllPostings(Only(db.messages, ids)) ==> e in db.index.entries
    {
      InAll(db.messages, e);
      InAll(after.messages, e);
      InAll(Only(db.messages, ids), e);
    }
  }

  function Older(messages: Messages, cutoff: real): set<nat> {
    set id | id in messages && messages[id].createdAt < cutoff
  }

  /** Where the retention period ends; the number of days is configured. */
  function Cutoff(now: real, retentionDays: int): real { now - retentionDays as real * 86400.0 }

  class ChatStore {
    var messages: Messages
    var sessions: map<string, Session>
    var nextId: nat
    var index: Index
    var built: bool

    function State(): Db
      reads this
    {
      Db(messages, sessions, nextId, index, built)
    }

    constructor ()
      ensures State() == Db(map[], map[], 1, EMPTY_INDEX, false)
    {
      messages, sessions, nextId, index, built := map[], map[], 1, EMPTY_INDEX, false;
    }

    /** Makes the index right once per database file. */
    method Backfill()
      modifies this
      ensures built
      ensures State() == old(State()).(built := true, index := index)
      ensures index == if old(built) || old(messages) == map[] then old(index) else Exact(old(messages))
    {
      if built {
        return;
      }
      if |messages| != 0 {
        index := Exact(messages);
      }
      built := true;
    }

    method Record(session: string, role: string, content: string, now: real)
      modifies this
      ensures old(IdsOk(State())) && old(index) == Exact(old(messages)) ==> index == Exact(messages) && IdsOk(State())
      ensures State() == Inserted(old(State()), Message(session, role, content, now)).(sessions := sessions)
      ensures messages == old(messages)[old(nextId) := Message(session, role, content, now)]
      ensures sessions ==
        if session in old(sessions)
        then old(sessions)[session := old(sessions)[session].(updatedAt := now)]
        else old(sessions)
    {
      ghost var before := State();
      var m := Message(session, role, content, now);
      messages, index, nextId := messages[nextId := m], IndexInsert(index, nextId, content), nextId + 1;
      if session in sessions {
        sessions := sessions[session := sessions[session].(updatedAt := now)];
      }
      if IdsOk(before) && before.index == Exact(before.messages) {
        InsertKeepsExact(before, m);
      }
    }

    /** DELETE, row by row, each row firing its trigger. */
    method DeleteRows(ids: set<nat>)
      modifies this`messages, this`index
      ensures State() == Deleted(old(State()), ids) && messages == old(messages) - ids
      ensures old(index) == Exact(old(messages)) ==> index == Exact(messages)
    {
      hide AllPostings, PostingsOf, Deleted, DeletedRow;
      ghost var before := State();
      var todo: set<nat> := ids * messages.Keys;
      ghost var done: set<nat> := {};
      DeleteNothing(before);
      while todo != {}
        invariant todo !! done && todo + done == ids * before.messages.Keys
        invariant State() == Deleted(before, done)
        decreases |todo|
      {
        var id: nat :| id in todo;
        todo := todo - {id};
        DeleteOneMore(before, done, id);
        DeleteStep(State(), id);
        messages, index := messages - {id}, IndexDelete(index, id, messages[id].content);
        done := done + {id};
      }
      DeleteKeys(before, ids);
      DeletedMessages(before, ids);
      if before.index == Exact(before.messages) {
        DeletedKeepsExact(before, ids);
      }
    }

    /** Drops messages past the retention period, then old sessions left empty. */
    method PurgeOld(now: real, retentionDays: int)
      modifies this`messages, this`index, this`sessions
      ensures State() ==
        Deleted(old(State()), Older(old(messages), Cutoff(now, retentionDays))).(sessions := sessions)
      ensures old(index) == Exact(old(messages)) ==> index == Exact(messages)
      ensures forall id :: id in messages <==>
        id in old(messages) && old(messages)[id].createdAt >= now - retentionDays as real * 86400.0
      ensures forall id :: id in messages ==> messages[id] == old(messages)[id]
      ensures sessions == map s | s in old(sessions)
        && ((exists id :: id in messages && messages[id].session == s)
            || old(sessions)[s].createdAt >= Cutoff(now, retentionDays))
        :: old(sessions)[s]
    {
      var cutoff := Cutoff(now, retentionDays);
      DeleteRows(Older(messages, cutoff));
      sessions := map s | s in sessions
        && ((exists id :: id in messages && messages[id].session == s) || sessions[s].createdAt >= cutoff)
        :: sessions[s];
    }

    /** Deletes everything; the index ends empty if it was right before. */
    method WipeAll() returns (deleted: nat)
      modifies this`messages, this`index, this`sessions
      ensures deleted == |old(messages)| && messages == map[] && sessions == map[]
      ensures old(index) == Exact(old(messages)) ==> index == EMPTY_INDEX
    {
      deleted := |messages|;
      DeleteRows(messages.Keys);
      sessions := map[];
      assert AllPostings(map[]) == {};
    }
  }

  lemma DeletedMessages(db: Db, ids: set<nat>)
    ensures Deleted(db, ids).messages == db.messages - ids
  {
  }

  lemma DeleteNothing(db: Db)
    ensures Deleted(db, {}) == db
  {
  }

  lemma DeleteStep(db: Db, id: nat)
    requires id in db.messages
    ensures DeletedRow(db, id)
         == db.(messages := db.messages - {id}, index := IndexDelete(db.index, id, db.messages[id].content))
  {
  }

  lemma DeleteKeys(db: Db, ids: set<nat>)
    ensures Deleted(db, ids * db.messages.Keys) == Deleted(db, ids)
  {
  }
}
