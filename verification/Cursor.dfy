/** Incremental terminal reads: the bridge answers "everything after line n"
    (iterm_bridge.py), the browser appends what it gets and moves its cursor
    (relay/src/pair-page.ts).  The terminal only ever appends lines and drops
    old ones; one request is outstanding at a time. */
module Cursor {
  import opened Text

  /** All lines ever printed, by absolute number, and how many of them have
      scrolled out of the buffer. */
  datatype Terminal = Terminal(lines: seq<string>, overflow: nat) {
    predicate Valid() { overflow <= |lines| }
  }

  /** `lastLine` is -1 when there is none to report. */
  datatype Reply = Reply(content: string, lastLine: int, dropped: bool)

  function Max(a: int, b: int): int { if a < b then b else a }

  function Min(a: int, b: int): int { if a < b then a else b }

  // ---------------------------------------------------------------------
  // The read
  // ---------------------------------------------------------------------

  predicate Dropped(term: Terminal, after: Option<int>) { after.Some? && after.value < term.overflow }

  /** The first line a read asks for: the tail on an initial or restarted read,
      the line after the cursor on a delta. */
  function FirstLine(term: Terminal, after: Option<int>, initial: nat): int {
    if after.None? || Dropped(term, after)
    then term.overflow + Max(0, |term.lines| - term.overflow - initial)
    else after.value + 1
  }

  /** The lines delivered: from the first one asked for up to the end, or less
      if the terminal hands out only `got` of them. */
  function Lines(term: Terminal, after: Option<int>, initial: nat, got: nat): seq<string>
    requires term.Valid()
  {
    var first := FirstLine(term, after, initial);
    if 0 <= first <= |term.lines| then term.lines[first..Min(|term.lines|, first + got)] else []
  }

  function NothingNew(term: Terminal, after: Option<int>): int {
    if after.None? || Dropped(term, after) then -1 else after.value
  }

  function ReadReply(term: Terminal, after: Option<int>, initial: nat, got: nat): Reply
    requires term.Valid()
  {
    var lines := Lines(term, after, initial, got);
    Reply(Join("\n", lines),
          if lines == [] then NothingNew(term, after) else FirstLine(term, after, initial) + |lines| - 1,
          Dropped(term, after))
  }

  /** A read that gets all it asks for: the newest `initial` lines at first and
      after a dropped prefix, all lines after the cursor otherwise, each time
      with the number of the last. */
  lemma ReadsExactly(term: Terminal, after: Option<int>, initial: nat)
    requires term.Valid()
    ensures var n, kept := |term.lines|, |term.lines| - term.overflow;
            var r := ReadReply(term, after, initial, n);
            if after.None? || after.value < term.overflow
            then
              var first := n - (if kept <= initial then kept else initial);
              r == Reply(Join("\n", term.lines[first..]), if first < n then n - 1 else -1, after.Some?)
            else if after.value < n - 1
            then r == Reply(Join("\n", term.lines[after.value + 1..]), n - 1, false)
            else r == Reply("", after.value, false)
  {
    NoLines();
    hide Join;
    if after.None? || after.value < term.overflow || after.value < |term.lines| - 1 {
      var first := FirstLine(term, after, initial);
      assert 0 <= first <= |term.lines| && Min(|term.lines|, first + |term.lines|) == |term.lines|;
      assert term.lines[first..|term.lines|] == term.lines[first..];
      assert Lines(term, after, initial, |term.lines|) == term.lines[first..];
    } else {
      assert Lines(term, after, initial, |term.lines|) == [];
    }
  }

  lemma NoLines()
    ensures Join("\n", []) == ""
  {
  }

  method ReadSessionIncremental(term: Terminal, after: Option<int>, initial: nat, got: nat) returns (reply: Reply)
    requires term.Valid()
    ensures reply == ReadReply(term, after, initial, got)
  {
    hide Join;
    NoLines();
    var overflow := term.overflow;
    var total := |term.lines| - overflow;
    var lastValid := overflow + total - 1;
    var droppedPrefix := false;
    var doInitial := after.None?;
    if !doInitial {
      if after.value < overflow {
        droppedPrefix := true;
        doInitial := true;
      } else if after.value >= lastValid {
        return Reply("", after.value, false);
      }
    }
    var still := if doInitial then -1 else after.value;
    var firstLine := if doInitial then overflow + Max(0, total - initial) else after.value + 1;
    var count := (overflow + total) - firstLine;
    if count <= 0 {
      return Reply("", still, droppedPrefix);
    }
    var rendered := term.lines[firstLine..firstLine + Min(count, got)];
    if |rendered| == 0 {
      return Reply("", still, droppedPrefix);
    }
    reply := Reply(Join("\n", rendered), firstLine + |rendered| - 1, droppedPrefix);
  }

  // ---------------------------------------------------------------------
  // The browser's side
  // ---------------------------------------------------------------------

  const PLACEHOLDER: string := "(empty)"

  datatype Client = Client(cursor: Option<int>, text: string)

  /** What a reply does to the cursor and the terminal text; after a dropped
      prefix the caller asks again at once. */
  function Applied(c: Client, r: Reply): Client {
    if r.dropped then Client(None, "")
    else
      Client(
        if r.lastLine >= 0 then Some(r.lastLine) else c.cursor,
        if c.cursor.None? then (if r.content == "" then PLACEHOLDER else r.content)
        else if r.content == "" then c.text
        else (if c.text == PLACEHOLDER then "" else c.text) + r.content)
  }

  class Browser {
    var lastLineBySession: map<string, int>
    var currentId: string
    var text: string

    function CursorOf(id: string): Option<int>
      reads this
    {
      if id in lastLineBySession then Some(lastLineBySession[id]) else None
    }

    constructor (id: string)
      ensures currentId == id && CursorOf(id) == None
    {
      lastLineBySession, currentId, text := map[], id, "Loading...";
    }

    /** The `session_content` handler; replies for other sessions are ignored. */
    method OnSessionContent(id: string, r: Reply) returns (refresh: bool)
      modifies this
      ensures currentId == old(currentId)
      ensures if id == currentId
              then
                && Client(CursorOf(id), text) == Applied(Client(old(CursorOf(id)), old(text)), r)
                && refresh == r.dropped
              else lastLineBySession == old(lastLineBySession) && text == old(text) && !refresh
      ensures id == currentId && r.dropped ==> refresh && text == "" && id !in lastLineBySession
      ensures id == currentId && !r.dropped && id !in old(lastLineBySession) ==>
                text == if r.content == "" then "(empty)" else r.content
      ensures id == currentId && !r.dropped && id in old(lastLineBySession) ==>
                text == if r.content == "" then old(text)
                        else (if old(text) == "(empty)" then "" else old(text)) + r.content
      ensures id == currentId && !r.dropped ==>
                lastLineBySession ==
                if r.lastLine >= 0 then old(lastLineBySession)[id := r.lastLine] else old(lastLineBySession)
      ensures forall other :: other != id ==> CursorOf(other) == old(CursorOf(other))
    {
      if id != currentId {
        return false;
      }
      if r.dropped {
        lastLineBySession := lastLineBySession - {currentId};
        text := "";
        return true;
      }
      var wasInitial := currentId !in lastLineBySession;
      if wasInitial {
        text := if r.content != "" then r.content else PLACEHOLDER;
      } else if r.content != "" {
        if text == PLACEHOLDER {
          text := "";
        }
        text := text + r.content;
      }
      if r.lastLine >= 0 {
        lastLineBySession := lastLineBySession[currentId := r.lastLine];
      }
      refresh := false;
    }
  }

  // ---------------------------------------------------------------------
  // Runs
  // ---------------------------------------------------------------------

  /** What one reply brought: terminal lines, or an error message. */
  datatype Piece = Chunk(lines: seq<string>) | Note(message: string) {
    function Text(): string { if Chunk? then Join("\n", lines) else message }
    function Brought(): seq<string> { if Chunk? then lines else [] }
  }

  datatype Request = Quiet | Asked(after: Option<int>) | Answered(reply: Reply, piece: Piece)

  /** The terminal, the browser, and what it has received since the last full
      refresh, starting with terminal line `first`. */
  datatype World = World(term: Terminal, client: Client, request: Request, first: int, pieces: seq<Piece>)

  const START: World := World(Terminal([], 0), Client(None, "Loading..."), Quiet, 0, [])

  /** The lines received. */
  function Shown(pieces: seq<Piece>): seq<string> {
    if pieces == [] then [] else Shown(pieces[..|pieces| - 1]) + pieces[|pieces| - 1].Brought()
  }

  /** The text their pieces leave on the screen. */
  function Display(pieces: seq<Piece>): string
    requires pieces != []
  {
    var last := pieces[|pieces| - 1].Text();
    if |pieces| == 1 then if last == "" then PLACEHOLDER else last
    else
      var before := Display(pieces[..|pieces| - 1]);
      if last == "" then before else (if before == PLACEHOLDER then "" else before) + last
  }

  lemma ShownAppend(pieces: seq<Piece>, p: Piece)
    ensures Shown(pieces + [p]) == Shown(pieces) + p.Brought()
    ensures pieces != [] ==>
      (Display(pieces + [p]) ==
       if p.Text() == "" then Display(pieces)
       else (if Display(pieces) == PLACEHOLDER then "" else Display(pieces)) + p.Text())
  {
  }

  datatype Step =
    | Print(lines: seq<string>)
    | Scroll(n: nat)
    | Select
    | Poll
    | Answer(initial: nat, got: nat)
    | Fail(message: string)
    | Receive

  predicate Enabled(w: World, step: Step) {
    match step
    case Print(_) => true
    case Scroll(n) => w.term.overflow + n <= |w.term.lines|
    case Select => w.request.Quiet?
    case Poll => w.request.Quiet?
    case Answer(_, _) => w.request.Asked? && w.term.Valid()
    case Fail(_) => w.request.Asked?
    case Receive => w.request.Answered?
  }

  function Next(w: World, step: Step): World
    requires Enabled(w, step)
  {
    match step
    case Print(lines) => w.(term := w.term.(lines := w.term.lines + lines))
    case Scroll(n) => w.(term := w.term.(overflow := w.term.overflow + n))
    case Select => w.(client := Client(None, "Loading..."), request := Asked(None), pieces := [])
    case Poll => w.(request := Asked(w.client.cursor))
    case Answer(initial, got) =>
      w.(request := Answered(ReadReply(w.term, w.request.after, initial, got),
                             Chunk(Lines(w.term, w.request.after, initial, got))))
    case Fail(message) => w.(request := Answered(Reply(message, -1, false), Note(message)))
    case Receive => Received(w)
  }

  function Received(w: World): World
    requires w.request.Answered?
  {
    var r, piece := w.request.reply, w.request.piece;
    var v := w.(client := Applied(w.client, r));
    if r.dropped then v.(request := Asked(None), pieces := [])
    else if w.client.cursor.None? then
      v.(request := Quiet, first := r.lastLine - |piece.Brought()| + 1, pieces := [piece])
    else v.(request := Quiet, pieces := w.pieces + [piece])
  }

  ghost predicate Legal(w: World, steps: seq<Step>)
    decreases |steps|
  {
    steps == [] || (Enabled(w, steps[0]) && Legal(Next(w, steps[0]), steps[1..]))
  }

  function Run(w: World, steps: seq<Step>): World
    requires Legal(w, steps)
    decreases |steps|
  {
    if steps == [] then w else Run(Next(w, steps[0]), steps[1..])
  }

  /** The lines from number `first` to number `last` of the terminal. */
  predicate IsStretch(term: Terminal, first: int, last: int, lines: seq<string>) {
    0 <= first <= last + 1 <= |term.lines| && lines == term.lines[first..last + 1]
  }

  predicate ReplyOk(w: World, r: Reply, piece: Piece) {
    var lines := piece.Brought();
    && r.content == piece.Text()
    && (lines != [] ==>
          && IsStretch(w.term, r.lastLine - |lines| + 1, r.lastLine, lines)
          && (!r.dropped && w.client.cursor.Some? ==> r.lastLine - |lines| == w.client.cursor.value))
    && (lines == [] ==> r.lastLine == -1 || Some(r.lastLine) == w.client.cursor)
  }

  predicate Inv(w: World) {
    && w.term.Valid()
    && (w.client.cursor.None? ==> Shown(w.pieces) == [])
    && (w.client.cursor.Some? ==>
          Shown(w.pieces) != [] && IsStretch(w.term, w.first, w.client.cursor.value, Shown(w.pieces)))
    && (w.pieces != [] ==> w.client.text == Display(w.pieces))
    && (w.request.Asked? ==> w.request.after == w.client.cursor)
    && (w.request.Answered? ==> ReplyOk(w, w.request.reply, w.request.piece))
  }

  lemma PrintKeeps(w: World, lines: seq<string>)
    requires Inv(w)
    ensures Inv(Next(w, Print(lines)))
  {
    hide Shown, Display, Join;
    var v := Next(w, Print(lines));
    if w.client.cursor.Some? {
      assert v.term.lines[w.first..w.client.cursor.value + 1] == w.term.lines[w.first..w.client.cursor.value + 1];
    }
    if w.request.Answered? && w.request.piece.Brought() != [] {
      var r, n := w.request.reply, |w.request.piece.Brought()|;
      assert v.term.lines[r.lastLine - n + 1..r.lastLine + 1] == w.term.lines[r.lastLine - n + 1..r.lastLine + 1];
    }
  }

  lemma AnswerKeeps(w: World, initial: nat, got: nat)
    requires Inv(w) && Enabled(w, Answer(initial, got))
    ensures Inv(Next(w, Answer(initial, got)))
  {
    hide Shown, Display, Join, ReadReply, Lines, IsStretch;
    if w.client.cursor.Some? {
      StretchEnd(w.term, w.first, w.client.cursor.value, Shown(w.pieces));
    }
    AnswerIsStretch(w.term, w.client.cursor, initial, got);
  }

  /** The lines of an answer are a stretch of the terminal that ends with the
      last line reported, and on a delta starts after the cursor. */
  lemma AnswerIsStretch(term: Terminal, after: Option<int>, initial: nat, got: nat)
    requires term.Valid() && (after.Some? ==> 0 <= after.value < |term.lines|)
    ensures var r, lines := ReadReply(term, after, initial, got), Lines(term, after, initial, got);
            && r.content == Chunk(lines).Text()
            && (lines != [] ==>
                  && IsStretch(term, r.lastLine - |lines| + 1, r.lastLine, lines)
                  && (!r.dropped && after.Some? ==> r.lastLine - |lines| == after.value))
            && (lines == [] ==> r.lastLine == -1 || Some(r.lastLine) == after)
  {
    hide Join;
  }

  lemma StretchEnd(term: Terminal, first: int, last: int, lines: seq<string>)
    requires IsStretch(term, first, last, lines) && lines != []
    ensures 0 <= last < |term.lines|
  {
  }

  lemma LongerStretch(term: Terminal, first: int, mid: int, last: int, shown: seq<string>, lines: seq<string>)
    requires IsStretch(term, first, mid, shown) && IsStretch(term, mid + 1, last, lines)
    ensures IsStretch(term, first, last, shown + lines)
  {
  }

  lemma ReceiveKeeps(w: World)
    requires Inv(w) && w.request.Answered?
    ensures Inv(Received(w))
  {
    hide Shown, Display, Join, IsStretch;
    var r, piece, c := w.request.reply, w.request.piece, w.client.cursor;
    var lines := piece.Brought();
    OnePiece(piece);
    ShownAppend(w.pieces, piece);
    if lines != [] {
      StretchEnd(w.term, r.lastLine - |lines| + 1, r.lastLine, lines);
    }
    if !r.dropped && c.Some? {
      if lines != [] {
        LongerStretch(w.term, w.first, c.value, r.lastLine, Shown(w.pieces), lines);
      } else {
        assert Shown(w.pieces) + lines == Shown(w.pieces);
      }
    }
  }

  lemma OnePiece(p: Piece)
    ensures Shown([]) == [] && Shown([p]) == p.Brought()
    ensures Display([p]) == if p.Text() == "" then PLACEHOLDER else p.Text()
  {
  }

  lemma NextKeeps(w: World, step: Step)
    requires Inv(w) && Enabled(w, step)
    ensures Inv(Next(w, step))
  {
    hide Display, Join, Received;
    match step
    case Print(lines) => PrintKeeps(w, lines);
    case Answer(initial, got) => AnswerKeeps(w, initial, got);
    case Receive => ReceiveKeeps(w);
    case _ =>
  }

  lemma {:induction false} RunKeeps(w: World, steps: seq<Step>)
    requires Inv(w) && Legal(w, steps)
    ensures Inv(Run(w, steps))
    decreases |steps|
  {
    hide Inv, Next, Enabled;
    if steps == [] {
    } else {
      NextKeeps(w, steps[0]);
      RunKeeps(Next(w, steps[0]), steps[1..]);
    }
  }

  /** In every run, the lines received since the last full refresh are a
      gapless, repeat-free stretch of the terminal's lines with the cursor as
      its last, and the text on show is the display of their pieces. */
  lemma ShownIsAStretch(steps: seq<Step>)
    requires Legal(START, steps)
    ensures var w := Run(START, steps);
            w.client.cursor.Some? ==>
              && Shown(w.pieces) != []
              && IsStretch(w.term, w.first, w.client.cursor.value, Shown(w.pieces))
              && w.pieces != [] && w.client.text == Display(w.pieces)
  {
    RunKeeps(START, steps);
  }

  /** A request is answered with a dropped prefix exactly when it was a delta
      whose cursor lies below the overflow. */
  lemma DroppedExactly(w: World, initial: nat, got: nat)
    requires Inv(w) && Enabled(w, Answer(initial, got))
    ensures Next(w, Answer(initial, got)).request.reply.dropped
            <==> w.client.cursor.Some? && w.client.cursor.value < w.term.overflow
  {
  }

  // ---------------------------------------------------------------------
  // The placeholder
  // ---------------------------------------------------------------------

  function AllText(pieces: seq<Piece>): string {
    if pieces == [] then "" else AllText(pieces[..|pieces| - 1]) + pieces[|pieces| - 1].Text()
  }

  /** Some text was received, it reads exactly like the placeholder, and more
      came after it. */
  ghost predicate MistakenForPlaceholder(pieces: seq<Piece>) {
    exists i :: 0 < i <= |pieces| && AllText(pieces[..i]) == PLACEHOLDER && AllText(pieces) != PLACEHOLDER
  }

  lemma AllTextLast(pieces: seq<Piece>)
    requires pieces != []
    ensures AllText(pieces) == AllText(pieces[..|pieces| - 1]) + pieces[|pieces| - 1].Text()
  {
  }

  lemma {:induction false} NoTextShowsPlaceholder(pieces: seq<Piece>)
    requires pieces != [] && AllText(pieces) == ""
    ensures Display(pieces) == PLACEHOLDER
    decreases |pieces|
  {
    if |pieces| == 1 {
    } else {
      NoTextShowsPlaceholder(pieces[..|pieces| - 1]);
    }
  }

  /** What the pieces leave on the screen is all their text, unless the text up
      to some point reads exactly like the placeholder: then it is erased. */
  lemma {:induction false} DisplayIsAllTextUnlessMistaken(pieces: seq<Piece>)
    requires pieces != [] && AllText(pieces) != ""
    ensures Display(pieces) == AllText(pieces) <==> !MistakenForPlaceholder(pieces)
    decreases |pieces|
  {
    hide AllText, Display;
    var n := |pieces|;
    var front, p := pieces[..n - 1], pieces[n - 1].Text();
    AllTextLast(pieces);
    DisplayLast(pieces);
    MistakenLast(pieces);
    if n == 1 {
      NoText();
      assert front == [];
    } else if AllText(front) == "" {
      NoTextShowsPlaceholder(front);
      forall i | 0 <= i <= |front|
        ensures AllText(front[..i]) != PLACEHOLDER
      {
        StartsWith(front, i);
      }
    } else {
      DisplayIsAllTextUnlessMistaken(front);
      var before, all := Display(front), AllText(front);
      assert before + p == all + p ==> before == all by {
        assert (before + p)[..|before + p| - |p|] == before && (all + p)[..|all + p| - |p|] == all;
      }
      assert p == all + p ==> |p| == |all| + |p|;
    }
  }

  lemma NoText()
    ensures AllText([]) == ""
  {
  }

  lemma DisplayLast(pieces: seq<Piece>)
    requires pieces != []
    ensures var last := pieces[|pieces| - 1].Text();
            Display(pieces) ==
            if |pieces| == 1 then if last == "" then PLACEHOLDER else last
            else
              var before := Display(pieces[..|pieces| - 1]);
              if last == "" then before else (if before == PLACEHOLDER then "" else before) + last
  {
  }

  /** Only text that comes after a placeholder look-alike makes it matter. */
  lemma MistakenLast(pieces: seq<Piece>)
    requires pieces != []
    ensures var front, p := pieces[..|pieces| - 1], pieces[|pieces| - 1].Text();
            MistakenForPlaceholder(pieces) <==>
            MistakenForPlaceholder(front) || (front != [] && AllText(front) == PLACEHOLDER && p != "")
  {
    hide AllText;
    var n := |pieces|;
    var front, p := pieces[..n - 1], pieces[n - 1].Text();
    AllTextLast(pieces);
    assert forall i :: 0 <= i < n ==> front[..i] == pieces[..i];
    assert pieces[..n] == pieces && front[..n - 1] == front;
    if MistakenForPlaceholder(pieces) {
      var i :| 0 < i <= n && AllText(pieces[..i]) == PLACEHOLDER && AllText(pieces) != PLACEHOLDER;
      assert i < n && AllText(front[..i]) == PLACEHOLDER;
      assert AllText(front) + "" == AllText(front);
    }
    if MistakenForPlaceholder(front) {
      var i :| 0 < i <= n - 1 && AllText(front[..i]) == PLACEHOLDER && AllText(front) != PLACEHOLDER;
      SameLength(front, i, p);
      assert AllText(pieces[..i]) == PLACEHOLDER;
    }
    if front != [] && AllText(front) == PLACEHOLDER && p != "" {
      assert AllText(pieces[..n - 1]) == PLACEHOLDER && |AllText(pieces)| > |PLACEHOLDER|;
    }
  }

  /** Text that starts with the placeholder and is not the placeholder never
      becomes it again. */
  lemma SameLength(front: seq<Piece>, i: nat, p: string)
    requires i <= |front| && AllText(front[..i]) == PLACEHOLDER && AllText(front) != PLACEHOLDER
    ensures AllText(front) + p != PLACEHOLDER
  {
    hide AllText;
    StartsWith(front, i);
    EqualOrLonger(PLACEHOLDER, AllText(front));
  }

  lemma EqualOrLonger(a: string, b: string)
    requires a <= b
    ensures a == b || |a| < |b|
  {
  }

  lemma {:induction false} StartsWith(pieces: seq<Piece>, i: nat)
    requires i <= |pieces|
    ensures AllText(pieces[..i]) <= AllText(pieces)
    decreases |pieces|
  {
    if i < |pieces| {
      var front := pieces[..|pieces| - 1];
      assert front[..i] == pieces[..i];
      StartsWith(front, i);
    } else {
      assert pieces[..i] == pieces;
    }
  }

  /** The browser tells "nothing received yet" by the text it shows itself.  In
      every run, once something was received, the page shows all the text
      received since the last full refresh (the placeholder if that is none),
      if and only if that text never read exactly like the placeholder before
      more came. */
  lemma ShowsAllTextUnlessMistaken(steps: seq<Step>)
    requires Legal(START, steps) && Run(START, steps).pieces != []
    ensures var w := Run(START, steps);
            var all := AllText(w.pieces);
            w.client.text == (if all == "" then PLACEHOLDER else all) <==> !MistakenForPlaceholder(w.pieces)
  {
    hide Legal, Run, AllText, Display;
    RunKeeps(START, steps);
    var pieces := Run(START, steps).pieces;
    if AllText(pieces) == "" {
      NoTextShowsPlaceholder(pieces);
      forall i | 0 <= i <= |pieces|
        ensures AllText(pieces[..i]) != PLACEHOLDER
      {
        StartsWith(pieces, i);
      }
    } else {
      DisplayIsAllTextUnlessMistaken(pieces);
    }
  }

  const ERASING: seq<Step> := [
    Print([PLACEHOLDER]), Poll, Answer(1000, 1), Receive, Print(["x"]), Poll, Answer(1000, 1), Receive]

  lemma RunFrom(w: World, steps: seq<Step>, k: nat)
    requires k < |steps| && Enabled(w, steps[k]) && Legal(Next(w, steps[k]), steps[k + 1..])
    ensures Legal(w, steps[k..]) && Run(w, steps[k..]) == Run(Next(w, steps[k]), steps[k + 1..])
  {
    hide Next, Enabled;
    assert steps[k..][1..] == steps[k + 1..];
  }

  /** The page after the terminal's first line, which reads like the placeholder. */
  function LookAlike(): World {
    World(Terminal([PLACEHOLDER], 0), Client(Some(0), PLACEHOLDER), Quiet, 0, [Chunk([PLACEHOLDER])])
  }

  lemma EraseFirstHalf()
    ensures Legal(LookAlike(), ERASING[4..]) ==>
              Legal(START, ERASING) && Run(START, ERASING) == Run(LookAlike(), ERASING[4..])
  {
    hide Legal, Run;
    var w1 := Next(START, ERASING[0]);
    var w2 := Next(w1, ERASING[1]);
    assert w2 == World(Terminal([PLACEHOLDER], 0), Client(None, "Loading..."), Asked(None), 0, []);
    var w3 := Next(w2, ERASING[2]);
    assert Lines(w2.term, None, 1000, 1) == [PLACEHOLDER];
    assert w3.request == Answered(Reply(PLACEHOLDER, 0, false), Chunk([PLACEHOLDER]));
    var w4 := Next(w3, ERASING[3]);
    assert w4 == LookAlike();
    hide Next, LookAlike;
    if Legal(LookAlike(), ERASING[4..]) {
      RunFrom(w3, ERASING, 3);
      RunFrom(w2, ERASING, 2);
      RunFrom(w1, ERASING, 1);
      RunFrom(START, ERASING, 0);
      assert ERASING[0..] == ERASING;
    }
  }

  lemma EraseSecondHalf()
    ensures Legal(LookAlike(), ERASING[4..])
    ensures var w := Run(LookAlike(), ERASING[4..]);
            w.client.text == "x" && w.pieces == [Chunk([PLACEHOLDER]), Chunk(["x"])]
  {
    var w := LookAlike();
    var w1 := Next(w, ERASING[4]);
    var w2 := Next(w1, ERASING[5]);
    var w3 := Next(w2, ERASING[6]);
    assert Lines(w2.term, Some(0), 1000, 1) == ["x"];
    assert w3.request == Answered(Reply("x", 1, false), Chunk(["x"]));
    var w4 := Next(w3, ERASING[7]);
    assert w4.client.text == "x" && w4.pieces == [Chunk([PLACEHOLDER]), Chunk(["x"])];
    assert ERASING[8..] == [] && Legal(w4, ERASING[8..]) && Run(w4, ERASING[8..]) == w4;
    hide Legal, Run, Next;
    RunFrom(w3, ERASING, 7);
    RunFrom(w2, ERASING, 6);
    RunFrom(w1, ERASING, 5);
    RunFrom(w, ERASING, 4);
  }

  /** A terminal whose first line reads like the placeholder: the page loses it
      when the second line comes. */
  lemma FirstLineCanBeErased()
    ensures Legal(START, ERASING)
    ensures var w := Run(START, ERASING);
            w.client.text == "x" && AllText(w.pieces) == PLACEHOLDER + "x"
  {
    hide Legal, Run;
    EraseSecondHalf();
    EraseFirstHalf();
    TwoPieces();
  }

  lemma TwoPieces()
    ensures var pieces := [Chunk([PLACEHOLDER]), Chunk(["x"])];
            AllText(pieces) == PLACEHOLDER + "x"
  {
    var one: seq<Piece> := [Chunk([PLACEHOLDER])];
    assert [Chunk([PLACEHOLDER]), Chunk(["x"])][..1] == one && one[..0] == [];
    assert AllText(one) == PLACEHOLDER;
  }
}
