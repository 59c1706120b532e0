/** The incremental escape-sequence parser of the browser console
    (static/ansi_up.js): it keeps an unfinished tail of its input in a buffer,
    carries the current style from call to call, and turns text into styled
    fragments. */
module Ansi {
  import opened Text

  const BEL: char := '\U{07}'

  // ---------------------------------------------------------------------
  // Styles and colours
  // ---------------------------------------------------------------------

  datatype Color = Color(red: int, green: int, blue: int, className: string)

  datatype Style = Style(
    fg: Option<Color>, bg: Option<Color>, bold: bool, faint: bool, italic: bool, underline: bool)

  const DEFAULT_STYLE := Style(None, None, false, false, false, false)

  const NORMAL_COLORS: seq<Color> := [
    Color(0, 0, 0, "ansi-black"), Color(187, 0, 0, "ansi-red"),
    Color(0, 187, 0, "ansi-green"), Color(187, 187, 0, "ansi-yellow"),
    Color(0, 0, 187, "ansi-blue"), Color(187, 0, 187, "ansi-magenta"),
    Color(0, 187, 187, "ansi-cyan"), Color(255, 255, 255, "ansi-white")]

  const BRIGHT_COLORS: seq<Color> := [
    Color(85, 85, 85, "ansi-bright-black"), Color(255, 85, 85, "ansi-bright-red"),
    Color(0, 255, 0, "ansi-bright-green"), Color(255, 255, 85, "ansi-bright-yellow"),
    Color(85, 85, 255, "ansi-bright-blue"), Color(255, 85, 255, "ansi-bright-magenta"),
    Color(85, 255, 255, "ansi-bright-cyan"), Color(255, 255, 255, "ansi-bright-white")]

  const LEVELS: seq<int> := [0, 95, 135, 175, 215, 255]

  function TrueColor(r: int, g: int, b: int): Color { Color(r, g, b, "truecolor") }

  /** Entry n of the 256-colour palette: 16 named colours, a 6x6x6 cube whose
      coordinates are the base-6 digits of n - 16, and a ramp of 24 greys. */
  function PaletteColor(n: nat): Color
    requires n < 256
  {
    if n < 8 then NORMAL_COLORS[n]
    else if n < 16 then BRIGHT_COLORS[n - 8]
    else if n < 232 then
      TrueColor(LEVELS[(n - 16) / 36], LEVELS[(n - 16) / 6 % 6], LEVELS[(n - 16) % 6])
    else
      var grey := 8 + 10 * (n - 232);
      TrueColor(grey, grey, grey)
  }

  // ---------------------------------------------------------------------
  // SGR
  // ---------------------------------------------------------------------

  /** The effect of one parameter that takes no arguments; None is NaN. */
  function ApplyCode(num: Option<nat>, st: Style): Style {
    if num.None? then DEFAULT_STYLE
    else
      var n := num.value;
      if n == 0 then DEFAULT_STYLE
      else if n == 1 then st.(bold := true)
      else if n == 2 then st.(faint := true)
      else if n == 3 then st.(italic := true)
      else if n == 4 then st.(underline := true)
      else if n == 21 then st.(bold := false)
      else if n == 22 then st.(faint := false, bold := false)
      else if n == 23 then st.(italic := false)
      else if n == 24 then st.(underline := false)
      else if n == 39 then st.(fg := None)
      else if n == 49 then st.(bg := None)
      else if 30 <= n < 38 then st.(fg := Some(NORMAL_COLORS[n - 30]))
      else if 40 <= n < 48 then st.(bg := Some(NORMAL_COLORS[n - 40]))
      else if 90 <= n < 98 then st.(fg := Some(BRIGHT_COLORS[n - 90]))
      else if 100 <= n < 108 then st.(bg := Some(BRIGHT_COLORS[n - 100]))
      else st
  }

  function SetColor(st: Style, foreground: bool, color: Color): Style {
    if foreground then st.(fg := Some(color)) else st.(bg := Some(color))
  }

  predicate IsChannel(v: Option<nat>) { v.Some? && v.value <= 255 }

  function SetIndexed(st: Style, foreground: bool, index: string): Style {
    var n := ParseInt(index);
    if IsChannel(n) then SetColor(st, foreground, PaletteColor(n.value)) else st
  }

  function SetTrueColor(st: Style, foreground: bool, red: string, green: string, blue: string): Style {
    var r, g, b := ParseInt(red), ParseInt(green), ParseInt(blue);
    if IsChannel(r) && IsChannel(g) && IsChannel(b)
    then SetColor(st, foreground, TrueColor(r.value, g.value, b.value))
    else st
  }

  /** The effect of a whole parameter list. */
  function ApplySgr(cmds: seq<string>, st: Style): Style
    decreases |cmds|
  {
    if cmds == [] then st
    else
      var num := ParseInt(cmds[0]);
      if num != Some(38) && num != Some(48) then ApplySgr(cmds[1..], ApplyCode(num, st))
      else if |cmds| == 1 then st
      else if cmds[1] == "5" && |cmds| > 2 then
        ApplySgr(cmds[3..], SetIndexed(st, num == Some(38), cmds[2]))
      else if cmds[1] == "2" && |cmds| > 4 then
        ApplySgr(cmds[5..], SetTrueColor(st, num == Some(38), cmds[2], cmds[3], cmds[4]))
      else ApplySgr(cmds[2..], st)
  }

  // ---------------------------------------------------------------------
  // The three regular expressions
  // ---------------------------------------------------------------------

  predicate IsPrintable(c: char) { ' ' <= c <= '~' }
  predicate IsPrivate(c: char) { '<' <= c <= '?' }
  predicate IsParam(c: char) { IsDigit(c) || c == ';' }
  predicate IsIntermediate(c: char) { ' ' <= c <= '/' }
  predicate IsFinal(c: char) { '@' <= c <= '~' }
  predicate IsLinkParam(c: char) { IsPrintable(c) && c != ';' }
  predicate IsUrlChar(c: char) { '!' <= c <= '~' }

  /** The end of the longest run of `cls` characters that starts at i. */
  function RunEnd(s: string, i: nat, cls: char -> bool): (j: nat)
    requires i <= |s|
    ensures i <= j <= |s|
    decreases |s| - i
  {
    if i < |s| && cls(s[i]) then RunEnd(s, i + 1, cls) else i
  }

  lemma {:induction false} RunEndIs(s: string, i: nat, cls: char -> bool, j: nat)
    requires i <= |s|
    ensures RunEnd(s, i, cls) == j <==>
            i <= j <= |s| && All(s, i, j, cls) && (j < |s| ==> !cls(s[j]))
    decreases |s| - i
  {
    if i == |s| || !cls(s[i]) {
    } else {
      RunEndIs(s, i + 1, cls, j);
    }
  }

  /** All characters of buf[i..j] are in the class. */
  predicate All(buf: string, i: nat, j: nat, cls: char -> bool)
    requires j <= |buf|
  {
    forall k :: i <= k < j ==> cls(buf[k])
  }

  /** A match of the CSI expression's first alternative at the start of the
      buffer, by the ends of its three capture groups. */
  datatype Csi = Csi(privEnd: nat, paramsEnd: nat, end: nat) {
    predicate Matches(buf: string) {
      && 2 <= privEnd <= 3 && privEnd <= paramsEnd && paramsEnd + 1 <= end <= paramsEnd + 2
      && end <= |buf| && buf[0] == ESC && buf[1] == '['
      && All(buf, 2, privEnd, IsPrivate)
      && All(buf, privEnd, paramsEnd, IsParam)
      && All(buf, paramsEnd, end - 1, IsIntermediate)
      && IsFinal(buf[end - 1])
    }
  }

  function MatchCsi(buf: string): (m: Option<Csi>)
    requires |buf| >= 2 && buf[0] == ESC && buf[1] == '['
    ensures m.Some? ==> 2 <= m.value.privEnd <= m.value.paramsEnd < m.value.end <= |buf|
  {
    var i := if 2 < |buf| && IsPrivate(buf[2]) then 3 else 2;
    var j := RunEnd(buf, i, IsParam);
    var k := if j < |buf| && IsIntermediate(buf[j]) then j + 1 else j;
    if k < |buf| && IsFinal(buf[k]) then Some(Csi(i, j, k + 1)) else None
  }

  /** The expression matches in at most one way, and `MatchCsi` finds it. */
  lemma MatchCsiIs(buf: string, m: Csi)
    requires |buf| >= 2 && buf[0] == ESC && buf[1] == '['
    ensures MatchCsi(buf) == Some(m) <==> m.Matches(buf)
  {
    var i := if 2 < |buf| && IsPrivate(buf[2]) then 3 else 2;
    RunEndIs(buf, i, IsParam, RunEnd(buf, i, IsParam));
    if m.Matches(buf) {
      var c := buf[m.paramsEnd];
      assert IsIntermediate(c) || IsFinal(c);
      RunEndIs(buf, i, IsParam, m.paramsEnd);
    }
  }

  /** The second alternative.  The source's anchor belongs to the first
      alternative only, so this one may match anywhere in the buffer. */
  predicate IllegalCsi(buf: string, p: nat, q: nat) {
    && p + 2 <= q < |buf| && buf[p] == ESC && buf[p + 1] == '['
    && (forall k :: p + 2 <= k < q ==> IsPrintable(buf[k]))
    && (buf[q] < ' ' || buf[q] == ':')
  }

  predicate IllegalCsiFrom(buf: string, p: nat) {
    exists q | 0 <= q < |buf| :: IllegalCsi(buf, p, q)
  }

  predicate HasIllegalCsi(buf: string) {
    exists p | 0 <= p < |buf| :: IllegalCsiFrom(buf, p)
  }

  /** The first character from i on that a CSI sequence must not hold. */
  lemma {:induction false} FirstBad(buf: string, i: nat, j: nat) returns (q: nat)
    requires i <= j < |buf| && (buf[j] < ' ' || buf[j] == ':')
    ensures i <= q <= j && (buf[q] < ' ' || buf[q] == ':')
    ensures forall k :: i <= k < q ==> !(buf[k] < ' ' || buf[k] == ':')
    decreases j - i
  {
    if buf[i] < ' ' || buf[i] == ':' {
      q := i;
    } else {
      q := FirstBad(buf, i + 1, j);
    }
  }

  /** Not being anchored makes a difference only behind a character above `~`:
      an illegal sequence later on, where none starts the buffer, has such a
      character in front of it. */
  lemma UnanchoredOnlyPastTilde(buf: string)
    requires |buf| >= 2 && buf[0] == ESC && buf[1] == '['
    requires HasIllegalCsi(buf) && !IllegalCsiFrom(buf, 0)
    ensures exists k :: 2 <= k < |buf| && buf[k] > '~'
  {
    var p :| 0 <= p < |buf| && IllegalCsiFrom(buf, p);
    assert p >= 2 && buf[p] == ESC;
    var q := FirstBad(buf, 2, p);
    if forall k :: 2 <= k < |buf| ==> buf[k] <= '~' {
      assert IllegalCsi(buf, 0, q);
      assert false;
    }
  }

  /** What the string-terminator expression accepts at i. */
  predicate TerminatorAt(buf: string, i: nat) {
    i < |buf| && (buf[i] == BEL || (buf[i] == ESC && i + 1 < |buf| && buf[i + 1] == '\\'))
  }

  predicate IllegalOscAt(buf: string, i: nat) {
    i < |buf| && buf[i] < ' ' && buf[i] != BEL && buf[i] != ESC
  }

  predicate MarkAt(buf: string, i: nat) { TerminatorAt(buf, i) || IllegalOscAt(buf, i) }

  /** The first mark at or after i, or |buf|. */
  function NextMark(buf: string, i: nat): (j: nat)
    requires i <= |buf|
    ensures i <= j <= |buf|
    ensures j < |buf| ==> MarkAt(buf, j)
    decreases |buf| - i
  {
    if i == |buf| || MarkAt(buf, i) then i else NextMark(buf, i + 1)
  }

  lemma {:induction false} NextMarkIs(buf: string, i: nat, j: nat)
    requires i <= |buf|
    ensures NextMark(buf, i) == j <==>
            && i <= j <= |buf| && (forall k :: i <= k < j ==> !MarkAt(buf, k))
            && (j < |buf| ==> MarkAt(buf, j))
    decreases |buf| - i
  {
    if i == |buf| || MarkAt(buf, i) {
    } else {
      NextMarkIs(buf, i + 1, j);
    }
  }

  function AfterTerminator(buf: string, i: nat): (j: nat)
    requires TerminatorAt(buf, i)
    ensures i < j <= |buf|
  {
    if buf[i] == BEL then i + 1 else i + 2
  }

  predicate LinkStart(buf: string, i: nat) {
    i + 4 <= |buf| && buf[i] == ESC && buf[i + 1] == ']' && buf[i + 2] == '8' && buf[i + 3] == ';'
  }

  predicate LinkEnd(buf: string, i: nat) {
    LinkStart(buf, i) && i + 5 <= |buf| && buf[i + 4] == ';'
  }

  /** A match of the hyperlink expression at the start of the buffer, by the
      ends of its parts: parameters, URL, terminator, text. */
  datatype Osc = Osc(paramsEnd: nat, urlEnd: nat, textStart: nat, textEnd: nat, end: nat) {
    predicate Matches(buf: string) {
      && 4 <= paramsEnd < urlEnd < textStart < textEnd < textEnd + 5 < end <= |buf|
      && LinkStart(buf, 0)
      && All(buf, 4, paramsEnd, IsLinkParam)
      && buf[paramsEnd] == ';'
      && urlEnd - (paramsEnd + 1) <= 512 && All(buf, paramsEnd + 1, urlEnd, IsUrlChar)
      && TerminatorAt(buf, urlEnd) && AfterTerminator(buf, urlEnd) == textStart
      && All(buf, textStart, textEnd, IsPrintable)
      && LinkEnd(buf, textEnd)
      && TerminatorAt(buf, textEnd + 5) && AfterTerminator(buf, textEnd + 5) == end
    }
  }

  function MatchOsc(buf: string): (m: Option<Osc>)
    requires LinkStart(buf, 0)
    ensures m.Some? ==>
      4 <= m.value.paramsEnd < m.value.urlEnd < m.value.textStart < m.value.textEnd < m.value.end <= |buf|
  {
    var i := RunEnd(buf, 4, IsLinkParam);
    if i == |buf| || buf[i] != ';' then None
    else
      var j := RunEnd(buf, i + 1, IsUrlChar);
      if j - (i + 1) > 512 || !TerminatorAt(buf, j) then None
      else
        var k := AfterTerminator(buf, j);
        var l := RunEnd(buf, k, IsPrintable);
        if l == k || !LinkEnd(buf, l) || !TerminatorAt(buf, l + 5) then None
        else Some(Osc(i, j, k, l, AfterTerminator(buf, l + 5)))
  }

  /** The expression matches in at most one way, and `MatchOsc` finds it. */
  lemma MatchOscIs(buf: string, m: Osc)
    requires LinkStart(buf, 0)
    ensures MatchOsc(buf) == Some(m) <==> m.Matches(buf)
  {
    if m.Matches(buf) {
      RunEndIs(buf, 4, IsLinkParam, m.paramsEnd);
      RunEndIs(buf, m.paramsEnd + 1, IsUrlChar, m.urlEnd);
      RunEndIs(buf, m.textStart, IsPrintable, m.textEnd);
    } else if MatchOsc(buf).Some? {
      var i := RunEnd(buf, 4, IsLinkParam);
      var j := RunEnd(buf, i + 1, IsUrlChar);
      var k := AfterTerminator(buf, j);
      RunEndIs(buf, 4, IsLinkParam, i);
      RunEndIs(buf, i + 1, IsUrlChar, j);
      RunEndIs(buf, k, IsPrintable, RunEnd(buf, k, IsPrintable));
    }
  }

  // ---------------------------------------------------------------------
  // Packets
  // ---------------------------------------------------------------------

  datatype Packet =
    | EndOfStream
    | TextPacket(text: string)
    | Incomplete
    | LoneEsc
    | Unknown
    | SgrPacket(params: string)
    | LinkPacket(url: string, text: string)
  {
    /** The parser stops at these and waits for more input. */
    predicate Stops() { EndOfStream? || Incomplete? }
  }

  datatype Step = Step(packet: Packet, rest: string)

  function DropEsc(buf: string): Step
    requires buf != ""
  {
    Step(LoneEsc, buf[1..])
  }

  function NextCsi(buf: string): Step
    requires |buf| >= 3 && buf[0] == ESC && buf[1] == '['
  {
    match MatchCsi(buf)
    case Some(m) =>
      var params := buf[m.privEnd..m.paramsEnd];
      var plain := m.privEnd == 2 && buf[m.paramsEnd..m.end] == "m";
      Step(if plain then SgrPacket(params) else Unknown, buf[m.end..])
    case None =>
      if HasIllegalCsi(buf) then DropEsc(buf) else Step(Incomplete, buf)
  }

  const UNFINISHED_THEN_ILLEGAL: string := [ESC, '[', '\U{e9}', ESC, '[', ':']

  /** There it does make one: the front is given up because of what follows. */
  lemma UnanchoredGivesUpTheFront()
    ensures var buf := UNFINISHED_THEN_ILLEGAL;
            !IllegalCsiFrom(buf, 0) && MatchCsi(buf) == None && NextCsi(buf) == DropEsc(buf)
  {
    var buf := UNFINISHED_THEN_ILLEGAL;
    assert IllegalCsi(buf, 3, 5) && IllegalCsiFrom(buf, 3);
    assert RunEnd(buf, 2, IsParam) == 2;
  }

  function NextLink(buf: string): Step
    requires |buf| >= 3 && buf[0] == ESC && buf[1] == ']'
  {
    if |buf| < 4 then Step(Incomplete, buf)
    else if buf[2] != '8' || buf[3] != ';' then DropEsc(buf)
    else
      var first := NextMark(buf, 0);
      if first == |buf| then Step(Incomplete, buf)
      else if IllegalOscAt(buf, first) then DropEsc(buf)
      else
        var second := NextMark(buf, AfterTerminator(buf, first));
        if second == |buf| then Step(Incomplete, buf)
        else if IllegalOscAt(buf, second) then DropEsc(buf)
        else
          match MatchOsc(buf)
          case Some(m) =>
            Step(LinkPacket(buf[m.paramsEnd + 1..m.urlEnd], buf[m.textStart..m.textEnd]), buf[m.end..])
          case None => DropEsc(buf)
  }

  /** The packet that starts the buffer, and the buffer left after it. */
  function NextPacket(buf: string): (s: Step)
    ensures s.packet.Stops() ==> s.rest == buf
    ensures !s.packet.Stops() ==> |s.rest| < |buf|
  {
    var pos := IndexOf(buf, ESC);
    if buf == "" then Step(EndOfStream, "")
    else if pos == |buf| then Step(TextPacket(buf), "")
    else if pos > 0 then Step(TextPacket(buf[..pos]), buf[pos..])
    else if |buf| < 3 then Step(Incomplete, buf)
    else if buf[1] == '[' then NextCsi(buf)
    else if buf[1] == ']' then NextLink(buf)
    else if buf[1] == '(' then Step(Unknown, buf[3..])
    else DropEsc(buf)
  }

  // ---------------------------------------------------------------------
  // What the reader sees
  // ---------------------------------------------------------------------

  /** One visible unit: a character with its style, or a hyperlink. */
  datatype Glyph = Char(c: char, style: Style) | Link(url: string, text: string)

  function Glyphs(text: string, style: Style): (gs: seq<Glyph>)
  {
    seq(|text|, i requires 0 <= i < |text| => Char(text[i], style))
  }

  /** The result of a call: what was shown, and the state carried over. */
  datatype Outcome = Outcome(glyphs: seq<Glyph>, style: Style, buffer: string)

  function Visible(packet: Packet, style: Style): seq<Glyph> {
    match packet
    case TextPacket(text) => Glyphs(text, style)
    case LinkPacket(url, text) => [Link(url, text)]
    case _ => []
  }

  function StyleAfter(packet: Packet, style: Style): Style {
    if packet.SgrPacket? then ApplySgr(Split(packet.params, ';'), style) else style
  }

  /** Parse a buffer as far as it goes, from a given style. */
  function Drain(style: Style, buf: string): Outcome
    decreases |buf|
  {
    var s := NextPacket(buf);
    if s.packet.Stops() then Outcome([], style, buf)
    else Show(Visible(s.packet, style), Drain(StyleAfter(s.packet, style), s.rest))
  }

  function Show(gs: seq<Glyph>, o: Outcome): Outcome { o.(glyphs := gs + o.glyphs) }

  // ---------------------------------------------------------------------
  // Independence of how the input is cut
  // ---------------------------------------------------------------------

  lemma SliceOfAppend(a: string, b: string, i: nat, j: nat)
    requires i <= j <= |a|
    ensures (a + b)[i..j] == a[i..j] && (a + b)[j..] == a[j..] + b
  {
  }

  /** Whether a match holds depends only on the characters it covers. */
  lemma CsiPrefix(m: Csi, a: string, s: string)
    requires a <= s && m.end <= |a|
    ensures m.Matches(a) <==> m.Matches(s)
  {
  }

  /** A CSI packet recognised in a buffer is recognised in every extension. */
  lemma NextCsiStable(a: string, b: string)
    requires |a| >= 3 && a[0] == ESC && a[1] == '['
    requires !NextCsi(a).packet.Stops()
    ensures NextCsi(a + b) == Step(NextCsi(a).packet, NextCsi(a).rest + b)
  {
    hide MatchCsi;
    var s := a + b;
    match MatchCsi(a)
    case Some(m) =>
      MatchCsiIs(a, m);
      CsiPrefix(m, a, s);
      MatchCsiIs(s, m);
      SliceOfAppend(a, b, m.privEnd, m.paramsEnd);
      SliceOfAppend(a, b, m.paramsEnd, m.end);
    case None =>
      var p :| 0 <= p < |a| && IllegalCsiFrom(a, p);
      var q :| 0 <= q < |a| && IllegalCsi(a, p, q);
      assert IllegalCsi(s, p, q) && IllegalCsiFrom(s, p);
      NoCsiAcrossTheCut(a, b, p, q);
      SliceOfAppend(a, b, 0, 1);
  }

  /** What can stand inside a legal sequence. */
  lemma CsiBody(m: Csi, s: string, x: nat)
    requires m.Matches(s) && 2 <= x < m.end
    ensures ' ' <= s[x] && s[x] != ':'
  {
  }

  /** An illegal sequence anywhere rules out that more input turns the start
      of the buffer into a legal one. */
  lemma NoCsiAcrossTheCut(a: string, b: string, p: nat, q: nat)
    requires |a| >= 3 && a[0] == ESC && a[1] == '['
    requires MatchCsi(a) == None && IllegalCsi(a, p, q)
    ensures MatchCsi(a + b) == None
  {
    var s := a + b;
    var m := MatchCsi(s);
    if m.Some? {
      var c := m.value;
      MatchCsiIs(s, c);
      if c.end <= |a| {
        CsiPrefix(c, a, s);
        MatchCsiIs(a, c);
        assert false;
      } else {
        // the illegal character, or the later ESC, lies inside the match
        CsiBody(c, s, if p == 0 then q else p);
        assert false;
      }
    }
  }

  /** The first mark of a buffer stays the first mark of every extension. */
  lemma NextMarkStable(a: string, b: string, i: nat)
    requires i <= |a| && NextMark(a, i) < |a|
    ensures NextMark(a + b, i) == NextMark(a, i)
    ensures var j := NextMark(a, i);
            && (TerminatorAt(a, j) <==> TerminatorAt(a + b, j))
            && (IllegalOscAt(a, j) <==> IllegalOscAt(a + b, j))
            && (TerminatorAt(a, j) ==> AfterTerminator(a + b, j) == AfterTerminator(a, j))
  {
    var s := a + b;
    assert forall k :: 0 <= k < |a| ==> s[k] == a[k];
    NextMarkIs(a, i, NextMark(a, i));
    forall k | i <= k < NextMark(a, i)
      ensures !MarkAt(s, k)
    {
      assert !MarkAt(a, k);
    }
    NextMarkIs(s, i, NextMark(a, i));
  }

  /** In a hyperlink match the two terminators are the first two marks. */
  lemma LinkMarks(m: Osc, s: string)
    requires m.Matches(s)
    ensures NextMark(s, 0) == m.urlEnd && NextMark(s, m.textStart) == m.textEnd + 5
  {
    assert forall k :: 4 < k < m.urlEnd && k != m.paramsEnd ==> IsLinkParam(s[k]) || IsUrlChar(s[k]);
    assert forall k :: 0 <= k < m.urlEnd ==> !MarkAt(s, k);
    assert forall k :: m.textStart <= k < m.textEnd ==> IsPrintable(s[k]);
    assert forall k :: m.textStart <= k < m.textEnd + 5 ==> !MarkAt(s, k);
    NextMarkIs(s, 0, m.urlEnd);
    NextMarkIs(s, m.textStart, m.textEnd + 5);
  }

  lemma LinkPrefix(m: Osc, a: string, s: string)
    requires a <= s && m.end <= |a|
    ensures m.Matches(a) <==> m.Matches(s)
  {
  }

  lemma NextLinkStable(a: string, b: string)
    requires |a| >= 3 && a[0] == ESC && a[1] == ']'
    requires !NextLink(a).packet.Stops()
    ensures NextLink(a + b) == Step(NextLink(a).packet, NextLink(a).rest + b)
  {
    var s := a + b;
    SliceOfAppend(a, b, 0, 1);
    if |a| >= 4 && a[2] == '8' && a[3] == ';' {
      var first := NextMark(a, 0);
      NextMarkStable(a, b, 0);
      if TerminatorAt(a, first) {
        var after := AfterTerminator(a, first);
        NextMarkStable(a, b, after);
        if TerminatorAt(a, NextMark(a, after)) {
          LinkMatchStable(a, b);
        }
      }
    }
  }

  lemma LinkStartStable(a: string, b: string)
    requires LinkStart(a, 0)
    ensures LinkStart(a + b, 0)
  {
  }

  lemma LinkMatchStays(a: string, b: string, m: Osc)
    requires LinkStart(a, 0) && LinkStart(a + b, 0) && MatchOsc(a) == Some(m)
    ensures MatchOsc(a + b) == Some(m)
  {
    hide MatchOsc;
    MatchOscIs(a, m);
    LinkPrefix(m, a, a + b);
    MatchOscIs(a + b, m);
  }

  /** Both terminators are there: if no link is, more input makes none. */
  lemma NoLinkAcrossTheCut(a: string, b: string)
    requires LinkStart(a, 0) && LinkStart(a + b, 0)
    requires TerminatorAt(a, NextMark(a, 0))
    requires TerminatorAt(a, NextMark(a, AfterTerminator(a, NextMark(a, 0))))
    requires MatchOsc(a) == None
    ensures MatchOsc(a + b) == None
  {
    hide MatchOsc, NextMark;
    var m := MatchOsc(a + b);
    if m.Some? {
      MatchOscIs(a + b, m.value);
      LinkMarks(m.value, a + b);
      NextMarkStable(a, b, 0);
      NextMarkStable(a, b, m.value.textStart);
      LinkPrefix(m.value, a, a + b);
      MatchOscIs(a, m.value);
      assert false;
    }
  }

  lemma LinkMatchStable(a: string, b: string)
    requires LinkStart(a, 0)
    requires TerminatorAt(a, NextMark(a, 0))
    requires TerminatorAt(a, NextMark(a, AfterTerminator(a, NextMark(a, 0))))
    ensures LinkStart(a + b, 0) && MatchOsc(a + b) == MatchOsc(a)
    ensures MatchOsc(a).Some? ==>
      var m := MatchOsc(a).value;
      && (a + b)[m.paramsEnd + 1..m.urlEnd] == a[m.paramsEnd + 1..m.urlEnd]
      && (a + b)[m.textStart..m.textEnd] == a[m.textStart..m.textEnd]
      && (a + b)[m.end..] == a[m.end..] + b
  {
    LinkStartStable(a, b);
    hide *;
    match MatchOsc(a)
    case Some(m) =>
      LinkMatchStays(a, b, m);
      SliceOfAppend(a, b, m.paramsEnd + 1, m.urlEnd);
      SliceOfAppend(a, b, m.textStart, m.textEnd);
      SliceOfAppend(a, b, m.end, m.end);
    case None =>
      NoLinkAcrossTheCut(a, b);
  }

  /** A packet that does not stop the parser, other than a final piece of
      text, is the same packet in every extension of the buffer. */
  lemma NextPacketStable(a: string, b: string)
    requires !NextPacket(a).packet.Stops() && ESC in a
    ensures NextPacket(a + b) == Step(NextPacket(a).packet, NextPacket(a).rest + b)
  {
    var s, pos := a + b, IndexOf(a, ESC);
    assert pos < |a|;
    assert forall k :: 0 <= k <= pos ==> s[k] == a[k];
    IndexOfIs(s, ESC, pos);
    SliceOfAppend(a, b, 0, pos);
    if pos == 0 {
      assert s[1] == a[1];
      if a[1] == '[' {
        NextCsiStable(a, b);
      } else if a[1] == ']' {
        NextLinkStable(a, b);
      } else {
        SliceOfAppend(a, b, 1, 3);
        SliceOfAppend(a, b, 0, 1);
      }
    }
  }

  /** A buffer with plain text in front starts with a text packet that runs
      up to the first ESC. */
  lemma TextPacketAt(text: string, b: string)
    requires text + b != "" && ESC !in text
    requires text == "" ==> IndexOf(b, ESC) > 0
    ensures var pos := IndexOf(b, ESC);
            NextPacket(text + b) == Step(TextPacket(text + b[..pos]), b[pos..])
  {
    hide NextCsi, NextLink, IndexOf;
    var s, pos := text + b, IndexOf(b, ESC);
    assert forall k :: 0 <= k < |text| ==> s[k] == text[k] && text[k] in text;
    assert forall k :: |text| <= k < |s| ==> s[k] == b[k - |text|];
    IndexOfIs(s, ESC, |text| + pos);
    assert s[..|text| + pos] == text + b[..pos];
    assert s[|text| + pos..] == b[pos..];
    assert s[..|s|] == s;
  }

  lemma GlyphsAppend(s: string, t: string, style: Style)
    ensures Glyphs(s + t, style) == Glyphs(s, style) + Glyphs(t, style)
  {
  }

  lemma ShowTwice(gs: seq<Glyph>, hs: seq<Glyph>, o: Outcome)
    ensures Show(gs + hs, o) == Show(gs, Show(hs, o))
  {
  }

  /** ESC-free text is shown as it comes, whatever follows it. */
  lemma DrainText(style: Style, text: string, b: string)
    requires ESC !in text
    ensures Drain(style, text + b) == Show(Glyphs(text, style), Drain(style, b))
  {
    hide Drain, NextPacket, ApplySgr, Split, IndexOf, Glyphs;
    var pos := IndexOf(b, ESC);
    NoGlyphs(style);
    if text == "" {
      assert text + b == b;
      ShowNothing(Drain(style, b));
    } else {
      TextPacketAt(text, b);
      DrainStep(style, text + b);
      GlyphsAppend(text, b[..pos], style);
      ShowTwice(Glyphs(text, style), Glyphs(b[..pos], style), Drain(style, b[pos..]));
      if pos == 0 {
        assert b[pos..] == b && b[..pos] == "";
        ShowNothing(Drain(style, b));
      } else {
        TextPacketAt("", b);
        assert "" + b == b && "" + b[..pos] == b[..pos];
        DrainStep(style, b);
      }
    }
  }

  lemma NoGlyphs(style: Style)
    ensures Glyphs("", style) == []
  {
  }

  /** Parsing `a`, then appending `b` to the leftover and parsing on, shows the
      same glyphs and ends in the same state as parsing `a + b` at once: for
      every style, every buffer and every cut. */
  lemma {:induction false} DrainSplit(style: Style, a: string, b: string)
    ensures var first := Drain(style, a);
            Drain(style, a + b) == Show(first.glyphs, Drain(first.style, first.buffer + b))
    decreases |a|
  {
    hide NextPacket, ApplySgr, Split, Glyphs;
    var step := NextPacket(a);
    if step.packet.Stops() {
      ShowNothing(Drain(style, a + b));
    } else if ESC !in a {
      IndexOfIs(a, ESC, |a|);
      DrainText(style, a, b);
      DrainText(style, a, "");
      assert a + "" == a && "" + b == b;
    } else {
      NextPacketStable(a, b);
      var style' := StyleAfter(step.packet, style);
      DrainSplit(style', step.rest, b);
      var last := Drain(style', step.rest);
      ShowTwice(Visible(step.packet, style), last.glyphs, Drain(last.style, last.buffer + b));
    }
  }

  lemma ShowNothing(o: Outcome)
    ensures Show([], o) == o
  {
  }

  // ---------------------------------------------------------------------
  // Calls
  // ---------------------------------------------------------------------

  /** Feed the chunks one call after another. */
  function Feed(style: Style, buf: string, chunks: seq<string>): Outcome
    decreases |chunks|
  {
    if chunks == [] then Outcome([], style, buf)
    else
      var o := Drain(style, buf + chunks[0]);
      Show(o.glyphs, Feed(o.style, o.buffer, chunks[1..]))
  }

  /** However a stream is cut into calls, the reader sees the same glyphs, and
      the style and the leftover are those of a single call. */
  lemma {:induction false} CutsDoNotMatter(style: Style, buf: string, chunks: seq<string>)
    requires chunks != []
    ensures Feed(style, buf, chunks) == Drain(style, buf + Join("", chunks))
    decreases |chunks|
  {
    hide Drain;
    var o := Drain(style, buf + chunks[0]);
    if |chunks| == 1 {
      ShowLast(o);
    } else {
      CutsDoNotMatter(o.style, o.buffer, chunks[1..]);
      var rest := Join("", chunks[1..]);
      assert buf + Join("", chunks) == (buf + chunks[0]) + rest;
      DrainSplit(style, buf + chunks[0], rest);
    }
  }

  lemma ShowLast(o: Outcome)
    ensures Show(o.glyphs, Outcome([], o.style, o.buffer)) == o
  {
  }

  datatype Fragment = Styled(text: string, style: Style) | Anchor(url: string, text: string) {
    function Shown(): seq<Glyph> {
      match this
      case Styled(text, style) => Glyphs(text, style)
      case Anchor(url, text) => [Link(url, text)]
    }
  }

  function AllGlyphs(blocks: seq<Fragment>): seq<Glyph> {
    if blocks == [] then []
    else AllGlyphs(blocks[..|blocks| - 1]) + blocks[|blocks| - 1].Shown()
  }

  ghost predicate PalettePrefix(palette: seq<Color>) {
    |palette| <= 256 && forall n :: 0 <= n < |palette| ==> palette[n] == PaletteColor(n)
  }

  lemma NamedColors()
    ensures PalettePrefix(NORMAL_COLORS + BRIGHT_COLORS)
  {
  }

  lemma CubeColor(r: nat, g: nat, b: nat)
    requires r < 6 && g < 6 && b < 6
    ensures PaletteColor(16 + 36 * r + 6 * g + b) == TrueColor(LEVELS[r], LEVELS[g], LEVELS[b])
  {
    BaseSixDigits(36 * r + 6 * g + b, r, g, b);
  }

  lemma BaseSixDigits(n: nat, r: nat, g: nat, b: nat)
    requires r < 6 && g < 6 && b < 6 && n == 36 * r + 6 * g + b
    ensures n / 36 == r && n / 6 % 6 == g && n % 6 == b
  {
    assert n / 6 == 6 * r + g;
  }

  lemma GreyColor(i: nat)
    requires i < 24
    ensures PaletteColor(232 + i) == TrueColor(8 + 10 * i, 8 + 10 * i, 8 + 10 * i)
  {
  }

  /** One turn of the parser's loop. */
  lemma DrainStep(style: Style, buf: string)
    ensures var s := NextPacket(buf);
            Drain(style, buf) ==
            if s.packet.Stops() then Outcome([], style, buf)
            else Show(Visible(s.packet, style), Drain(StyleAfter(s.packet, style), s.rest))
  {
  }

  class AnsiUp {
    var buffer: string
    var fg: Option<Color>
    var bg: Option<Color>
    var bold: bool
    var faint: bool
    var italic: bool
    var underline: bool
    var palette256: seq<Color>

    ghost predicate Valid()
      reads this
    {
      |palette256| == 256 && PalettePrefix(palette256)
    }

    function CurrentStyle(): Style
      reads this
    {
      Style(fg, bg, bold, faint, italic, underline)
    }

    constructor ()
      ensures Valid() && buffer == "" && CurrentStyle() == DEFAULT_STYLE
    {
      buffer := "";
      fg, bg := None, None;
      bold, faint, italic, underline := false, false, false, false;
      palette256 := [];
      new;
      SetupPalettes();
    }

    method SetupPalettes()
      modifies this`palette256
      ensures Valid()
    {
      hide PaletteColor;
      palette256 := NORMAL_COLORS + BRIGHT_COLORS;
      NamedColors();
      for r := 0 to 6
        invariant |palette256| == 16 + 36 * r && PalettePrefix(palette256)
      {
        for g := 0 to 6
          invariant |palette256| == 16 + 36 * r + 6 * g && PalettePrefix(palette256)
        {
          for b := 0 to 6
            invariant |palette256| == 16 + 36 * r + 6 * g + b && PalettePrefix(palette256)
          {
            CubeColor(r, g, b);
            palette256 := palette256 + [TrueColor(LEVELS[r], LEVELS[g], LEVELS[b])];
          }
        }
      }
      var grey := 8;
      for i := 0 to 24
        invariant grey == 8 + 10 * i
        invariant |palette256| == 232 + i && PalettePrefix(palette256)
      {
        GreyColor(i);
        palette256 := palette256 + [TrueColor(grey, grey, grey)];
        grey := grey + 10;
      }
    }

    method AppendBuffer(txt: string)
      modifies this`buffer
      ensures buffer == old(buffer) + txt
    {
      buffer := buffer + txt;
    }

    /** Takes the next packet off the buffer. */
    method GetNextPacket() returns (pkt: Packet)
      modifies this`buffer
      ensures Step(pkt, buffer) == NextPacket(old(buffer))
    {
      hide IndexOf, NextMark, MatchCsi, MatchOsc, HasIllegalCsi;
      if |buffer| == 0 {
        return EndOfStream;
      }
      var pos := IndexOf(buffer, ESC);
      if pos == |buffer| {
        pkt := TextPacket(buffer);
        buffer := "";
      } else if pos > 0 {
        pkt := TextPacket(buffer[..pos]);
        buffer := buffer[pos..];
      } else if |buffer| < 3 {
        pkt := Incomplete;
      } else if buffer[1] != '[' && buffer[1] != ']' && buffer[1] != '(' {
        pkt := LoneEsc;
        buffer := buffer[1..];
      } else if buffer[1] == '[' {
        var m := MatchCsi(buffer);
        if m.None? && !HasIllegalCsi(buffer) {
          pkt := Incomplete;
        } else if m.None? {
          pkt := LoneEsc;
          buffer := buffer[1..];
        } else {
          var Csi(privEnd, paramsEnd, end) := m.value;
          var params := buffer[privEnd..paramsEnd];
          pkt := if privEnd != 2 || buffer[paramsEnd..end] != "m" then Unknown else SgrPacket(params);
          buffer := buffer[end..];
        }
      } else if buffer[1] == ']' {
        pkt := GetLink();
      } else {
        pkt := Unknown;
        buffer := buffer[3..];
      }
    }

    method GetLink() returns (pkt: Packet)
      requires |buffer| >= 3 && buffer[0] == ESC && buffer[1] == ']'
      modifies this`buffer
      ensures Step(pkt, buffer) == NextLink(old(buffer))
    {
      hide NextMark, MatchOsc;
      if |buffer| < 4 {
        return Incomplete;
      }
      if buffer[2] != '8' || buffer[3] != ';' {
        buffer := buffer[1..];
        return LoneEsc;
      }
      var first := NextMark(buffer, 0);
      if first == |buffer| {
        return Incomplete;
      }
      if IllegalOscAt(buffer, first) {
        buffer := buffer[1..];
        return LoneEsc;
      }
      var lastIndex := AfterTerminator(buffer, first);
      var second := NextMark(buffer, lastIndex);
      if second == |buffer| {
        return Incomplete;
      }
      if IllegalOscAt(buffer, second) {
        buffer := buffer[1..];
        return LoneEsc;
      }
      var m := MatchOsc(buffer);
      if m.None? {
        buffer := buffer[1..];
        return LoneEsc;
      }
      var Osc(paramsEnd, urlEnd, textStart, textEnd, end) := m.value;
      pkt := LinkPacket(buffer[paramsEnd + 1..urlEnd], buffer[textStart..textEnd]);
      buffer := buffer[end..];
    }

    /** Runs the parameters of an SGR packet, shifting them off one by one. */
    method ProcessAnsi(params: string)
      requires Valid()
      modifies this`fg, this`bg, this`bold, this`faint, this`italic, this`underline
      ensures Valid()
      ensures CurrentStyle() == ApplySgr(Split(params, ';'), old(CurrentStyle()))
    {
      var cmds := Split(params, ';');
      while |cmds| > 0
        invariant Valid()
        invariant ApplySgr(cmds, CurrentStyle()) == ApplySgr(Split(params, ';'), old(CurrentStyle()))
        decreases |cmds|
      {
        var num := ParseInt(cmds[0]);
        if num != Some(38) && num != Some(48) {
          SetCode(num);
          cmds := cmds[1..];
        } else if |cmds| == 1 {
          cmds := [];
        } else {
          var foreground, mode := num == Some(38), cmds[1];
          cmds := cmds[2..];
          if mode == "5" && |cmds| > 0 {
            var index := ParseInt(cmds[0]);
            cmds := cmds[1..];
            if IsChannel(index) {
              SetChannel(foreground, palette256[index.value]);
            }
          } else if mode == "2" && |cmds| > 2 {
            var r, g, b := ParseInt(cmds[0]), ParseInt(cmds[1]), ParseInt(cmds[2]);
            cmds := cmds[3..];
            if IsChannel(r) && IsChannel(g) && IsChannel(b) {
              SetChannel(foreground, TrueColor(r.value, g.value, b.value));
            }
          }
        }
      }
    }

    method SetChannel(foreground: bool, color: Color)
      modifies this`fg, this`bg
      ensures CurrentStyle() == SetColor(old(CurrentStyle()), foreground, color)
    {
      if foreground {
        fg := Some(color);
      } else {
        bg := Some(color);
      }
    }

    method SetCode(num: Option<nat>)
      modifies this`fg, this`bg, this`bold, this`faint, this`italic, this`underline
      ensures CurrentStyle() == ApplyCode(num, old(CurrentStyle()))
    {
      if num.None? || num.value == 0 {
        fg, bg := None, None;
        bold, faint, italic, underline := false, false, false, false;
      } else {
        var n := num.value;
        if n == 1 {
          bold := true;
        } else if n == 2 {
          faint := true;
        } else if n == 3 {
          italic := true;
        } else if n == 4 {
          underline := true;
        } else if n == 21 {
          bold := false;
        } else if n == 22 {
          faint, bold := false, false;
        } else if n == 23 {
          italic := false;
        } else if n == 24 {
          underline := false;
        } else if n == 39 {
          fg := None;
        } else if n == 49 {
          bg := None;
        } else if 30 <= n < 38 {
          fg := Some(NORMAL_COLORS[n - 30]);
        } else if 40 <= n < 48 {
          bg := Some(NORMAL_COLORS[n - 40]);
        } else if 90 <= n < 98 {
          fg := Some(BRIGHT_COLORS[n - 90]);
        } else if 100 <= n < 108 {
          bg := Some(BRIGHT_COLORS[n - 100]);
        }
      }
    }

    /** One call: what it shows, and the state it leaves, are those of `Drain`. */
    method AnsiToHtml(txt: string) returns (blocks: seq<Fragment>)
      requires Valid()
      modifies this
      ensures Valid()
      ensures Outcome(AllGlyphs(blocks), CurrentStyle(), buffer) == Drain(old(CurrentStyle()), old(buffer) + txt)
    {
      hide NextPacket, ApplySgr, Split, Glyphs, Drain;
      AppendBuffer(txt);
      ghost var whole := Drain(CurrentStyle(), buffer);
      blocks := [];
      ShowNothing(whole);
      while true
        invariant Valid()
        invariant whole == Show(AllGlyphs(blocks), Drain(CurrentStyle(), buffer))
        decreases |buffer|
      {
        ghost var style, shown := CurrentStyle(), blocks;
        DrainStep(style, buffer);
        var packet := GetNextPacket();
        if packet.Stops() {
          break;
        }
        match packet {
          case TextPacket(text) => blocks := blocks + [Styled(text, CurrentStyle())];
          case LinkPacket(url, text) => blocks := blocks + [Anchor(url, text)];
          case SgrPacket(params) => ProcessAnsi(params);
          case _ =>
        }
        assert AllGlyphs(blocks) == AllGlyphs(shown) + Visible(packet, style);
        ShowTwice(AllGlyphs(shown), Visible(packet, style), Drain(CurrentStyle(), buffer));
      }
    }
  }
}
