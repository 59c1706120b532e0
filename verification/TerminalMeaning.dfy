/** What the terminal's printer and parser do with each kind of input, in plain
    numbers and characters: the colours, the SGR codes, the sequences without
    effect, hyperlinks, and what is printed for a line. */
module TerminalMeaning {
  import opened Text
  import opened Ansi
  import opened CellPrinter
  import opened TerminalRoundTrip

  // ---------------------------------------------------------------------
  // Colours
  // ---------------------------------------------------------------------

  const NAMES: seq<string> := ["black", "red", "green", "yellow", "blue", "magenta", "cyan", "white"]

  predicate Lit(n: nat, bit: nat)
    requires bit != 0
  {
    n / bit % 2 == 1
  }

  function NormalChannel(n: nat, bit: nat): int
    requires bit != 0
  {
    if n == 7 then 255 else if Lit(n, bit) then 187 else 0
  }

  function BrightChannel(n: nat, bit: nat): int
    requires bit != 0
  {
    if Lit(n, bit) then 255 else if n == 2 then 0 else 85
  }

  /** The 16 named colours: red, green and blue are the bits 1, 2 and 4. */
  lemma NamedPalette(n: nat)
    requires n < 8
    ensures PaletteColor(n)
         == Color(NormalChannel(n, 1), NormalChannel(n, 2), NormalChannel(n, 4), "ansi-" + NAMES[n])
    ensures PaletteColor(8 + n)
         == Color(BrightChannel(n, 1), BrightChannel(n, 2), BrightChannel(n, 4), "ansi-bright-" + NAMES[n])
  {
    NormalTable(n);
    BrightTable(n);
    hide NormalChannel, BrightChannel, Lit;
  }

  lemma NormalTable(n: nat)
    requires n < 8
    ensures NORMAL_COLORS[n]
         == Color(NormalChannel(n, 1), NormalChannel(n, 2), NormalChannel(n, 4), "ansi-" + NAMES[n])
  {
    if n == 0 {} else if n == 1 {} else if n == 2 {} else if n == 3 {}
    else if n == 4 {} else if n == 5 {} else if n == 6 {} else {}
  }

  lemma BrightTable(n: nat)
    requires n < 8
    ensures BRIGHT_COLORS[n]
         == Color(BrightChannel(n, 1), BrightChannel(n, 2), BrightChannel(n, 4), "ansi-bright-" + NAMES[n])
  {
    BrightName(n);
    BrightChannels(n);
  }

  lemma BrightName(n: nat)
    requires n < 8
    ensures BRIGHT_COLORS[n].className == "ansi-bright-" + NAMES[n]
  {
  }

  lemma BrightChannels(n: nat)
    requires n < 8
    ensures BRIGHT_COLORS[n].red == BrightChannel(n, 1)
    ensures BRIGHT_COLORS[n].green == BrightChannel(n, 2)
    ensures BRIGHT_COLORS[n].blue == BrightChannel(n, 4)
  {
    if n == 0 {} else if n == 1 {} else if n == 2 {} else if n == 3 {}
    else if n == 4 {} else if n == 5 {} else if n == 6 {} else {}
  }

  function CubeLevel(i: nat): int { if i == 0 then 0 else 55 + 40 * i }

  /** The cube and the ramp of greys. */
  lemma CubePalette(r: nat, g: nat, b: nat)
    requires r < 6 && g < 6 && b < 6
    ensures PaletteColor(16 + 36 * r + 6 * g + b) == Color(CubeLevel(r), CubeLevel(g), CubeLevel(b), "truecolor")
  {
    hide PaletteColor;
    CubeColor(r, g, b);
    CubeLevels(r);
    CubeLevels(g);
    CubeLevels(b);
  }

  lemma CubeLevels(i: nat)
    requires i < 6
    ensures LEVELS[i] == CubeLevel(i)
  {
  }

  lemma GreyPalette(i: nat)
    requires i < 24
    ensures var grey := 8 + 10 * i; PaletteColor(232 + i) == Color(grey, grey, grey, "truecolor")
  {
  }

  // ---------------------------------------------------------------------
  // SGR codes
  // ---------------------------------------------------------------------

  lemma OneCode(n: nat, st: Style)
    requires n != 38 && n != 48
    ensures ApplySgr([Decimal(n)], st) == ApplyCode(Some(n), st)
  {
    hide Decimal, ApplyCode, ApplySgr;
    ApplyOne(n, [], st);
    assert [Decimal(n)] + [] == [Decimal(n)];
    ApplyNothing(ApplyCode(Some(n), st));
  }

  /** The codes that reset everything, or a colour. */
  lemma ResetCodesMean(st: Style)
    ensures ApplySgr([""], st) == ApplySgr([Decimal(0)], st) == Style(None, None, false, false, false, false)
    ensures ApplySgr([Decimal(39)], st) == Style(None, st.bg, st.bold, st.faint, st.italic, st.underline)
    ensures ApplySgr([Decimal(49)], st) == Style(st.fg, None, st.bold, st.faint, st.italic, st.underline)
  {
    EmptyCode(st);
    hide Decimal, ApplySgr;
    OneCode(0, st);
    OneCode(39, st);
    OneCode(49, st);
  }

  /** The codes that set an attribute. */
  lemma SettingCodesMean(st: Style)
    ensures ApplySgr([Decimal(1)], st) == Style(st.fg, st.bg, true, st.faint, st.italic, st.underline)
    ensures ApplySgr([Decimal(2)], st) == Style(st.fg, st.bg, st.bold, true, st.italic, st.underline)
    ensures ApplySgr([Decimal(3)], st) == Style(st.fg, st.bg, st.bold, st.faint, true, st.underline)
    ensures ApplySgr([Decimal(4)], st) == Style(st.fg, st.bg, st.bold, st.faint, st.italic, true)
  {
    hide Decimal, ApplySgr;
    OneCode(1, st);
    OneCode(2, st);
    OneCode(3, st);
    OneCode(4, st);
  }

  /** The codes that clear attributes. */
  lemma ClearingCodesMean(st: Style)
    ensures ApplySgr([Decimal(21)], st) == Style(st.fg, st.bg, false, st.faint, st.italic, st.underline)
    ensures ApplySgr([Decimal(22)], st) == Style(st.fg, st.bg, false, false, st.italic, st.underline)
    ensures ApplySgr([Decimal(23)], st) == Style(st.fg, st.bg, st.bold, st.faint, false, st.underline)
    ensures ApplySgr([Decimal(24)], st) == Style(st.fg, st.bg, st.bold, st.faint, st.italic, false)
  {
    hide Decimal, ApplySgr;
    OneCode(21, st);
    OneCode(22, st);
    OneCode(23, st);
    OneCode(24, st);
  }

  lemma EmptyCode(st: Style)
    ensures ApplySgr([""], st) == ApplyCode(None, st)
  {
    hide ApplyCode;
    assert [""][1..] == [];
    ApplyNothing(ApplyCode(None, st));
  }

  /** The eight short colour codes of each kind. */
  lemma ColorCodesMean(st: Style, n: nat)
    requires n < 8
    ensures ApplySgr([Decimal(30 + n)], st) == st.(fg := Some(PaletteColor(n)))
    ensures ApplySgr([Decimal(40 + n)], st) == st.(bg := Some(PaletteColor(n)))
    ensures ApplySgr([Decimal(90 + n)], st) == st.(fg := Some(PaletteColor(8 + n)))
    ensures ApplySgr([Decimal(100 + n)], st) == st.(bg := Some(PaletteColor(8 + n)))
  {
    hide Decimal, ApplySgr;
    OneCode(30 + n, st);
    OneCode(40 + n, st);
    OneCode(90 + n, st);
    OneCode(100 + n, st);
  }

  /** A code that is none of these has no effect. */
  lemma OtherCodesMeanNothing(st: Style, n: nat)
    requires 5 <= n < 21 || 25 <= n < 30 || 50 <= n < 90 || n == 98 || n == 99 || n >= 108
    ensures ApplySgr([Decimal(n)], st) == st
  {
    hide Decimal, ApplySgr;
    OneCode(n, st);
  }

  /** A colour by its channels, which need to be at most 255. */
  lemma ChannelsMean(st: Style, r: nat, g: nat, b: nat, rest: seq<string>)
    ensures var shown := if r < 256 && g < 256 && b < 256 then Some(Color(r, g, b, "truecolor")) else st.fg;
            ApplySgr([Decimal(38), "2", Decimal(r), Decimal(g), Decimal(b)] + rest, st)
            == ApplySgr(rest, st.(fg := shown))
    ensures var shown := if r < 256 && g < 256 && b < 256 then Some(Color(r, g, b, "truecolor")) else st.bg;
            ApplySgr([Decimal(48), "2", Decimal(r), Decimal(g), Decimal(b)] + rest, st)
            == ApplySgr(rest, st.(bg := shown))
  {
    hide ParseInt, Decimal;
    ParseDecimal(38);
    ParseDecimal(48);
    ParseDecimal(r);
    ParseDecimal(g);
    ParseDecimal(b);
    var tail := ["2", Decimal(r), Decimal(g), Decimal(b)] + rest;
    var fore, back := [Decimal(38)] + tail, [Decimal(48)] + tail;
    assert fore == [Decimal(38), "2", Decimal(r), Decimal(g), Decimal(b)] + rest;
    assert back == [Decimal(48), "2", Decimal(r), Decimal(g), Decimal(b)] + rest;
    assert fore[5..] == rest && back[5..] == rest;
  }

  /** A colour of the palette, by an index of at most 255. */
  lemma IndexMeans(st: Style, n: nat, rest: seq<string>)
    ensures ApplySgr([Decimal(38), "5", Decimal(n)] + rest, st)
         == ApplySgr(rest, if n < 256 then st.(fg := Some(PaletteColor(n))) else st)
    ensures ApplySgr([Decimal(48), "5", Decimal(n)] + rest, st)
         == ApplySgr(rest, if n < 256 then st.(bg := Some(PaletteColor(n))) else st)
  {
    hide ParseInt, Decimal, PaletteColor;
    ParseDecimal(38);
    ParseDecimal(48);
    ParseDecimal(n);
    var fore, back := [Decimal(38), "5", Decimal(n)] + rest, [Decimal(48), "5", Decimal(n)] + rest;
    assert fore[3..] == rest && back[3..] == rest;
  }

  /** A colour list that is cut off: 38 or 48 alone ends the list; the mode
      behind it is dropped, and what follows the mode read as codes of its own. */
  lemma CutOffColors(st: Style, n: nat, mode: string, rest: seq<string>)
    requires n == 38 || n == 48
    ensures ApplySgr([Decimal(n)], st) == st
    ensures (mode != "5" && mode != "2") || (mode == "5" && rest == []) || (mode == "2" && |rest| < 3) ==>
              ApplySgr([Decimal(n), mode] + rest, st) == ApplySgr(rest, st)
  {
    hide ParseInt, Decimal;
    ParseDecimal(n);
    var cmds := [Decimal(n), mode] + rest;
    assert cmds[2..] == rest;
  }

  // ---------------------------------------------------------------------
  // Sequences
  // ---------------------------------------------------------------------

  /** The character classes, by code: ECMA-48, section 5.4, for control
      sequences. */
  lemma Classes(c: char)
    ensures IsParam(c) <==> 0x30 <= c as int <= 0x39 || c as int == 0x3B
    ensures IsPrivate(c) <==> 0x3C <= c as int <= 0x3F
    ensures IsIntermediate(c) <==> 0x20 <= c as int <= 0x2F
    ensures IsFinal(c) <==> 0x40 <= c as int <= 0x7E
    ensures IsPrintable(c) <==> 0x20 <= c as int <= 0x7E
    ensures IsLinkParam(c) <==> 0x20 <= c as int <= 0x7E && c as int != 0x3B
    ensures IsUrlChar(c) <==> 0x21 <= c as int <= 0x7E
    ensures ESC as int == 0x1B && BEL as int == 7
  {
  }

  /** Text becomes one glyph a character, each in the given style. */
  lemma GlyphsAre(text: string, style: Style)
    ensures |Glyphs(text, style)| == |text|
    ensures forall i :: 0 <= i < |text| ==> Glyphs(text, style)[i] == Char(text[i], style)
  {
  }

  lemma CsiAtFront(sequence: string, m: Csi, tail: string)
    requires m.Matches(sequence) && m.end == |sequence|
    ensures var buf := sequence + tail;
            && |buf| >= 3 && buf[0] == ESC && buf[1] == '[' && IndexOf(buf, ESC) == 0
            && MatchCsi(buf) == Some(m) && buf[m.end..] == tail
            && buf[m.paramsEnd..m.end] == sequence[m.paramsEnd..]
  {
    hide MatchCsi, IndexOf;
    var buf := sequence + tail;
    CsiPrefix(m, sequence, buf);
    MatchCsiIs(buf, m);
    IndexOfIs(buf, ESC, 0);
    SliceOfAppend(sequence, tail, m.paramsEnd, m.end);
    assert sequence[m.paramsEnd..m.end] == sequence[m.paramsEnd..];
    assert sequence[m.end..] + tail == tail;
  }

  lemma OtherIsUnknown(sequence: string, m: Csi, tail: string)
    requires m.Matches(sequence) && m.end == |sequence|
    requires m.privEnd != 2 || sequence[m.paramsEnd..] != "m"
    ensures NextPacket(sequence + tail) == Ansi.Step(Unknown, tail)
  {
    CsiAtFront(sequence, m, tail);
    hide MatchCsi, IndexOf, HasIllegalCsi, NextLink;
  }

  /** A control sequence other than SGR, private ones included, shows nothing
      and changes nothing. */
  lemma OtherSequencesMeanNothing(style: Style, sequence: string, m: Csi, tail: string)
    requires m.Matches(sequence) && m.end == |sequence|
    requires IsPrivate(sequence[2]) || sequence[m.paramsEnd..] != "m"
    ensures Drain(style, sequence + tail) == Drain(style, tail)
  {
    if IsPrivate(sequence[2]) {
      PrivateGroup(sequence, m);
    }
    OtherIsUnknown(sequence, m, tail);
    hide NextPacket;
    DrainStep(style, sequence + tail);
    ShowNothing(Drain(style, tail));
  }

  lemma PrivateGroup(sequence: string, m: Csi)
    requires m.Matches(sequence) && IsPrivate(sequence[2])
    ensures m.privEnd == 3
  {
  }

  /** `ESC (` takes the character after it along. */
  lemma CharsetMeansNothing(style: Style, c: char, tail: string)
    ensures Drain(style, [ESC, '(', c] + tail) == Drain(style, tail)
  {
    var buf := [ESC, '(', c] + tail;
    IndexOfIs(buf, ESC, 0);
    assert buf[3..] == tail;
    DrainStep(style, buf);
    ShowNothing(Drain(style, tail));
  }

  /** Before any other character, ESC alone is dropped. */
  lemma LoneEscMeansNothing(style: Style, c: char, tail: string)
    requires c != '[' && c != ']' && c != '(' && tail != ""
    ensures Drain(style, [ESC, c] + tail) == Drain(style, [c] + tail)
  {
    var buf := [ESC, c] + tail;
    IndexOfIs(buf, ESC, 0);
    assert buf[1..] == [c] + tail;
    DrainStep(style, buf);
    ShowNothing(Drain(style, [c] + tail));
  }

  ghost predicate AllParams(s: string) { forall i :: 0 <= i < |s| ==> IsParam(s[i]) }

  /** A sequence that is cut off waits for the rest. */
  lemma UnfinishedWaits(style: Style, params: string)
    requires AllParams(params)
    ensures Drain(style, [ESC, '['] + params) == Outcome([], style, [ESC, '['] + params)
  {
    var buf := [ESC, '['] + params;
    IndexOfIs(buf, ESC, 0);
    assert forall k :: 2 <= k < |buf| ==> buf[k] == params[k - 2];
    RunEndIs(buf, 2, IsParam, |buf|);
    assert !HasIllegalCsi(buf);
    hide RunEnd, HasIllegalCsi, IndexOf;
    DrainStep(style, buf);
  }

  lemma IllegalAtFront(params: string, bad: char, tail: string)
    requires AllParams(params) && (bad as int < 0x20 || bad == ':')
    ensures var buf := [ESC] + ("[" + params + [bad] + tail);
            IndexOf(buf, ESC) == 0 && MatchCsi(buf) == None && HasIllegalCsi(buf)
  {
    var buf := [ESC] + ("[" + params + [bad] + tail);
    var n := 2 + |params|;
    IndexOfIs(buf, ESC, 0);
    assert forall k :: 2 <= k < n ==> buf[k] == params[k - 2];
    assert buf[n] == bad;
    RunEndIs(buf, 2, IsParam, n);
    assert IllegalCsi(buf, 0, n) && IllegalCsiFrom(buf, 0);
    hide RunEnd, IndexOf, IllegalCsiFrom;
  }

  lemma GivenUp(rest: string)
    requires |rest| >= 2 && rest[0] == '['
    requires IndexOf([ESC] + rest, ESC) == 0 && MatchCsi([ESC] + rest) == None && HasIllegalCsi([ESC] + rest)
    ensures NextPacket([ESC] + rest) == Ansi.Step(LoneEsc, rest)
  {
    hide MatchCsi, HasIllegalCsi, IndexOf;
    assert ([ESC] + rest)[1..] == rest;
  }

  /** A character that cannot stand in a sequence gives it up: its ESC is
      dropped, and what follows is read again. */
  lemma IllegalGivesUp(style: Style, params: string, bad: char, tail: string)
    requires AllParams(params) && (bad as int < 0x20 || bad == ':')
    ensures var rest := "[" + params + [bad] + tail;
            Drain(style, [ESC] + rest) == Drain(style, rest)
  {
    var rest := "[" + params + [bad] + tail;
    IllegalAtFront(params, bad, tail);
    GivenUp(rest);
    hide NextPacket, MatchCsi, HasIllegalCsi, IndexOf, Drain, AllParams;
    DrainStep(style, [ESC] + rest);
    ShowNothing(Drain(style, rest));
  }

  // ---------------------------------------------------------------------
  // Hyperlinks
  // ---------------------------------------------------------------------

  /** What ends an operating-system command, and what must not stand in one. */
  lemma OscMarks(buf: string, i: nat)
    ensures TerminatorAt(buf, i) <==>
            i < |buf| && (buf[i] as int == 7 || (buf[i] as int == 0x1B && i + 1 < |buf| && buf[i + 1] == '\\'))
    ensures IllegalOscAt(buf, i) <==>
            i < |buf| && (buf[i] as int <= 6 || 8 <= buf[i] as int <= 0x1A || 0x1C <= buf[i] as int <= 0x1F)
    ensures TerminatorAt(buf, i) ==> AfterTerminator(buf, i) == if buf[i] as int == 7 then i + 1 else i + 2
  {
  }

  /** Of a command other than `8;`, ESC alone is dropped. */
  lemma OtherCommandsMeanNothing(style: Style, c: char, d: char, tail: string)
    requires c != '8' || d != ';'
    ensures Drain(style, [ESC, ']', c, d] + tail) == Drain(style, [']', c, d] + tail)
  {
    var buf := [ESC, ']', c, d] + tail;
    IndexOfIs(buf, ESC, 0);
    assert buf[1..] == [']', c, d] + tail;
    hide IndexOf;
    DrainStep(style, buf);
    ShowNothing(Drain(style, buf[1..]));
  }

  lemma LinkFront(body: string)
    ensures var buf := LINK + body;
            && |buf| >= 4 && LinkStart(buf, 0) && IndexOf(buf, ESC) == 0
            && (forall k :: 0 <= k < 4 ==> !MarkAt(buf, k))
            && forall k :: 4 <= k < |buf| ==> buf[k] == body[k - 4]
  {
    IndexOfIs(LINK + body, ESC, 0);
  }

  /** A link without its terminator waits. */
  lemma UnfinishedLinkWaits(style: Style, body: string)
    requires forall i :: 0 <= i < |body| ==> IsPrintable(body[i])
    ensures Drain(style, LINK + body) == Outcome([], style, LINK + body)
  {
    var buf := LINK + body;
    LinkFront(body);
    NextMarkIs(buf, 0, |buf|);
    hide NextMark, IndexOf, LinkStart;
    DrainStep(style, buf);
  }

  /** One with an illegal character before the terminator is given up. */
  lemma BrokenLinkGivesUp(style: Style, body: string, bad: char, tail: string)
    requires forall i :: 0 <= i < |body| ==> IsPrintable(body[i])
    requires bad as int <= 6 || 8 <= bad as int <= 0x1A || 0x1C <= bad as int <= 0x1F
    ensures var buf := LINK + (body + [bad] + tail);
            Drain(style, buf) == Drain(style, buf[1..])
  {
    var buf := LINK + (body + [bad] + tail);
    LinkFront(body + [bad] + tail);
    BadIsFirst(body, bad, tail);
    hide NextMark, IndexOf, LinkStart;
    DrainStep(style, buf);
    ShowNothing(Drain(style, buf[1..]));
  }

  lemma BadIsFirst(body: string, bad: char, tail: string)
    requires forall i :: 0 <= i < |body| ==> IsPrintable(body[i])
    requires bad as int <= 6 || 8 <= bad as int <= 0x1A || 0x1C <= bad as int <= 0x1F
    ensures var buf := LINK + (body + [bad] + tail);
            NextMark(buf, 0) == 4 + |body| && IllegalOscAt(buf, 4 + |body|) && !TerminatorAt(buf, 4 + |body|)
  {
    var buf, n := LINK + (body + [bad] + tail), 4 + |body|;
    LinkFront(body + [bad] + tail);
    assert buf[n] == bad && forall k :: 4 <= k < n ==> buf[k] == body[k - 4];
    assert forall k :: 4 <= k < n ==> !MarkAt(buf, k);
    NextMarkIs(buf, 0, n);
  }

  /** BEL, or ESC and a backslash. */
  predicate IsTerminator(t: string) { t == [BEL] || t == [ESC, '\\'] }

  predicate LinkParts(params: string, url: string, text: string) {
    && (forall i :: 0 <= i < |params| ==> IsPrintable(params[i]) && params[i] != ';')
    && (forall i :: 0 <= i < |url| ==> IsPrintable(url[i]) && url[i] != ' ')
    && text != "" && (forall i :: 0 <= i < |text| ==> IsPrintable(text[i]))
  }

  const LINK: string := [ESC, ']', '8', ';']

  /** A hyperlink, and what follows it. */
  function LinkText(params: string, url: string, t: string, text: string, u: string, tail: string): string {
    LINK + (params + (";" + (url + (t + (text + (LINK + (";" + (u + tail))))))))
  }

  /** Where the parts of a hyperlink lie. */
  function LinkOsc(params: string, url: string, t: string, text: string, u: string): Osc {
    var a := 4 + |params|;
    var b := a + 1 + |url|;
    var c := b + |t|;
    var d := c + |text|;
    Osc(a, b, c, d, d + 5 + |u|)
  }

  predicate PartAt(s: string, i: nat, part: string) { i + |part| <= |s| && s[i..i + |part|] == part }

  predicate RestAt(s: string, i: nat, rest: string) { i <= |s| && s[i..] == rest }

  lemma Indexed(s: string, i: nat, part: string)
    requires PartAt(s, i, part)
    ensures i + |part| <= |s| && forall k :: i <= k < i + |part| ==> s[k] == part[k - i]
  {
  }

  lemma TakePart(s: string, i: nat, part: string, rest: string)
    requires RestAt(s, i, part + rest)
    ensures PartAt(s, i, part) && RestAt(s, i + |part|, rest)
  {
    assert |s[i..]| == |s| - i;
    assert s[i..i + |part|] == s[i..][..|part|] && s[i + |part|..] == s[i..][|part|..];
  }

  /** The parts lie in the buffer one behind the other. */
  ghost predicate Laid(s: string, m: Osc, params: string, url: string, t: string, text: string, u: string) {
    && m == LinkOsc(params, url, t, text, u)
    && PartAt(s, 0, LINK) && PartAt(s, 4, params) && PartAt(s, m.paramsEnd, ";") && PartAt(s, m.paramsEnd + 1, url)
    && PartAt(s, m.urlEnd, t) && PartAt(s, m.textStart, text)
    && PartAt(s, m.textEnd, LINK) && PartAt(s, m.textEnd + 4, ";") && PartAt(s, m.textEnd + 5, u)
  }

  lemma FrontIsLaid(s: string, params: string, url: string, t: string, more: string)
    requires RestAt(s, 0, LINK + (params + (";" + (url + (t + more)))))
    ensures var a := 4 + |params|;
            var b := a + 1 + |url|;
            && PartAt(s, 0, LINK) && PartAt(s, 4, params) && PartAt(s, a, ";") && PartAt(s, a + 1, url)
            && PartAt(s, b, t) && RestAt(s, b + |t|, more)
  {
    hide PartAt, RestAt;
    var a := 4 + |params|;
    TakePart(s, 0, LINK, params + (";" + (url + (t + more))));
    TakePart(s, 4, params, ";" + (url + (t + more)));
    TakePart(s, a, ";", url + (t + more));
    TakePart(s, a + 1, url, t + more);
    TakePart(s, a + 1 + |url|, t, more);
  }

  lemma BackIsLaid(s: string, c: nat, text: string, u: string, tail: string)
    requires RestAt(s, c, text + (LINK + (";" + (u + tail))))
    ensures var d := c + |text|;
            && PartAt(s, c, text) && PartAt(s, d, LINK) && PartAt(s, d + 4, ";") && PartAt(s, d + 5, u)
            && RestAt(s, d + 5 + |u|, tail)
  {
    hide PartAt, RestAt;
    var d := c + |text|;
    TakePart(s, c, text, LINK + (";" + (u + tail)));
    TakePart(s, d, LINK, ";" + (u + tail));
    TakePart(s, d + 4, ";", u + tail);
    TakePart(s, d + 5, u, tail);
  }

  lemma LinkIsLaid(params: string, url: string, t: string, text: string, u: string, tail: string)
    ensures var s, m := LinkText(params, url, t, text, u, tail), LinkOsc(params, url, t, text, u);
            Laid(s, m, params, url, t, text, u) && RestAt(s, m.end, tail)
  {
    var s, m := LinkText(params, url, t, text, u, tail), LinkOsc(params, url, t, text, u);
    var more := text + (LINK + (";" + (u + tail)));
    assert RestAt(s, 0, LINK + (params + (";" + (url + (t + more)))));
    hide PartAt, RestAt, LinkText;
    FrontIsLaid(s, params, url, t, more);
    BackIsLaid(s, m.textStart, text, u, tail);
  }

  /** The parts in front of the first terminator, and that terminator. */
  lemma FrontLies(s: string, m: Osc, params: string, url: string, t: string, text: string, u: string)
    requires LinkParts(params, url, text) && IsTerminator(t) && Laid(s, m, params, url, t, text, u)
    ensures LinkStart(s, 0) && m.textStart <= |s| && s[m.paramsEnd] == ';'
    ensures All(s, 4, m.paramsEnd, IsLinkParam) && All(s, m.paramsEnd + 1, m.urlEnd, IsUrlChar)
    ensures TerminatorAt(s, m.urlEnd) && AfterTerminator(s, m.urlEnd) == m.textStart
  {
    Indexed(s, m.paramsEnd, ";");
    TerminatorLies(s, m.urlEnd, t);
    StartLies(s);
    hide LinkStart, TerminatorAt, AfterTerminator, IsTerminator;
    Indexed(s, 4, params);
    Indexed(s, m.paramsEnd + 1, url);
    hide PartAt;
  }

  lemma StartLies(s: string)
    requires PartAt(s, 0, LINK)
    ensures LinkStart(s, 0)
  {
    Indexed(s, 0, LINK);
  }

  lemma TerminatorLies(s: string, i: nat, t: string)
    requires PartAt(s, i, t) && IsTerminator(t)
    ensures i + |t| <= |s| && TerminatorAt(s, i) && AfterTerminator(s, i) == i + |t|
  {
    Indexed(s, i, t);
  }

  lemma BackLies(s: string, m: Osc, params: string, url: string, t: string, text: string, u: string)
    requires LinkParts(params, url, text) && IsTerminator(u) && Laid(s, m, params, url, t, text, u)
    ensures m.end <= |s| && All(s, m.textStart, m.textEnd, IsPrintable) && LinkEnd(s, m.textEnd)
    ensures TerminatorAt(s, m.textEnd + 5) && AfterTerminator(s, m.textEnd + 5) == m.end
    ensures s[m.paramsEnd + 1..m.urlEnd] == url && s[m.textStart..m.textEnd] == text
  {
    Indexed(s, m.textStart, text);
    Indexed(s, m.textEnd, LINK);
    Indexed(s, m.textEnd + 4, ";");
    Indexed(s, m.textEnd + 5, u);
  }

  /** The first two marks of the buffer are the two terminators. */
  lemma MarksOf(s: string, m: Osc)
    requires 4 <= m.paramsEnd < m.urlEnd < m.textStart < m.textEnd && m.textEnd + 5 < |s|
    requires LinkStart(s, 0) && All(s, 4, m.paramsEnd, IsLinkParam) && s[m.paramsEnd] == ';'
    requires All(s, m.paramsEnd + 1, m.urlEnd, IsUrlChar) && TerminatorAt(s, m.urlEnd)
    requires All(s, m.textStart, m.textEnd, IsPrintable) && LinkEnd(s, m.textEnd) && TerminatorAt(s, m.textEnd + 5)
    ensures NextMark(s, 0) == m.urlEnd && NextMark(s, m.textStart) == m.textEnd + 5
  {
    assert forall k :: 4 < k < m.urlEnd && k != m.paramsEnd ==> IsLinkParam(s[k]) || IsUrlChar(s[k]);
    assert forall k :: 0 <= k < m.urlEnd ==> !MarkAt(s, k);
    assert forall k :: m.textStart <= k < m.textEnd ==> IsPrintable(s[k]);
    assert forall k :: m.textStart <= k < m.textEnd + 5 ==> !MarkAt(s, k);
    NextMarkIs(s, 0, m.urlEnd);
    NextMarkIs(s, m.textStart, m.textEnd + 5);
  }

  lemma LinkMatches(s: string, m: Osc, params: string, url: string, t: string, text: string, u: string)
    requires LinkParts(params, url, text) && IsTerminator(t) && IsTerminator(u)
    requires Laid(s, m, params, url, t, text, u)
    ensures LinkStart(s, 0) && NextMark(s, 0) == m.urlEnd && NextMark(s, m.textStart) == m.textEnd + 5
    ensures TerminatorAt(s, m.urlEnd) && AfterTerminator(s, m.urlEnd) == m.textStart && TerminatorAt(s, m.textEnd + 5)
    ensures MatchOsc(s) == if |url| <= 512 then Some(m) else None
    ensures m.end <= |s| && s[m.paramsEnd + 1..m.urlEnd] == url && s[m.textStart..m.textEnd] == text
  {
    FrontLies(s, m, params, url, t, text, u);
    BackLies(s, m, params, url, t, text, u);
    assert |t| > 0 && |u| > 0 && m == LinkOsc(params, url, t, text, u);
    hide *;
    MarksOf(s, m);
    if |url| <= 512 {
      PartsMatch(s, m);
      MatchOscIs(s, m);
    } else {
      LongUrl(s, m);
    }
  }

  lemma PartsMatch(s: string, m: Osc)
    requires 4 <= m.paramsEnd < m.urlEnd < m.textStart < m.textEnd < m.textEnd + 5 < m.end <= |s|
    requires LinkStart(s, 0) && All(s, 4, m.paramsEnd, IsLinkParam) && s[m.paramsEnd] == ';'
    requires m.urlEnd - (m.paramsEnd + 1) <= 512 && All(s, m.paramsEnd + 1, m.urlEnd, IsUrlChar)
    requires TerminatorAt(s, m.urlEnd) && AfterTerminator(s, m.urlEnd) == m.textStart
    requires All(s, m.textStart, m.textEnd, IsPrintable) && LinkEnd(s, m.textEnd)
    requires TerminatorAt(s, m.textEnd + 5) && AfterTerminator(s, m.textEnd + 5) == m.end
    ensures m.Matches(s)
  {
    hide All, LinkStart, LinkEnd, TerminatorAt, AfterTerminator;
  }

  lemma LinkPacketIs(params: string, url: string, t: string, text: string, u: string, tail: string)
    requires LinkParts(params, url, text) && IsTerminator(t) && IsTerminator(u)
    ensures var s := LinkText(params, url, t, text, u, tail);
            |s| > 0 && NextPacket(s) ==
                       if |url| <= 512 then Ansi.Step(LinkPacket(url, text), tail) else Ansi.Step(LoneEsc, s[1..])
  {
    var s, m := LinkText(params, url, t, text, u, tail), LinkOsc(params, url, t, text, u);
    LinkIsLaid(params, url, t, text, u, tail);
    hide LinkText, LinkParts, IsTerminator, Laid;
    LinkMatches(s, m, params, url, t, text, u);
    IndexOfIs(s, ESC, 0);
    hide MatchOsc, NextMark, IndexOf, NextCsi, TerminatorAt, AfterTerminator;
    assert NextLink(s) == if |url| <= 512 then Ansi.Step(LinkPacket(url, text), tail) else Ansi.Step(LoneEsc, s[1..]);
  }

  lemma LongUrl(s: string, m: Osc)
    requires LinkStart(s, 0) && 4 <= m.paramsEnd && m.paramsEnd + 513 < m.urlEnd <= |s|
    requires s[m.paramsEnd] == ';' && NextMark(s, 0) == m.urlEnd
    ensures MatchOsc(s) == None
  {
    hide MatchOsc, NextMark;
    var found := MatchOsc(s);
    if found.Some? {
      MatchOscIs(s, found.value);
      LinkMarks(found.value, s);
      assert false;
    }
  }

  /** A hyperlink of up to 512 characters is shown as one, with its own text
      and URL, whatever the style; a longer one is not: its ESC is dropped. */
  lemma LinksAreShown(
    style: Style, params: string, url: string, t: string, text: string, u: string, tail: string)
    requires LinkParts(params, url, text) && IsTerminator(t) && IsTerminator(u)
    ensures var s := LinkText(params, url, t, text, u, tail);
            Drain(style, s) ==
            if |url| <= 512 then Show([Link(url, text)], Drain(style, tail)) else Drain(style, s[1..])
  {
    LinkPacketIs(params, url, t, text, u, tail);
    hide NextPacket, LinkText, Drain;
    var s := LinkText(params, url, t, text, u, tail);
    DrainStep(style, s);
    ShowNothing(Drain(style, s[1..]));
  }

  // ---------------------------------------------------------------------
  // The printer
  // ---------------------------------------------------------------------

  /** The parameters of the colours. */
  lemma ColorsPrint(n: Byte, r: Byte, g: Byte, b: Byte)
    ensures FgParam(None) == FgParam(Some(Alternate)) == BgParam(None) == BgParam(Some(Alternate)) == ""
    ensures var channels := Decimal(r) + ";" + Decimal(g) + ";" + Decimal(b);
            FgParam(Some(Rgb(r, g, b))) == "38;2;" + channels && BgParam(Some(Rgb(r, g, b))) == "48;2;" + channels
    ensures FgParam(Some(Standard(n)))
         == if n < 8 then Decimal(30 + n) else if n < 16 then Decimal(82 + n) else "38;5;" + Decimal(n)
    ensures BgParam(Some(Standard(n)))
         == if n < 8 then Decimal(40 + n) else if n < 16 then Decimal(92 + n) else "48;5;" + Decimal(n)
  {
    hide Decimal;
  }

  /** How cells are meant to look. */
  lemma CellsLook(style: CellStyle, n: Byte, r: Byte, g: Byte, b: Byte)
    ensures DisplayColor(None) == DisplayColor(Some(Alternate)) == None
    ensures DisplayColor(Some(Rgb(r, g, b))) == Some(Color(r, g, b, "truecolor"))
    ensures DisplayColor(Some(Standard(n))) == Some(PaletteColor(n))
    ensures DisplayStyle(style) == Style(DisplayColor(style.fgColor), DisplayColor(style.bgColor),
                                         style.bold, style.faint, style.italic, style.underline)
  {
  }

  function Texts(cells: seq<Cell>): seq<string> {
    if cells == [] then [] else [cells[0].text] + Texts(cells[1..])
  }

  /** A stretch of cells with one key is printed as its codes, if the key is
      not that of the cell before, and then as bare text. */
  lemma {:induction false} CodesOnlyOnChange(cells: seq<Cell>, rest: seq<Cell>, key: StyleKey, last: Option<StyleKey>)
    requires cells != [] && forall i :: 0 <= i < |cells| ==> KeyOf(cells[i].style) == key
    ensures RenderCells(cells + rest, last)
         == (if Some(key) == last then "" else [ESC, '[', '0', 'm'] + Sgr(Params(key)))
            + Join("", Texts(cells)) + RenderCells(rest, Some(key))
    decreases |cells|
  {
    hide KeyOf, Params, Sgr;
    var codes := if Some(key) == last then "" else [ESC, '[', '0', 'm'] + Sgr(Params(key));
    assert (cells + rest)[1..] == cells[1..] + rest && (cells + rest)[0] == cells[0];
    if |cells| == 1 {
      assert cells[1..] + rest == rest && cells[1..] == [];
    } else {
      CodesOnlyOnChange(cells[1..], rest, key, Some(key));
      var text, more, end := cells[0].text, Join("", Texts(cells[1..])), RenderCells(rest, Some(key));
      assert codes + text + ("" + more + end) == codes + (text + "" + more) + end;
    }
  }

  const RED_ON_BLUE: CellStyle := CellStyle(Some(Standard(1)), Some(Standard(4)), true, false, false, true)

  const PLAIN: CellStyle := CellStyle(None, None, false, false, false, false)

  /** Two cells in bold underlined red on blue and a plain one. */
  lemma PrintedLine()
    ensures RenderLine([Cell(RED_ON_BLUE, "a"), Cell(RED_ON_BLUE, "b"), Cell(PLAIN, "c")])
         == [ESC] + "[0m" + [ESC] + "[31;44;1;4mab" + [ESC] + "[0mc" + [ESC] + "[0m"
  {
    var red, plain := [Cell(RED_ON_BLUE, "a"), Cell(RED_ON_BLUE, "b")], [Cell(PLAIN, "c")];
    var cells := [Cell(RED_ON_BLUE, "a"), Cell(RED_ON_BLUE, "b"), Cell(PLAIN, "c")];
    var key, none := KeyOf(RED_ON_BLUE), KeyOf(PLAIN);
    RenderLineKeepsAll(cells);
    PrintedKeys();
    hide KeyOf, Params, Sgr, RenderLine, RenderCells, Texts, Join;
    CodesOnlyOnChange(red, plain, key, None);
    CodesOnlyOnChange(plain, [], none, Some(key));
    NoCells(none);
    assert red + plain == cells && plain + [] == plain;
    TwoTexts();
  }

  lemma TwoDigits(a: nat, b: nat)
    requires 1 <= a < 10 && b < 10
    ensures Decimal(10 * a + b) == [DigitChar(a), DigitChar(b)]
  {
    assert (10 * a + b) / 10 == a && (10 * a + b) % 10 == b;
  }

  lemma PrintedKeys()
    ensures Sgr(Params(KeyOf(RED_ON_BLUE))) == [ESC] + "[31;44;1;4m" && Sgr(Params(KeyOf(PLAIN))) == ""
    ensures KeyOf(RED_ON_BLUE) != KeyOf(PLAIN)
  {
    TwoDigits(3, 1);
    TwoDigits(4, 4);
    hide Decimal, Sgr;
    assert KeyOf(RED_ON_BLUE) == StyleKey("31", "44", true, false, false, true);
    assert KeyOf(PLAIN) == StyleKey("", "", false, false, false, false);
    hide KeyOf;
    assert Params(StyleKey("31", "44", true, false, false, true)) == ["31", "44", "1", "4"];
    assert Params(StyleKey("", "", false, false, false, false)) == [];
    hide Params;
    PrintedParams();
  }

  lemma JoinFirst(part: string, parts: seq<string>, all: seq<string>)
    requires parts != [] && all == [part] + parts
    ensures Join(";", all) == part + ";" + Join(";", parts)
  {
    assert all[1..] == parts;
  }

  lemma PrintedParams()
    ensures Sgr(["31", "44", "1", "4"]) == [ESC] + "[31;44;1;4m" && Sgr([]) == ""
  {
    assert Join(";", ["4"]) == "4";
    hide Join;
    JoinFirst("1", ["4"], ["1", "4"]);
    JoinFirst("44", ["1", "4"], ["44", "1", "4"]);
    JoinFirst("31", ["44", "1", "4"], ["31", "44", "1", "4"]);
    assert Join(";", ["31", "44", "1", "4"]) == "31;44;1;4";
  }

  lemma NoCells(key: StyleKey)
    ensures RenderCells([], Some(key)) == ""
  {
  }

  lemma TwoTexts()
    ensures Join("", Texts([Cell(RED_ON_BLUE, "a"), Cell(RED_ON_BLUE, "b")])) == "ab"
    ensures Join("", Texts([Cell(PLAIN, "c")])) == "c"
  {
    var a, b, c := Cell(RED_ON_BLUE, "a"), Cell(RED_ON_BLUE, "b"), Cell(PLAIN, "c");
    assert [a, b][1..] == [b] && [b][1..] == [] && [c][1..] == [];
    assert Texts([b]) == ["b"] && Texts([a, b]) == ["a", "b"] && Texts([c]) == ["c"];
    assert ["a", "b"][1..] == ["b"];
  }
}
