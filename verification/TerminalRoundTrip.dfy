/** The printer and the parser together: what the bridge prints is what the
    browser shows, however the text is cut on its way. */
module TerminalRoundTrip {
  import opened Text
  import opened Ansi
  import opened CellPrinter

  // ---------------------------------------------------------------------
  // Parameter lists
  // ---------------------------------------------------------------------

  /** The single parameters of a foreground (base 30) or background (base 40)
      colour. */
  function ColorCodes(color: Option<CellColor>, base: nat): seq<string> {
    match color
    case Some(Rgb(r, g, b)) => [Decimal(base + 8), "2", Decimal(r), Decimal(g), Decimal(b)]
    case Some(Standard(n)) =>
      if n < 8 then [Decimal(base + n)]
      else if n < 16 then [Decimal(base + 60 + (n - 8))]
      else [Decimal(base + 8), "5", Decimal(n)]
    case _ => []
  }

  function FlagCodes(style: CellStyle): seq<string> {
    Flags(style.bold, style.faint, style.italic, style.underline)
  }

  function StyleCodes(style: CellStyle): seq<string> {
    ColorCodes(style.fgColor, 30) + (ColorCodes(style.bgColor, 40) + FlagCodes(style))
  }

  lemma SplitCons(x: string, rest: string)
    requires ';' !in x
    ensures Split(x + ";" + rest, ';') == [x] + Split(rest, ';')
  {
    SplitAtSeparator(x, ';', rest);
    SplitWithoutSeparator(x, ';');
  }

  lemma SplitThree(a: string, b: string, c: string)
    requires ';' !in a + b + c
    ensures Split(a + ";" + b + ";" + c, ';') == [a, b, c]
  {
    assert a + ";" + b + ";" + c == a + ";" + (b + ";" + c);
    assert ';' !in a && ';' !in b && ';' !in c;
    SplitCons(a, b + ";" + c);
    SplitCons(b, c);
    SplitWithoutSeparator(c, ';');
  }

  lemma SplitFive(a: string, b: string, c: string, d: string, e: string)
    requires ';' !in a + b + c + d + e
    ensures Split(a + ";" + b + ";" + c + ";" + d + ";" + e, ';') == [a, b, c, d, e]
  {
    var tail := c + ";" + d + ";" + e;
    assert a + ";" + b + ";" + c + ";" + d + ";" + e == a + ";" + (b + ";" + tail);
    assert ';' !in a && ';' !in b && ';' !in c + d + e;
    SplitCons(a, b + ";" + tail);
    SplitCons(b, tail);
    SplitThree(c, d, e);
  }

  lemma SelectorCodes()
    ensures Decimal(38) == "38" && Decimal(48) == "48"
  {
  }

  /** Splitting a colour's printed parameter gives its codes. */
  lemma SplitColor(color: Option<CellColor>)
    ensures SplitAll(Present(FgParam(color)), ';') == ColorCodes(color, 30)
    ensures SplitAll(Present(BgParam(color)), ';') == ColorCodes(color, 40)
  {
    hide Split, Decimal;
    SelectorCodes();
    match color
    case Some(Rgb(r, g, b)) =>
      var x, y, z := Decimal(r), Decimal(g), Decimal(b);
      SplitFive("38", "2", x, y, z);
      SplitFive("48", "2", x, y, z);
      assert "38" + ";" + "2" + ";" + x + ";" + y + ";" + z == FgParam(color);
      assert "48" + ";" + "2" + ";" + x + ";" + y + ";" + z == BgParam(color);
    case Some(Standard(n)) =>
      if n < 8 {
        SplitWithoutSeparator(Decimal(30 + n), ';');
        SplitWithoutSeparator(Decimal(40 + n), ';');
      } else if n < 16 {
        SplitWithoutSeparator(Decimal(90 + (n - 8)), ';');
        SplitWithoutSeparator(Decimal(100 + (n - 8)), ';');
      } else {
        SplitThree("38", "5", Decimal(n));
        SplitThree("48", "5", Decimal(n));
        assert "38" + ";" + "5" + ";" + Decimal(n) == FgParam(color);
        assert "48" + ";" + "5" + ";" + Decimal(n) == BgParam(color);
      }
    case _ =>
  }

  lemma SplitFlags(style: CellStyle)
    ensures SplitAll(FlagCodes(style), ';') == FlagCodes(style)
  {
    hide Split;
    forall code: string | code in ["1", "2", "3", "4"]
      ensures Split(code, ';') == [code]
    {
      SplitWithoutSeparator(code, ';');
    }
    SingleCodes(FlagCodes(style));
  }

  lemma {:induction false} SingleCodes(codes: seq<string>)
    requires forall code: string :: code in codes ==> Split(code, ';') == [code]
    ensures SplitAll(codes, ';') == codes
  {
    if codes == [] {
    } else {
      SingleCodes(codes[1..]);
    }
  }

  /** Splitting a style's printed parameters gives its codes. */
  lemma SplitParams(style: CellStyle)
    ensures SplitAll(Params(KeyOf(style)), ';') == StyleCodes(style)
  {
    hide FgParam, BgParam, ColorCodes, SplitAll, Flags, Present;
    var fg, bg, flags := Present(FgParam(style.fgColor)), Present(BgParam(style.bgColor)), FlagCodes(style);
    assert Params(KeyOf(style)) == fg + (bg + flags);
    SplitAllAppend(fg, bg + flags, ';');
    SplitAllAppend(bg, flags, ';');
    SplitColor(style.fgColor);
    SplitColor(style.bgColor);
    SplitFlags(style);
  }

  // ---------------------------------------------------------------------
  // Applying a style's codes
  // ---------------------------------------------------------------------

  lemma ApplyOne(n: nat, rest: seq<string>, st: Style)
    requires n != 38 && n != 48
    ensures ApplySgr([Decimal(n)] + rest, st) == ApplySgr(rest, ApplyCode(Some(n), st))
  {
    hide ParseInt, Decimal;
    ParseDecimal(n);
    assert ([Decimal(n)] + rest)[1..] == rest;
  }

  lemma ApplyIndexed(foreground: bool, n: Byte, rest: seq<string>, st: Style)
    ensures var select := if foreground then 38 else 48;
            ApplySgr([Decimal(select), "5", Decimal(n)] + rest, st)
            == ApplySgr(rest, SetColor(st, foreground, PaletteColor(n)))
  {
    hide ParseInt, Decimal, PaletteColor;
    var select := if foreground then 38 else 48;
    ParseDecimal(select);
    ParseDecimal(n);
    var cmds := [Decimal(select), "5", Decimal(n)] + rest;
    assert cmds[3..] == rest;
  }

  lemma ApplyTrueColor(foreground: bool, r: Byte, g: Byte, b: Byte, rest: seq<string>, st: Style)
    ensures var select := if foreground then 38 else 48;
            ApplySgr([Decimal(select), "2", Decimal(r), Decimal(g), Decimal(b)] + rest, st)
            == ApplySgr(rest, SetColor(st, foreground, TrueColor(r, g, b)))
  {
    hide ParseInt, Decimal;
    var select := if foreground then 38 else 48;
    ParseDecimal(select);
    ParseDecimal(r);
    ParseDecimal(g);
    ParseDecimal(b);
    var cmds := [Decimal(select), "2", Decimal(r), Decimal(g), Decimal(b)] + rest;
    assert cmds[5..] == rest;
  }

  /** A colour's codes set that colour, and only that. */
  lemma ApplyColor(color: Option<CellColor>, foreground: bool, rest: seq<string>, st: Style)
    requires (if foreground then st.fg else st.bg) == None
    ensures var shown := DisplayColor(color);
            ApplySgr(ColorCodes(color, if foreground then 30 else 40) + rest, st)
            == ApplySgr(rest, if foreground then st.(fg := shown) else st.(bg := shown))
  {
    hide ApplySgr, Decimal;
    var base := if foreground then 30 else 40;
    match color
    case Some(Rgb(r, g, b)) => ApplyTrueColor(foreground, r, g, b, rest, st);
    case Some(Standard(n)) =>
      if n < 8 {
        ApplyOne(base + n, rest, st);
      } else if n < 16 {
        ApplyOne(base + 60 + (n - 8), rest, st);
      } else {
        ApplyIndexed(foreground, n, rest, st);
      }
    case _ =>
      assert [] + rest == rest;
  }

  lemma ApplyFlag(on: bool, n: nat, code: string, rest: seq<string>, st: Style)
    requires code == Decimal(n) && 1 <= n <= 4
    ensures ApplySgr(Flag(on, code) + rest, st) == ApplySgr(rest, if on then ApplyCode(Some(n), st) else st)
  {
    if on {
      ApplyOne(n, rest, st);
    } else {
      assert Flag(on, code) + rest == rest;
    }
  }

  /** From the default style, a style's codes give exactly its look. */
  lemma ApplyStyle(style: CellStyle)
    ensures ApplySgr(StyleCodes(style), DEFAULT_STYLE) == DisplayStyle(style)
  {
    hide ApplySgr, ColorCodes, DisplayColor, Flag;
    var CellStyle(fg, bg, bold, faint, italic, underline) := style;
    var s1 := DEFAULT_STYLE.(fg := DisplayColor(fg));
    var s2 := s1.(bg := DisplayColor(bg));
    ApplyColor(fg, true, ColorCodes(bg, 40) + FlagCodes(style), DEFAULT_STYLE);
    ApplyColor(bg, false, FlagCodes(style), s1);
    var f1, f2, f3, f4 := Flag(bold, "1"), Flag(faint, "2"), Flag(italic, "3"), Flag(underline, "4");
    assert FlagCodes(style) == f1 + (f2 + (f3 + (f4 + []))) by {
      assert f4 + [] == f4;
    }
    ApplyFlag(bold, 1, "1", f2 + (f3 + (f4 + [])), s2);
    var s3 := if bold then ApplyCode(Some(1), s2) else s2;
    ApplyFlag(faint, 2, "2", f3 + (f4 + []), s3);
    var s4 := if faint then ApplyCode(Some(2), s3) else s3;
    ApplyFlag(italic, 3, "3", f4 + [], s4);
    var s5 := if italic then ApplyCode(Some(3), s4) else s4;
    ApplyFlag(underline, 4, "4", [], s5);
    ApplyNothing(if underline then ApplyCode(Some(4), s5) else s5);
  }

  lemma ApplyNothing(st: Style)
    ensures ApplySgr([], st) == st
  {
  }

  // ---------------------------------------------------------------------
  // Sequences in the stream
  // ---------------------------------------------------------------------

  /** A printed SGR sequence is parsed as one packet with its parameters. */
  lemma DrainSgr(style: Style, params: string, tail: string)
    requires forall i :: 0 <= i < |params| ==> IsParam(params[i])
    ensures Drain(style, [ESC, '['] + params + "m" + tail) == Drain(ApplySgr(Split(params, ';'), style), tail)
  {
    hide ApplySgr, Split, MatchCsi;
    var buf := [ESC, '['] + params + "m" + tail;
    var n := 2 + |params|;
    var m := Csi(2, n, n + 1);
    assert forall k :: 2 <= k < n ==> buf[k] == params[k - 2];
    assert buf[n] == 'm';
    assert m.Matches(buf);
    MatchCsiIs(buf, m);
    IndexOfIs(buf, ESC, 0);
    assert buf[2..n] == params && buf[n..n + 1] == "m" && buf[n + 1..] == tail;
    DrainStep(style, buf);
    ShowNothing(Drain(ApplySgr(Split(params, ';'), style), tail));
  }

  lemma ParamsArePlain(style: CellStyle)
    requires Params(KeyOf(style)) != []
    ensures forall c :: c in Join(";", Params(KeyOf(style))) ==> IsParam(c)
  {
    hide Decimal, Join, FgParam, BgParam;
    var key := KeyOf(style);
    assert PlainParts([key.fg, key.bg, "1", "2", "3", "4"]) by {
      PlainColor(style.fgColor);
      PlainColor(style.bgColor);
    }
    JoinPlain(Params(key));
  }

  ghost predicate PlainParts(parts: seq<string>) {
    forall p, i :: p in parts && 0 <= i < |p| ==> IsParam(p[i])
  }

  lemma PlainColor(color: Option<CellColor>)
    ensures PlainParts([FgParam(color), BgParam(color)])
  {
    hide Decimal;
  }

  lemma {:induction false} JoinPlain(parts: seq<string>)
    requires PlainParts(parts)
    ensures forall c :: c in Join(";", parts) ==> IsParam(c)
  {
    if |parts| <= 1 {
    } else {
      JoinPlain(parts[1..]);
    }
  }

  /** A style change in the stream sets exactly the style of its cell, whatever
      the style was before. */
  lemma DrainStyleChange(style: Style, cell: CellStyle, tail: string)
    ensures Drain(style, SGR_RESET + Sgr(Params(KeyOf(cell))) + tail) == Drain(DisplayStyle(cell), tail)
  {
    hide Drain, ApplySgr, Split, StyleCodes, DisplayStyle, Params, KeyOf;
    var params := Params(KeyOf(cell));
    DrainReset(style, Sgr(params) + tail);
    assert SGR_RESET + Sgr(params) + tail == SGR_RESET + (Sgr(params) + tail);
    SplitParams(cell);
    ApplyStyle(cell);
    if params == [] {
      assert Sgr(params) + tail == tail;
      ApplyNothing(DEFAULT_STYLE);
    } else {
      ParamsArePlain(cell);
      SplitJoin(params, ';');
      var joined := Join(";", params);
      assert forall i :: 0 <= i < |joined| ==> joined[i] in joined;
      DrainSgr(DEFAULT_STYLE, joined, tail);
    }
  }

  lemma DrainReset(style: Style, tail: string)
    ensures Drain(style, SGR_RESET + tail) == Drain(DEFAULT_STYLE, tail)
  {
    hide Drain;
    DrainSgr(style, "0", tail);
    assert SGR_RESET == [ESC, '['] + "0" + "m";
    SplitWithoutSeparator("0", ';');
    ApplyOne(0, [], style);
    assert Decimal(0) == "0" && ["0"] + [] == ["0"];
    ApplyNothing(DEFAULT_STYLE);
  }

  /** Cells with the same key look the same, so skipping the change is safe. */
  lemma KeyDeterminesLook(a: CellStyle, b: CellStyle)
    requires KeyOf(a) == KeyOf(b)
    ensures DisplayStyle(a) == DisplayStyle(b)
  {
    hide Params, KeyOf, StyleCodes, ApplySgr, DisplayStyle;
    SplitParams(a);
    SplitParams(b);
    ApplyStyle(a);
    ApplyStyle(b);
  }

  // ---------------------------------------------------------------------
  // Round trip
  // ---------------------------------------------------------------------

  /** The cells from some column on, after a cell of style `prev`. */
  lemma {:induction false} CellsRoundTrip(style: Style, cells: seq<Cell>, prev: Option<CellStyle>, tail: string)
    requires EscFree(cells)
    requires prev.Some? ==> style == DisplayStyle(prev.value)
    ensures var last := if prev.Some? then Some(KeyOf(prev.value)) else None;
            Drain(style, RenderCells(cells, last) + (SGR_RESET + tail))
            == Show(CellGlyphs(cells), Drain(DEFAULT_STYLE, tail))
    decreases |cells|
  {
    hide Drain, KeyOf, DisplayStyle, Glyphs, Sgr, Params;
    var last := if prev.Some? then Some(KeyOf(prev.value)) else None;
    var end := SGR_RESET + tail;
    var done := Drain(DEFAULT_STYLE, tail);
    if cells == [] {
      assert "" + end == end;
      DrainReset(style, tail);
      ShowNothing(done);
    } else {
      var cell, key := cells[0].style, KeyOf(cells[0].style);
      var rest := RenderCells(cells[1..], Some(key)) + end;
      var looks := DisplayStyle(cell);
      CellThenRest(StyleChange(key, last), cells[0].text, RenderCells(cells[1..], Some(key)), end);
      if Some(key) == last {
        KeyDeterminesLook(cell, prev.value);
        assert "" + (cells[0].text + rest) == cells[0].text + rest;
      } else {
        DrainStyleChange(style, cell, cells[0].text + rest);
      }
      DrainText(looks, cells[0].text, rest);
      CellsRoundTrip(looks, cells[1..], Some(cell), tail);
      ShowTwice(Glyphs(cells[0].text, looks), CellGlyphs(cells[1..]), done);
    }
  }

  lemma CellThenRest(change: string, text: string, rest: string, end: string)
    ensures change + text + rest + end == change + (text + (rest + end))
  {
  }

  /** A printed line, whatever style precedes it and whatever text follows. */
  lemma LineThenTail(style: Style, cells: seq<Cell>, tail: string)
    requires EscFree(cells)
    ensures Drain(style, RenderLine(cells) + tail) == Show(CellGlyphs(cells), Drain(DEFAULT_STYLE, tail))
  {
    hide Drain, RenderCells, RenderLine;
    RenderLineKeepsAll(cells);
    CellsRoundTrip(style, cells, None, tail);
    assert RenderCells(cells, None) + SGR_RESET + tail == RenderCells(cells, None) + (SGR_RESET + tail);
  }

  lemma TextIsPlain(buf: string)
    ensures var packet := NextPacket(buf).packet;
            packet.TextPacket? ==> ESC !in packet.text
  {
  }

  /** The parser shows no ESC character, in any state. */
  lemma {:induction false} NeverShowsEsc(style: Style, buf: string)
    ensures forall g :: g in Drain(style, buf).glyphs && g.Char? ==> g.c != ESC
    decreases |buf|
  {
    hide ApplySgr, Split, NextPacket;
    var s := NextPacket(buf);
    if s.packet.Stops() {
    } else {
      TextIsPlain(buf);
      NeverShowsEsc(StyleAfter(s.packet, style), s.rest);
    }
  }

  lemma {:induction false} EscInSomeCell(cells: seq<Cell>, i: nat)
    requires i < |cells| && ESC in cells[i].text
    ensures exists g :: g in CellGlyphs(cells) && g.Char? && g.c == ESC
  {
    if i == 0 {
      var k :| 0 <= k < |cells[0].text| && cells[0].text[k] == ESC;
      var g := Char(ESC, DisplayStyle(cells[0].style));
      assert Glyphs(cells[0].text, DisplayStyle(cells[0].style))[k] == g;
      assert g in CellGlyphs(cells);
    } else {
      EscInSomeCell(cells[1..], i - 1);
      var g :| g in CellGlyphs(cells[1..]) && g.Char? && g.c == ESC;
      assert g in CellGlyphs(cells);
    }
  }

  /** Parsing a printed line gives back every character of every cell, each
      with its cell's colours and flags, and ends in the default style with
      nothing left over: exactly for the lines whose cells hold no ESC. */
  lemma LineRoundTrip(style: Style, cells: seq<Cell>)
    ensures Drain(style, RenderLine(cells)) == Outcome(CellGlyphs(cells), DEFAULT_STYLE, "")
            <==> EscFree(cells)
  {
    hide RenderLine, CellGlyphs;
    if EscFree(cells) {
      LineThenTail(style, cells, "");
      assert RenderLine(cells) + "" == RenderLine(cells);
      DrainNothing(DEFAULT_STYLE);
    } else {
      hide Drain;
      var i :| 0 <= i < |cells| && ESC in cells[i].text;
      EscInSomeCell(cells, i);
      NeverShowsEsc(style, RenderLine(cells));
    }
  }

  lemma DrainNothing(style: Style)
    ensures Drain(style, "") == Outcome([], style, "")
  {
  }

  // ---------------------------------------------------------------------
  // A screen of lines, cut anywhere
  // ---------------------------------------------------------------------

  function RenderLines(lines: seq<seq<Cell>>): (rendered: seq<string>)
    ensures |rendered| == |lines|
  {
    if lines == [] then [] else [RenderLine(lines[0])] + RenderLines(lines[1..])
  }

  /** `"\n".join` of the rendered lines. */
  function RenderScreen(lines: seq<seq<Cell>>): string { Join("\n", RenderLines(lines)) }

  function ScreenGlyphs(lines: seq<seq<Cell>>): seq<Glyph> {
    if lines == [] then []
    else if |lines| == 1 then CellGlyphs(lines[0])
    else CellGlyphs(lines[0]) + [Char('\n', DEFAULT_STYLE)] + ScreenGlyphs(lines[1..])
  }

  ghost predicate AllEscFree(lines: seq<seq<Cell>>) { forall i :: 0 <= i < |lines| ==> EscFree(lines[i]) }

  lemma {:induction false} ScreenIsShown(style: Style, lines: seq<seq<Cell>>)
    requires lines != [] && AllEscFree(lines)
    ensures Drain(style, RenderScreen(lines)) == Outcome(ScreenGlyphs(lines), DEFAULT_STYLE, "")
    decreases |lines|
  {
    hide Drain, RenderLine, CellGlyphs, Glyphs;
    LineRoundTrip(style, lines[0]);
    if |lines| == 1 {
    } else {
      var rest := RenderScreen(lines[1..]);
      RenderScreenCons(lines);
      LineThenTail(style, lines[0], "\n" + rest);
      DrainText(DEFAULT_STYLE, "\n", rest);
      ScreenIsShown(DEFAULT_STYLE, lines[1..]);
      NewlineGlyph();
      var o := Drain(DEFAULT_STYLE, rest);
      ShowTwice(CellGlyphs(lines[0]), [Char('\n', DEFAULT_STYLE)], o);
    }
  }

  lemma {:induction false} EscInSomeLine(lines: seq<seq<Cell>>, i: nat)
    requires i < |lines| && !EscFree(lines[i])
    ensures exists g :: g in ScreenGlyphs(lines) && g.Char? && g.c == ESC
    decreases |lines|
  {
    hide CellGlyphs;
    if i == 0 {
      var k :| 0 <= k < |lines[0]| && ESC in lines[0][k].text;
      EscInSomeCell(lines[0], k);
    } else {
      EscInSomeLine(lines[1..], i - 1);
      var g :| g in ScreenGlyphs(lines[1..]) && g.Char? && g.c == ESC;
      assert g in ScreenGlyphs(lines);
    }
  }

  /** The same for lines joined by newlines: exactly if no line's cells hold
      an ESC. */
  lemma ScreenRoundTrip(style: Style, lines: seq<seq<Cell>>)
    requires lines != []
    ensures Drain(style, RenderScreen(lines)) == Outcome(ScreenGlyphs(lines), DEFAULT_STYLE, "")
            <==> AllEscFree(lines)
  {
    hide Drain, RenderScreen, ScreenGlyphs, EscFree;
    if AllEscFree(lines) {
      ScreenIsShown(style, lines);
    } else {
      var i :| 0 <= i < |lines| && !EscFree(lines[i]);
      EscInSomeLine(lines, i);
      NeverShowsEsc(style, RenderScreen(lines));
    }
  }

  lemma NewlineGlyph()
    ensures Glyphs("\n", DEFAULT_STYLE) == [Char('\n', DEFAULT_STYLE)]
  {
  }

  lemma RenderScreenCons(lines: seq<seq<Cell>>)
    requires |lines| > 1
    ensures RenderScreen(lines) == RenderLine(lines[0]) + ("\n" + RenderScreen(lines[1..]))
  {
  }

  /** A fresh parser that receives a printed screen in chunks, however the
      screen was cut, has shown exactly the cells once the last chunk is in, if
      and only if no cell holds an ESC. */
  lemma StreamedScreen(lines: seq<seq<Cell>>, chunks: seq<string>)
    requires lines != [] && chunks != [] && Join("", chunks) == RenderScreen(lines)
    ensures Feed(DEFAULT_STYLE, "", chunks) == Outcome(ScreenGlyphs(lines), DEFAULT_STYLE, "")
            <==> AllEscFree(lines)
  {
    hide Drain, RenderScreen, ScreenGlyphs, Feed, AllEscFree;
    CutsDoNotMatter(DEFAULT_STYLE, "", chunks);
    assert "" + Join("", chunks) == Join("", chunks);
    ScreenRoundTrip(DEFAULT_STYLE, lines);
  }
}
