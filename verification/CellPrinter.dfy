/** The printer of the terminal bridge (iterm_bridge.py): it walks the cells of
    a terminal line and writes text with ECMA-48 control sequences (CSI, section
    5.4; SGR, section 8.3.117), emitting a new style only where the style key of
    neighbouring cells differs. */
module CellPrinter {
  import opened Text
  import opened Ansi

  type Byte = n: nat | n < 256

  /** iTerm2's colour of a cell: 24-bit, one of the 256 standard colours, or an
      alternate (such as "default") that is neither. */
  datatype CellColor = Rgb(red: Byte, green: Byte, blue: Byte) | Standard(index: Byte) | Alternate

  datatype CellStyle = CellStyle(
    fgColor: Option<CellColor>, bgColor: Option<CellColor>,
    bold: bool, faint: bool, italic: bool, underline: bool)

  datatype Cell = Cell(style: CellStyle, text: string)

  const SGR_RESET: string := [ESC, '[', '0', 'm']

  function FgParam(color: Option<CellColor>): string {
    match color
    case None => ""
    case Some(Rgb(r, g, b)) => "38;2;" + Decimal(r) + ";" + Decimal(g) + ";" + Decimal(b)
    case Some(Standard(n)) =>
      if n < 8 then Decimal(30 + n)
      else if n < 16 then Decimal(90 + (n - 8))
      else "38;5;" + Decimal(n)
    case Some(Alternate) => ""
  }

  function BgParam(color: Option<CellColor>): string {
    match color
    case None => ""
    case Some(Rgb(r, g, b)) => "48;2;" + Decimal(r) + ";" + Decimal(g) + ";" + Decimal(b)
    case Some(Standard(n)) =>
      if n < 8 then Decimal(40 + n)
      else if n < 16 then Decimal(100 + (n - 8))
      else "48;5;" + Decimal(n)
    case Some(Alternate) => ""
  }

  function Present(param: string): seq<string> { if param == "" then [] else [param] }

  function Flag(on: bool, code: string): seq<string> { if on then [code] else [] }

  function Flags(bold: bool, faint: bool, italic: bool, underline: bool): seq<string> {
    Flag(bold, "1") + (Flag(faint, "2") + (Flag(italic, "3") + Flag(underline, "4")))
  }

  function Params(key: StyleKey): seq<string> {
    Present(key.fg) + (Present(key.bg) + Flags(key.bold, key.faint, key.italic, key.underline))
  }

  /** What change detection between neighbouring cells compares. */
  datatype StyleKey = StyleKey(fg: string, bg: string, bold: bool, faint: bool, italic: bool, underline: bool)

  function KeyOf(style: CellStyle): StyleKey {
    StyleKey(FgParam(style.fgColor), BgParam(style.bgColor), style.bold, style.faint, style.italic, style.underline)
  }

  function Sgr(params: seq<string>): string {
    if params == [] then "" else [ESC, '['] + Join(";", params) + "m"
  }

  method StyleSgr(style: CellStyle) returns (sgr: string)
    ensures sgr == Sgr(Params(KeyOf(style)))
  {
    hide FgParam, BgParam, Join;
    var params: seq<string> := [];
    var fg, bg := FgParam(style.fgColor), BgParam(style.bgColor);
    if fg != "" {
      params := params + [fg];
    }
    assert params == Present(fg);
    if bg != "" {
      params := params + [bg];
    }
    assert params == Present(fg) + Present(bg);
    ghost var colors := params;
    if style.bold {
      params := params + ["1"];
    }
    assert params == colors + Flag(style.bold, "1");
    if style.faint {
      params := params + ["2"];
    }
    ghost var weight := params;
    assert params == colors + Flag(style.bold, "1") + Flag(style.faint, "2");
    if style.italic {
      params := params + ["3"];
    }
    assert params == weight + Flag(style.italic, "3");
    if style.underline {
      params := params + ["4"];
    }
    assert params == weight + Flag(style.italic, "3") + Flag(style.underline, "4");
    Nested(Present(fg), Present(bg), Flag(style.bold, "1"), Flag(style.faint, "2"),
           Flag(style.italic, "3"), Flag(style.underline, "4"));
    if params == [] {
      return "";
    }
    sgr := [ESC, '['] + Join(";", params) + "m";
  }

  lemma Nested<T>(a: seq<T>, b: seq<T>, c: seq<T>, d: seq<T>, e: seq<T>, f: seq<T>)
    ensures a + b + c + d + e + f == a + (b + (c + (d + (e + f))))
  {
  }

  // ---------------------------------------------------------------------
  // Printing a line
  // ---------------------------------------------------------------------

  function StyleChange(key: StyleKey, last: Option<StyleKey>): string {
    if Some(key) == last then "" else SGR_RESET + Sgr(Params(key))
  }

  function RenderCells(cells: seq<Cell>, last: Option<StyleKey>): string
    decreases |cells|
  {
    if cells == [] then ""
    else
      var key := KeyOf(cells[0].style);
      StyleChange(key, last) + cells[0].text + RenderCells(cells[1..], Some(key))
  }

  function RenderLine(cells: seq<Cell>): string { RStrip(RenderCells(cells, None) + SGR_RESET) }

  /** The style at column x; None from the end of the line on. */
  function StyleAt(cells: seq<Cell>, x: nat): Option<CellStyle> {
    if x < |cells| then Some(cells[x].style) else None
  }

  method RenderLineAnsi(cells: seq<Cell>) returns (line: string)
    ensures line == RenderLine(cells)
  {
    hide RStrip, KeyOf, Params, Sgr, Join, RenderCells;
    var parts: seq<string> := [];
    var lastKey: Option<StyleKey> := None;
    var x := 0;
    RenderNone(cells);
    while true
      invariant x <= |cells|
      invariant Join("", parts) + RenderCells(cells[x..], lastKey) == RenderCells(cells, None)
      decreases |cells| - x
    {
      var style := StyleAt(cells, x);
      if style.None? {
        break;
      }
      RenderFrom(cells, x, lastKey);
      ghost var before, last := Join("", parts), lastKey;
      var key := KeyOf(style.value);
      if Some(key) != lastKey {
        JoinLast(parts, SGR_RESET);
        parts := parts + [SGR_RESET];
        var sgr := StyleSgr(style.value);
        if sgr != "" {
          JoinLast(parts, sgr);
          parts := parts + [sgr];
        }
        lastKey := Some(key);
      }
      assert Join("", parts) == before + StyleChange(key, last);
      JoinLast(parts, cells[x].text);
      parts := parts + [cells[x].text];
      Reassociate(before, StyleChange(key, last), cells[x].text, RenderCells(cells[x + 1..], lastKey));
      x := x + 1;
    }
    RenderEnd(cells, x, lastKey);
    JoinLast(parts, SGR_RESET);
    parts := parts + [SGR_RESET];
    line := RStrip(Join("", parts));
  }

  lemma RenderNone(cells: seq<Cell>)
    ensures Join("", []) + RenderCells(cells[0..], None) == RenderCells(cells, None)
  {
    assert cells[0..] == cells;
  }

  lemma RenderEnd(cells: seq<Cell>, x: nat, last: Option<StyleKey>)
    requires x == |cells|
    ensures forall s: string :: s + RenderCells(cells[x..], last) == s
  {
  }

  lemma RenderFrom(cells: seq<Cell>, x: nat, last: Option<StyleKey>)
    requires x < |cells|
    ensures var key := KeyOf(cells[x].style);
            RenderCells(cells[x..], last)
            == StyleChange(key, last) + cells[x].text + RenderCells(cells[x + 1..], Some(key))
  {
  }

  lemma Reassociate(a: string, b: string, c: string, d: string)
    ensures a + (b + c + d) == a + b + c + d
  {
  }

  /** The final `rstrip` removes nothing: the line ends in a reset. */
  lemma RenderLineKeepsAll(cells: seq<Cell>)
    ensures RenderLine(cells) == RenderCells(cells, None) + SGR_RESET
  {
  }

  // ---------------------------------------------------------------------
  // What a cell is meant to look like
  // ---------------------------------------------------------------------

  function DisplayColor(color: Option<CellColor>): Option<Color> {
    match color
    case Some(Rgb(r, g, b)) => Some(TrueColor(r, g, b))
    case Some(Standard(n)) => Some(PaletteColor(n))
    case _ => None
  }

  function DisplayStyle(style: CellStyle): Style {
    Style(DisplayColor(style.fgColor), DisplayColor(style.bgColor),
          style.bold, style.faint, style.italic, style.underline)
  }

  function CellGlyphs(cells: seq<Cell>): seq<Glyph> {
    if cells == [] then []
    else Glyphs(cells[0].text, DisplayStyle(cells[0].style)) + CellGlyphs(cells[1..])
  }

  ghost predicate EscFree(cells: seq<Cell>) {
    forall i :: 0 <= i < |cells| ==> ESC !in cells[i].text
  }
}
