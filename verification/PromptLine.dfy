/** Cleaning a line of untrusted terminal text before it is shown elsewhere
    (session_watcher.py): strip escape sequences and control characters, escape
    HTML, collapse white space, cap the length. */
module PromptLine {
  import opened Text

  const ELLIPSIS: char := '\U{2026}'

  const LIMIT: nat := 200

  // ---------------------------------------------------------------------
  // The stages
  // ---------------------------------------------------------------------

  predicate IsLetter(c: char) { 'a' <= c <= 'z' || 'A' <= c <= 'Z' }

  function ParamRun(s: string): (k: nat)
    ensures k <= |s|
  {
    if s != "" && (IsDigit(s[0]) || s[0] == ';') then 1 + ParamRun(s[1..]) else 0
  }

  /** The length of the escape sequence that starts s: ESC [ digits letter. */
  function SequenceLength(s: string): (n: nat)
    ensures n <= |s|
  {
    if |s| < 2 || s[0] != ESC || s[1] != '[' then 0
    else
      var k := 2 + ParamRun(s[2..]);
      if k < |s| && IsLetter(s[k]) then k + 1 else 0
  }

  function StripAnsi(s: string): string
    decreases |s|
  {
    if s == "" then ""
    else
      var n := SequenceLength(s);
      if n > 0 then StripAnsi(s[n..]) else [s[0]] + StripAnsi(s[1..])
  }

  predicate Kept(c: char) {
    c == '\t' || c == '\n' || c == '\r' || (c as int >= 32 && c as int != 127)
  }

  function DropControls(s: string): string {
    if s == "" then "" else (if Kept(s[0]) then [s[0]] else "") + DropControls(s[1..])
  }

  predicate StartsWith(s: string, i: nat, prefix: string) { i + |prefix| <= |s| && s[i..i + |prefix|] == prefix }

  predicate EndsWith(s: string, suffix: string) { |suffix| <= |s| && s[|s| - |suffix|..] == suffix }

  predicate EntityAt(s: string, i: nat) {
    StartsWith(s, i, "&amp;") || StartsWith(s, i, "&lt;") || StartsWith(s, i, "&gt;")
  }

  /** Every `&` that does not start an entity becomes `&amp;`. */
  function EscapeAmp(s: string): string {
    if s == "" then ""
    else (if s[0] == '&' && !EntityAt(s, 0) then "&amp;" else [s[0]]) + EscapeAmp(s[1..])
  }

  function EscapeAngles(s: string): string {
    if s == "" then ""
    else (if s[0] == '<' then "&lt;" else if s[0] == '>' then "&gt;" else [s[0]]) + EscapeAngles(s[1..])
  }

  /** Each run of white space becomes one blank. */
  function Collapse(s: string): string
    decreases |s|
  {
    if s == "" then ""
    else if IsSpace(s[0]) then " " + Collapse(LStrip(s))
    else [s[0]] + Collapse(s[1..])
  }

  function Cleaned(line: string): string {
    Strip(Collapse(EscapeAngles(EscapeAmp(DropControls(StripAnsi(line))))))
  }

  /** Drops an entity from the end that the cut has left without its rest, as
      far as the source recognises one. */
  function TrimCut(s: string): string {
    if EndsWith(s, "&amp") then s[..|s| - 4]
    else if EndsWith(s, "&lt") || EndsWith(s, "&gt") then s[..|s| - 3]
    else if EndsWith(s, "&") then s[..|s| - 1]
    else s
  }

  function Capped(s: string): string {
    if |s| <= LIMIT then s else TrimCut(s[..LIMIT]) + [ELLIPSIS]
  }

  function Sanitize(line: string): string { if line == "" then "" else Capped(Cleaned(line)) }

  // ---------------------------------------------------------------------
  // Clean text
  // ---------------------------------------------------------------------

  /** No control characters, no angle brackets, and blanks only as single
      spaces. */
  predicate PlainChar(c: char) {
    c as int >= 32 && c as int != 127 && c != '<' && c != '>' && (IsSpace(c) ==> c == ' ')
  }

  predicate AllPlain(s: string) { forall i :: 0 <= i < |s| ==> PlainChar(s[i]) }

  predicate SingleBlanks(s: string) { forall i :: 0 <= i < |s| - 1 ==> !(s[i] == ' ' && s[i + 1] == ' ') }

  predicate Tight(s: string) { s == "" || (s[0] != ' ' && s[|s| - 1] != ' ') }

  predicate EntitiesOnly(s: string) { forall i :: 0 <= i < |s| && s[i] == '&' ==> EntityAt(s, i) }

  predicate Clean(s: string) { AllPlain(s) && SingleBlanks(s) && Tight(s) && EntitiesOnly(s) }

  // Each stage leaves clean text alone.

  lemma {:induction false} StripAnsiKeeps(s: string)
    requires forall i :: 0 <= i < |s| ==> s[i] != ESC
    ensures StripAnsi(s) == s
  {
    if s == "" {
    } else {
      StripAnsiKeeps(s[1..]);
    }
  }

  lemma {:induction false} DropControlsKeeps(s: string)
    requires forall i :: 0 <= i < |s| ==> Kept(s[i])
    ensures DropControls(s) == s
  {
    if s == "" {
    } else {
      DropControlsKeeps(s[1..]);
    }
  }

  lemma {:induction false} EscapeAnglesKeeps(s: string)
    requires forall i :: 0 <= i < |s| ==> s[i] != '<' && s[i] != '>'
    ensures EscapeAngles(s) == s
  {
    if s == "" {
    } else {
      EscapeAnglesKeeps(s[1..]);
    }
  }

  lemma EntityShift(s: string, i: nat)
    requires i + 1 <= |s|
    ensures EntityAt(s[1..], i) == EntityAt(s, i + 1)
  {
    assert forall p: string {:trigger StartsWith(s, i + 1, p)} :: i + 1 + |p| <= |s| ==>
      s[1..][i..i + |p|] == s[i + 1..i + 1 + |p|];
  }

  lemma {:induction false} EscapeAmpKeeps(s: string)
    requires EntitiesOnly(s)
    ensures EscapeAmp(s) == s
  {
    if s == "" {
    } else {
      forall i | 0 <= i < |s[1..]| && s[1..][i] == '&'
        ensures EntityAt(s[1..], i)
      {
        EntityShift(s, i);
      }
      EscapeAmpKeeps(s[1..]);
    }
  }

  lemma {:induction false} CollapseKeeps(s: string)
    requires AllPlain(s) && SingleBlanks(s)
    ensures Collapse(s) == s
  {
    if s == "" {
    } else {
      CollapseKeeps(s[1..]);
      if s[0] == ' ' {
        assert LeadingSpaces(s[1..]) == 0;
        assert LStrip(s) == s[1..];
      }
    }
  }

  lemma StripKeeps(s: string)
    requires AllPlain(s) && Tight(s)
    ensures Strip(s) == s
  {
  }

  lemma CleanedKeepsClean(s: string)
    requires Clean(s)
    ensures Cleaned(s) == s
  {
    StripAnsiKeeps(s);
    DropControlsKeeps(s);
    EscapeAmpKeeps(s);
    EscapeAnglesKeeps(s);
    CollapseKeeps(s);
    StripKeeps(s);
  }

  // ---------------------------------------------------------------------
  // Each stage makes text cleaner
  // ---------------------------------------------------------------------

  /** The characters of an entity after its ampersand. */
  predicate EntityTail(p: string) { forall i :: 0 <= i < |p| ==> 'a' <= p[i] <= 'z' || p[i] == ';' }

  lemma StartsByTail(s: string, p: string)
    requires s != "" && s[0] == '&'
    ensures StartsWith(s, 0, "&" + p) <==> StartsWith(s[1..], 0, p)
  {
  }

  lemma EntityByTail(s: string)
    requires s != "" && s[0] == '&'
    ensures EntityAt(s, 0) <==>
            StartsWith(s[1..], 0, "amp;") || StartsWith(s[1..], 0, "lt;") || StartsWith(s[1..], 0, "gt;")
  {
    hide StartsWith;
    StartsByTail(s, "amp;");
    StartsByTail(s, "lt;");
    StartsByTail(s, "gt;");
    assert "&" + "amp;" == "&amp;" && "&" + "lt;" == "&lt;" && "&" + "gt;" == "&gt;";
  }

  lemma EntitiesCons(s: string)
    requires s != ""
    ensures EntitiesOnly(s) <==> (s[0] == '&' ==> EntityAt(s, 0)) && EntitiesOnly(s[1..])
  {
    forall i | 0 <= i < |s| - 1
      ensures EntityAt(s[1..], i) == EntityAt(s, i + 1) && s[1..][i] == s[i + 1]
    {
      EntityShift(s, i);
    }
    if EntitiesOnly(s[1..]) && (s[0] == '&' ==> EntityAt(s, 0)) {
      forall i | 0 <= i < |s| && s[i] == '&'
        ensures EntityAt(s, i)
      {
        if i > 0 {
          assert s[1..][i - 1] == '&';
        }
      }
    }
  }

  lemma TailStep(s: string, p: string)
    requires p != "" && StartsWith(s, 0, p)
    ensures s != "" && s[0] == p[0] && StartsWith(s[1..], 0, p[1..])
  {
  }

  lemma TailJoin(c: char, s: string, p: string)
    requires p != "" && c == p[0] && StartsWith(s, 0, p[1..])
    ensures StartsWith([c] + s, 0, p)
  {
  }

  lemma {:induction false} EscapeAmpCopies(s: string, p: string)
    requires EntityTail(p) && StartsWith(s, 0, p)
    ensures StartsWith(EscapeAmp(s), 0, p)
    decreases |p|
  {
    if p == "" {
    } else {
      TailStep(s, p);
      EscapeAmpCopies(s[1..], p[1..]);
      TailJoin(s[0], EscapeAmp(s[1..]), p);
    }
  }

  lemma {:induction false} EscapeAnglesCopies(s: string, p: string)
    requires EntityTail(p) && StartsWith(s, 0, p)
    ensures StartsWith(EscapeAngles(s), 0, p)
    decreases |p|
  {
    if p == "" {
    } else {
      TailStep(s, p);
      EscapeAnglesCopies(s[1..], p[1..]);
      TailJoin(s[0], EscapeAngles(s[1..]), p);
    }
  }

  lemma {:induction false} CollapseCopies(s: string, p: string)
    requires EntityTail(p) && StartsWith(s, 0, p)
    ensures StartsWith(Collapse(s), 0, p)
    decreases |p|
  {
    if p == "" {
    } else {
      TailStep(s, p);
      CollapseCopies(s[1..], p[1..]);
      TailJoin(s[0], Collapse(s[1..]), p);
    }
  }

  /** A stage that copies an ampersand and the tail after it keeps the entity. */
  lemma EntityCopied(s: string, rest: string)
    requires s != "" && s[0] == '&' && EntityAt(s, 0)
    requires forall p: string :: EntityTail(p) && StartsWith(s[1..], 0, p) ==> StartsWith(rest, 0, p)
    ensures EntityAt(['&'] + rest, 0)
  {
    EntityByTail(s);
    EntityByTail(['&'] + rest);
    assert (['&'] + rest)[1..] == rest;
    assert EntityTail("amp;") && EntityTail("lt;") && EntityTail("gt;");
  }

  lemma NewEntity(e: string, rest: string)
    requires e == "&amp;" || e == "&lt;" || e == "&gt;"
    requires EntitiesOnly(rest)
    ensures EntitiesOnly(e + rest)
  {
    var s := e + rest;
    assert s[0..|e|] == e;
    assert StartsWith(s, 0, e) && EntityAt(s, 0);
    forall i | 0 <= i < |s| && s[i] == '&'
      ensures EntityAt(s, i)
    {
      if i >= |e| {
        AppendedEntity(e, rest, i - |e|);
      } else {
        assert s[i] == e[i];
      }
    }
  }

  lemma AppendedEntity(a: string, s: string, i: nat)
    requires i < |s|
    ensures EntityAt(a + s, |a| + i) == EntityAt(s, i)
  {
    var j := |a| + i;
    assert i + 4 <= |s| ==> (a + s)[j..j + 4] == s[i..i + 4];
    assert i + 5 <= |s| ==> (a + s)[j..j + 5] == s[i..i + 5];
  }

  lemma {:induction false} DropControlsKept(s: string)
    ensures forall i :: 0 <= i < |DropControls(s)| ==> Kept(DropControls(s)[i])
  {
    if s == "" {
    } else {
      DropControlsKept(s[1..]);
    }
  }

  lemma {:induction false} EscapeAmpEntities(s: string)
    ensures EntitiesOnly(EscapeAmp(s))
  {
    if s == "" {
    } else {
      var rest := EscapeAmp(s[1..]);
      EscapeAmpEntities(s[1..]);
      if s[0] == '&' && !EntityAt(s, 0) {
        NewEntity("&amp;", rest);
      } else {
        EntitiesCons([s[0]] + rest);
        assert ([s[0]] + rest)[1..] == rest;
        if s[0] == '&' {
          forall p: string | EntityTail(p) && StartsWith(s[1..], 0, p) { EscapeAmpCopies(s[1..], p); }
          EntityCopied(s, rest);
        }
      }
    }
  }

  lemma {:induction false} EscapeAmpChars(s: string)
    requires forall i :: 0 <= i < |s| ==> Kept(s[i])
    ensures forall i :: 0 <= i < |EscapeAmp(s)| ==> Kept(EscapeAmp(s)[i])
  {
    if s == "" {
    } else {
      EscapeAmpChars(s[1..]);
    }
  }

  predicate KeptPlain(c: char) { Kept(c) && c != '<' && c != '>' }

  lemma {:induction false} EscapeAnglesChars(s: string)
    requires forall i :: 0 <= i < |s| ==> Kept(s[i])
    ensures forall i :: 0 <= i < |EscapeAngles(s)| ==> KeptPlain(EscapeAngles(s)[i])
  {
    if s == "" {
    } else {
      EscapeAnglesChars(s[1..]);
    }
  }

  lemma {:induction false} EscapeAnglesEntities(s: string)
    requires EntitiesOnly(s)
    ensures EntitiesOnly(EscapeAngles(s))
  {
    if s == "" {
    } else {
      var rest := EscapeAngles(s[1..]);
      EntitiesCons(s);
      EscapeAnglesEntities(s[1..]);
      if s[0] == '<' {
        NewEntity("&lt;", rest);
      } else if s[0] == '>' {
        NewEntity("&gt;", rest);
      } else {
        EntitiesCons([s[0]] + rest);
        assert ([s[0]] + rest)[1..] == rest;
        if s[0] == '&' {
          forall p: string | EntityTail(p) && StartsWith(s[1..], 0, p) { EscapeAnglesCopies(s[1..], p); }
          EntityCopied(s, rest);
        }
      }
    }
  }

  lemma {:induction false} EntitiesDrop(s: string, k: nat)
    requires k <= |s| && EntitiesOnly(s)
    ensures EntitiesOnly(s[k..])
    decreases k
  {
    if k == 0 {
      assert s[0..] == s;
    } else {
      EntitiesCons(s);
      EntitiesDrop(s[1..], k - 1);
      assert s[1..][k - 1..] == s[k..];
    }
  }

  lemma {:induction false} CollapseClean(s: string)
    requires EntitiesOnly(s) && forall i :: 0 <= i < |s| ==> KeptPlain(s[i])
    ensures EntitiesOnly(Collapse(s)) && AllPlain(Collapse(s)) && SingleBlanks(Collapse(s))
    ensures s != "" && !IsSpace(s[0]) ==> Collapse(s) != "" && Collapse(s)[0] != ' '
    decreases |s|
  {
    if s == "" {
    } else {
      if IsSpace(s[0]) {
        var k := LeadingSpaces(s);
        EntitiesDrop(s, k);
        CollapseClean(s[k..]);
        EntitiesCons(" " + Collapse(s[k..]));
        assert (" " + Collapse(s[k..]))[1..] == Collapse(s[k..]);
      } else {
        var rest := Collapse(s[1..]);
        EntitiesCons(s);
        CollapseClean(s[1..]);
        EntitiesCons([s[0]] + rest);
        assert ([s[0]] + rest)[1..] == rest;
        if s[0] == '&' {
          forall p: string | EntityTail(p) && StartsWith(s[1..], 0, p) { CollapseCopies(s[1..], p); }
          EntityCopied(s, rest);
        }
      }
    }
  }

  /** Cutting at n leaves an entity whole if its semicolon comes before n. */
  lemma EntityInPrefix(s: string, n: nat, i: nat)
    requires n <= |s| && i < n
    requires EntityAt(s[..n], i)
    ensures EntityAt(s, i)
  {
  }

  /** How long the entity at i is. */
  function EntityLength(s: string, i: nat): (n: nat)
    requires EntityAt(s, i)
    ensures 4 <= n <= 5 && i + n <= |s| && s[i + n - 1] == ';'
    ensures forall k :: i < k < i + n ==> s[k] != '&' && !IsSpace(s[k])
  {
    if StartsWith(s, i, "&amp;") then
      assert s[i + 1] == s[i..i + 5][1] && s[i + 2] == s[i..i + 5][2];
      assert s[i + 3] == s[i..i + 5][3] && s[i + 4] == s[i..i + 5][4];
      5
    else
      assert s[i + 1] == s[i..i + 4][1] && s[i + 2] == s[i..i + 4][2] && s[i + 3] == s[i..i + 4][3];
      4
  }

  lemma WholeInPrefix(s: string, n: nat, i: nat)
    requires n <= |s| && EntityAt(s, i) && i + EntityLength(s, i) <= n
    ensures EntityAt(s[..n], i)
  {
    var e := EntityLength(s, i);
    assert s[..n][i..i + e] == s[i..i + e];
  }

  lemma RStripClean(s: string)
    requires EntitiesOnly(s)
    ensures EntitiesOnly(RStrip(s))
  {
    var r := RStrip(s);
    forall i | 0 <= i < |r| && r[i] == '&'
      ensures EntityAt(r, i)
    {
      assert s[i] == '&';
      var n := EntityLength(s, i);
      assert !IsSpace(s[i + n - 1]);
      WholeInPrefix(s, |r|, i);
    }
  }

  /** The stages together produce clean text, whatever the line was. */
  lemma CleanedIsClean(line: string)
    ensures Clean(Cleaned(line))
  {
    var a := DropControls(StripAnsi(line));
    var b := EscapeAmp(a);
    var c := EscapeAngles(b);
    var d := Collapse(c);
    DropControlsKept(StripAnsi(line));
    EscapeAmpChars(a);
    EscapeAmpEntities(a);
    EscapeAnglesChars(b);
    EscapeAnglesEntities(b);
    CollapseClean(c);
    EntitiesDrop(d, LeadingSpaces(d));
    RStripClean(LStrip(d));
  }

  // ---------------------------------------------------------------------
  // The cut
  // ---------------------------------------------------------------------

  /** A line whose escaped, collapsed form fits comes out clean: no control
      character, no raw angle bracket, no ampersand but those of entities. */
  lemma FittingIsClean(line: string)
    requires |Cleaned(line)| <= LIMIT
    ensures Clean(Sanitize(line))
  {
    CleanedIsClean(line);
  }

  /** Even a line that is cut has no control character and no angle bracket. */
  lemma AlwaysPlain(line: string)
    ensures AllPlain(Sanitize(line))
  {
    CleanedIsClean(line);
  }

  /** The line is too long, and the cut leaves the first two characters of a
      `&lt;` or `&gt;` at the end. */
  predicate CutsAngle(line: string) {
    |Cleaned(line)| > LIMIT
    && (EndsWith(Cleaned(line)[..LIMIT], "&l") || EndsWith(Cleaned(line)[..LIMIT], "&g"))
  }

  /** Clean text cut anywhere: whole entities only, up to at most one at the
      very end that has lost its rest. */
  lemma CutParts(s: string, n: nat) returns (q: nat)
    requires Clean(s) && n <= |s|
    ensures q <= n && EntitiesOnly(s[..q])
    ensures q < n ==>
      && EntityAt(s, q) && n < q + EntityLength(s, q)
      && forall i :: q < i < n ==> s[i] != '&'
    ensures q == n ==> EntitiesOnly(s[..n])
  {
    if broken :| 0 <= broken < n && s[broken] == '&' && n < broken + EntityLength(s, broken) {
      q := broken;
    } else {
      q := n;
    }
    forall i | 0 <= i < q && s[..q][i] == '&'
      ensures EntityAt(s[..q], i)
    {
      assert EntityAt(s, i);
      assert i + EntityLength(s, i) <= q;
      WholeInPrefix(s, q, i);
    }
  }

  /** A clean text with an ellipsis, or such a text cut before it, is clean. */
  lemma EllipsisClean(s: string, q: nat)
    requires Clean(s) && q <= |s| && EntitiesOnly(s[..q])
    ensures Clean(s[..q] + [ELLIPSIS])
  {
    var r := s[..q] + [ELLIPSIS];
    forall i | 0 <= i < |r| && r[i] == '&'
      ensures EntityAt(r, i)
    {
      assert s[..q][i] == '&';
      assert r[..q] == s[..q];
      EntityInPrefix(r, q, i);
    }
  }

  lemma EscapeAmpHead(s: string)
    requires s != "" && (s[0] == '&' ==> EntityAt(s, 0))
    ensures EscapeAmp(s) == [s[0]] + EscapeAmp(s[1..])
  {
  }

  lemma EscapeAmpNothing(b: string)
    ensures EscapeAmp("" + b) == "" + EscapeAmp(b)
  {
    assert "" + b == b;
  }

  lemma {:induction false} EscapeAmpAppend(a: string, b: string)
    requires EntitiesOnly(a)
    ensures EscapeAmp(a + b) == a + EscapeAmp(b)
  {
    hide EscapeAmp, EntitiesOnly, EntityAt;
    if a == "" {
      EscapeAmpNothing(b);
    } else {
      EntitiesCons(a);
      assert (a + b)[..|a|] == a;
      if a[0] == '&' {
        EntityInPrefix(a + b, |a|, 0);
      }
      EscapeAmpHead(a + b);
      assert (a + b)[1..] == a[1..] + b;
      EscapeAmpAppend(a[1..], b);
      assert [a[0]] + (a[1..] + EscapeAmp(b)) == a + EscapeAmp(b);
    }
  }

  /** How a second pass reads a text whose last entity has lost its rest: the
      ampersand is escaped anew. */
  lemma CleanedBroken(s: string, q: nat, n: nat)
    requires Clean(s) && q < n <= |s| && EntitiesOnly(s[..q]) && s[q] == '&'
    requires n - q < 4 && forall i :: q < i < n ==> s[i] != '&'
    ensures Cleaned(s[..n] + [ELLIPSIS]) == s[..q] + "&amp;" + s[q + 1..n] + [ELLIPSIS]
  {
    var r := s[..n] + [ELLIPSIS];
    StripAnsiKeeps(r);
    DropControlsKeeps(r);
    EscapeCut(s, q, n);
    BrokenIsClean(s, q, n);
    var w := s[..q] + "&amp;" + s[q + 1..n] + [ELLIPSIS];
    EscapeAnglesKeeps(w);
    CollapseKeeps(w);
    StripKeeps(w);
  }

  lemma EscapeCut(s: string, q: nat, n: nat)
    requires q < n <= |s| && EntitiesOnly(s[..q]) && s[q] == '&'
    requires n - q < 4 && forall i :: q < i < n ==> s[i] != '&'
    ensures EscapeAmp(s[..n] + [ELLIPSIS]) == s[..q] + "&amp;" + s[q + 1..n] + [ELLIPSIS]
  {
    hide EscapeAmp, EntitiesOnly;
    var tail := s[q + 1..n] + [ELLIPSIS];
    assert s[..n] + [ELLIPSIS] == s[..q] + ("&" + tail);
    EscapeAmpAppend(s[..q], "&" + tail);
    EscapeBroken(tail);
    assert s[..q] + ("&amp;" + tail) == s[..q] + "&amp;" + s[q + 1..n] + [ELLIPSIS];
  }

  lemma EscapeBroken(tail: string)
    requires |tail| <= 3 && tail != "" && tail[|tail| - 1] == ELLIPSIS
    requires forall i :: 0 <= i < |tail| ==> tail[i] != '&'
    ensures EscapeAmp("&" + tail) == "&amp;" + tail
  {
    hide EntityAt;
    assert ("&" + tail)[1..] == tail;
    EscapeAmpKeeps(tail);
    TooShortForEntity("&" + tail);
  }

  lemma TooShortForEntity(s: string)
    requires 1 <= |s| <= 4 && s[|s| - 1] == ELLIPSIS
    ensures !EntityAt(s, 0)
  {
    if EntityAt(s, 0) {
      var n := EntityLength(s, 0);
      assert false;
    }
  }

  lemma BrokenIsClean(s: string, q: nat, n: nat)
    requires Clean(s) && q < n <= |s| && s[q] == '&'
    ensures var w := s[..q] + "&amp;" + s[q + 1..n] + [ELLIPSIS];
            AllPlain(w) && SingleBlanks(w) && Tight(w)
  {
  }

  /** Which entities the piece at a cut can come from. */
  predicate IsPiece(p: string) {
    p == "&" || p == "&a" || p == "&am" || p == "&amp" || p == "&l" || p == "&lt" || p == "&g" || p == "&gt"
  }

  lemma PieceAtCut(s: string, q: nat, n: nat)
    requires q < n <= |s| && EntityAt(s, q) && n < q + EntityLength(s, q)
    ensures IsPiece(s[q..n])
  {
    var e := EntityLength(s, q);
    var m := n - q;
    assert s[q..n] == s[q..q + e][..m];
    if StartsWith(s, q, "&amp;") {
      assert s[q..n] == "&amp;"[..m];
    } else if StartsWith(s, q, "&lt;") {
      assert s[q..n] == "&lt;"[..m];
    } else {
      assert s[q..n] == "&gt;"[..m];
    }
  }

  /** An ampersand at the front and nowhere else. */
  predicate OneAmpersand(p: string) { p != "" && p[0] == '&' && forall k :: 1 <= k < |p| ==> p[k] != '&' }

  lemma PieceHasOne(p: string)
    requires IsPiece(p)
    ensures OneAmpersand(p)
  {
  }

  /** Of two such endings of one text, neither is longer. */
  lemma SameEnding(s: string, p: string, x: string)
    requires OneAmpersand(p) && OneAmpersand(x) && EndsWith(s, p) && EndsWith(s, x)
    ensures |p| <= |x|
  {
  }

  lemma EndsWithPiece(a: string, p: string, x: string)
    requires IsPiece(p) && IsPiece(x)
    ensures EndsWith(a + p, x) <==> x == p
  {
    PieceHasOne(p);
    PieceHasOne(x);
    hide OneAmpersand, IsPiece;
    assert (a + p)[|a + p| - |p|..] == p;
    if EndsWith(a + p, x) {
      SameEnding(a + p, p, x);
      SameEnding(a + p, x, p);
    }
  }

  /** Trimming looks only at the piece, if there is one. */
  lemma TrimPiece(a: string, p: string)
    requires IsPiece(p)
    ensures TrimCut(a + p) == if p == "&" || p == "&amp" || p == "&lt" || p == "&gt" then a else a + p
    ensures EndsWith(a + p, "&l") || EndsWith(a + p, "&g") <==> p == "&l" || p == "&g"
  {
    hide EndsWith;
    EndsWithPiece(a, p, "&amp");
    EndsWithPiece(a, p, "&lt");
    EndsWithPiece(a, p, "&gt");
    EndsWithPiece(a, p, "&");
    EndsWithPiece(a, p, "&l");
    EndsWithPiece(a, p, "&g");
    assert (a + p)[..|a|] == a;
  }

  lemma WholeHasNoPiece(s: string, x: string)
    requires EntitiesOnly(s) && IsPiece(x)
    ensures !EndsWith(s, x)
  {
    if EndsWith(s, x) {
      var i := |s| - |x|;
      assert s[i..] == x && s[i] == x[0];
      EntityIsNoPiece(s, i);
      assert false;
    }
  }

  lemma EntityIsNoPiece(s: string, i: nat)
    requires EntityAt(s, i)
    ensures !IsPiece(s[i..])
  {
    var e := EntityLength(s, i);
    assert s[i..][e - 1] == ';';
  }

  lemma TrimWhole(s: string)
    requires EntitiesOnly(s)
    ensures TrimCut(s) == s && !EndsWith(s, "&l") && !EndsWith(s, "&g")
  {
    hide EndsWith;
    WholeHasNoPiece(s, "&amp");
    WholeHasNoPiece(s, "&lt");
    WholeHasNoPiece(s, "&gt");
    WholeHasNoPiece(s, "&");
    WholeHasNoPiece(s, "&l");
    WholeHasNoPiece(s, "&g");
  }

  lemma FixedPoint(s: string)
    requires s != "" && Cleaned(s) == s
    requires |s| <= LIMIT || (|s| == LIMIT + 1 && s[LIMIT] == ELLIPSIS && TrimCut(s[..LIMIT]) == s[..LIMIT])
    ensures Sanitize(s) == s
  {
  }

  /** A second pass over a text that was cut between two entities, or whose
      broken entity was trimmed away, changes nothing. */
  lemma WholeIsFixed(s: string, q: nat)
    requires Clean(s) && q <= LIMIT < |s| && EntitiesOnly(s[..q])
    ensures Sanitize(s[..q] + [ELLIPSIS]) == s[..q] + [ELLIPSIS]
  {
    var r := s[..q] + [ELLIPSIS];
    EllipsisClean(s, q);
    CleanedKeepsClean(r);
    TrimWhole(s[..q]);
    if q == LIMIT {
      assert r[..LIMIT] == s[..q];
    }
    FixedPoint(r);
  }

  /** A second pass over a text whose broken entity was left in escapes its
      ampersand; the cut then falls after as many characters of `&amp;`. */
  lemma BrokenSecondPass(s: string, q: nat)
    requires Clean(s) && q < LIMIT < |s| && EntitiesOnly(s[..q]) && s[q] == '&'
    requires forall i :: q < i < LIMIT ==> s[i] != '&'
    requires var p := s[q..LIMIT]; p == "&a" || p == "&am" || p == "&l" || p == "&g"
    ensures Sanitize(s[..LIMIT] + [ELLIPSIS]) == s[..q] + "&amp;"[..LIMIT - q] + [ELLIPSIS]
  {
    hide Cleaned, TrimCut;
    var r := s[..LIMIT] + [ELLIPSIS];
    var m := LIMIT - q;
    CleanedBroken(s, q, LIMIT);
    var w := s[..q] + "&amp;" + s[q + 1..LIMIT] + [ELLIPSIS];
    assert w[..LIMIT] == s[..q] + "&amp;"[..m];
    assert "&amp;"[..2] == "&a" && "&amp;"[..3] == "&am";
    TrimPiece(s[..q], "&amp;"[..m]);
  }

  /** Sanitising twice is sanitising once, exactly unless the cut at the limit
      leaves `&l` or `&g` at the end.  (The source claims it without the
      exception.) */
  lemma IdempotentExactly(line: string)
    ensures Sanitize(Sanitize(line)) == Sanitize(line) <==> !CutsAngle(line)
  {
    hide Cleaned, TrimCut, EndsWith, Clean, EntitiesOnly;
    var s := Cleaned(line);
    CleanedIsClean(line);
    if line == "" {
      CleanedNothing();
    } else if |s| <= LIMIT {
      CleanedKeepsClean(s);
    } else {
      var q := CutParts(s, LIMIT);
      var cut := s[..LIMIT];
      if q == LIMIT {
        TrimWhole(cut);
        WholeIsFixed(s, q);
      } else {
        var p := s[q..LIMIT];
        PieceAtCut(s, q, LIMIT);
        TrimPiece(s[..q], p);
        assert s[..q] + p == cut;
        if p == "&" || p == "&amp" || p == "&lt" || p == "&gt" {
          WholeIsFixed(s, q);
        } else {
          AmpersandAt(s, q);
          BrokenSecondPass(s, q);
          assert "&amp;"[..2] == "&a" && "&amp;"[..3] == "&am";
          if p == "&l" || p == "&g" {
            DifferentTails(s[..q], "&a", p);
          }
        }
      }
    }
  }

  /** The line is too long, and the cut leaves a piece of an entity that the
      trimming does not know. */
  predicate CutsUntrimmed(line: string) {
    |Cleaned(line)| > LIMIT
    && var cut := Cleaned(line)[..LIMIT];
       EndsWith(cut, "&a") || EndsWith(cut, "&am") || EndsWith(cut, "&l") || EndsWith(cut, "&g")
  }

  /** For every line, cut or not, the result is clean if and only if the cut
      does not leave `&a`, `&am`, `&l` or `&g` at the end. */
  lemma CleanExactly(line: string)
    ensures Clean(Sanitize(line)) <==> !CutsUntrimmed(line)
  {
    hide Cleaned, TrimCut, EndsWith, Clean, EntitiesOnly;
    var s := Cleaned(line);
    CleanedIsClean(line);
    if line == "" {
      CleanedNothing();
      NothingIsClean();
    } else if |s| > LIMIT {
      var q := CutParts(s, LIMIT);
      var cut := s[..LIMIT];
      if q == LIMIT {
        TrimWhole(cut);
        NoUntrimmed(cut);
        EllipsisClean(s, LIMIT);
      } else {
        var p := s[q..LIMIT];
        PieceAtCut(s, q, LIMIT);
        TrimPiece(s[..q], p);
        UntrimmedPiece(s[..q], p);
        assert s[..q] + p == cut;
        if p == "&" || p == "&amp" || p == "&lt" || p == "&gt" {
          EllipsisClean(s, q);
        } else {
          AmpersandAt(s, q);
          LooseAmpersand(cut + [ELLIPSIS], q);
        }
      }
    }
  }

  lemma NothingIsClean()
    ensures Clean("")
  {
  }

  lemma NoUntrimmed(s: string)
    requires EntitiesOnly(s)
    ensures !EndsWith(s, "&a") && !EndsWith(s, "&am") && !EndsWith(s, "&l") && !EndsWith(s, "&g")
  {
    hide EndsWith;
    WholeHasNoPiece(s, "&a");
    WholeHasNoPiece(s, "&am");
    WholeHasNoPiece(s, "&l");
    WholeHasNoPiece(s, "&g");
  }

  lemma UntrimmedPiece(a: string, p: string)
    requires IsPiece(p)
    ensures EndsWith(a + p, "&a") || EndsWith(a + p, "&am") || EndsWith(a + p, "&l") || EndsWith(a + p, "&g")
            <==> p == "&a" || p == "&am" || p == "&l" || p == "&g"
  {
    hide EndsWith;
    EndsWithPiece(a, p, "&a");
    EndsWithPiece(a, p, "&am");
    EndsWithPiece(a, p, "&l");
    EndsWithPiece(a, p, "&g");
  }

  /** An ampersand within four characters of a final ellipsis starts no entity. */
  lemma LooseAmpersand(s: string, i: nat)
    requires i < |s| <= i + 4 && s[i] == '&' && s[|s| - 1] == ELLIPSIS
    ensures !Clean(s)
  {
    if EntityAt(s, i) {
      var n := EntityLength(s, i);
      assert false;
    }
  }

  lemma CleanedNothing()
    ensures Cleaned("") == ""
  {
  }

  lemma AmpersandAt(s: string, i: nat)
    requires EntityAt(s, i)
    ensures i < |s| && s[i] == '&'
  {
  }

  lemma DifferentTails(a: string, x: string, y: string)
    requires |x| == |y|
    ensures a + x + [ELLIPSIS] == a + y + [ELLIPSIS] <==> x == y
  {
    assert (a + x + [ELLIPSIS])[|a|..|a| + |x|] == x;
    assert (a + y + [ELLIPSIS])[|a|..|a| + |y|] == y;
  }

  // ---------------------------------------------------------------------
  // A line on which both fail
  // ---------------------------------------------------------------------

  lemma {:induction false} EscapeAnglesAppend(a: string, b: string)
    ensures EscapeAngles(a + b) == EscapeAngles(a) + EscapeAngles(b)
  {
    if a == "" {
      assert a + b == b;
    } else {
      assert (a + b)[1..] == a[1..] + b;
      EscapeAnglesAppend(a[1..], b);
    }
  }

  const PLAIN_START: string := seq(198, _ => 'a')

  /** 198 letters and a `<`, which escaped runs over the limit by two. */
  const ANGLE_AT_LIMIT: string := PLAIN_START + "<"

  lemma AngleAtLimitCleaned()
    ensures Cleaned(ANGLE_AT_LIMIT) == PLAIN_START + "&lt;"
  {
    hide StripAnsi, DropControls, EscapeAmp, EscapeAngles, Collapse, Strip, EntityAt;
    var cleaned := PLAIN_START + "&lt;";
    StripAnsiKeeps(ANGLE_AT_LIMIT);
    DropControlsKeeps(ANGLE_AT_LIMIT);
    EscapeAmpKeeps(ANGLE_AT_LIMIT);
    EscapeAnglesAppend(PLAIN_START, "<");
    EscapeAnglesKeeps(PLAIN_START);
    OneAngle();
    CollapseKeeps(cleaned);
    StripKeeps(cleaned);
  }

  lemma OneAngle()
    ensures EscapeAngles("<") == "&lt;"
  {
    assert "<"[1..] == "" && "&lt;" + "" == "&lt;";
  }

  /** The cut leaves `&l`: the result is not clean, and sanitising it again
      changes it. */
  lemma SanitizeCanLeaveAnAmpersand()
    ensures CutsAngle(ANGLE_AT_LIMIT) && CutsUntrimmed(ANGLE_AT_LIMIT)
    ensures Sanitize(ANGLE_AT_LIMIT) == PLAIN_START + "&l" + [ELLIPSIS]
    ensures !Clean(Sanitize(ANGLE_AT_LIMIT))
    ensures Sanitize(Sanitize(ANGLE_AT_LIMIT)) != Sanitize(ANGLE_AT_LIMIT)
  {
    hide Cleaned, TrimCut, Clean;
    AngleAtLimitCleaned();
    assert Cleaned(ANGLE_AT_LIMIT)[..LIMIT] == PLAIN_START + "&l";
    TrimPiece(PLAIN_START, "&l");
    CleanExactly(ANGLE_AT_LIMIT);
    IdempotentExactly(ANGLE_AT_LIMIT);
  }
}
