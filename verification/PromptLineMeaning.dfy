/** What cleaning a prompt line does, stage by stage, in plain characters. */
module PromptLineMeaning {
  import opened Text
  import opened PromptLine

  // ---------------------------------------------------------------------
  // Escape sequences and control characters
  // ---------------------------------------------------------------------

  predicate IsParams(s: string) { forall i :: 0 <= i < |s| ==> '0' <= s[i] <= '9' || s[i] == ';' }

  lemma {:induction false} ParamRunIs(params: string, rest: string)
    requires IsParams(params) && (rest == "" || !(IsDigit(rest[0]) || rest[0] == ';'))
    ensures ParamRun(params + rest) == |params|
  {
    if params == "" {
      assert params + rest == rest;
    } else {
      assert (params + rest)[1..] == params[1..] + rest;
      ParamRunIs(params[1..], rest);
    }
  }

  lemma OneSequence(params: string, c: char, rest: string)
    requires IsParams(params) && ('a' <= c <= 'z' || 'A' <= c <= 'Z')
    ensures StripAnsi([ESC, '['] + params + [c] + rest) == StripAnsi(rest)
  {
    var s := [ESC, '['] + params + [c] + rest;
    assert s[2..] == params + ([c] + rest);
    ParamRunIs(params, [c] + rest);
    assert s[2 + |params|] == c && s[3 + |params|..] == rest;
  }

  /** An escape sequence goes as a whole, wherever it stands. */
  lemma {:induction false} SequencesGo(before: string, params: string, c: char, rest: string)
    requires forall i :: 0 <= i < |before| ==> before[i] != ESC
    requires IsParams(params) && ('a' <= c <= 'z' || 'A' <= c <= 'Z')
    ensures StripAnsi(before + ([ESC, '['] + params + [c] + rest)) == before + StripAnsi(rest)
  {
    hide IsParams;
    var sequence := [ESC, '['] + params + [c] + rest;
    if before == "" {
      OneSequence(params, c, rest);
      assert before + sequence == sequence;
    } else {
      assert (before + sequence)[1..] == before[1..] + sequence;
      SequencesGo(before[1..], params, c, rest);
      assert [before[0]] + (before[1..] + StripAnsi(rest)) == before + StripAnsi(rest);
    }
  }

  lemma {:induction false} DropControlsAppend(a: string, b: string)
    ensures DropControls(a + b) == DropControls(a) + DropControls(b)
  {
    hide Kept;
    if a == "" {
      assert a + b == b;
    } else {
      var head := if Kept(a[0]) then [a[0]] else "";
      assert (a + b)[1..] == a[1..] + b && (a + b)[0] == a[0];
      assert DropControls(a + b) == head + DropControls(a[1..] + b);
      assert DropControls(a) == head + DropControls(a[1..]);
      DropControlsAppend(a[1..], b);
      hide DropControls;
    }
  }

  lemma OneControl(c: char)
    ensures DropControls([c]) == if c as int in {9, 10, 13} || (c as int >= 32 && c as int != 127) then [c] else ""
  {
    assert [c][1..] == "";
  }

  /** Tab, newline, carriage return and everything from the blank on, but for
      DEL, stays; the other control characters go. */
  lemma ControlsGo(before: string, c: char, rest: string)
    ensures DropControls(before + [c] + rest)
         == DropControls(before)
            + (if c as int in {9, 10, 13} || (c as int >= 32 && c as int != 127) then [c] else "")
            + DropControls(rest)
  {
    DropControlsAppend(before + [c], rest);
    DropControlsAppend(before, [c]);
    OneControl(c);
  }

  // ---------------------------------------------------------------------
  // Escaping
  // ---------------------------------------------------------------------

  /** Each angle bracket becomes its entity; nothing else changes. */
  lemma AnglesBecomeEntities(before: string, c: char, rest: string)
    ensures EscapeAngles(before + [c] + rest)
         == EscapeAngles(before) + (if c == '<' then "&lt;" else if c == '>' then "&gt;" else [c]) + EscapeAngles(rest)
  {
    EscapeAnglesAppend(before + [c], rest);
    EscapeAnglesAppend(before, [c]);
    OneChar(c);
  }

  lemma OneChar(c: char)
    ensures EscapeAngles([c]) == if c == '<' then "&lt;" else if c == '>' then "&gt;" else [c]
  {
    assert [c][1..] == "";
  }

  predicate StartsEntity(s: string) { "amp;" <= s || "lt;" <= s || "gt;" <= s }

  /** An ampersand becomes an entity unless it starts one of the three. */
  lemma {:induction false} AmpersandsBecomeEntities(before: string, rest: string)
    requires forall i :: 0 <= i < |before| ==> before[i] != '&'
    ensures EscapeAmp(before + ("&" + rest)) == before + (if StartsEntity(rest) then "&" else "&amp;") + EscapeAmp(rest)
  {
    var s := before + ("&" + rest);
    if before == "" {
      assert s[1..] == rest && s[0] == '&';
      EntityByTail(s);
    } else {
      assert s[1..] == before[1..] + ("&" + rest);
      AmpersandsBecomeEntities(before[1..], rest);
    }
  }

  // ---------------------------------------------------------------------
  // White space
  // ---------------------------------------------------------------------

  lemma {:induction false} SkipsBlanks(blanks: string, rest: string)
    requires forall i :: 0 <= i < |blanks| ==> IsSpace(blanks[i])
    requires rest == "" || !IsSpace(rest[0])
    ensures LStrip(blanks + rest) == rest
  {
    hide IsSpace;
    if blanks == "" {
      assert blanks + rest == rest;
    } else {
      assert (blanks + rest)[1..] == blanks[1..] + rest;
      SkipsBlanks(blanks[1..], rest);
    }
  }

  /** Words stay, and the white space between two of them becomes one blank. */
  lemma {:induction false} WordsStay(word: string, blanks: string, rest: string)
    requires forall i :: 0 <= i < |word| ==> !IsSpace(word[i])
    requires blanks != "" && forall i :: 0 <= i < |blanks| ==> IsSpace(blanks[i])
    requires rest == "" || !IsSpace(rest[0])
    ensures Collapse(word + (blanks + rest)) == word + " " + Collapse(rest)
  {
    hide IsSpace;
    var s := word + (blanks + rest);
    if word == "" {
      SkipsBlanks(blanks, rest);
      assert s == blanks + rest;
    } else {
      assert s[1..] == word[1..] + (blanks + rest);
      WordsStay(word[1..], blanks, rest);
    }
  }

  // ---------------------------------------------------------------------
  // The whole
  // ---------------------------------------------------------------------

  /** What is clean and fits is left alone. */
  lemma CleanIsKept(line: string)
    requires Clean(line) && |line| <= 200
    ensures Sanitize(line) == line
  {
    CleanedKeepsClean(line);
  }

  /** What fits is only cleaned; what does not is cut at 200 characters, or at
      most four before that if an entity would be cut there, and gets an
      ellipsis. */
  lemma CutsAtTwoHundred(line: string) returns (q: nat)
    requires line != ""
    ensures q <= |Cleaned(line)|
    ensures |Cleaned(line)| <= 200 ==> Sanitize(line) == Cleaned(line)
    ensures |Cleaned(line)| > 200 ==> 196 <= q <= 200 && Sanitize(line) == Cleaned(line)[..q] + ['\U{2026}']
    ensures |Cleaned(line)| > 200 ==>
              var piece := Cleaned(line)[q..200];
              piece in {"", "&", "&amp", "&lt", "&gt"}
  {
    hide Cleaned;
    var s := Cleaned(line);
    if |s| <= 200 {
      return 0;
    }
    var cut := s[..200];
    q := |TrimCut(cut)|;
    TrimIsPiece(cut);
    assert cut[q..] == s[q..200] && cut[..q] == s[..q];
  }

  lemma TrimIsPiece(s: string)
    ensures TrimCut(s) <= s && |s| - 4 <= |TrimCut(s)|
    ensures s[|TrimCut(s)|..] in {"", "&", "&amp", "&lt", "&gt"}
  {
    if EndsWith(s, "&amp") {
      assert s[|TrimCut(s)|..] == "&amp";
    } else if EndsWith(s, "&lt") {
      assert s[|TrimCut(s)|..] == "&lt";
    } else if EndsWith(s, "&gt") {
      assert s[|TrimCut(s)|..] == "&gt";
    } else if EndsWith(s, "&") {
      assert s[|TrimCut(s)|..] == "&";
    } else {
      assert s[|TrimCut(s)|..] == "";
    }
  }

  /** Of every line: no control character and no angle bracket is left, and
      where it fits, every ampersand starts an entity. */
  lemma ResultIsSafe(line: string, i: nat)
    requires i < |Sanitize(line)|
    ensures var c := Sanitize(line)[i];
            && c as int >= 32 && c as int != 127 && c != '<' && c != '>'
            && (c == '&' && |Cleaned(line)| <= 200 ==> StartsEntity(Sanitize(line)[i + 1..]))
  {
    AlwaysPlain(line);
    if |Cleaned(line)| <= 200 && Sanitize(line)[i] == '&' {
      FittingIsClean(line);
      hide Cleaned, Sanitize;
      var s := Sanitize(line);
      assert EntityAt(s, i);
      EntityTailAt(s, i);
    }
  }

  lemma EntityTailAt(s: string, i: nat)
    requires EntityAt(s, i)
    ensures i < |s| && StartsEntity(s[i + 1..])
  {
    var tail := s[i + 1..];
    if StartsWith(s, i, "&amp;") {
      assert tail[..4] == s[i..i + 5][1..];
    } else {
      assert tail[..3] == s[i..i + 4][1..];
    }
  }
}
