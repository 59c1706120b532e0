/** The two search routes over stored messages (chat_store.py): a LIKE pattern
    for queries of one or two characters, a quoted trigram phrase for longer
    ones.  Text is taken as already case-folded. */
module ChatSearch {
  import opened Text

  // ---------------------------------------------------------------------
  // LIKE
  // ---------------------------------------------------------------------

  /** `s.replace(c, sub)` for a single character c. */
  function Replace(s: string, c: char, sub: string): string {
    if s == "" then "" else (if s[0] == c then sub else [s[0]]) + Replace(s[1..], c, sub)
  }

  function Escaped(q: string): string {
    Replace(Replace(Replace(q, '\\', "\\\\"), '%', "\\%"), '_', "\\_")
  }

  function LikePattern(q: string): string { "%" + Escaped(q) + "%" }

  /** SQLite's LIKE with ESCAPE '\': % stands for any text, _ for any one
      character, and a backslash takes the next pattern character literally. */
  predicate Like(pattern: string, text: string)
    decreases |pattern| + |text|
  {
    if pattern == "" then text == ""
    else if pattern[0] == '%' then Like(pattern[1..], text) || (text != "" && Like(pattern, text[1..]))
    else if pattern[0] == '\\' then
      |pattern| >= 2 && text != "" && text[0] == pattern[1] && Like(pattern[2..], text[1..])
    else text != "" && (pattern[0] == '_' || text[0] == pattern[0]) && Like(pattern[1..], text[1..])
  }

  function EscapeChar(c: char): string { if c == '\\' || c == '%' || c == '_' then ['\\', c] else [c] }

  function EscapeEach(q: string): string {
    if q == "" then "" else EscapeChar(q[0]) + EscapeEach(q[1..])
  }

  lemma {:induction false} ReplaceAppend(s: string, t: string, c: char, sub: string)
    ensures Replace(s + t, c, sub) == Replace(s, c, sub) + Replace(t, c, sub)
  {
    if s == "" {
      assert s + t == t;
    } else {
      assert (s + t)[1..] == s[1..] + t;
      ReplaceAppend(s[1..], t, c, sub);
    }
  }

  /** Three replacements in this order escape each character exactly once. */
  lemma {:induction false} EscapesOnce(q: string)
    ensures Escaped(q) == EscapeEach(q)
  {
    if q == "" {
    } else {
      var head, rest := [q[0]], q[1..];
      assert q == head + rest;
      ReplaceAppend(head, rest, '\\', "\\\\");
      var a, b := Replace(head, '\\', "\\\\"), Replace(rest, '\\', "\\\\");
      ReplaceAppend(a, b, '%', "\\%");
      ReplaceAppend(Replace(a, '%', "\\%"), Replace(b, '%', "\\%"), '_', "\\_");
      EscapeHead(q[0]);
      EscapesOnce(rest);
    }
  }

  lemma EscapeHead(c: char)
    ensures Replace(Replace(Replace([c], '\\', "\\\\"), '%', "\\%"), '_', "\\_") == EscapeChar(c)
  {
    ReplaceOne(c, '\\', "\\\\");
    if c == '\\' {
      ReplaceNone("\\\\", '%', "\\%");
      ReplaceNone("\\\\", '_', "\\_");
    } else {
      ReplaceOne(c, '%', "\\%");
      if c == '%' {
        ReplaceNone("\\%", '_', "\\_");
      } else {
        ReplaceOne(c, '_', "\\_");
      }
    }
  }

  lemma ReplaceOne(c: char, d: char, sub: string)
    ensures Replace([c], d, sub) == if c == d then sub else [c]
  {
  }

  lemma {:induction false} ReplaceNone(s: string, c: char, sub: string)
    requires forall i :: 0 <= i < |s| ==> s[i] != c
    ensures Replace(s, c, sub) == s
  {
    if s == "" {
    } else {
      ReplaceNone(s[1..], c, sub);
    }
  }

  lemma LikeEscapedChar(c: char, tail: string, text: string)
    ensures Like(EscapeChar(c) + tail, text) <==> text != "" && text[0] == c && Like(tail, text[1..])
  {
  }

  /** Escaped characters match themselves and nothing else. */
  lemma {:induction false} LikeLiteral(q: string, rest: string, text: string)
    ensures Like(EscapeEach(q) + rest, text) <==> q <= text && Like(rest, text[|q|..])
    decreases |q|
  {
    hide Like;
    if q == "" {
      assert "" + rest == rest && text[0..] == text;
    } else {
      var tail := EscapeEach(q[1..]) + rest;
      assert EscapeEach(q) + rest == EscapeChar(q[0]) + tail;
      LikeEscapedChar(q[0], tail, text);
      assert q == [q[0]] + q[1..];
      if text != "" && text[0] == q[0] {
        LikeLiteral(q[1..], rest, text[1..]);
        assert text == [text[0]] + text[1..];
        assert q <= text ==> text[1..][|q| - 1..] == text[|q|..];
      }
    }
  }

  /** A leading % tries every suffix. */
  lemma {:induction false} LikeAny(pattern: string, text: string)
    ensures Like("%" + pattern, text) <==> exists i :: 0 <= i <= |text| && Like(pattern, text[i..])
    decreases |text|
  {
    var p := "%" + pattern;
    assert p[1..] == pattern && text[0..] == text;
    if text == "" {
    } else {
      LikeAny(pattern, text[1..]);
      assert forall i :: 0 <= i < |text| ==> text[1..][i..] == text[i + 1..];
      if i :| 0 <= i <= |text[1..]| && Like(pattern, text[1..][i..]) {
        assert Like(pattern, text[i + 1..]);
      }
      if i :| 1 <= i <= |text| && Like(pattern, text[i..]) {
        assert Like(pattern, text[1..][i - 1..]);
      }
    }
  }

  lemma {:induction false} LikeAll(text: string)
    ensures Like("%", text)
    decreases |text|
  {
    assert "%"[1..] == "";
    if text == "" {
    } else {
      LikeAll(text[1..]);
    }
  }

  /** The LIKE route finds a message exactly if it contains the query. */
  lemma LikeIsContains(q: string, text: string)
    ensures Like(LikePattern(q), text) <==> Contains(text, q)
  {
    hide Like, Escaped;
    EscapesOnce(q);
    assert LikePattern(q) == "%" + (EscapeEach(q) + "%");
    LikeAny(EscapeEach(q) + "%", text);
    forall i | 0 <= i <= |text|
      ensures Like(EscapeEach(q) + "%", text[i..]) <==> OccursAt(text, q, i)
    {
      LikeLiteral(q, "%", text[i..]);
      if q <= text[i..] {
        LikeAll(text[i..][|q|..]);
        assert text[i..i + |q|] == text[i..][..|q|];
      } else if i + |q| <= |text| {
        assert text[i..i + |q|] == text[i..][..|q|];
      }
    }
  }

  // ---------------------------------------------------------------------
  // The phrase literal
  // ---------------------------------------------------------------------

  function Quote(q: string): string { "\"" + Replace(q, '"', "\"\"") + "\"" }

  /** The body of an FTS5 string up to its closing quote, and what follows;
      two quotes in a row stand for one. */
  function ReadBody(s: string): Option<(string, string)> {
    if s == "" then None
    else if s[0] != '"' then
      match ReadBody(s[1..])
      case None => None
      case Some((body, rest)) => Some(([s[0]] + body, rest))
    else if |s| >= 2 && s[1] == '"' then
      match ReadBody(s[2..])
      case None => None
      case Some((body, rest)) => Some(("\"" + body, rest))
    else Some(("", s[1..]))
  }

  function ReadString(s: string): Option<(string, string)> {
    if s != "" && s[0] == '"' then ReadBody(s[1..]) else None
  }

  lemma {:induction false} ReadBodyOfQuoted(q: string)
    ensures ReadBody(Replace(q, '"', "\"\"") + "\"") == Some((q, ""))
  {
    var s := Replace(q, '"', "\"\"") + "\"";
    if q == "" {
      assert s == "\"" && s[1..] == "";
    } else {
      var tail := Replace(q[1..], '"', "\"\"") + "\"";
      ReadBodyOfQuoted(q[1..]);
      if q[0] == '"' {
        assert s == "\"\"" + tail && s[2..] == tail;
        assert "\"" + q[1..] == q;
      } else {
        assert s == [q[0]] + tail && s[1..] == tail;
        assert [q[0]] + q[1..] == q;
      }
    }
  }

  /** The quoted query is read back as one string literal with the query as
      its text and nothing after it: no part of it can act as an operator. */
  lemma QuoteReadsBack(q: string)
    ensures ReadString(Quote(q)) == Some((q, ""))
  {
    ReadBodyOfQuoted(q);
    assert Quote(q)[1..] == Replace(q, '"', "\"\"") + "\"";
  }

  // ---------------------------------------------------------------------
  // Trigrams
  // ---------------------------------------------------------------------

  /** One entry of the full-text index: a three-character token, the row it
      comes from, and its position there. */
  datatype Posting = Posting(row: nat, pos: nat, token: string)

  /** The trigram at position i of a text that is placed `shift` characters
      into the row. */
  function Trigram(row: nat, shift: nat, text: string, i: nat): Posting
    requires i + 3 <= |text|
  {
    Posting(row, shift + i, text[i..i + 3])
  }

  function PostingsOf(row: nat, text: string): set<Posting> {
    set i | 0 <= i < |text| - 2 :: Trigram(row, 0, text, i)
  }

  predicate PhraseAt(index: set<Posting>, row: nat, q: string, p: nat) {
    forall j :: 0 <= j < |q| - 2 ==> Trigram(row, p, q, j) in index
  }

  /** A phrase of consecutive trigrams occurs in the row. */
  ghost predicate PhraseMatch(index: set<Posting>, row: nat, q: string) {
    exists p: nat :: PhraseAt(index, row, q, p)
  }

  /** The index holds exactly the row's trigrams, as far as this row goes. */
  ghost predicate Indexed(index: set<Posting>, row: nat, text: string) {
    forall e: Posting :: e.row == row ==> (e in index <==> e in PostingsOf(row, text))
  }

  lemma PhraseAtIsOccursAt(index: set<Posting>, row: nat, text: string, q: string, p: nat)
    requires |q| >= 3 && Indexed(index, row, text)
    ensures PhraseAt(index, row, q, p) <==> OccursAt(text, q, p)
  {
    if PhraseAt(index, row, q, p) {
      assert Trigram(row, p, q, |q| - 3) in PostingsOf(row, text);
      forall k | 0 <= k < |q|
        ensures text[p + k] == q[k]
      {
        var j := if k < |q| - 2 then k else |q| - 3;
        assert Trigram(row, p, q, j) in PostingsOf(row, text);
        assert text[p + j..p + j + 3][k - j] == q[j..j + 3][k - j];
      }
      assert text[p..p + |q|] == q;
    }
    if OccursAt(text, q, p) {
      assert forall k :: 0 <= k < |q| ==> q[k] == text[p..p + |q|][k] == text[p + k];
      forall j | 0 <= j < |q| - 2
        ensures Trigram(row, p, q, j) in index
      {
        assert q[j..j + 3] == text[p + j..p + j + 3];
        assert Trigram(row, p, q, j) == Trigram(row, 0, text, p + j);
      }
    }
  }

  /** The trigram route finds an indexed row exactly if it contains the query. */
  lemma PhraseIsContains(index: set<Posting>, row: nat, text: string, q: string)
    requires |q| >= 3 && Indexed(index, row, text)
    ensures PhraseMatch(index, row, q) <==> Contains(text, q)
  {
    hide Indexed;
    if p: nat :| PhraseAt(index, row, q, p) {
      PhraseAtIsOccursAt(index, row, text, q, p);
    }
    if i :| 0 <= i <= |text| && OccursAt(text, q, i) {
      PhraseAtIsOccursAt(index, row, text, q, i);
    }
  }
}
