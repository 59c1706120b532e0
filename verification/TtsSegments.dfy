/** Cutting a reply into spoken chunks (`segment_for_tts` in
    adapters/tts_streamer.py). */
module TtsSegments {
  import opened Text

  const MIN_CHUNK_CHARS: nat := 25
  const SHORT_TEXT_THRESHOLD: nat := 40

  // ---------------------------------------------------------------------
  // Sentence ends
  // ---------------------------------------------------------------------

  predicate IsStop(c: char) { c in "\U{3002}\U{FF01}\U{FF1F}!?" }

  predicate IsMark(c: char) { IsStop(c) || c == '.' }

  function StopRun(s: string): (n: nat)
    ensures n <= |s| && forall i :: 0 <= i < n ==> IsStop(s[i])
  {
    if s != "" && IsStop(s[0]) then 1 + StopRun(s[1..]) else 0
  }

  function DotRun(s: string): (n: nat)
    ensures n <= |s| && forall i :: 0 <= i < n ==> s[i] == '.'
  {
    if s != "" && s[0] == '.' then 1 + DotRun(s[1..]) else 0
  }

  /** How much the sentence-end pattern matches at the start of `s`: a run of
      stops, or a run of dots before a space or the end; 0 when it does not. */
  function EndAt(s: string): (n: nat)
    ensures n <= |s| && forall i :: 0 <= i < n ==> IsMark(s[i])
  {
    var stops, dots := StopRun(s), DotRun(s);
    if stops > 0 then stops
    else if dots == |s| || IsSpace(s[dots]) then dots
    else 0
  }

  predicate AllStops(s: string) {
    forall i :: 0 <= i < |s| ==> s[i] in "!?" || s[i] as int in {0x3002, 0xFF01, 0xFF1F}
  }

  predicate AllDots(s: string) { forall i :: 0 <= i < |s| ==> s[i] == '.' }

  lemma StopIs(c: char)
    ensures IsStop(c) <==> AllStops([c])
  {
    assert '\U{3002}' as int == 0x3002 && '\U{FF01}' as int == 0xFF01 && '\U{FF1F}' as int == 0xFF1F;
    assert 0x3002 as char == '\U{3002}' && 0xFF01 as char == '\U{FF01}' && 0xFF1F as char == '\U{FF1F}';
    assert (c as int) as char == c;
    assert [c][0] == c;
  }

  lemma {:induction false} StopRunIs(s: string, n: nat)
    ensures StopRun(s) == n <==> n <= |s| && AllStops(s[..n]) && (n < |s| ==> !AllStops([s[n]]))
    decreases |s|
  {
    hide IsStop;
    if s == "" {
    } else {
      StopIs(s[0]);
      if n > 0 && n <= |s| {
        StopRunIs(s[1..], n - 1);
        var front := s[1..][..n - 1];
        assert s[..n] == [s[0]] + front;
        assert AllStops(s[..n]) <==> AllStops([s[0]]) && AllStops(front) by {
          StopsCons(s[0], front);
        }
        assert n < |s| ==> s[n] == s[1..][n - 1];
      }
    }
  }

  lemma StopsCons(c: char, rest: string)
    ensures AllStops([c] + rest) <==> AllStops([c]) && AllStops(rest)
  {
    var s := [c] + rest;
    assert s[0] == c == [c][0];
    assert forall i :: 0 <= i < |rest| ==> rest[i] == s[i + 1];
    assert forall i :: 1 <= i < |s| ==> s[i] == rest[i - 1];
  }

  lemma {:induction false} DotRunIs(s: string, n: nat)
    ensures DotRun(s) == n <==> n <= |s| && AllDots(s[..n]) && (n < |s| ==> s[n] != '.')
    decreases |s|
  {
    if s == "" {
    } else if n > 0 && n <= |s| {
      DotRunIs(s[1..], n - 1);
      var front := s[1..][..n - 1];
      assert s[..n] == [s[0]] + front;
      assert AllDots(s[..n]) <==> s[0] == '.' && AllDots(front) by {
        DotsCons(s[0], front);
      }
      assert n < |s| ==> s[n] == s[1..][n - 1];
    }
  }

  lemma DotsCons(c: char, rest: string)
    ensures AllDots([c] + rest) <==> c == '.' && AllDots(rest)
  {
    var s := [c] + rest;
    assert s[0] == c;
    assert forall i :: 0 <= i < |rest| ==> rest[i] == s[i + 1];
    assert forall i :: 1 <= i < |s| ==> s[i] == rest[i - 1];
  }

  /** What ends a sentence: a longest run of stops, or a longest run of dots
      with white space or the end behind it; a dot inside "3.14" does not. */
  lemma EndAtIs(s: string, n: nat)
    requires n > 0
    ensures EndAt(s) == n <==>
            && n <= |s|
            && ((AllStops(s[..n]) && (n < |s| ==> !AllStops([s[n]])))
                || (AllDots(s[..n]) && (n < |s| ==> IsSpace(s[n]))))
  {
    hide IsSpace;
    StopRunIs(s, n);
    DotRunIs(s, n);
    StopRunIs(s, 0);
    if n <= |s| {
      assert s[..n][0] == s[0];
      SpaceIsNoDot(if n < |s| then s[n] else 'a');
    }
  }

  lemma SpaceIsNoDot(c: char)
    ensures IsSpace(c) ==> c != '.'
  {
  }

  /** The leftmost match is the first end of a sentence. */
  lemma {:induction false} NextEndIsFirst(s: string, i: nat)
    requires i < NextEnd(s)
    ensures EndAt(s[i..]) == 0
    decreases |s|
  {
    hide EndAt;
    if i == 0 {
      assert s[0..] == s;
    } else {
      NextEndIsFirst(s[1..], i - 1);
      assert s[1..][i - 1..] == s[i..];
    }
  }

  /** Where the leftmost match starts, or |s|. */
  function NextEnd(s: string): (k: nat)
    ensures k <= |s|
    ensures k < |s| ==> EndAt(s[k..]) > 0
  {
    if s == "" || EndAt(s) > 0 then 0 else 1 + NextEnd(s[1..])
  }

  /** `_SENTENCE_END.split(s)`: the text between matches and, as the pattern
      has a group, the matches themselves. */
  function Pieces(s: string): seq<string>
    decreases |s|
  {
    var k := NextEnd(s);
    if k == |s| then [s]
    else
      var n := EndAt(s[k..]);
      [s[..k], s[k..k + n]] + Pieces(s[k + n..])
  }

  /** `_SENTENCE_END.fullmatch(piece)`.  It also holds of a piece of text that
      is nothing but dots, as between two stops. */
  predicate FullMatch(piece: string) { piece != "" && EndAt(piece) == |piece| }

  /** A piece closes a sentence if it is all stops or all dots. */
  lemma FullMatchIs(piece: string)
    ensures FullMatch(piece) <==> piece != "" && (AllStops(piece) || AllDots(piece))
  {
    hide EndAt, AllStops, AllDots;
    if piece != "" {
      EndAtIs(piece, |piece|);
      assert piece[..|piece|] == piece;
    }
  }

  // ---------------------------------------------------------------------
  // The three passes
  // ---------------------------------------------------------------------

  datatype Scan = Scan(sentences: seq<string>, buf: string)

  function AddSentence(sentences: seq<string>, buf: string): seq<string> {
    if Strip(buf) != "" then sentences + [Strip(buf)] else sentences
  }

  function Scanned(pieces: seq<string>): Scan {
    if pieces == [] then Scan([], "")
    else
      var before, piece := Scanned(pieces[..|pieces| - 1]), pieces[|pieces| - 1];
      var buf := before.buf + piece;
      if FullMatch(piece) then Scan(AddSentence(before.sentences, buf), "") else Scan(before.sentences, buf)
  }

  function Sentences(text: string): seq<string> {
    var scan := Scanned(Pieces(text));
    AddSentence(scan.sentences, scan.buf)
  }

  function Merge(merged: seq<string>, s: string): seq<string> {
    var n := |merged| - 1;
    if merged != [] && |merged[n]| < MIN_CHUNK_CHARS then merged[n := Strip(merged[n] + s)] else merged + [s]
  }

  function Merged(sentences: seq<string>): seq<string> {
    if sentences == [] then []
    else Merge(Merged(sentences[..|sentences| - 1]), sentences[|sentences| - 1])
  }

  /** The bound that Python takes for the slice index `i` of a list of `n`. */
  function SliceBound(n: nat, i: int): (b: nat)
    ensures b <= n
  {
    if i >= n then n else if i >= 0 then i else if n + i >= 0 then n + i else 0
  }

  function Capped(merged: seq<string>, maxChunks: int): seq<string> {
    var b := SliceBound(|merged|, maxChunks - 1);
    if |merged| > maxChunks then merged[..b] + [Strip(Join(" ", merged[b..]))] else merged
  }

  function NonEmpty(chunks: seq<string>): seq<string> {
    if chunks == [] then []
    else
      var n := |chunks| - 1;
      NonEmpty(chunks[..n]) + if chunks[n] != "" then [chunks[n]] else []
  }

  function Segments(text: string, maxChunks: int): seq<string> {
    var t := Strip(text);
    if t == "" then []
    else if |t| <= SHORT_TEXT_THRESHOLD then [t]
    else if Sentences(t) == [] then [t]
    else NonEmpty(Capped(Merged(Sentences(t)), maxChunks))
  }

  method SegmentForTts(text: string, maxChunks: int) returns (chunks: seq<string>)
    ensures chunks == Segments(text, maxChunks)
  {
    hide Strip, Sentences, Merged, Join, SliceBound;
    var t := Strip(text);
    if t == "" {
      return [];
    }
    if |t| <= SHORT_TEXT_THRESHOLD {
      return [t];
    }
    var sentences := SplitSentences(t);
    if sentences == [] {
      return [t];
    }
    var merged := MergeForward(sentences);
    if |merged| > maxChunks {
      var b := SliceBound(|merged|, maxChunks - 1);
      merged := merged[..b] + [Strip(Join(" ", merged[b..]))];
    }
    chunks := [];
    for i := 0 to |merged|
      invariant chunks == NonEmpty(merged[..i])
    {
      assert merged[..i + 1][..i] == merged[..i];
      if merged[i] != "" {
        chunks := chunks + [merged[i]];
      }
    }
    assert merged[..|merged|] == merged;
  }

  method SplitSentences(t: string) returns (sentences: seq<string>)
    ensures sentences == Sentences(t)
  {
    hide Strip, Pieces, FullMatch;
    var pieces := Pieces(t);
    sentences := [];
    var buf := "";
    for i := 0 to |pieces|
      invariant Scan(sentences, buf) == Scanned(pieces[..i])
    {
      assert pieces[..i + 1][..i] == pieces[..i];
      var piece := pieces[i];
      EmptyPiece(piece, buf);
      if piece == "" {
        continue;
      }
      buf := buf + piece;
      if FullMatch(piece) {
        var s := Strip(buf);
        if s != "" {
          sentences := sentences + [s];
        }
        buf := "";
      }
    }
    assert pieces[..|pieces|] == pieces;
    var tail := Strip(buf);
    if tail != "" {
      sentences := sentences + [tail];
    }
  }

  lemma EmptyPiece(piece: string, buf: string)
    ensures piece == "" ==> !FullMatch(piece) && buf + piece == buf
  {
  }

  method MergeForward(sentences: seq<string>) returns (merged: seq<string>)
    ensures merged == Merged(sentences)
  {
    hide Strip;
    merged := [];
    for i := 0 to |sentences|
      invariant merged == Merged(sentences[..i])
    {
      assert sentences[..i + 1][..i] == sentences[..i];
      var n := |merged| - 1;
      if merged != [] && |merged[n]| < MIN_CHUNK_CHARS {
        merged := merged[n := Strip(merged[n] + sentences[i])];
      } else {
        merged := merged + [sentences[i]];
      }
    }
    assert sentences[..|sentences|] == sentences;
  }

  // ---------------------------------------------------------------------
  // Text without its blanks
  // ---------------------------------------------------------------------

  function Dense(s: string): string {
    if s == "" then ""
    else
      var n := |s| - 1;
      Dense(s[..n]) + if IsSpace(s[n]) then "" else [s[n]]
  }

  lemma {:induction false} DenseAppend(a: string, b: string)
    ensures Dense(a + b) == Dense(a) + Dense(b)
    decreases |b|
  {
    hide IsSpace;
    if b == "" {
      assert a + b == a;
    } else {
      var n := |b| - 1;
      assert (a + b)[..|a + b| - 1] == a + b[..n];
      DenseAppend(a, b[..n]);
    }
  }

  lemma {:induction false} DenseBlank(s: string)
    requires forall i :: 0 <= i < |s| ==> IsSpace(s[i])
    ensures Dense(s) == ""
  {
    if s == "" {
    } else {
      DenseBlank(s[..|s| - 1]);
    }
  }

  lemma DenseStrip(s: string)
    ensures Dense(Strip(s)) == Dense(s)
  {
    hide IsSpace, RStrip, LeadingSpaces;
    var k := LeadingSpaces(s);
    DenseBlank(s[..k]);
    DenseAppend(s[..k], s[k..]);
    assert s[..k] + s[k..] == s;
    var l := s[k..];
    var r := RStrip(l);
    DenseBlank(l[|r|..]);
    DenseAppend(r, l[|r|..]);
    assert r + l[|r|..] == l;
  }

  // ---------------------------------------------------------------------
  // Each pass
  // ---------------------------------------------------------------------

  /** Not empty, and no blank at either end. */
  predicate Tidy(s: string) { s != "" && !IsSpace(s[0]) && !IsSpace(s[|s| - 1]) }

  predicate EndsInMark(s: string) { s != "" && IsMark(s[|s| - 1]) }

  lemma StripTidies(s: string)
    ensures Strip(s) == "" || Tidy(Strip(s))
    ensures EndsInMark(s) ==> Strip(s) != "" && EndsInMark(Strip(s))
    ensures Tidy(s) ==> Strip(s) == s
  {
  }

  lemma {:induction false} PiecesJoin(s: string)
    ensures Join("", Pieces(s)) == s
    decreases |s|
  {
    hide NextEnd, EndAt, Join;
    var k := NextEnd(s);
    if k == |s| {
      JoinOne(s);
    } else {
      var n := EndAt(s[k..]);
      var text, end, rest := s[..k], s[k..k + n], s[k + n..];
      PiecesJoin(rest);
      JoinOne(text);
      JoinLast([text], end);
      assert [text] + [end] == [text, end];
      JoinBoth([text, end], Pieces(rest));
      assert text + end + rest == s;
    }
  }

  /** How many pieces close a sentence. */
  function Closers(pieces: seq<string>): nat {
    if pieces == [] then 0
    else Closers(pieces[..|pieces| - 1]) + if FullMatch(pieces[|pieces| - 1]) then 1 else 0
  }

  /** The scan loses blanks only; every match closes a sentence, which is tidy
      and ends in a mark. */
  lemma {:induction false} ScanKeeps(pieces: seq<string>)
    ensures var scan := Scanned(pieces);
            && Dense(Join("", scan.sentences)) + Dense(scan.buf) == Dense(Join("", pieces))
            && (forall i :: 0 <= i < |scan.sentences| ==> Tidy(scan.sentences[i]) && EndsInMark(scan.sentences[i]))
            && |scan.sentences| == Closers(pieces)
    decreases |pieces|
  {
    hide Dense, Strip, FullMatch, Tidy, EndsInMark;
    if pieces == [] {
      DenseBlank("");
    } else {
      var front, piece := pieces[..|pieces| - 1], pieces[|pieces| - 1];
      ScanKeeps(front);
      var before := Scanned(front);
      var buf := before.buf + piece;
      assert front + [piece] == pieces;
      JoinLast(front, piece);
      DenseAppend(Join("", front), piece);
      DenseAppend(before.buf, piece);
      if FullMatch(piece) {
        MatchEndsInMark(before.buf, piece);
        StripTidies(buf);
        AddKeeps(before.sentences, buf);
        DenseBlank("");
      }
    }
  }

  lemma MatchEndsInMark(buf: string, piece: string)
    requires FullMatch(piece)
    ensures EndsInMark(buf + piece)
  {
  }

  lemma AddKeeps(sentences: seq<string>, buf: string)
    ensures Dense(Join("", AddSentence(sentences, buf))) == Dense(Join("", sentences)) + Dense(buf)
  {
    hide Strip, Join;
    DenseStrip(buf);
    JoinLast(sentences, Strip(buf));
    DenseAppend(Join("", sentences), Strip(buf));
  }

  /** The sentences of a text: together the text but for blanks, each tidy, and
      all but the last closed by a mark. */
  lemma SentencesKeep(text: string)
    ensures var ss := Sentences(text);
            && Dense(Join("", ss)) == Dense(text)
            && (forall i :: 0 <= i < |ss| ==> Tidy(ss[i]))
            && (forall i :: 0 <= i < |ss| - 1 ==> EndsInMark(ss[i]))
  {
    hide Dense, Strip, Tidy, EndsInMark, Pieces, Scanned;
    var scan := Scanned(Pieces(text));
    PiecesJoin(text);
    ScanKeeps(Pieces(text));
    AddKeeps(scan.sentences, scan.buf);
    StripTidies(scan.buf);
  }

  /** Merging goes forward and no further than it has to: chunk `j` is the
      sentences from `cuts[j]` to `cuts[j + 1]`, put together without anything
      between; only the last chunk may be short, and no chunk was long enough
      before its last sentence. */
  ghost predicate Greedy(ss: seq<string>, cuts: seq<nat>, merged: seq<string>) {
    && |cuts| == |merged| + 1 && cuts[0] == 0 && cuts[|merged|] == |ss|
    && (forall j :: 0 <= j < |merged| ==> GreedyChunk(ss, cuts[j], cuts[j + 1], merged[j]))
    && (forall j :: 0 <= j < |merged| - 1 ==> |merged[j]| >= 25)
  }

  ghost predicate GreedyChunk(ss: seq<string>, from: nat, to: nat, chunk: string) {
    && from < to <= |ss|
    && chunk == Join("", ss[from..to])
    && (from < to - 1 ==> |Join("", ss[from..to - 1])| < 25)
    && Tidy(chunk)
    && (EndsInMark(ss[to - 1]) ==> EndsInMark(chunk))
  }

  lemma {:induction false} MergedIsGreedy(ss: seq<string>) returns (cuts: seq<nat>)
    requires forall i :: 0 <= i < |ss| ==> Tidy(ss[i])
    ensures Greedy(ss, cuts, Merged(ss))
    decreases |ss|
  {
    hide Strip, Tidy, EndsInMark, Join, GreedyChunk;
    if ss == [] {
      return [0];
    }
    var n := |ss| - 1;
    var front, s := ss[..n], ss[n];
    var before := MergedIsGreedy(front);
    var merged := Merged(front);
    assert front + [s] == ss;
    forall j | 0 <= j < |merged| ensures GreedyChunk(ss, before[j], before[j + 1], merged[j]) {
      GreedyChunkStays(front, s, before[j], before[j + 1], merged[j]);
    }
    var k := |merged| - 1;
    if merged != [] && |merged[k]| < 25 {
      cuts := before[k + 1 := n + 1];
      LongerChunk(ss, before[k], n, merged[k]);
    } else {
      cuts := before + [n + 1];
      OneSentence(ss, n);
    }
  }

  lemma GreedyChunkStays(front: seq<string>, s: string, from: nat, to: nat, chunk: string)
    requires GreedyChunk(front, from, to, chunk)
    ensures GreedyChunk(front + [s], from, to, chunk)
  {
    assert (front + [s])[from..to] == front[from..to];
    assert (front + [s])[from..to - 1] == front[from..to - 1];
  }

  lemma LongerChunk(ss: seq<string>, from: nat, n: nat, chunk: string)
    requires n < |ss| && GreedyChunk(ss, from, n, chunk) && |chunk| < 25 && Tidy(ss[n])
    ensures GreedyChunk(ss, from, n + 1, Strip(chunk + ss[n]))
  {
    hide Strip, Join;
    var s := ss[n];
    assert ss[from..n + 1] == ss[from..n] + [s];
    JoinLast(ss[from..n], s);
    StripTidies(chunk + s);
  }

  lemma OneSentence(ss: seq<string>, n: nat)
    requires n < |ss| && Tidy(ss[n])
    ensures GreedyChunk(ss, n, n + 1, ss[n])
  {
  }

  lemma {:induction false} GreedyConcat(ss: seq<string>, cuts: seq<nat>, merged: seq<string>, j: nat)
    requires Greedy(ss, cuts, merged) && j <= |merged| && cuts[j] <= |ss|
    ensures Join("", merged[..j]) == Join("", ss[..cuts[j]])
  {
    hide Join, Tidy, EndsInMark;
    if j == 0 {
      assert merged[..0] == [] && ss[..0] == [];
    } else {
      assert GreedyChunk(ss, cuts[j - 1], cuts[j], merged[j - 1]);
      GreedyConcat(ss, cuts, merged, j - 1);
      assert merged[..j] == merged[..j - 1] + [merged[j - 1]];
      JoinLast(merged[..j - 1], merged[j - 1]);
      assert ss[..cuts[j]] == ss[..cuts[j - 1]] + ss[cuts[j - 1]..cuts[j]];
      JoinBoth(ss[..cuts[j - 1]], ss[cuts[j - 1]..cuts[j]]);
    }
  }

  /** What the chunks of a text are to be. */
  ghost predicate GoodChunks(text: string, chunks: seq<string>) {
    && Dense(Join("", chunks)) == Dense(text)
    && (forall j :: 0 <= j < |chunks| ==> Tidy(chunks[j]))
    && (forall j :: 0 <= j < |chunks| - 1 ==> |chunks[j]| >= 25 && EndsInMark(chunks[j]))
  }

  lemma MergedIsGood(text: string)
    ensures GoodChunks(text, Merged(Sentences(text)))
  {
    hide Dense, Tidy, EndsInMark, Join, Sentences, Merged;
    var ss := Sentences(text);
    SentencesKeep(text);
    var cuts := MergedIsGreedy(ss);
    var merged := Merged(ss);
    GreedyConcat(ss, cuts, merged, |merged|);
    assert merged[..|merged|] == merged && ss[..|ss|] == ss;
    forall j | 0 <= j < |merged| ensures Tidy(merged[j]) {
      assert GreedyChunk(ss, cuts[j], cuts[j + 1], merged[j]);
    }
    forall j | 0 <= j < |merged| - 1 ensures EndsInMark(merged[j]) {
      ChunkBeforeLast(ss, cuts, merged, j);
    }
  }

  lemma ChunkBeforeLast(ss: seq<string>, cuts: seq<nat>, merged: seq<string>, j: nat)
    requires Greedy(ss, cuts, merged) && j < |merged| - 1
    ensures 0 < cuts[j + 1] < |ss|
    ensures EndsInMark(ss[cuts[j + 1] - 1]) ==> EndsInMark(merged[j])
  {
    hide EndsInMark, Tidy, Join;
    assert GreedyChunk(ss, cuts[j], cuts[j + 1], merged[j]);
    assert GreedyChunk(ss, cuts[j + 1], cuts[j + 2], merged[j + 1]);
  }

  lemma {:induction false} JoinKeeps(parts: seq<string>)
    requires parts != [] && forall j :: 0 <= j < |parts| ==> Tidy(parts[j])
    ensures Dense(Join(" ", parts)) == Dense(Join("", parts))
    ensures Tidy(Join(" ", parts))
    ensures |Join(" ", parts)| >= |parts[0]|
    ensures EndsInMark(parts[|parts| - 1]) ==> EndsInMark(Join(" ", parts))
  {
    hide Dense, IsSpace, IsMark;
    if |parts| == 1 {
      assert parts == [parts[0]];
    } else {
      var rest := Join(" ", parts[1..]);
      JoinKeeps(parts[1..]);
      assert parts[0] + "" == parts[0];
      DenseAppend(parts[0], Join("", parts[1..]));
      DenseAppend(parts[0] + " ", rest);
      DenseAppend(parts[0], " ");
      DenseSpace();
      assert Dense(parts[0]) + "" == Dense(parts[0]);
    }
  }

  lemma DenseSpace()
    ensures Dense(" ") == ""
  {
  }

  /** The cap folds everything beyond it into the last chunk and leaves the
      chunks before that alone. */
  lemma CappedIsGood(text: string, merged: seq<string>, maxChunks: int)
    requires merged != [] && GoodChunks(text, merged)
    ensures GoodChunks(text, Capped(merged, maxChunks))
    ensures |merged| <= maxChunks ==> Capped(merged, maxChunks) == merged
    ensures 1 <= maxChunks < |merged| ==>
              Capped(merged, maxChunks) == merged[..maxChunks - 1] + [Join(" ", merged[maxChunks - 1..])]
    ensures maxChunks <= 0 ==>
              var b := if |merged| + maxChunks >= 1 then |merged| + maxChunks - 1 else 0;
              Capped(merged, maxChunks) == merged[..b] + [Join(" ", merged[b..])]
  {
    hide Dense, Tidy, EndsInMark, Strip, Join;
    if |merged| > maxChunks {
      var b := SliceBound(|merged|, maxChunks - 1);
      var last := Join(" ", merged[b..]);
      JoinKeeps(merged[b..]);
      StripTidies(last);
      assert merged[..b] + merged[b..] == merged;
      JoinBoth(merged[..b], merged[b..]);
      JoinLast(merged[..b], last);
      DenseAppend(Join("", merged[..b]), Join("", merged[b..]));
      DenseAppend(Join("", merged[..b]), last);
    }
  }

  lemma {:induction false} NothingToDrop(chunks: seq<string>)
    requires forall j :: 0 <= j < |chunks| ==> Tidy(chunks[j])
    ensures NonEmpty(chunks) == chunks
    decreases |chunks|
  {
    if chunks == [] {
    } else {
      NothingToDrop(chunks[..|chunks| - 1]);
    }
  }

  // ---------------------------------------------------------------------
  // Results
  // ---------------------------------------------------------------------

  /** For every text and every cap: no chunk is empty; but for blanks the chunks
      together are the text; every chunk but the last has at least 25 characters
      and ends with a sentence.  A cap of one or more is kept. */
  lemma SegmentsAreGood(text: string, maxChunks: int)
    ensures GoodChunks(text, Segments(text, maxChunks))
    ensures maxChunks >= 1 ==> |Segments(text, maxChunks)| <= maxChunks
    ensures Segments(text, maxChunks) == [] <==> Dense(text) == ""
  {
    hide Dense, Tidy, EndsInMark, Strip, Sentences, Merged, Capped;
    var t := Strip(text);
    DenseStrip(text);
    StripTidies(text);
    if t == "" {
      DenseBlank("");
    } else {
      DenseTidy(t);
      OnlyChunk(t);
      MergedIsGood(t);
      NotNothing(t, Merged(Sentences(t)));
      if |t| > SHORT_TEXT_THRESHOLD && Sentences(t) != [] {
        CappedIsGood(t, Merged(Sentences(t)), maxChunks);
        NothingToDrop(Capped(Merged(Sentences(t)), maxChunks));
        NotNothing(t, Capped(Merged(Sentences(t)), maxChunks));
      }
    }
  }

  /** The cap is kept exactly if it is at least one, or is zero and there is
      nothing to say. */
  lemma CapKeptExactly(text: string, maxChunks: int)
    ensures |Segments(text, maxChunks)| <= maxChunks
            <==> maxChunks >= 1 || (maxChunks == 0 && Dense(text) == "")
  {
    hide Segments, Dense;
    SegmentsAreGood(text, maxChunks);
  }

  /** Which chunks a text becomes: a short one stays whole; the sentences of a
      longer one are merged, and what is beyond the cap is joined with blanks. */
  lemma ChunksAre(text: string, maxChunks: int) returns (cuts: seq<nat>, merged: seq<string>)
    requires maxChunks >= 1
    ensures var t := Strip(text);
            if t == "" then Segments(text, maxChunks) == []
            else if |t| <= 40 then Segments(text, maxChunks) == [t]
            else
              && Greedy(Sentences(t), cuts, merged)
              && Segments(text, maxChunks) ==
                 if |merged| <= maxChunks then merged
                 else merged[..maxChunks - 1] + [Join(" ", merged[maxChunks - 1..])]
  {
    hide Dense, Tidy, EndsInMark, Strip, Sentences, Merged, Capped, Greedy, Join;
    cuts, merged := [], [];
    var t := Strip(text);
    if |t| > 40 {
      StripTidies(text);
      DenseTidy(t);
      SentencesKeep(t);
      cuts := MergedIsGreedy(Sentences(t));
      merged := Merged(Sentences(t));
      MergedIsGood(t);
      NotNothing(t, merged);
      NoSentences(t);
      CappedIsGood(t, merged, maxChunks);
      NothingToDrop(Capped(merged, maxChunks));
    }
  }

  lemma NoSentences(t: string)
    ensures Merged(Sentences(t)) != [] ==> Sentences(t) != []
  {
    hide Sentences;
  }

  lemma DenseTidy(s: string)
    requires Tidy(s)
    ensures Dense(s) != ""
  {
  }

  lemma OnlyChunk(t: string)
    requires Tidy(t)
    ensures GoodChunks(t, [t])
  {
    hide Dense, Join, Tidy;
    JoinOne(t);
  }

  lemma NotNothing(t: string, chunks: seq<string>)
    requires Dense(t) != "" && GoodChunks(t, chunks)
    ensures chunks != []
  {
  }

  /** A cap of zero is no cap: the slices then put only the last chunk last. */
  lemma ZeroIsNoCap(merged: seq<string>)
    requires merged != [] && forall j :: 0 <= j < |merged| ==> Tidy(merged[j])
    ensures Capped(merged, 0) == merged
  {
  }
}
