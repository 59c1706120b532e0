/** Unpadded base32 as the browser computes it for the daemon's fingerprint
    (relay/src/pair-page.ts), against section 6 of RFC 4648 and against the
    daemon's own computation (identity.py). */
module Base32 {
  import opened Text

  const ALPHABET: string := "ABCDEFGHIJKLMNOPQRSTUVWXYZ234567"

  /** Bit k of a word, counted from the least significant. */
  predicate Bit(v: bv32, k: nat)
    requires k < 13
  {
    (v >> k) & 1 == 1
  }

  function B(b: bool): nat { if b then 1 else 0 }

  // ---------------------------------------------------------------------
  // The standard
  // ---------------------------------------------------------------------

  /** The bit stream of a byte string, most significant bit first. */
  function ByteBits(bytes: seq<bv8>): (bits: seq<bool>)
    ensures |bits| == 8 * |bytes|
  {
    seq(8 * |bytes|, j requires 0 <= j < 8 * |bytes| => ByteBit(bytes[j / 8], j % 8))
  }

  /** Bit k of a byte, counted from the most significant. */
  predicate ByteBit(b: bv8, k: nat)
    requires k < 8
  {
    Bit(b as bv32, 7 - k)
  }

  /** The number that five bits denote, the first the most significant. */
  function FiveValue(bits: seq<bool>): (n: nat)
    requires |bits| == 5
    ensures n < 32
  {
    16 * B(bits[0]) + 8 * B(bits[1]) + 4 * B(bits[2]) + 2 * B(bits[3]) + B(bits[4])
  }

  function ZeroBits(n: nat): (bits: seq<bool>)
    ensures |bits| == n
  {
    seq(n, _ => false)
  }

  /** The stream filled up with zero bits to whole groups of five. */
  function Padded(bits: seq<bool>): (p: seq<bool>)
    ensures |p| % 5 == 0 && |bits| <= |p| < |bits| + 5
  {
    bits + ZeroBits((5 - |bits| % 5) % 5)
  }

  function Group(bits: seq<bool>, j: nat): (g: seq<bool>)
    requires 5 * j + 5 <= |bits|
    ensures |g| == 5
  {
    bits[5 * j..5 * j + 5]
  }

  /** Each group of five bits becomes one character. */
  function Encode(bytes: seq<bv8>): (s: string)
    ensures |s| == (8 * |bytes| + 4) / 5
  {
    Characters(Padded(ByteBits(bytes)))
  }

  function Characters(bits: seq<bool>): (s: string)
    ensures |s| == |bits| / 5
  {
    seq(|bits| / 5, j requires 0 <= j < |bits| / 5 => Character(bits, j))
  }

  function Character(bits: seq<bool>, j: nat): char
    requires 5 * j + 5 <= |bits|
  {
    ALPHABET[FiveValue(Group(bits, j))]
  }

  // ---------------------------------------------------------------------
  // The loop
  // ---------------------------------------------------------------------

  /** The n low bits of a word, most significant first. */
  function LowBits(v: bv32, n: nat): (bits: seq<bool>)
    requires n < 13
    ensures |bits| == n
  {
    seq(n, i requires 0 <= i < n => Bit(v, n - 1 - i))
  }

  /** Shifting in a byte, whatever the shift pushes out at the top. */
  lemma ShiftIn(v: bv32, b: bv8, k: nat)
    requires k < 13
    ensures Bit((v << 8) | b as bv32, k) == if k < 8 then Bit(b as bv32, k) else Bit(v, k - 8)
  {
  }

  lemma ShiftDown(v: bv32, n: nat, k: nat)
    requires n <= 7 && k < 5
    ensures Bit((v >> n) & 31, k) == Bit(v, k + n)
  {
    if n == 0 {
      if k == 0 {} else if k == 1 {} else if k == 2 {} else if k == 3 {} else {}
    } else if n == 1 {
      if k == 0 {} else if k == 1 {} else if k == 2 {} else if k == 3 {} else {}
    } else if n == 2 {
      if k == 0 {} else if k == 1 {} else if k == 2 {} else if k == 3 {} else {}
    } else if n == 3 {
      if k == 0 {} else if k == 1 {} else if k == 2 {} else if k == 3 {} else {}
    } else if n == 4 {
      if k == 0 {} else if k == 1 {} else if k == 2 {} else if k == 3 {} else {}
    } else if n == 5 {
      if k == 0 {} else if k == 1 {} else if k == 2 {} else if k == 3 {} else {}
    } else if n == 6 {
      if k == 0 {} else if k == 1 {} else if k == 2 {} else if k == 3 {} else {}
    } else {
      if k == 0 {} else if k == 1 {} else if k == 2 {} else if k == 3 {} else {}
    }
  }

  lemma ShiftUp(v: bv32, n: nat, k: nat)
    requires 1 <= n <= 4 && k < 5
    ensures Bit((v << n) & 31, k) == (k >= n && Bit(v, k - n))
  {
  }

  /** A word below 32 is the number its five low bits denote. */
  lemma FiveBits(v: bv32)
    requires v < 32
    ensures v as int == 16 * B(Bit(v, 4)) + 8 * B(Bit(v, 3)) + 4 * B(Bit(v, 2)) + 2 * B(Bit(v, 1)) + B(Bit(v, 0))
  {
    var n := v as int;
    assert 0 <= n < 32;
    assert v == n as bv32;
  }

  lemma FiveBitWord(v: bv32)
    requires v < 32
    ensures v as int == FiveValue(LowBits(v, 5))
  {
    FiveBits(v);
    hide Bit, B;
    var bits := LowBits(v, 5);
    assert bits[0] == Bit(v, 4) && bits[1] == Bit(v, 3) && bits[2] == Bit(v, 2);
    assert bits[3] == Bit(v, 1) && bits[4] == Bit(v, 0);
  }

  lemma AppendByte(v: bv32, b: bv8, n: nat)
    requires n < 5
    ensures LowBits((v << 8) | b as bv32, n + 8) == LowBits(v, n) + LowBits(b as bv32, 8)
  {
    hide Bit;
    var l, r := LowBits((v << 8) | b as bv32, n + 8), LowBits(v, n) + LowBits(b as bv32, 8);
    forall i | 0 <= i < n + 8
      ensures l[i] == r[i]
    {
      ShiftIn(v, b, n + 7 - i);
    }
  }

  /** The top five of n pending bits, as the loop takes them. */
  lemma TakeFive(v: bv32, n: nat)
    requires 5 <= n <= 12
    ensures var w := (v >> (n - 5)) & 31;
            w < 32 && w as int == FiveValue(LowBits(v, n)[..5]) && LowBits(v, n)[5..] == LowBits(v, n - 5)
  {
    hide Bit, FiveValue;
    var w := (v >> (n - 5)) & 31;
    Below32(v >> (n - 5));
    FiveBitWord(w);
    TopFive(v, n);
  }

  lemma TopFive(v: bv32, n: nat)
    requires 5 <= n <= 12
    ensures LowBits((v >> (n - 5)) & 31, 5) == LowBits(v, n)[..5]
  {
    hide Bit;
    var w := (v >> (n - 5)) & 31;
    forall i | 0 <= i < 5
      ensures LowBits(w, 5)[i] == LowBits(v, n)[..5][i]
    {
      ShiftDown(v, n - 5, 4 - i);
    }
  }

  /** The fewer than five last bits, filled up with zeros on the right. */
  lemma TakeRest(v: bv32, n: nat)
    requires 1 <= n <= 4
    ensures var w := (v << (5 - n)) & 31;
            w < 32 && w as int == FiveValue(LowBits(v, n) + ZeroBits(5 - n))
  {
    hide Bit;
    var w := (v << (5 - n)) & 31;
    Below32(v << (5 - n));
    FiveBitWord(w);
    forall i | 0 <= i < 5
      ensures LowBits(w, 5)[i] == (LowBits(v, n) + ZeroBits(5 - n))[i]
    {
      ShiftUp(v, 5 - n, 4 - i);
    }
    assert LowBits(w, 5) == LowBits(v, n) + ZeroBits(5 - n);
  }

  lemma Below32(v: bv32)
    ensures v & 31 < 32
  {
  }

  lemma ByteBitsAppend(bytes: seq<bv8>, b: bv8)
    ensures ByteBits(bytes + [b]) == ByteBits(bytes) + LowBits(b as bv32, 8)
  {
    hide Bit;
    var n := |bytes|;
    var l, r := ByteBits(bytes + [b]), ByteBits(bytes) + LowBits(b as bv32, 8);
    forall j | 0 <= j < 8 * n + 8
      ensures l[j] == r[j]
    {
      if j >= 8 * n {
        assert j / 8 == n && j % 8 == j - 8 * n;
      }
    }
  }

  /** The characters written so far stand for the first whole groups. */
  ghost predicate Written(out: string, stream: seq<bool>) {
    && 5 * |out| <= |stream|
    && forall j :: 0 <= j < |out| ==> out[j] == Character(stream, j)
  }

  lemma WrittenGrows(out: string, stream: seq<bool>, more: seq<bool>)
    requires Written(out, stream)
    ensures Written(out, stream + more)
  {
  }

  lemma WriteGroup(out: string, stream: seq<bool>, c: char)
    requires Written(out, stream) && 5 * |out| + 5 <= |stream|
    requires c == Character(stream, |out|)
    ensures Written(out + [c], stream)
  {
  }

  /** The loop's state: whole groups are written, and the low `bits` bits of
      the accumulator are the rest of the stream. */
  ghost predicate Pending(value: bv32, bits: nat, out: string, stream: seq<bool>)
    requires bits <= 12
  {
    5 * |out| + bits == |stream| && Written(out, stream) && LowBits(value, bits) == stream[5 * |out|..]
  }

  lemma StepIn(value: bv32, bits: nat, out: string, bytes: seq<bv8>, b: bv8)
    requires bits < 5 && Pending(value, bits, out, ByteBits(bytes))
    ensures Pending((value << 8) | b as bv32, bits + 8, out, ByteBits(bytes + [b]))
  {
    hide Bit, LowBits, ByteBits;
    AppendByte(value, b, bits);
    ByteBitsAppend(bytes, b);
    WrittenGrows(out, ByteBits(bytes), LowBits(b as bv32, 8));
  }

  lemma StepOut(value: bv32, bits: nat, out: string, stream: seq<bool>)
    requires 5 <= bits <= 12 && Pending(value, bits, out, stream)
    ensures (value >> (bits - 5)) & 31 < 32
    ensures Pending(value, bits - 5, out + [ALPHABET[((value >> (bits - 5)) & 31) as int]], stream)
  {
    hide Bit, LowBits, FiveValue;
    TakeFive(value, bits);
    NextGroup(stream, |out|);
    WriteGroup(out, stream, Character(stream, |out|));
  }

  lemma StepEnd(value: bv32, bits: nat, out: string, stream: seq<bool>)
    requires 1 <= bits <= 4 && Pending(value, bits, out, stream)
    ensures (value << (5 - bits)) & 31 < 32
    ensures out + [ALPHABET[((value << (5 - bits)) & 31) as int]] == Characters(Padded(stream))
  {
    hide Bit, LowBits, FiveValue;
    TakeRest(value, bits);
    LastGroup(stream, |out|, bits);
    WrittenGrows(out, stream, ZeroBits(5 - bits));
    WriteGroup(out, Padded(stream), Character(Padded(stream), |out|));
    WrittenAll(out + [Character(Padded(stream), |out|)], Padded(stream));
  }

  /** The accumulator is never masked: bits already written stay in `value`
      until the 32-bit shift drops them.  The result is the standard's. */
  method Base32(bytes: seq<bv8>) returns (out: string)
    ensures out == Encode(bytes)
  {
    hide Bit, FiveValue, Group, LowBits, ByteBits, Pending, Padded, Characters;
    var bits: nat, value: bv32 := 0, 0;
    out := "";
    PendingNothing();
    assert bytes[..0] == [];
    for i := 0 to |bytes|
      invariant bits < 5 && Pending(value, bits, out, ByteBits(bytes[..i]))
    {
      StepIn(value, bits, out, bytes[..i], bytes[i]);
      assert bytes[..i + 1] == bytes[..i] + [bytes[i]];
      value := (value << 8) | bytes[i] as bv32;
      bits := bits + 8;
      while bits >= 5
        invariant bits <= 12 && Pending(value, bits, out, ByteBits(bytes[..i + 1]))
        decreases bits
      {
        StepOut(value, bits, out, ByteBits(bytes[..i + 1]));
        out := out + [ALPHABET[((value >> (bits - 5)) & 31) as int]];
        bits := bits - 5;
      }
    }
    assert bytes[..|bytes|] == bytes;
    if bits > 0 {
      StepEnd(value, bits, out, ByteBits(bytes));
      out := out + [ALPHABET[((value << (5 - bits)) & 31) as int]];
    } else {
      PendingDone(value, out, ByteBits(bytes));
    }
  }

  lemma PendingNothing()
    ensures Pending(0, 0, "", ByteBits([]))
  {
  }

  lemma PendingDone(value: bv32, out: string, stream: seq<bool>)
    requires Pending(value, 0, out, stream)
    ensures out == Characters(Padded(stream))
  {
  }

  lemma NextGroup(stream: seq<bool>, j: nat)
    requires 5 * j + 5 <= |stream|
    ensures Group(stream, j) == stream[5 * j..][..5] && stream[5 * j..][5..] == stream[5 * (j + 1)..]
  {
  }

  lemma LastGroup(stream: seq<bool>, j: nat, n: nat)
    requires 1 <= n <= 4 && 5 * j + n == |stream|
    ensures |Padded(stream)| == 5 * j + 5 && Group(Padded(stream), j) == stream[5 * j..] + ZeroBits(5 - n)
  {
  }

  lemma WrittenAll(out: string, stream: seq<bool>)
    requires Written(out, stream) && 5 * |out| == |stream|
    ensures out == Characters(stream)
  {
  }

  // ---------------------------------------------------------------------
  // Decoding
  // ---------------------------------------------------------------------

  predicate IsBase32Char(c: char) { 'A' <= c <= 'Z' || '2' <= c <= '7' }

  predicate IsBase32(s: string) { forall i :: 0 <= i < |s| ==> IsBase32Char(s[i]) }

  function CharValue(c: char): (n: nat)
    requires IsBase32Char(c)
    ensures n < 32
  {
    if 'A' <= c <= 'Z' then c as int - 'A' as int else 26 + (c as int - '2' as int)
  }

  lemma AlphabetValues(n: nat)
    requires n < 32
    ensures IsBase32Char(ALPHABET[n]) && CharValue(ALPHABET[n]) == n
  {
  }

  /** Bit k, counted from the most significant, of a five-bit number. */
  predicate FiveBit(n: nat, k: nat)
    requires n < 32 && k < 5
  {
    n / (if k == 0 then 16 else if k == 1 then 8 else if k == 2 then 4 else if k == 3 then 2 else 1) % 2 == 1
  }

  /** The bit stream of an encoded string. */
  function CharBits(s: string): (bits: seq<bool>)
    requires IsBase32(s)
    ensures |bits| == 5 * |s|
  {
    seq(5 * |s|, j requires 0 <= j < 5 * |s| => FiveBit(CharValue(s[j / 5]), j % 5))
  }

  function ByteOf(bits: seq<bool>, i: nat): bv8
    requires 8 * i + 8 <= |bits|
  {
    (if bits[8 * i] then 128 else 0) | (if bits[8 * i + 1] then 64 else 0)
    | (if bits[8 * i + 2] then 32 else 0) | (if bits[8 * i + 3] then 16 else 0)
    | (if bits[8 * i + 4] then 8 else 0) | (if bits[8 * i + 5] then 4 else 0)
    | (if bits[8 * i + 6] then 2 else 0) | (if bits[8 * i + 7] then 1 else 0)
  }

  /** The whole bytes of an encoded string; what is left of the last character
      is dropped. */
  function Decode(s: string): seq<bv8>
    requires IsBase32(s)
  {
    WholeBytes(CharBits(s))
  }

  function WholeBytes(bits: seq<bool>): seq<bv8> {
    seq(|bits| / 8, i requires 0 <= i < |bits| / 8 => ByteOf(bits, i))
  }

  lemma FiveBitOfValue(bits: seq<bool>, k: nat)
    requires |bits| == 5 && k < 5
    ensures FiveBit(FiveValue(bits), k) == bits[k]
  {
  }

  lemma EncodedIsBase32(bytes: seq<bv8>)
    ensures IsBase32(Encode(bytes))
  {
    hide FiveValue, ByteBits, Group, Padded;
    var p := Padded(ByteBits(bytes));
    forall i | 0 <= i < |Encode(bytes)|
      ensures IsBase32Char(Encode(bytes)[i])
    {
      AlphabetValues(FiveValue(Group(p, i)));
    }
  }

  /** The characters of a stream of whole groups carry exactly its bits. */
  lemma CharBitsOfCharacters(stream: seq<bool>)
    requires |stream| % 5 == 0
    requires IsBase32(Characters(stream))
    ensures CharBits(Characters(stream)) == stream
  {
    hide FiveValue, FiveBit;
    var s := Characters(stream);
    forall j | 0 <= j < |stream|
      ensures CharBits(s)[j] == stream[j]
    {
      var g := Group(stream, j / 5);
      AlphabetValues(FiveValue(g));
      FiveBitOfValue(g, j % 5);
      assert g[j % 5] == stream[5 * (j / 5) + j % 5];
    }
  }

  lemma ByteOfItsBits(b: bv8, bits: seq<bool>, i: nat)
    requires 8 * i + 8 <= |bits|
    requires forall k :: 0 <= k < 8 ==> bits[8 * i + k] == ByteBit(b, k)
    ensures ByteOf(bits, i) == b
  {
    assert bits[8 * i + 0] == ByteBit(b, 0) && bits[8 * i + 1] == ByteBit(b, 1);
    assert bits[8 * i + 2] == ByteBit(b, 2) && bits[8 * i + 3] == ByteBit(b, 3);
    assert bits[8 * i + 4] == ByteBit(b, 4) && bits[8 * i + 5] == ByteBit(b, 5);
    assert bits[8 * i + 6] == ByteBit(b, 6) && bits[8 * i + 7] == ByteBit(b, 7);
  }

  /** Decoding an encoding gives the bytes back, for strings of any length. */
  lemma RoundTrip(bytes: seq<bv8>)
    ensures IsBase32(Encode(bytes)) && Decode(Encode(bytes)) == bytes
  {
    hide WholeBytes, Padded, ByteBits, Characters, CharBits, IsBase32;
    EncodedIsBase32(bytes);
    CharBitsOfCharacters(Padded(ByteBits(bytes)));
    WholeBytesOfPadded(bytes);
  }

  lemma WholeBytesOfPadded(bytes: seq<bv8>)
    ensures WholeBytes(Padded(ByteBits(bytes))) == bytes
  {
    hide ByteOf, ByteBit;
    var p := Padded(ByteBits(bytes));
    assert |p| / 8 == |bytes|;
    forall i | 0 <= i < |bytes|
      ensures ByteOf(p, i) == bytes[i]
    {
      forall k | 0 <= k < 8
        ensures p[8 * i + k] == ByteBit(bytes[i], k)
      {
        assert (8 * i + k) / 8 == i && (8 * i + k) % 8 == k;
      }
      ByteOfItsBits(bytes[i], p, i);
    }
  }

  /** Two of the test vectors of RFC 4648, section 10: "f" and "fo". */
  lemma TestVectors()
    ensures Encode([0x66]) == "MY" && Encode([0x66, 0x6F]) == "MZXQ"
  {
    BitsOf66();
    BitsOf6F();
    var f, o := LowBits(0x66, 8), LowBits(0x6F, 8);
    assert [] + [0x66] == [0x66] && [0x66] + [0x6F] == [0x66, 0x6F];
    ByteBitsAppend([], 0x66);
    ByteBitsAppend([0x66], 0x6F);
    hide LowBits, ByteBits;
    assert ByteBits([0x66]) == f && ByteBits([0x66, 0x6F]) == f + o;
    VectorF(f);
    VectorFo(f + o);
  }

  lemma BitsOf66()
    ensures LowBits(0x66, 8) == [false, true, true, false, false, true, true, false]
  {
    var bits := LowBits(0x66, 8);
    assert !Bit(0x66, 7) && Bit(0x66, 6) && Bit(0x66, 5) && !Bit(0x66, 4);
    assert !Bit(0x66, 3) && Bit(0x66, 2) && Bit(0x66, 1) && !Bit(0x66, 0);
    hide Bit;
    assert forall i :: 0 <= i < 8 ==> bits[i] == Bit(0x66, 7 - i);
  }

  lemma BitsOf6F()
    ensures LowBits(0x6F, 8) == [false, true, true, false, true, true, true, true]
  {
    var bits := LowBits(0x6F, 8);
    assert !Bit(0x6F, 7) && Bit(0x6F, 6) && Bit(0x6F, 5) && !Bit(0x6F, 4);
    assert Bit(0x6F, 3) && Bit(0x6F, 2) && Bit(0x6F, 1) && Bit(0x6F, 0);
    hide Bit;
    assert forall i :: 0 <= i < 8 ==> bits[i] == Bit(0x6F, 7 - i);
  }

  lemma VectorF(bits: seq<bool>)
    requires bits == [false, true, true, false, false, true, true, false]
    ensures Characters(Padded(bits)) == "MY"
  {
    var p := Padded(bits);
    assert Group(p, 0) == [false, true, true, false, false] && Group(p, 1) == [true, true, false, false, false];
  }

  lemma VectorFo(bits: seq<bool>)
    requires bits == [false, true, true, false, false, true, true, false]
                   + [false, true, true, false, true, true, true, true]
    ensures Characters(Padded(bits)) == "MZXQ"
  {
    var p := Padded(bits);
    assert Group(p, 0) == [false, true, true, false, false] && Group(p, 1) == [true, true, false, false, true];
    assert Group(p, 2) == [true, false, true, true, true] && Group(p, 3) == [true, false, false, false, false];
  }

  // ---------------------------------------------------------------------
  // Both ends of the handshake
  // ---------------------------------------------------------------------

  function Repeat(c: char, n: nat): string { seq(n, _ => c) }

  /** `base64.b32encode`: filled up with '=' to whole groups of eight. */
  function PaddedEncode(bytes: seq<bv8>): string {
    Encode(bytes) + Repeat('=', (8 - |Encode(bytes)| % 8) % 8)
  }

  /** `rstrip("=")`. */
  function StripPadding(s: string): string {
    if s != "" && s[|s| - 1] == '=' then StripPadding(s[..|s| - 1]) else s
  }

  lemma {:induction false} StripRepeat(s: string, n: nat)
    requires s == "" || s[|s| - 1] != '='
    ensures StripPadding(s + Repeat('=', n)) == s
    decreases n
  {
    var t := s + Repeat('=', n);
    if n == 0 {
      assert t == s;
    } else {
      assert t[|t| - 1] == '=' && t[..|t| - 1] == s + Repeat('=', n - 1);
      StripRepeat(s, n - 1);
    }
  }

  /** The fingerprint the daemon prints, from the first 16 bytes of its digest,
      and the one the browser computes, are the same 26 characters. */
  method BrowserFingerprint(digest: seq<bv8>) returns (fp: string)
    requires |digest| >= 16
    ensures fp == Lower(StripPadding(PaddedEncode(digest[..16])))
    ensures |fp| == 26 && forall i :: 0 <= i < |fp| ==> 'a' <= fp[i] <= 'z' || '2' <= fp[i] <= '7'
  {
    var out := Base32(digest[..16]);
    PaddingStripsOff(digest[..16]);
    EncodedIsBase32(digest[..16]);
    hide Encode, StripPadding, PaddedEncode;
    fp := Lower(out);
  }

  /** The padding is `=`, up to a multiple of eight characters. */
  lemma PaddingIs(bytes: seq<bv8>)
    ensures Encode(bytes) <= PaddedEncode(bytes)
    ensures |PaddedEncode(bytes)| % 8 == 0 && |PaddedEncode(bytes)| < |Encode(bytes)| + 8
    ensures forall i :: |Encode(bytes)| <= i < |PaddedEncode(bytes)| ==> PaddedEncode(bytes)[i] == '='
  {
    RoundsUp(|Encode(bytes)|);
    hide Encode;
    var s := Encode(bytes);
    var n := (8 - |s| % 8) % 8;
    assert PaddedEncode(bytes) == s + Repeat('=', n) && |Repeat('=', n)| == n;
  }

  lemma RoundsUp(n: nat)
    ensures var m := (8 - n % 8) % 8; m < 8 && (n + m) % 8 == 0
  {
    var q, r := n / 8, n % 8;
    assert n == 8 * q + r;
    if r == 0 {
      assert (8 - r) % 8 == 0;
    } else {
      assert (8 - r) % 8 == 8 - r && n + (8 - r) == 8 * (q + 1);
    }
  }

  lemma PaddingStripsOff(bytes: seq<bv8>)
    ensures StripPadding(PaddedEncode(bytes)) == Encode(bytes)
  {
    hide StripPadding, Encode;
    EncodedIsBase32(bytes);
    var s := Encode(bytes);
    StripRepeat(s, (8 - |s| % 8) % 8);
  }
}
