/** Unpadded base64url (section 5 of RFC 4648), with the decoder's leniency: it skips
    line breaks and ignores the unused low bits of the last character. */
module Base64Url {
  import opened Sequences
  import opened Wrappers

  type Byte = x: int | 0 <= x < 256
  type Sextet = x: int | 0 <= x < 64

  function Digit(v: Sextet): char {
    if v < 26 then 'A' + v as char
    else if v < 52 then 'a' + (v - 26) as char
    else if v < 62 then '0' + (v - 52) as char
    else if v == 62 then '-' else '_'
  }

  /** The alphabet of table 2 of RFC 4648: A to Z, a to z, 0 to 9, - and _. */
  lemma DigitsAreTheAlphabet(v: Sextet)
    ensures Digit(0) == 'A' && Digit(26) == 'a' && Digit(52) == '0' && Digit(62) == '-' && Digit(63) == '_'
    ensures v !in {25, 51, 61, 62, 63} ==> Digit(v + 1) as int == Digit(v) as int + 1
  {
  }

  predicate IsDigit(c: char) {
    'A' <= c <= 'Z' || 'a' <= c <= 'z' || '0' <= c <= '9' || c == '-' || c == '_'
  }

  function DigitValue(c: char): (v: Sextet)
    requires IsDigit(c)
    ensures Digit(v) == c
  {
    if 'A' <= c <= 'Z' then (c - 'A') as int
    else if 'a' <= c <= 'z' then (c - 'a') as int + 26
    else if '0' <= c <= '9' then (c - '0') as int + 52
    else if c == '-' then 62 else 63
  }

  lemma DigitRoundTrip(v: Sextet)
    ensures IsDigit(Digit(v)) && DigitValue(Digit(v)) == v
  {
  }

  function Encode(bytes: seq<Byte>): string {
    if |bytes| == 0 then ""
    else if |bytes| == 1 then [Digit(bytes[0] / 4), Digit(bytes[0] % 4 * 16)]
    else if |bytes| == 2 then
      [Digit(bytes[0] / 4), Digit(bytes[0] % 4 * 16 + bytes[1] / 16), Digit(bytes[1] % 16 * 4)]
    else Quad(bytes[0], bytes[1], bytes[2]) + Encode(bytes[3..])
  }

  /** Three bytes as four digits. */
  function Quad(b0: Byte, b1: Byte, b2: Byte): string {
    [Digit(b0 / 4), Digit(b0 % 4 * 16 + b1 / 16), Digit(b1 % 16 * 4 + b2 / 64), Digit(b2 % 64)]
  }

  predicate IsLineBreak(c: char) { c == '\r' || c == '\n' }

  function WithoutLineBreaks(s: string): string {
    if s == "" then ""
    else (if IsLineBreak(s[0]) then "" else [s[0]]) + WithoutLineBreaks(s[1..])
  }

  predicate InLine(c: char) { c != '\r' && c != '\n' }

  /** Only carriage returns and newlines are left out. */
  lemma {:induction false} WithoutLineBreaksMeans(s: string)
    ensures Filtered(s, InLine, Itself, WithoutLineBreaks(s))
  {
    if s == "" {
      FilteredNothing(InLine, Itself<char>);
    } else {
      WithoutLineBreaksMeans(s[1..]);
      FilteredPrepend(s[1..], InLine, Itself, WithoutLineBreaks(s[1..]), s[0]);
      assert [s[0]] + s[1..] == s;
    }
  }

  predicate AllDigits(s: string) {
    forall i :: 0 <= i < |s| ==> IsDigit(s[i])
  }

  /** Four digits as three bytes. */
  function Triple(s: string): seq<Byte>
    requires |s| == 4 && AllDigits(s)
  {
    var v0, v1, v2, v3 := DigitValue(s[0]), DigitValue(s[1]), DigitValue(s[2]), DigitValue(s[3]);
    [v0 * 4 + v1 / 16, v1 % 16 * 16 + v2 / 4, v2 % 4 * 64 + v3]
  }

  function DecodeDigits(s: string): seq<Byte>
    requires AllDigits(s) && |s| % 4 != 1
  {
    if |s| == 0 then []
    else
      var v0, v1 := DigitValue(s[0]), DigitValue(s[1]);
      var b0 := v0 * 4 + v1 / 16;
      if |s| == 2 then [b0]
      else
        var v2 := DigitValue(s[2]);
        var b1 := v1 % 16 * 16 + v2 / 4;
        if |s| == 3 then [b0, b1]
        else Triple(s[..4]) + DecodeDigits(s[4..])
  }

  function Decode(s: string): Option<seq<Byte>> {
    var digits := WithoutLineBreaks(s);
    if AllDigits(digits) && |digits| % 4 != 1 then Some(DecodeDigits(digits)) else None
  }

  /** Splitting a byte's bits over two digits loses nothing. */
  lemma SplitBits(b0: Byte, b1: Byte, b2: Byte)
    ensures (b0 % 4 * 16 + b1 / 16) / 16 == b0 % 4 && (b0 % 4 * 16 + b1 / 16) % 16 == b1 / 16
    ensures (b1 % 16 * 4 + b2 / 64) / 4 == b1 % 16 && (b1 % 16 * 4 + b2 / 64) % 4 == b2 / 64
    ensures b0 / 4 * 4 + b0 % 4 == b0 && b1 / 16 * 16 + b1 % 16 == b1 && b2 / 64 * 64 + b2 % 64 == b2
  {
  }

  lemma TripleOfQuad(b0: Byte, b1: Byte, b2: Byte)
    ensures AllDigits(Quad(b0, b1, b2)) && Triple(Quad(b0, b1, b2)) == [b0, b1, b2]
  {
    var v0, v1: Sextet, v2: Sextet, v3 := b0 / 4, b0 % 4 * 16 + b1 / 16, b1 % 16 * 4 + b2 / 64, b2 % 64;
    DigitRoundTrip(v0);
    DigitRoundTrip(v1);
    DigitRoundTrip(v2);
    DigitRoundTrip(v3);
    SplitBits(b0, b1, b2);
    var q := Quad(b0, b1, b2);
    assert q[0] == Digit(v0) && q[1] == Digit(v1) && q[2] == Digit(v2) && q[3] == Digit(v3);
    assert AllDigits(q);
    var t := Triple(q);
    assert t[0] == b0;
    assert t[1] == b1;
    assert t[2] == b2;
  }

  lemma ShortTails(bytes: seq<Byte>)
    requires 1 <= |bytes| <= 2
    ensures AllDigits(Encode(bytes)) && |Encode(bytes)| == |bytes| + 1
    ensures DecodeDigits(Encode(bytes)) == bytes
  {
    DigitRoundTrip(bytes[0] / 4);
    SplitBits(bytes[0], bytes[|bytes| - 1], 0);
    if |bytes| == 1 {
      DigitRoundTrip(bytes[0] % 4 * 16);
    } else {
      DigitRoundTrip(bytes[0] % 4 * 16 + bytes[1] / 16);
      DigitRoundTrip(bytes[1] % 16 * 4);
    }
  }

  lemma {:induction false} EncodeShape(bytes: seq<Byte>)
    ensures AllDigits(Encode(bytes)) && |Encode(bytes)| % 4 != 1
    ensures bytes != [] ==> Encode(bytes) != ""
  {
    if |bytes| > 2 {
      EncodeShape(bytes[3..]);
      TripleOfQuad(bytes[0], bytes[1], bytes[2]);
      DigitsConcat(Quad(bytes[0], bytes[1], bytes[2]), Encode(bytes[3..]));
    } else if |bytes| > 0 {
      ShortTails(bytes);
    }
  }

  lemma {:induction false} DigitsConcat(a: string, b: string)
    requires AllDigits(a) && AllDigits(b)
    ensures AllDigits(a + b)
  {
    forall i | 0 <= i < |a + b| ensures IsDigit((a + b)[i]) {
      assert (a + b)[i] == if i < |a| then a[i] else b[i - |a|];
    }
  }

  lemma {:induction false} NoLineBreaks(s: string)
    requires AllDigits(s)
    ensures WithoutLineBreaks(s) == s
  {
    if s != "" { NoLineBreaks(s[1..]); }
  }

  /** Decoding a quad and what follows it. */
  lemma {:induction false} DecodeQuad(q: string, rest: string)
    requires |q| == 4 && AllDigits(q) && AllDigits(rest) && |rest| % 4 != 1
    ensures AllDigits(q + rest) && |q + rest| % 4 != 1
    ensures DecodeDigits(q + rest) == Triple(q) + DecodeDigits(rest)
  {
    DigitsConcat(q, rest);
    assert (q + rest)[..4] == q && (q + rest)[4..] == rest;
  }

  lemma {:induction false} DecodeLong(bytes: seq<Byte>, tail: string)
    requires |bytes| > 2 && tail == Encode(bytes[3..])
    requires AllDigits(tail) && |tail| % 4 != 1 && DecodeDigits(tail) == bytes[3..]
    ensures AllDigits(Encode(bytes)) && |Encode(bytes)| % 4 != 1
    ensures DecodeDigits(Encode(bytes)) == bytes
  {
    TripleOfQuad(bytes[0], bytes[1], bytes[2]);
    DecodeQuad(Quad(bytes[0], bytes[1], bytes[2]), tail);
    assert [bytes[0], bytes[1], bytes[2]] + bytes[3..] == bytes;
  }

  lemma {:induction false} DecodeDigitsOfEncode(bytes: seq<Byte>)
    ensures AllDigits(Encode(bytes)) && |Encode(bytes)| % 4 != 1
    ensures DecodeDigits(Encode(bytes)) == bytes
  {
    if |bytes| > 2 {
      DecodeDigitsOfEncode(bytes[3..]);
      DecodeLong(bytes, Encode(bytes[3..]));
    } else if |bytes| > 0 {
      ShortTails(bytes);
    }
  }

  /** Decoding undoes encoding. */
  lemma {:induction false} DecodeUndoesEncode(bytes: seq<Byte>)
    ensures Decode(Encode(bytes)) == Some(bytes)
  {
    EncodeShape(bytes);
    NoLineBreaks(Encode(bytes));
    DecodeDigitsOfEncode(bytes);
  }

  /** Distinct byte strings have distinct encodings. */
  lemma {:induction false} EncodeIsInjective(a: seq<Byte>, b: seq<Byte>)
    ensures Encode(a) == Encode(b) <==> a == b
  {
    DecodeUndoesEncode(a);
    DecodeUndoesEncode(b);
  }

  /** Text that is the encoding of something. */
  ghost predicate Canonical(s: string) {
    exists bytes: seq<Byte> :: Encode(bytes) == s
  }

  /** A text is canonical exactly when decoding and encoding it again gives it back. */
  lemma {:induction false} CanonicalMeansRoundTrip(s: string)
    ensures Canonical(s) <==> Decode(s).Some? && Encode(Decode(s).value) == s
  {
    if Canonical(s) {
      var bytes: seq<Byte> :| Encode(bytes) == s;
      DecodeUndoesEncode(bytes);
    }
  }

  // ----- the meaning of an encoding

  /** The byte at i, zero after the end. */
  function ByteAt(bytes: seq<Byte>, i: nat): int {
    if i < |bytes| then bytes[i] else 0
  }

  /** The value of the digit at i, zero after the end. */
  function SextetAt(s: string, i: nat): int
    requires AllDigits(s)
  {
    if i < |s| then DigitValue(s[i]) else 0
  }

  /** The digits from 4g on spell the same 24-bit number as the bytes from 3g on, both
      padded with zero bits. */
  ghost predicate SpellsGroup(bytes: seq<Byte>, s: string, g: nat)
    requires AllDigits(s)
  {
    ByteAt(bytes, 3 * g) * 65536 + ByteAt(bytes, 3 * g + 1) * 256 + ByteAt(bytes, 3 * g + 2) ==
    SextetAt(s, 4 * g) * 262144 + SextetAt(s, 4 * g + 1) * 4096 + SextetAt(s, 4 * g + 2) * 64 + SextetAt(s, 4 * g + 3)
  }

  lemma QuadSpells(b0: int, b1: int, b2: int)
    requires 0 <= b0 < 256 && 0 <= b1 < 256 && 0 <= b2 < 256
    ensures b0 / 4 * 262144 + (b0 % 4 * 16 + b1 / 16) * 4096 + (b1 % 16 * 4 + b2 / 64) * 64 + b2 % 64 ==
            b0 * 65536 + b1 * 256 + b2
  {
  }

  /** The values of the first digits, those after the end being zero. */
  ghost predicate StartsWithValues(s: string, v0: int, v1: int, v2: int, v3: int)
    requires AllDigits(s)
  {
    SextetAt(s, 0) == v0 && SextetAt(s, 1) == v1 && SextetAt(s, 2) == v2 && SextetAt(s, 3) == v3
  }

  lemma DigitsStart(s: string, v0: Sextet, v1: Sextet, v2: Sextet, v3: Sextet)
    requires AllDigits(s) && |s| >= 2 && s[0] == Digit(v0) && s[1] == Digit(v1)
    requires if |s| > 2 then s[2] == Digit(v2) else v2 == 0
    requires if |s| > 3 then s[3] == Digit(v3) else v3 == 0
    ensures StartsWithValues(s, v0, v1, v2, v3)
  {
    DigitRoundTrip(v0);
    DigitRoundTrip(v1);
    DigitRoundTrip(v2);
    DigitRoundTrip(v3);
  }

  lemma EncodeStarts(bytes: seq<Byte>)
    requires bytes != []
    ensures AllDigits(Encode(bytes))
    ensures var b0, b1, b2 := ByteAt(bytes, 0), ByteAt(bytes, 1), ByteAt(bytes, 2);
            StartsWithValues(Encode(bytes), b0 / 4, b0 % 4 * 16 + b1 / 16, b1 % 16 * 4 + b2 / 64, b2 % 64)
  {
    EncodeShape(bytes);
    if |bytes| == 1 {
      DigitsStart(Encode(bytes), bytes[0] / 4, bytes[0] % 4 * 16, 0, 0);
    } else if |bytes| == 2 {
      DigitsStart(Encode(bytes), bytes[0] / 4, bytes[0] % 4 * 16 + bytes[1] / 16, bytes[1] % 16 * 4, 0);
    } else {
      DigitsStart(Encode(bytes), bytes[0] / 4, bytes[0] % 4 * 16 + bytes[1] / 16,
                  bytes[1] % 16 * 4 + bytes[2] / 64, bytes[2] % 64);
    }
  }

  lemma FirstGroupSpells(bytes: seq<Byte>)
    requires bytes != []
    ensures AllDigits(Encode(bytes)) && SpellsGroup(bytes, Encode(bytes), 0)
  {
    EncodeStarts(bytes);
    QuadSpells(ByteAt(bytes, 0), ByteAt(bytes, 1), ByteAt(bytes, 2));
  }

  lemma {:induction false} LaterGroup(bytes: seq<Byte>, s: string, g: nat)
    requires AllDigits(s) && |bytes| >= 3 && |s| >= 4 && g > 0
    requires SpellsGroup(bytes[3..], s[4..], g - 1)
    ensures SpellsGroup(bytes, s, g)
  {
    assert forall i :: 3 <= i ==> ByteAt(bytes, i) == ByteAt(bytes[3..], i - 3);
    assert forall i :: 4 <= i ==> SextetAt(s, i) == SextetAt(s[4..], i - 4);
  }

  /** What an encoding means: as many digits as the bits need, and every group of four
      spells its three bytes, highest bit first (section 4 of RFC 4648). */
  lemma {:induction false} EncodeSpells(bytes: seq<Byte>, g: nat)
    requires 3 * g < |bytes|
    ensures AllDigits(Encode(bytes)) && |Encode(bytes)| == (8 * |bytes| + 5) / 6
    ensures SpellsGroup(bytes, Encode(bytes), g)
  {
    EncodeShape(bytes);
    EncodeLength(bytes);
    if g == 0 {
      FirstGroupSpells(bytes);
    } else {
      EncodeSpells(bytes[3..], g - 1);
      assert Encode(bytes)[4..] == Encode(bytes[3..]);
      LaterGroup(bytes, Encode(bytes), g);
    }
  }

  lemma {:induction false} EncodeLength(bytes: seq<Byte>)
    ensures |Encode(bytes)| == (8 * |bytes| + 5) / 6
  {
    if |bytes| > 2 { EncodeLength(bytes[3..]); }
  }

  // ----- what decoding ignores

  /** The bits that count in the last of so many digits. */
  function UsedBits(v: Sextet, length: nat): int {
    if length % 4 == 2 then v / 16 else if length % 4 == 3 then v / 4 else v
  }

  /** The digit with its other bits cleared. */
  function Clear(v: Sextet, length: nat): Sextet {
    if length % 4 == 2 then v / 16 * 16 else if length % 4 == 3 then v / 4 * 4 else v
  }

  /** Digits with the unused bits of the last one cleared. */
  function Cleared(s: string): string
    requires AllDigits(s)
  {
    if s == "" then "" else s[..|s| - 1] + [Digit(Clear(DigitValue(s[|s| - 1]), |s|))]
  }

  lemma QuadOfTriple(q: string)
    requires |q| == 4 && AllDigits(q)
    ensures var t := Triple(q); Quad(t[0], t[1], t[2]) == q
  {
    var v0, v1, v2, v3 := DigitValue(q[0]), DigitValue(q[1]), DigitValue(q[2]), DigitValue(q[3]);
    var t := Triple(q);
    assert t[0] / 4 == v0 && t[0] % 4 == v1 / 16;
    assert t[1] / 16 == v1 % 16 && t[1] % 16 == v2 / 4;
    assert t[2] / 64 == v2 % 4 && t[2] % 64 == v3;
  }

  /** Splitting joined bits gives the digits back. */
  lemma JoinBits(v0: int, v1: int, v2: int)
    requires 0 <= v0 < 64 && 0 <= v1 < 64 && 0 <= v2 < 64
    ensures var b0, b1 := v0 * 4 + v1 / 16, v1 % 16 * 16 + v2 / 4;
            && 0 <= b0 < 256 && 0 <= b1 < 256
            && b0 / 4 == v0 && b0 % 4 * 16 == v1 / 16 * 16
            && b0 % 4 * 16 + b1 / 16 == v1 && b1 % 16 * 4 == v2 / 4 * 4
  {
  }

  lemma EncodeJoined(v0: Sextet, v1: Sextet, v2: Sextet, b0: Byte, b1: Byte)
    requires b0 == v0 * 4 + v1 / 16 && b1 == v1 % 16 * 16 + v2 / 4
    ensures Encode([b0, b1]) == [Digit(v0), Digit(v1), Digit(Clear(v2, 3))]
  {
    JoinBits(v0, v1, v2);
    assert b0 / 4 == v0 && b0 % 4 * 16 + b1 / 16 == v1 && b1 % 16 * 4 == Clear(v2, 3);
  }

  lemma EncodeJoinedOne(v0: Sextet, v1: Sextet, b0: Byte)
    requires b0 == v0 * 4 + v1 / 16
    ensures Encode([b0]) == [Digit(v0), Digit(Clear(v1, 2))]
  {
    JoinBits(v0, v1, 0);
    assert b0 / 4 == v0 && b0 % 4 * 16 == Clear(v1, 2);
  }

  lemma DecodeTwo(s: string)
    requires |s| == 2 && AllDigits(s)
    ensures DecodeDigits(s) == [DigitValue(s[0]) * 4 + DigitValue(s[1]) / 16]
  {
  }

  lemma DecodeThree(s: string)
    requires |s| == 3 && AllDigits(s)
    ensures DecodeDigits(s) ==
            [DigitValue(s[0]) * 4 + DigitValue(s[1]) / 16, DigitValue(s[1]) % 16 * 16 + DigitValue(s[2]) / 4]
  {
  }

  lemma TwoCleared(s: string)
    requires |s| == 2 && AllDigits(s)
    ensures Encode(DecodeDigits(s)) == Cleared(s)
  {
    DecodeTwo(s);
    EncodeJoinedOne(DigitValue(s[0]), DigitValue(s[1]), DecodeDigits(s)[0]);
    ClearedLast(s);
    assert s[..1] == [s[0]];
  }

  lemma ThreeCleared(s: string)
    requires |s| == 3 && AllDigits(s)
    ensures Encode(DecodeDigits(s)) == Cleared(s)
  {
    DecodeThree(s);
    EncodeJoined(DigitValue(s[0]), DigitValue(s[1]), DigitValue(s[2]), DecodeDigits(s)[0], DecodeDigits(s)[1]);
    ClearedLast(s);
    assert s[..2] == [s[0], s[1]];
  }

  lemma ClearedLast(s: string)
    requires 2 <= |s| <= 3 && AllDigits(s)
    ensures Cleared(s) == s[..|s| - 1] + [Digit(Clear(DigitValue(s[|s| - 1]), |s|))]
  {
  }

  lemma {:induction false} ClearedLong(q: string, rest: string)
    requires |q| == 4 && AllDigits(q) && AllDigits(rest)
    ensures AllDigits(q + rest) && Cleared(q + rest) == q + Cleared(rest)
  {
    DigitsConcat(q, rest);
    var s := q + rest;
    if rest == "" {
      assert s == q && Cleared(q) == q[..3] + [q[3]];
    } else {
      assert s[|s| - 1] == rest[|rest| - 1] && |s| % 4 == |rest| % 4;
      assert s[..|s| - 1] == q + rest[..|rest| - 1];
    }
  }

  lemma {:induction false} EncodeLong(three: seq<Byte>, rest: seq<Byte>)
    requires |three| == 3
    ensures Encode(three + rest) == Quad(three[0], three[1], three[2]) + Encode(rest)
  {
    assert (three + rest)[3..] == rest;
  }

  lemma {:induction false} EncodeDecodeLong(q: string, rest: string)
    requires |q| == 4 && AllDigits(q) && AllDigits(rest) && |rest| % 4 != 1
    requires Encode(DecodeDigits(rest)) == Cleared(rest)
    ensures AllDigits(q + rest) && |q + rest| % 4 != 1
    ensures Encode(DecodeDigits(q + rest)) == Cleared(q + rest)
  {
    DecodeQuad(q, rest);
    EncodeLong(Triple(q), DecodeDigits(rest));
    QuadOfTriple(q);
    ClearedLong(q, rest);
  }

  /** Encoding what was decoded gives the digits back but for their unused bits. */
  lemma {:induction false} EncodeOfDecodeDigits(s: string)
    requires AllDigits(s) && |s| % 4 != 1
    ensures Encode(DecodeDigits(s)) == Cleared(s)
  {
    if |s| == 2 {
      TwoCleared(s);
    } else if |s| == 3 {
      ThreeCleared(s);
    } else if s != "" {
      EncodeOfDecodeDigits(s[4..]);
      EncodeDecodeLong(s[..4], s[4..]);
      assert s[..4] + s[4..] == s;
    }
  }

  /** The digits agree, except that the last ones need only agree on the bits that count. */
  predicate SameUsedBits(a: string, b: string)
    requires AllDigits(a) && AllDigits(b)
  {
    && |a| == |b|
    && (a != "" ==>
          var n := |a| - 1;
          a[..n] == b[..n] && UsedBits(DigitValue(a[n]), |a|) == UsedBits(DigitValue(b[n]), |b|))
  }

  /** Clearing two digits gives the same exactly when their other bits agree. */
  lemma ClearingKeeps(v: Sextet, w: Sextet, length: nat)
    ensures Digit(Clear(v, length)) == Digit(Clear(w, length)) <==> UsedBits(v, length) == UsedBits(w, length)
  {
    DigitRoundTrip(Clear(v, length));
    DigitRoundTrip(Clear(w, length));
  }

  lemma SameEnds<T>(a: seq<T>, x: T, b: seq<T>, y: T)
    ensures a + [x] == b + [y] <==> a == b && x == y
  {
    if a + [x] == b + [y] {
      assert (a + [x])[..|a|] == a && (b + [y])[..|b|] == b;
    }
  }

  lemma ClearedMeans(a: string, b: string)
    requires AllDigits(a) && AllDigits(b)
    ensures Cleared(a) == Cleared(b) <==> SameUsedBits(a, b)
  {
    assert |Cleared(a)| == |a| && |Cleared(b)| == |b|;
    if |a| == |b| && a != "" {
      var n := |a| - 1;
      var v, w := DigitValue(a[n]), DigitValue(b[n]);
      ClearingKeeps(v, w, |a|);
      SameEnds(a[..n], Digit(Clear(v, |a|)), b[..n], Digit(Clear(w, |a|)));
    }
  }

  /** A text decodes exactly when, line breaks apart, it is all digits and no digit stands
      alone. */
  lemma DecodesIff(s: string)
    ensures Decode(s).Some? <==>
            var digits := WithoutLineBreaks(s);
            |digits| % 4 != 1 && forall i :: 0 <= i < |digits| ==> exists v: Sextet :: Digit(v) == digits[i]
  {
    var digits := WithoutLineBreaks(s);
    forall i | 0 <= i < |digits| ensures IsDigit(digits[i]) <==> exists v: Sextet :: Digit(v) == digits[i] {
      if IsDigit(digits[i]) {
        assert Digit(DigitValue(digits[i])) == digits[i];
      }
      if v: Sextet :| Digit(v) == digits[i] {
        DigitRoundTrip(v);
      }
    }
  }

  /** Exactly how lenient decoding is: two texts decode alike when, line breaks apart, they
      differ at most in the unused bits of their last digits. */
  lemma {:induction false} DecodeAlike(s: string, t: string)
    requires Decode(s).Some? && Decode(t).Some?
    ensures Decode(s) == Decode(t) <==> SameUsedBits(WithoutLineBreaks(s), WithoutLineBreaks(t))
  {
    var a, b := WithoutLineBreaks(s), WithoutLineBreaks(t);
    EncodeOfDecodeDigits(a);
    EncodeOfDecodeDigits(b);
    EncodeIsInjective(DecodeDigits(a), DecodeDigits(b));
    ClearedMeans(a, b);
  }

  /** A text is canonical exactly when it decodes, has no line break and has no unused bit
      set. */
  lemma {:induction false} CanonicalMeansCleared(s: string)
    ensures Canonical(s) <==> AllDigits(s) && |s| % 4 != 1 && Cleared(s) == s
  {
    CanonicalMeansRoundTrip(s);
    if AllDigits(s) && |s| % 4 != 1 {
      NoLineBreaks(s);
      EncodeOfDecodeDigits(s);
    } else if Canonical(s) {
      var bytes: seq<Byte> :| Encode(bytes) == s;
      EncodeShape(bytes);
    }
  }

  /** So decoding is not injective: an unused bit makes no difference, ... */
  lemma DecodeIsLenient()
    ensures Decode("AA") == Decode("AB") == Some([0])
    ensures Canonical("AA") && !Canonical("AB")
  {
    assert Encode([0]) == "AA";
    DecodeUndoesEncode([0]);
    NoLineBreaks("AA");
    NoLineBreaks("AB");
    DecodeAlike("AA", "AB");
    CanonicalMeansCleared("AB");
  }

  /** ... and neither does a line break. */
  lemma DecodeSkipsLineBreaks()
    ensures Decode("A\nA") == Some([0]) && !Canonical("A\nA")
  {
    NoLineBreaks("A");
    assert "A\nA"[1..] == "\nA" && "\nA"[1..] == "A";
    assert WithoutLineBreaks("A\nA") == "A" + "A" == "AA";
    CanonicalMeansCleared("A\nA");
    assert !IsDigit("A\nA"[1]);
  }
}
