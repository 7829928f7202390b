/** JSON as the gateway's encoder writes it and its decoder reads it (RFC 8259): values
    with ordered structs and unordered maps, a printer, a parser, and the proof that
    parsing undoes printing. */
module Json {
  import opened Wrappers

  /** A value handed to the encoder. Structs print their fields in order, maps sort their
      keys. The decoder never yields a struct. */
  datatype Value =
    | Null
    | Bool(b: bool)
    | Num(n: int)
    | Str(s: string)
    | Arr(items: seq<Value>)
    | Struct(fields: seq<Field>)
    | Map(entries: map<string, Value>)

  datatype Field = Field(name: string, value: Value)

  // ----- key order

  predicate Leq(a: string, b: string) {
    a == "" || (b != "" && (a[0] < b[0] || (a[0] == b[0] && Leq(a[1..], b[1..]))))
  }

  lemma {:induction false} LeqTotal(a: string, b: string)
    ensures Leq(a, b) || Leq(b, a)
    ensures Leq(a, b) && Leq(b, a) ==> a == b
  {
    if a != "" && b != "" && a[0] == b[0] {
      LeqTotal(a[1..], b[1..]);
      assert a == [a[0]] + a[1..] && b == [b[0]] + b[1..];
    }
  }

  lemma {:induction false} LeqTrans(a: string, b: string, c: string)
    requires Leq(a, b) && Leq(b, c)
    ensures Leq(a, c)
  {
    if a != "" && b != "" && c != "" && a[0] == b[0] == c[0] {
      LeqTrans(a[1..], b[1..], c[1..]);
    }
  }

  /** The order of strings without recursion: a prefix comes first, and otherwise the
      first difference decides. */
  ghost predicate Precedes(a: string, b: string) {
    || a <= b
    || exists i :: 0 <= i < |a| && i < |b| && a[..i] == b[..i] && a[i] < b[i]
  }

  lemma {:induction false} LeqMeans(a: string, b: string)
    ensures Leq(a, b) <==> Precedes(a, b)
  {
    if a != "" && b != "" {
      if a[0] == b[0] {
        LeqMeans(a[1..], b[1..]);
        PrecedesTail(a, b);
      } else if a[0] < b[0] {
        assert a[..0] == b[..0];
      }
    }
  }

  lemma {:induction false} PrecedesTail(a: string, b: string)
    requires a != "" && b != "" && a[0] == b[0]
    ensures Precedes(a, b) <==> Precedes(a[1..], b[1..])
  {
    assert a == [a[0]] + a[1..] && b == [b[0]] + b[1..];
    if i :| 0 <= i < |a| && i < |b| && a[..i] == b[..i] && a[i] < b[i] {
      assert i > 0 && a[1..][..i - 1] == a[..i][1..] && b[1..][..i - 1] == b[..i][1..];
      assert a[1..][i - 1] < b[1..][i - 1];
    }
    if i :| 0 <= i < |a[1..]| && i < |b[1..]| && a[1..][..i] == b[1..][..i] && a[1..][i] < b[1..][i] {
      assert a[..i + 1] == [a[0]] + a[1..][..i] && b[..i + 1] == [b[0]] + b[1..][..i];
      assert a[i + 1] < b[i + 1];
    }
  }

  predicate IsMin(ks: set<string>, k: string) {
    k in ks && forall x :: x in ks ==> Leq(k, x)
  }

  lemma {:induction false} MinExists(ks: set<string>)
    requires ks != {}
    ensures exists k :: IsMin(ks, k)
    decreases |ks|
  {
    var k :| k in ks;
    LeqTotal(k, k);
    if ks - {k} != {} {
      MinExists(ks - {k});
      var m :| IsMin(ks - {k}, m);
      LeqTotal(k, m);
      if Leq(m, k) {
        assert IsMin(ks, m);
      } else {
        forall x | x in ks ensures Leq(k, x) {
          if x != k { LeqTrans(k, m, x); }
        }
        assert IsMin(ks, k);
      }
    } else {
      assert ks == {k};
      assert IsMin(ks, k);
    }
  }

  lemma {:induction false} MinUnique(ks: set<string>)
    ensures forall a, b :: IsMin(ks, a) && IsMin(ks, b) ==> a == b
  {
    forall a, b | IsMin(ks, a) && IsMin(ks, b) ensures a == b {
      LeqTotal(a, b);
    }
  }

  function MinKey(ks: set<string>): (k: string)
    requires ks != {}
    ensures IsMin(ks, k)
  {
    MinExists(ks);
    MinUnique(ks);
    var k :| k in ks && IsMin(ks, k);
    k
  }

  function SortedKeys(ks: set<string>): (r: seq<string>)
    ensures forall k :: k in r <==> k in ks
    decreases |ks|
  {
    if ks == {} then []
    else
      var k := MinKey(ks);
      [k] + SortedKeys(ks - {k})
  }

  ghost predicate StrictlySorted(r: seq<string>) {
    forall i, j :: 0 <= i < j < |r| ==> Leq(r[i], r[j]) && r[i] != r[j]
  }

  lemma {:induction false} SortedKeysSorted(ks: set<string>)
    ensures StrictlySorted(SortedKeys(ks))
    decreases |ks|
  {
    if ks != {} {
      var k := MinKey(ks);
      SortedKeysSorted(ks - {k});
      var rest := SortedKeys(ks - {k});
      forall j | 0 <= j < |rest| ensures Leq(k, rest[j]) && k != rest[j] {
        assert rest[j] in rest;
      }
    }
  }

  lemma {:induction false} SortedStartsAtMin(ks: set<string>, r: seq<string>)
    requires ks != {} && StrictlySorted(r) && forall k :: k in r <==> k in ks
    ensures r != [] && r[0] == MinKey(ks)
  {
    var k := MinKey(ks);
    assert k in r;
    var i :| 0 <= i < |r| && r[i] == k;
    assert r[0] in r;
    LeqTotal(k, r[0]);
  }

  lemma {:induction false} SortedTail(ks: set<string>, r: seq<string>, x: string)
    requires r != [] && StrictlySorted(r) && forall k :: k in r <==> k in ks
    ensures x in r[1..] <==> x in ks - {r[0]}
  {
    if x in r[1..] {
      var i :| 0 <= i < |r[1..]| && r[1..][i] == x;
      assert r[i + 1] == x && r[0] != r[i + 1] && x in r;
    }
    if x in ks - {r[0]} {
      assert x in r;
      var i :| 0 <= i < |r| && r[i] == x;
      assert r[1..][i - 1] == x;
    }
  }

  /** There is only one way to list a set of keys in increasing order, so an encoder in
      another language that sorts its keys lists them the same way. */
  lemma {:induction false} SortedKeysUnique(ks: set<string>, r: seq<string>)
    requires StrictlySorted(r) && forall k :: k in r <==> k in ks
    ensures r == SortedKeys(ks)
    decreases |ks|
  {
    assert r != [] ==> r[0] in r;
    if ks != {} {
      SortedStartsAtMin(ks, r);
      forall x ensures x in r[1..] <==> x in ks - {r[0]} { SortedTail(ks, r, x); }
      SortedKeysUnique(ks - {r[0]}, r[1..]);
      assert r == [r[0]] + r[1..];
    }
  }

  // ----- strings

  function HexDigit(v: int): char
    requires 0 <= v < 16
  {
    "0123456789abcdef"[v]
  }

  predicate IsHex(c: char) {
    '0' <= c <= '9' || 'a' <= c <= 'f' || 'A' <= c <= 'F'
  }

  function HexValue(c: char): (v: int)
    requires IsHex(c)
    ensures 0 <= v < 16
  {
    if '0' <= c <= '9' then (c - '0') as int
    else if 'a' <= c <= 'f' then (c - 'a') as int + 10
    else (c - 'A') as int + 10
  }

  /** A code unit of four hex digits. */
  function Hex4(u: int): string
    requires 0 <= u < 0x10000
  {
    [HexDigit(u / 4096), HexDigit(u / 256 % 16), HexDigit(u / 16 % 16), HexDigit(u % 16)]
  }

  predicate StartsHex4(s: string) {
    |s| >= 4 && IsHex(s[0]) && IsHex(s[1]) && IsHex(s[2]) && IsHex(s[3])
  }

  function Unhex4(s: string): (u: int)
    requires StartsHex4(s)
    ensures 0 <= u < 0x10000
  {
    HexValue(s[0]) * 4096 + HexValue(s[1]) * 256 + HexValue(s[2]) * 16 + HexValue(s[3])
  }

  /** Characters written as a code unit: other controls, HTML's three, and the two line
      separators that JavaScript does not allow. */
  predicate NeedsUnit(c: char) {
    c < ' ' || c == '<' || c == '>' || c == '&' || c == '\U{2028}' || c == '\U{2029}'
  }

  function Escape(c: char): string {
    if c == '"' then "\\\""
    else if c == '\\' then "\\\\"
    else if c == '\U{8}' then "\\b"
    else if c == '\U{C}' then "\\f"
    else if c == '\n' then "\\n"
    else if c == '\r' then "\\r"
    else if c == '\t' then "\\t"
    else if NeedsUnit(c) then "\\u" + Hex4(c as int)
    else [c]
  }

  function Escaped(s: string): string {
    if s == "" then "" else Escape(s[0]) + Escaped(s[1..])
  }

  function Quote(s: string): string {
    "\"" + Escaped(s) + "\""
  }

  const REPLACEMENT := '\U{FFFD}'

  predicate HighSurrogate(u: int) { 0xD800 <= u < 0xDC00 }
  predicate LowSurrogate(u: int) { 0xDC00 <= u < 0xE000 }

  function UnitChar(u: int): char
    requires 0 <= u < 0x10000
  {
    if HighSurrogate(u) || LowSurrogate(u) then REPLACEMENT else u as char
  }

  function SimpleEscape(c: char): Option<char> {
    if c == '"' || c == '\\' || c == '/' then Some(c)
    else if c == 'b' then Some('\U{8}')
    else if c == 'f' then Some('\U{C}')
    else if c == 'n' then Some('\n')
    else if c == 'r' then Some('\r')
    else if c == 't' then Some('\t')
    else None
  }

  /** A low surrogate escape right here completes the pair that `u` opens. */
  predicate StartsPair(u: int, s: string) {
    HighSurrogate(u) && |s| >= 6 && s[0] == '\\' && s[1] == 'u' && StartsHex4(s[2..]) && LowSurrogate(Unhex4(s[2..]))
  }

  function Prepend(c: char, r: Option<(string, string)>): Option<(string, string)> {
    match r
    case None => None
    case Some((s, rest)) => Some(([c] + s, rest))
  }

  /** The string that starts after an opening quote, and the text after its closing one. */
  function ParseString(s: string): (r: Option<(string, string)>)
    ensures r.Some? ==> |r.value.1| < |s|
  {
    if s == "" then None
    else if s[0] == '"' then Some(("", s[1..]))
    else if s[0] == '\\' then
      if |s| < 2 then None
      else if s[1] == 'u' then
        if !StartsHex4(s[2..]) then None
        else
          var u := Unhex4(s[2..]);
          if StartsPair(u, s[6..]) then
            var low := Unhex4(s[8..]);
            Prepend((0x10000 + (u - 0xD800) * 0x400 + (low - 0xDC00)) as char, ParseString(s[12..]))
          else Prepend(UnitChar(u), ParseString(s[6..]))
      else
        var e := SimpleEscape(s[1]);
        if e.None? then None else Prepend(e.value, ParseString(s[2..]))
    else if s[0] < ' ' then None
    else Prepend(s[0], ParseString(s[1..]))
  }

  lemma {:induction false} Nibbles(u: int)
    requires 0 <= u < 0x10000
    ensures u / 4096 * 4096 + u / 256 % 16 * 256 + u / 16 % 16 * 16 + u % 16 == u
    ensures 0 <= u / 4096 < 16
  {
    assert u / 256 / 16 == u / 4096 && u / 16 / 16 == u / 256;
  }

  lemma {:induction false} Hex4RoundTrip(u: int, s: string)
    requires 0 <= u < 0x10000 && |s| >= 4 && s[..4] == Hex4(u)
    ensures StartsHex4(s) && Unhex4(s) == u
  {
    Nibbles(u);
    var h := s[..4];
    assert h[0] == s[0] && h[1] == s[1] && h[2] == s[2] && h[3] == s[3];
    HexRoundTrip(u / 4096);
    HexRoundTrip(u / 256 % 16);
    HexRoundTrip(u / 16 % 16);
    HexRoundTrip(u % 16);
  }

  lemma {:induction false} HexRoundTrip(v: int)
    requires 0 <= v < 16
    ensures IsHex(HexDigit(v)) && HexValue(HexDigit(v)) == v
  {
  }

  lemma {:induction false} UnescapeUnit(c: char, t: string)
    requires c as int < 0x10000 && Escape(c) == "\\u" + Hex4(c as int)
    ensures ParseString(Escape(c) + t) == Prepend(c, ParseString(t))
  {
    var s := Escape(c) + t;
    assert s[0] == '\\' && s[1] == 'u' && |s| >= 6;
    assert s[2..][..4] == Hex4(c as int) && s[6..] == t;
    Hex4RoundTrip(c as int, s[2..]);
    assert UnitChar(c as int) == c;
  }

  lemma {:induction false} UnescapeShort(c: char, e: char, t: string)
    requires SimpleEscape(e) == Some(c) && e != 'u'
    ensures ParseString(['\\', e] + t) == Prepend(c, ParseString(t))
  {
    var s := ['\\', e] + t;
    assert s[0] == '\\' && s[1] == e && s[2..] == t;
  }

  lemma {:induction false} UnescapeOne(c: char, t: string)
    ensures ParseString(Escape(c) + t) == Prepend(c, ParseString(t))
  {
    if c == '"' { UnescapeShort(c, '"', t); }
    else if c == '\\' { UnescapeShort(c, '\\', t); }
    else if c == '\U{8}' { UnescapeShort(c, 'b', t); }
    else if c == '\U{C}' { UnescapeShort(c, 'f', t); }
    else if c == '\n' { UnescapeShort(c, 'n', t); }
    else if c == '\r' { UnescapeShort(c, 'r', t); }
    else if c == '\t' { UnescapeShort(c, 't', t); }
    else if NeedsUnit(c) { UnescapeUnit(c, t); }
    else {
      var s := [c] + t;
      assert s[0] == c && s[1..] == t;
    }
  }

  lemma {:induction false} ParseStringOfEscaped(s: string, rest: string)
    ensures ParseString(Escaped(s) + "\"" + rest) == Some((s, rest))
  {
    if s == "" {
      assert Escaped(s) + "\"" + rest == "\"" + rest;
    } else {
      var tail := Escaped(s[1..]) + "\"" + rest;
      assert Escaped(s) + "\"" + rest == Escape(s[0]) + tail;
      UnescapeOne(s[0], tail);
      ParseStringOfEscaped(s[1..], rest);
      assert [s[0]] + s[1..] == s;
    }
  }

  // ----- numbers

  predicate IsDigit(c: char) { '0' <= c <= '9' }

  function Digits(n: nat): string {
    if n < 10 then ['0' + n as char] else Digits(n / 10) + ['0' + (n % 10) as char]
  }

  function Decimal(n: int): string {
    if n < 0 then "-" + Digits(-n) else Digits(n)
  }

  function DigitCount(s: string): (n: nat)
    ensures n <= |s|
    ensures forall i :: 0 <= i < n ==> IsDigit(s[i])
    ensures n < |s| ==> !IsDigit(s[n])
  {
    if s == "" || !IsDigit(s[0]) then 0 else 1 + DigitCount(s[1..])
  }

  function DigitsValue(s: string): nat
    requires forall i :: 0 <= i < |s| ==> IsDigit(s[i])
  {
    if s == "" then 0
    else
      assert IsDigit(s[|s| - 1]);
      DigitsValue(s[..|s| - 1]) * 10 + (s[|s| - 1] - '0') as int
  }

  /** Text at which an integer ends. */
  predicate Ends(s: string) {
    s != "" ==> !IsDigit(s[0]) && s[0] != '.' && s[0] != 'e' && s[0] != 'E'
  }

  /** An unsigned integer without leading zeros, and the text after it. */
  function ParseNat(s: string): (r: Option<(nat, string)>)
    ensures r.Some? ==> |r.value.1| < |s|
  {
    var k := DigitCount(s);
    if k == 0 || (s[0] == '0' && k > 1) || !Ends(s[k..]) then None
    else Some((DigitsValue(s[..k]), s[k..]))
  }

  function ParseNumber(s: string): (r: Option<(Value, string)>)
    ensures r.Some? ==> |r.value.1| < |s|
  {
    if s != "" && s[0] == '-' then
      match ParseNat(s[1..])
      case None => None
      case Some((n, rest)) => if n == 0 then None else Some((Num(0 - n as int), rest))
    else
      match ParseNat(s)
      case None => None
      case Some((n, rest)) => Some((Num(n), rest))
  }

  lemma {:induction false} DigitsShape(n: nat)
    ensures Digits(n) != "" && forall i :: 0 <= i < |Digits(n)| ==> IsDigit(Digits(n)[i])
    ensures DigitsValue(Digits(n)) == n
    ensures Digits(n)[0] == '0' ==> |Digits(n)| == 1
    ensures n > 0 ==> Digits(n)[0] != '0'
  {
    if n >= 10 {
      DigitsShape(n / 10);
      assert Digits(n)[..|Digits(n)| - 1] == Digits(n / 10);
    } else {
      assert Digits(n)[..0] == "";
    }
  }

  lemma {:induction false} DigitCountOf(ds: string, rest: string)
    requires forall i :: 0 <= i < |ds| ==> IsDigit(ds[i])
    requires rest != "" ==> !IsDigit(rest[0])
    ensures DigitCount(ds + rest) == |ds|
  {
    if ds == "" {
      assert ds + rest == rest;
    } else {
      assert (ds + rest)[1..] == ds[1..] + rest;
      DigitCountOf(ds[1..], rest);
    }
  }

  lemma {:induction false} ParseNatOfDigits(n: nat, rest: string)
    requires Ends(rest)
    ensures ParseNat(Digits(n) + rest) == Some((n, rest))
  {
    var ds := Digits(n);
    DigitsShape(n);
    DigitCountOf(ds, rest);
    var s := ds + rest;
    assert s[..|ds|] == ds && s[|ds|..] == rest && s[0] == ds[0];
  }

  lemma {:induction false} ParseMinus(ds: string, n: nat, rest: string)
    requires n > 0 && ParseNat(ds) == Some((n, rest))
    ensures ParseNumber("-" + ds) == Some((Num(0 - n as int), rest))
  {
    var s := "-" + ds;
    assert s[0] == '-' && s[1..] == ds;
  }

  lemma {:induction false} ParsePlain(ds: string, n: nat, rest: string)
    requires ds != "" && ds[0] != '-' && ParseNat(ds) == Some((n, rest))
    ensures ParseNumber(ds) == Some((Num(n), rest))
  {
  }

  lemma {:induction false} DecimalStart(n: int)
    ensures Decimal(n) != "" && (Decimal(n)[0] == '-' || IsDigit(Decimal(n)[0]))
  {
    DigitsShape(if n < 0 then -n else n);
  }

  lemma {:induction false} ParseNonNegative(n: nat, rest: string)
    requires Ends(rest)
    ensures ParseNumber(Digits(n) + rest) == Some((Num(n), rest))
  {
    var ds := Digits(n) + rest;
    ParseNatOfDigits(n, rest);
    DigitsShape(n);
    assert ds[0] == Digits(n)[0];
    ParsePlain(ds, n, rest);
  }

  lemma {:induction false} ParseNegative(n: nat, rest: string)
    requires n > 0 && Ends(rest)
    ensures ParseNumber("-" + Digits(n) + rest) == Some((Num(0 - n as int), rest))
  {
    ParseNatOfDigits(n, rest);
    ParseMinus(Digits(n) + rest, n, rest);
    assert "-" + Digits(n) + rest == "-" + (Digits(n) + rest);
  }

  lemma {:induction false} ParseNumberOfDecimal(n: int, rest: string)
    requires Ends(rest)
    ensures ParseNumber(Decimal(n) + rest) == Some((Num(n), rest))
  {
    if n < 0 {
      ParseNegative(-n, rest);
    } else {
      ParseNonNegative(n, rest);
    }
  }

  // ----- printing

  /** The members of a map in printing order. */
  function MembersOf(m: map<string, Value>, keys: seq<string>): (r: seq<Field>)
    requires forall i :: 0 <= i < |keys| ==> keys[i] in m
    ensures |r| == |keys| && forall i :: 0 <= i < |r| ==> r[i] == Field(keys[i], m[keys[i]])
  {
    seq(|keys|, i requires 0 <= i < |keys| => Field(keys[i], m[keys[i]]))
  }

  function Members(v: Value): (r: seq<Field>)
    requires v.Struct? || v.Map?
    ensures forall i :: 0 <= i < |r| ==> r[i].value < v
  {
    if v.Struct? then v.fields
    else
      var keys := SortedKeys(v.entries.Keys);
      assert forall i :: 0 <= i < |keys| ==> keys[i] in keys;
      MembersOf(v.entries, keys)
  }

  function Marshal(v: Value): string
    decreases v, 1, 0
  {
    match v
    case Null => "null"
    case Bool(b) => if b then "true" else "false"
    case Num(n) => Decimal(n)
    case Str(s) => Quote(s)
    case Arr(items) => "[" + MarshalItems(v, items) + "]"
    case _ => "{" + MarshalMembers(v, Members(v)) + "}"
  }

  function MarshalItems(v: Value, items: seq<Value>): string
    requires forall i :: 0 <= i < |items| ==> items[i] < v
    decreases v, 0, |items|
  {
    if items == [] then ""
    else if |items| == 1 then Marshal(items[0])
    else Marshal(items[0]) + "," + MarshalItems(v, items[1..])
  }

  function MarshalMembers(v: Value, ms: seq<Field>): string
    requires forall i :: 0 <= i < |ms| ==> ms[i].value < v
    decreases v, 0, |ms|
  {
    if ms == [] then ""
    else
      var one := Quote(ms[0].name) + ":" + Marshal(ms[0].value);
      if |ms| == 1 then one else one + "," + MarshalMembers(v, ms[1..])
  }

  /** What a value denotes: the same value with every struct read as the map of its
      fields. */
  ghost function Denote(v: Value): Value
    decreases v, 1, 0
  {
    match v
    case Arr(items) => Arr(seq(|items|, i requires 0 <= i < |items| => Denote(items[i])))
    case Struct(fields) => Map(DenoteMembers(v, fields))
    case Map(m) => Map(map k | k in m :: Denote(m[k]))
    case _ => v
  }

  /** Members as a map; a later member of the same name wins. */
  ghost function DenoteMembers(v: Value, ms: seq<Field>): map<string, Value>
    requires forall i :: 0 <= i < |ms| ==> ms[i].value < v
    decreases v, 0, |ms|
  {
    if ms == [] then map[]
    else
      var n := |ms| - 1;
      DenoteMembers(v, ms[..n])[ms[n].name := Denote(ms[n].value)]
  }

  // ----- what is printed

  function CommaJoined(texts: seq<string>): string {
    if texts == [] then ""
    else if |texts| == 1 then texts[0]
    else texts[0] + "," + CommaJoined(texts[1..])
  }

  /** The keys, each once, in increasing order. */
  ghost predicate InKeyOrder(keys: seq<string>, ks: set<string>) {
    && (forall k :: k in keys <==> k in ks)
    && (forall i, j :: 0 <= i < j < |keys| ==> Precedes(keys[i], keys[j]) && keys[i] != keys[j])
  }

  function MemberText(name: string, value: Value): string {
    Quote(name) + ":" + Marshal(value)
  }

  /** The texts of the members under these keys. */
  function MemberTexts(m: map<string, Value>, keys: seq<string>): seq<string>
    requires forall i :: 0 <= i < |keys| ==> keys[i] in m
  {
    seq(|keys|, i requires 0 <= i < |keys| => MemberText(keys[i], m[keys[i]]))
  }

  lemma {:induction false} MembersJoined(v: Value, ms: seq<Field>, texts: seq<string>)
    requires forall i :: 0 <= i < |ms| ==> ms[i].value < v
    requires |texts| == |ms| && forall i :: 0 <= i < |ms| ==> texts[i] == MemberText(ms[i].name, ms[i].value)
    ensures MarshalMembers(v, ms) == CommaJoined(texts)
  {
    if |ms| > 1 {
      MembersJoined(v, ms[1..], texts[1..]);
    }
  }

  lemma {:induction false} ItemsJoined(v: Value, items: seq<Value>, texts: seq<string>)
    requires forall i :: 0 <= i < |items| ==> items[i] < v
    requires |texts| == |items| && forall i :: 0 <= i < |items| ==> texts[i] == Marshal(items[i])
    ensures MarshalItems(v, items) == CommaJoined(texts)
  {
    if |items| > 1 {
      ItemsJoined(v, items[1..], texts[1..]);
    }
  }

  /** A map prints as its members in increasing key order. */
  lemma {:induction false} MapPrintsInOrder(m: map<string, Value>) returns (keys: seq<string>)
    ensures InKeyOrder(keys, m.Keys)
    ensures forall i :: 0 <= i < |keys| ==> keys[i] in m
    ensures Marshal(Map(m)) == "{" + CommaJoined(MemberTexts(m, keys)) + "}"
  {
    keys := SortedKeys(m.Keys);
    SortedKeysSorted(m.Keys);
    forall i | 0 <= i < |keys| ensures keys[i] in m {
      assert keys[i] in keys;
    }
    forall i, j | 0 <= i < j < |keys| ensures Precedes(keys[i], keys[j]) {
      LeqMeans(keys[i], keys[j]);
    }
    MembersJoined(Map(m), Members(Map(m)), MemberTexts(m, keys));
  }

  /** A struct prints as its fields in their own order, an array as its items. */
  lemma {:induction false} SequencePrints(v: Value, texts: seq<string>)
    requires v.Struct? || v.Arr?
    requires v.Struct? ==>
               |texts| == |v.fields|
               && forall i :: 0 <= i < |v.fields| ==> texts[i] == MemberText(v.fields[i].name, v.fields[i].value)
    requires v.Arr? ==>
               |texts| == |v.items| && forall i :: 0 <= i < |v.items| ==> texts[i] == Marshal(v.items[i])
    ensures v.Struct? ==> Marshal(v) == "{" + CommaJoined(texts) + "}"
    ensures v.Arr? ==> Marshal(v) == "[" + CommaJoined(texts) + "]"
  {
    if v.Struct? {
      MembersJoined(v, v.fields, texts);
    } else {
      ItemsJoined(v, v.items, texts);
    }
  }

  /** The scalar values print as JSON's own words, and numbers in decimal. */
  lemma ScalarsPrint(n: nat)
    ensures Marshal(Null) == "null" && Marshal(Bool(true)) == "true" && Marshal(Bool(false)) == "false"
    ensures Marshal(Num(n)) == if n < 10 then ['0' + n as char] else Marshal(Num(n / 10)) + Marshal(Num(n % 10))
    ensures n > 0 ==> Marshal(Num(0 - n)) == "-" + Marshal(Num(n))
  {
  }

  predicate IsLowerHex(c: char) { '0' <= c <= '9' || 'a' <= c <= 'f' }

  /** The characters that are printed as a code unit. */
  predicate PrintedAsUnit(c: char) {
    || (c < ' ' && c !in {'\U{8}', '\U{C}', '\n', '\r', '\t'})
    || c in {'<', '>', '&', '\U{2028}', '\U{2029}'}
  }

  lemma LowerHexDigit(v: int)
    requires 0 <= v < 16
    ensures IsLowerHex(HexDigit(v))
  {
  }

  lemma Hex4IsLower(u: int)
    requires 0 <= u < 0x10000
    ensures |Hex4(u)| == 4 && forall i :: 0 <= i < 4 ==> IsLowerHex(Hex4(u)[i])
    ensures StartsHex4(Hex4(u)) && Unhex4(Hex4(u)) == u
  {
    Nibbles(u);
    LowerHexDigit(u / 4096);
    LowerHexDigit(u / 256 % 16);
    LowerHexDigit(u / 16 % 16);
    LowerHexDigit(u % 16);
    assert Hex4(u)[..4] == Hex4(u);
    Hex4RoundTrip(u, Hex4(u));
  }

  /** The two-character escapes, and the characters printed as they are. */
  lemma ShortEscapes(c: char)
    ensures Escape('"') == ['\\', '"'] && Escape('\\') == ['\\', '\\']
    ensures Escape('\U{8}') == ['\\', 'b'] && Escape('\U{C}') == ['\\', 'f']
    ensures Escape('\n') == ['\\', 'n'] && Escape('\r') == ['\\', 'r'] && Escape('\t') == ['\\', 't']
    ensures c >= ' ' && c != '"' && c != '\\' && !PrintedAsUnit(c) ==> Escape(c) == [c]
  {
  }

  /** Every other control, HTML's three and the two separators print as six characters
      with lower-case digits. */
  lemma {:induction false} UnitEscapes(c: char)
    requires PrintedAsUnit(c)
    ensures |Escape(c)| == 6 && Escape(c)[..2] == ['\\', 'u']
    ensures forall i :: 2 <= i < 6 ==> IsLowerHex(Escape(c)[i])
    ensures StartsHex4(Escape(c)[2..]) && Unhex4(Escape(c)[2..]) == c as int
  {
    Hex4IsLower(c as int);
    assert Escape(c) == ['\\', 'u'] + Hex4(c as int);
    assert Escape(c)[2..] == Hex4(c as int);
    assert forall i :: 2 <= i < 6 ==> Escape(c)[i] == Hex4(c as int)[i - 2];
  }

  // ----- parsing

  predicate IsBlank(c: char) { c == ' ' || c == '\t' || c == '\n' || c == '\r' }

  function SkipBlank(s: string): (r: string)
    ensures |r| <= |s|
  {
    if s != "" && IsBlank(s[0]) then SkipBlank(s[1..]) else s
  }

  function ParseValue(s: string): (r: Option<(Value, string)>)
    ensures r.Some? ==> |r.value.1| < |s|
    decreases |s|, 0
  {
    var t := SkipBlank(s);
    if t == "" then None
    else if t[0] == '"' then
      match ParseString(t[1..])
      case None => None
      case Some((str, rest)) => Some((Str(str), rest))
    else if t[0] == '[' then
      var u := SkipBlank(t[1..]);
      if u != "" && u[0] == ']' then Some((Arr([]), u[1..])) else ParseItems(u, [])
    else if t[0] == '{' then
      var u := SkipBlank(t[1..]);
      if u != "" && u[0] == '}' then Some((Map(map[]), u[1..])) else ParseMembers(u, map[])
    else if "null" <= t then Some((Null, t[4..]))
    else if "true" <= t then Some((Bool(true), t[4..]))
    else if "false" <= t then Some((Bool(false), t[5..]))
    else ParseNumber(t)
  }

  function ParseItems(s: string, done: seq<Value>): (r: Option<(Value, string)>)
    ensures r.Some? ==> |r.value.1| < |s|
    decreases |s|, 1
  {
    match ParseValue(s)
    case None => None
    case Some((v, rest)) =>
      var t := SkipBlank(rest);
      if t == "" then None
      else if t[0] == ',' then ParseItems(t[1..], done + [v])
      else if t[0] == ']' then Some((Arr(done + [v]), t[1..]))
      else None
  }

  function ParseMembers(s: string, done: map<string, Value>): (r: Option<(Value, string)>)
    ensures r.Some? ==> |r.value.1| < |s|
    decreases |s|, 1
  {
    var q := SkipBlank(s);
    if q == "" || q[0] != '"' then None
    else match ParseString(q[1..])
      case None => None
      case Some((name, afterName)) =>
        var colon := SkipBlank(afterName);
        if colon == "" || colon[0] != ':' then None
        else match ParseValue(colon[1..])
          case None => None
          case Some((v, rest)) =>
            var t := SkipBlank(rest);
            if t == "" then None
            else if t[0] == ',' then ParseMembers(t[1..], done[name := v])
            else if t[0] == '}' then Some((Map(done[name := v]), t[1..]))
            else None
  }

  /** A whole text as one value. */
  function Unmarshal(s: string): Option<Value> {
    match ParseValue(s)
    case None => None
    case Some((v, rest)) => if SkipBlank(rest) == "" then Some(v) else None
  }

  // ----- parsing undoes printing

  /** The first character of a printed value is no blank and closes nothing. */
  lemma {:induction false} MarshalStart(v: Value)
    ensures Marshal(v) != ""
    ensures var c := Marshal(v)[0]; !IsBlank(c) && c != ']' && c != '}'
  {
    if v.Num? {
      DecimalStart(v.n);
    }
  }

  lemma {:induction false} ParseLiteral(v: Value, rest: string)
    requires v.Null? || v.Bool?
    ensures ParseValue(Marshal(v) + rest) == Some((v, rest))
  {
    var text := Marshal(v);
    var s := text + rest;
    assert s[0] == text[0] && SkipBlank(s) == s;
    assert s[..|text|] == text && s[|text|..] == rest;
    if v.Bool? {
      assert s[0] != "null"[0];
      assert v.b || s[0] != "true"[0];
    }
  }

  lemma {:induction false} ParseNumberValue(n: int, rest: string)
    requires Ends(rest)
    ensures ParseValue(Decimal(n) + rest) == Some((Num(n), rest))
  {
    ParseNumberOfDecimal(n, rest);
    DecimalStart(n);
    var s := Decimal(n) + rest;
    assert s[0] == Decimal(n)[0] && SkipBlank(s) == s;
    assert s[0] != "null"[0] && s[0] != "true"[0] && s[0] != "false"[0];
  }

  lemma {:induction false} ParseStringValue(str: string, rest: string)
    ensures ParseValue(Quote(str) + rest) == Some((Str(str), rest))
  {
    ParseStringOfEscaped(str, rest);
    var s := Quote(str) + rest;
    assert SkipBlank(s) == s && s[1..] == Escaped(str) + "\"" + rest;
  }

  lemma {:induction false} ParseArray(inner: string)
    requires inner != "" && !IsBlank(inner[0])
    ensures ParseValue("[" + inner) ==
            if inner[0] == ']' then Some((Arr([]), inner[1..])) else ParseItems(inner, [])
  {
    var s := "[" + inner;
    assert SkipBlank(s) == s && s[1..] == inner;
  }

  lemma {:induction false} ParseObject(inner: string)
    requires inner != "" && !IsBlank(inner[0])
    ensures ParseValue("{" + inner) ==
            if inner[0] == '}' then Some((Map(map[]), inner[1..])) else ParseMembers(inner, map[])
  {
    var s := "{" + inner;
    assert SkipBlank(s) == s && s[1..] == inner;
  }

  /** The round trip: whatever follows, parsing a printed value gives back what it denotes
      and leaves what follows. */
  lemma {:induction false} ParseMarshal(v: Value, rest: string)
    requires Ends(rest)
    ensures ParseValue(Marshal(v) + rest) == Some((Denote(v), rest))
    decreases v, 2, 0
  {
    match v
    case Arr(items) => ParseMarshalArray(v, rest);
    case Struct(_) => ParseMarshalObject(v, rest);
    case Map(_) => ParseMarshalObject(v, rest);
    case Num(n) => ParseNumberValue(n, rest);
    case Str(str) => ParseStringValue(str, rest);
    case _ => ParseLiteral(v, rest);
  }

  lemma {:induction false} ParseMarshalArray(v: Value, rest: string)
    requires v.Arr? && Ends(rest)
    ensures ParseValue(Marshal(v) + rest) == Some((Denote(v), rest))
    decreases v, 1, 0
  {
    var inner := MarshalItems(v, v.items) + "]" + rest;
    assert Marshal(v) + rest == "[" + inner;
    if v.items == [] {
      assert inner == "]" + rest;
      ParseArray(inner);
      assert Denote(v).items == [];
    } else {
      ItemsStart(v, v.items);
      assert inner[0] == MarshalItems(v, v.items)[0];
      ParseArray(inner);
      ParseMarshalItems(v, v.items, [], rest);
      assert [] + Denoted(v.items) == Denote(v).items;
    }
  }

  lemma {:induction false} ParseEmptyObject(rest: string)
    ensures ParseValue("{" + "" + "}" + rest) == Some((Map(map[]), rest))
  {
    assert "{" + "" + "}" + rest == "{" + ("}" + rest);
    ParseObject("}" + rest);
  }

  lemma {:induction false} ParseFullObject(body: string, rest: string, r: Value)
    requires body != "" && body[0] == '"' && ParseMembers(body + "}" + rest, map[]) == Some((r, rest))
    ensures ParseValue("{" + body + "}" + rest) == Some((r, rest))
  {
    assert "{" + body + "}" + rest == "{" + (body + "}" + rest);
    ParseObject(body + "}" + rest);
  }

  lemma {:induction false} ParseMarshalObject(v: Value, rest: string)
    requires (v.Struct? || v.Map?) && Ends(rest)
    ensures ParseValue(Marshal(v) + rest) == Some((Denote(v), rest))
    decreases v, 1, 0
  {
    var ms := Members(v);
    MembersDenote(v);
    if ms == [] {
      ParseEmptyObject(rest);
    } else {
      MembersStart(v, ms);
      ParseMarshalAllMembers(v, ms, rest);
      ParseFullObject(MarshalMembers(v, ms), rest, Map(DenoteMembers(v, ms)));
    }
  }

  lemma {:induction false} ParseMarshalAllMembers(v: Value, ms: seq<Field>, rest: string)
    requires ms != [] && forall i :: 0 <= i < |ms| ==> ms[i].value < v
    ensures ParseMembers(MarshalMembers(v, ms) + "}" + rest, map[]) == Some((Map(DenoteMembers(v, ms)), rest))
    decreases v, 0, |ms| + 1
  {
    assert ms[0..] == ms && ms[..0] == [];
    ParseMarshalMembers(v, ms, 0, rest);
  }

  ghost function Denoted(items: seq<Value>): seq<Value> {
    seq(|items|, i requires 0 <= i < |items| => Denote(items[i]))
  }

  lemma {:induction false} ItemsStart(v: Value, items: seq<Value>)
    requires items != [] && forall i :: 0 <= i < |items| ==> items[i] < v
    ensures var t := MarshalItems(v, items); t != "" && !IsBlank(t[0]) && t[0] != ']'
  {
    MarshalStart(items[0]);
  }

  lemma {:induction false} MembersStart(v: Value, ms: seq<Field>)
    requires ms != [] && forall i :: 0 <= i < |ms| ==> ms[i].value < v
    ensures var t := MarshalMembers(v, ms); t != "" && t[0] == '"'
  {
  }

  /** One step of the element loop. */
  lemma {:induction false} ItemStep(text: string, d: Value, tail: string, done: seq<Value>)
    requires tail != "" && (tail[0] == ',' || tail[0] == ']')
    requires ParseValue(text + tail) == Some((d, tail))
    ensures ParseItems(text + tail, done) ==
            if tail[0] == ',' then ParseItems(tail[1..], done + [d]) else Some((Arr(done + [d]), tail[1..]))
  {
    assert SkipBlank(tail) == tail;
  }

  lemma {:induction false} ItemsText(v: Value, items: seq<Value>, rest: string)
    requires items != [] && forall i :: 0 <= i < |items| ==> items[i] < v
    ensures MarshalItems(v, items) + "]" + rest ==
            Marshal(items[0]) +
              if |items| == 1 then "]" + rest else "," + (MarshalItems(v, items[1..]) + "]" + rest)
  {
  }

  lemma {:induction false} DenotedCons(items: seq<Value>)
    requires items != []
    ensures Denoted(items) == [Denote(items[0])] + Denoted(items[1..])
  {
  }

  lemma {:induction false} ParseMarshalItems(v: Value, items: seq<Value>, done: seq<Value>, rest: string)
    requires items != [] && forall i :: 0 <= i < |items| ==> items[i] < v
    ensures ParseItems(MarshalItems(v, items) + "]" + rest, done) == Some((Arr(done + Denoted(items)), rest))
    decreases v, 0, |items|
  {
    var head, d := Marshal(items[0]), Denote(items[0]);
    assert done + [d] + Denoted(items[1..]) == done + Denoted(items) by { DenotedCons(items); }
    if |items| == 1 {
      var tail := "]" + rest;
      assert MarshalItems(v, items) + "]" + rest == head + tail by { ItemsText(v, items, rest); }
      ParseMarshal(items[0], tail);
      ItemStep(head, d, tail, done);
      assert tail[1..] == rest && done + [d] + Denoted(items[1..]) == done + [d];
    } else {
      var more := MarshalItems(v, items[1..]) + "]" + rest;
      var tail := "," + more;
      assert MarshalItems(v, items) + "]" + rest == head + tail by { ItemsText(v, items, rest); }
      ParseMarshal(items[0], tail);
      ItemStep(head, d, tail, done);
      assert tail[1..] == more;
      ParseMarshalItems(v, items[1..], done + [d], rest);
    }
  }

  /** Reading a member's name. */
  lemma {:induction false} NameStep(name: string, colon: string)
    ensures var s := Quote(name) + colon;
            SkipBlank(s) == s && s != "" && s[0] == '"' && ParseString(s[1..]) == Some((name, colon))
  {
    var s := Quote(name) + colon;
    assert s[0] == '"' && s[1..] == Escaped(name) + "\"" + colon;
    ParseStringOfEscaped(name, colon);
  }

  /** One step of the member loop. */
  lemma {:induction false} MemberStep(name: string, text: string, d: Value, tail: string, done: map<string, Value>)
    requires tail != "" && (tail[0] == ',' || tail[0] == '}')
    requires ParseValue(text + tail) == Some((d, tail))
    ensures ParseMembers(Quote(name) + (":" + (text + tail)), done) ==
            if tail[0] == ',' then ParseMembers(tail[1..], done[name := d])
            else Some((Map(done[name := d]), tail[1..]))
  {
    var colon := ":" + (text + tail);
    NameStep(name, colon);
    assert colon[0] == ':' && SkipBlank(colon) == colon && colon[1..] == text + tail;
    assert SkipBlank(tail) == tail;
  }

  lemma LastMemberText(name: string, value: string, rest: string)
    ensures (name + ":" + value) + "}" + rest == name + (":" + (value + ("}" + rest)))
  {
  }

  lemma MoreMembersText(name: string, value: string, more: string, rest: string)
    ensures ((name + ":" + value) + "," + more) + "}" + rest ==
            name + (":" + (value + ("," + (more + "}" + rest))))
  {
  }

  lemma {:induction false} MembersText(v: Value, ms: seq<Field>, rest: string)
    requires ms != [] && forall i :: 0 <= i < |ms| ==> ms[i].value < v
    ensures MarshalMembers(v, ms) + "}" + rest ==
            Quote(ms[0].name) + (":" + (Marshal(ms[0].value) +
              if |ms| == 1 then "}" + rest else "," + (MarshalMembers(v, ms[1..]) + "}" + rest)))
  {
    if |ms| == 1 {
      LastMemberText(Quote(ms[0].name), Marshal(ms[0].value), rest);
    } else {
      MoreMembersText(Quote(ms[0].name), Marshal(ms[0].value), MarshalMembers(v, ms[1..]), rest);
    }
  }

  lemma {:induction false} DenoteMembersStep(v: Value, ms: seq<Field>, k: nat)
    requires k < |ms| && forall i :: 0 <= i < |ms| ==> ms[i].value < v
    ensures DenoteMembers(v, ms[..k + 1]) == DenoteMembers(v, ms[..k])[ms[k].name := Denote(ms[k].value)]
  {
    assert ms[..k + 1][..k] == ms[..k];
  }

  lemma {:induction false} ParseMarshalMembers(v: Value, ms: seq<Field>, k: nat, rest: string)
    requires k < |ms| && forall i :: 0 <= i < |ms| ==> ms[i].value < v
    ensures ParseMembers(MarshalMembers(v, ms[k..]) + "}" + rest, DenoteMembers(v, ms[..k])) ==
            Some((Map(DenoteMembers(v, ms)), rest))
    decreases v, 0, |ms| - k
  {
    var f, done := ms[k], DenoteMembers(v, ms[..k]);
    MembersText(v, ms[k..], rest);
    assert ms[k..][0] == f && ms[k..][1..] == ms[k + 1..];
    DenoteMembersStep(v, ms, k);
    if k + 1 == |ms| {
      var tail := "}" + rest;
      ParseMarshal(f.value, tail);
      MemberStep(f.name, Marshal(f.value), Denote(f.value), tail, done);
      assert ms[..k + 1] == ms && tail[1..] == rest;
    } else {
      var more := MarshalMembers(v, ms[k + 1..]) + "}" + rest;
      var tail := "," + more;
      ParseMarshal(f.value, tail);
      MemberStep(f.name, Marshal(f.value), Denote(f.value), tail, done);
      assert tail[1..] == more;
      ParseMarshalMembers(v, ms, k + 1, rest);
    }
  }

  /** `d` maps the names of the members, and nothing else, to what their values denote. */
  ghost predicate Tabulates(d: map<string, Value>, ms: seq<Field>) {
    && (forall k :: k in d ==> exists i :: 0 <= i < |ms| && ms[i].name == k)
    && (forall i :: 0 <= i < |ms| ==> ms[i].name in d && d[ms[i].name] == Denote(ms[i].value))
  }

  ghost predicate DistinctNames(ms: seq<Field>) {
    forall i, j :: 0 <= i < j < |ms| ==> ms[i].name != ms[j].name
  }

  lemma {:induction false} DistinctMembers(v: Value, ms: seq<Field>)
    requires DistinctNames(ms) && forall i :: 0 <= i < |ms| ==> ms[i].value < v
    ensures Tabulates(DenoteMembers(v, ms), ms)
    decreases |ms|
  {
    if ms != [] {
      var n := |ms| - 1;
      DistinctMembers(v, ms[..n]);
      TabulatesAppend(DenoteMembers(v, ms[..n]), ms);
    }
  }

  lemma {:induction false} TabulatesAppend(before: map<string, Value>, ms: seq<Field>)
    requires ms != [] && DistinctNames(ms) && Tabulates(before, ms[..|ms| - 1])
    ensures var f := ms[|ms| - 1]; Tabulates(before[f.name := Denote(f.value)], ms)
  {
    var n := |ms| - 1;
    var d := before[ms[n].name := Denote(ms[n].value)];
    forall k | k in d ensures exists i :: 0 <= i < |ms| && ms[i].name == k {
      if k in before {
        var i :| 0 <= i < |ms[..n]| && ms[..n][i].name == k;
        assert ms[i].name == k;
      }
    }
    forall i | 0 <= i < |ms| ensures ms[i].name in d && d[ms[i].name] == Denote(ms[i].value) {
      assert i < n ==> ms[..n][i] == ms[i] && ms[i].name != ms[n].name;
    }
  }

  /** Folding the members of a struct or map gives what it denotes. */
  lemma {:induction false} MembersDenote(v: Value)
    requires v.Struct? || v.Map?
    ensures Denote(v) == Map(DenoteMembers(v, Members(v)))
  {
    if v.Map? {
      var d := DenoteMembers(v, Members(v));
      assert d.Keys == v.entries.Keys && forall k :: k in v.entries ==> d[k] == Denote(v.entries[k]) by {
        MapIsTabulated(v);
      }
      assert Denote(v).entries == d;
    }
  }

  lemma {:induction false} MapIsTabulated(v: Value)
    requires v.Map?
    ensures var d := DenoteMembers(v, Members(v));
            d.Keys == v.entries.Keys && forall k :: k in v.entries ==> d[k] == Denote(v.entries[k])
  {
    var m, ms, keys := v.entries, Members(v), SortedKeys(v.entries.Keys);
    SortedKeysSorted(v.entries.Keys);
    DistinctMembers(v, ms);
    TabulatesMap(m, keys, ms, DenoteMembers(v, ms));
  }

  lemma {:induction false} TabulatesMap(m: map<string, Value>, keys: seq<string>, ms: seq<Field>, d: map<string, Value>)
    requires forall k :: k in keys <==> k in m
    requires |ms| == |keys| && forall i :: 0 <= i < |ms| ==> keys[i] in m && ms[i] == Field(keys[i], m[keys[i]])
    requires Tabulates(d, ms)
    ensures d.Keys == m.Keys && forall k :: k in m ==> d[k] == Denote(m[k])
  {
    forall k | k in m ensures k in d && d[k] == Denote(m[k]) {
      assert k in keys;
      var i :| 0 <= i < |keys| && keys[i] == k;
      assert ms[i].name == k;
    }
    forall k | k in d ensures k in m {
      var i :| 0 <= i < |ms| && ms[i].name == k;
    }
  }

  /** Some field of `gs` has the name and the meaning of `f`. */
  ghost predicate Matched(f: Field, gs: seq<Field>) {
    exists j :: 0 <= j < |gs| && gs[j].name == f.name && Denote(gs[j].value) == Denote(f.value)
  }

  ghost predicate Matches(fs: seq<Field>, gs: seq<Field>) {
    forall f :: f in fs ==> Matched(f, gs)
  }

  /** Field order is immaterial, at every depth: structs whose fields agree in name and
      meaning, in whatever order they are listed, denote the same value. */
  lemma {:induction false} FieldOrderIsImmaterial(a: Value, b: Value)
    requires a.Struct? && b.Struct? && DistinctNames(a.fields) && DistinctNames(b.fields)
    requires Matches(a.fields, b.fields) && Matches(b.fields, a.fields)
    ensures Denote(a) == Denote(b)
  {
    var d, e := DenoteMembers(a, a.fields), DenoteMembers(b, b.fields);
    assert d == e by {
      TableIncludes(a, b, d, e);
      TableIncludes(b, a, e, d);
      SameMap(d, e);
    }
  }

  lemma {:induction false} SameMap(d: map<string, Value>, e: map<string, Value>)
    requires forall k :: k in d ==> k in e && d[k] == e[k]
    requires forall k :: k in e ==> k in d && e[k] == d[k]
    ensures d == e
  {
    assert d.Keys == e.Keys;
  }

  lemma {:induction false} TableIncludes(a: Value, b: Value, d: map<string, Value>, e: map<string, Value>)
    requires a.Struct? && b.Struct? && DistinctNames(a.fields) && DistinctNames(b.fields)
    requires Matches(a.fields, b.fields)
    requires d == DenoteMembers(a, a.fields) && e == DenoteMembers(b, b.fields)
    ensures forall k :: k in d ==> k in e && d[k] == e[k]
  {
    DistinctMembers(a, a.fields);
    DistinctMembers(b, b.fields);
    SameTable(a.fields, b.fields, d, e);
  }

  lemma {:induction false} SameTable(fs: seq<Field>, gs: seq<Field>, d: map<string, Value>, e: map<string, Value>)
    requires Tabulates(d, fs) && Tabulates(e, gs)
    requires Matches(fs, gs)
    ensures forall k :: k in d ==> k in e && d[k] == e[k]
  {
    forall k | k in d ensures k in e && d[k] == e[k] {
      var i :| 0 <= i < |fs| && fs[i].name == k;
      assert Matched(fs[i], gs);
      var j :| 0 <= j < |gs| && gs[j].name == fs[i].name && Denote(gs[j].value) == Denote(fs[i].value);
    }
  }

  /** Denoting is idempotent: what is denoted holds no struct. */
  lemma {:induction false} DenoteTwice(v: Value)
    ensures Denote(Denote(v)) == Denote(v)
    decreases v, 1, 0
  {
    match v
    case Arr(items) =>
      forall i | 0 <= i < |items| ensures Denote(Denote(items[i])) == Denote(items[i]) {
        DenoteTwice(items[i]);
      }
      assert Denote(Denote(v)).items == Denote(v).items;
    case Struct(fields) =>
      DenoteMembersTwice(v, fields);
      var d := DenoteMembers(v, fields);
      assert Denote(Map(d)).entries == d;
    case Map(m) =>
      forall k | k in m ensures Denote(Denote(m[k])) == Denote(m[k]) {
        DenoteTwice(m[k]);
      }
      assert Denote(Denote(v)).entries == Denote(v).entries;
    case _ =>
  }

  lemma {:induction false} DenoteMembersTwice(v: Value, ms: seq<Field>)
    requires forall i :: 0 <= i < |ms| ==> ms[i].value < v
    ensures forall k :: k in DenoteMembers(v, ms) ==> Denote(DenoteMembers(v, ms)[k]) == DenoteMembers(v, ms)[k]
    decreases v, 0, |ms|
  {
    if ms != [] {
      var n := |ms| - 1;
      DenoteMembersTwice(v, ms[..n]);
      DenoteTwice(ms[n].value);
    }
  }

  // ----- main results

  /** Unmarshal undoes Marshal up to reading structs as maps. */
  lemma {:induction false} UnmarshalMarshal(v: Value)
    ensures Unmarshal(Marshal(v)) == Some(Denote(v))
  {
    ParseMarshal(v, "");
    assert Marshal(v) + "" == Marshal(v);
  }

  /** The same on the wire, where a newline ends the text. */
  lemma {:induction false} UnmarshalLine(v: Value)
    ensures Unmarshal(Marshal(v) + "\n") == Some(Denote(v))
  {
    ParseMarshal(v, "\n");
    assert SkipBlank("\n") == "";
  }

  /** Two values print, once normalised, to the same text exactly when they denote the
      same value. */
  lemma {:induction false} MarshalIsInjective(a: Value, b: Value)
    ensures Marshal(Denote(a)) == Marshal(Denote(b)) <==> Denote(a) == Denote(b)
  {
    UnmarshalMarshal(Denote(a));
    UnmarshalMarshal(Denote(b));
    DenoteTwice(a);
    DenoteTwice(b);
  }

  // ----- printed text has no control characters

  predicate Printable(s: string) {
    forall i :: 0 <= i < |s| ==> s[i] >= ' '
  }

  lemma {:induction false} PrintableConcat(a: string, b: string)
    requires Printable(a) && Printable(b)
    ensures Printable(a + b)
  {
  }

  lemma {:induction false} EscapedPrintable(s: string)
    ensures Printable(Escaped(s))
  {
    if s != "" {
      EscapedPrintable(s[1..]);
      EscapePrintable(s[0]);
      PrintableConcat(Escape(s[0]), Escaped(s[1..]));
    }
  }

  lemma {:induction false} EscapePrintable(c: char)
    ensures Printable(Escape(c))
  {
    if PrintedAsUnit(c) {
      UnitEscapes(c);
      UnitPrintable(Escape(c));
    } else {
      ShortEscapes(c);
    }
  }

  lemma UnitPrintable(s: string)
    requires |s| == 6 && s[..2] == ['\\', 'u'] && forall i :: 2 <= i < 6 ==> IsLowerHex(s[i])
    ensures Printable(s)
  {
    assert s[0] == s[..2][0] && s[1] == s[..2][1];
  }

  lemma {:induction false} QuotePrintable(s: string)
    ensures Printable(Quote(s))
  {
    EscapedPrintable(s);
    PrintableConcat("\"", Escaped(s));
    PrintableConcat("\"" + Escaped(s), "\"");
  }

  /** Printing never yields a control character, so never a newline, whatever the strings
      inside the value contain. */
  lemma {:induction false} MarshalPrintable(v: Value)
    ensures Printable(Marshal(v))
    decreases v, 1, 0
  {
    match v
    case Num(n) => DecimalPrintable(n);
    case Str(s) => QuotePrintable(s);
    case Arr(items) =>
      ItemsPrintable(v, items);
      WrapPrintable("[", MarshalItems(v, items), "]");
    case Struct(_) =>
      MembersPrintable(v, Members(v));
      WrapPrintable("{", MarshalMembers(v, Members(v)), "}");
    case Map(_) =>
      MembersPrintable(v, Members(v));
      WrapPrintable("{", MarshalMembers(v, Members(v)), "}");
    case _ =>
  }

  lemma {:induction false} DecimalPrintable(n: int)
    ensures Printable(Decimal(n))
  {
    DigitsShape(if n < 0 then -n else n);
  }

  lemma {:induction false} WrapPrintable(a: string, b: string, c: string)
    requires Printable(a) && Printable(b) && Printable(c)
    ensures Printable(a + b + c)
  {
    PrintableConcat(a, b);
    PrintableConcat(a + b, c);
  }

  lemma {:induction false} ItemsPrintable(v: Value, items: seq<Value>)
    requires forall i :: 0 <= i < |items| ==> items[i] < v
    ensures Printable(MarshalItems(v, items))
    decreases v, 0, |items|
  {
    if items != [] {
      MarshalPrintable(items[0]);
      ItemsPrintable(v, items[1..]);
    }
  }

  lemma {:induction false} MembersPrintable(v: Value, ms: seq<Field>)
    requires forall i :: 0 <= i < |ms| ==> ms[i].value < v
    ensures Printable(MarshalMembers(v, ms))
    decreases v, 0, |ms|
  {
    if ms != [] {
      QuotePrintable(ms[0].name);
      MarshalPrintable(ms[0].value);
      MembersPrintable(v, ms[1..]);
    }
  }
}
