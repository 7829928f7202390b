/** Text helpers: trimming, lower case, and the names the gateway accepts. */
module Text {
  import opened Wrappers

  /** White space in the sense of Unicode. */
  predicate IsSpace(c: char) {
    || '\U{9}' <= c <= '\U{D}' || c == ' ' || c == '\U{85}' || c == '\U{A0}' || c == '\U{1680}'
    || '\U{2000}' <= c <= '\U{200A}' || c == '\U{2028}' || c == '\U{2029}' || c == '\U{202F}'
    || c == '\U{205F}' || c == '\U{3000}'
  }

  function TrimLeft(s: string): string {
    if s != "" && IsSpace(s[0]) then TrimLeft(s[1..]) else s
  }

  function TrimRight(s: string): string {
    if s != "" && IsSpace(s[|s| - 1]) then TrimRight(s[..|s| - 1]) else s
  }

  function TrimSpace(s: string): string {
    TrimRight(TrimLeft(s))
  }

  predicate Trimmed(s: string) {
    s != "" ==> !IsSpace(s[0]) && !IsSpace(s[|s| - 1])
  }

  predicate AllSpace(s: string) {
    forall i :: 0 <= i < |s| ==> IsSpace(s[i])
  }

  lemma {:induction false} TrimLeftShape(s: string) returns (before: string)
    ensures AllSpace(before) && s == before + TrimLeft(s)
    ensures var t := TrimLeft(s); t != "" ==> !IsSpace(t[0])
  {
    before := "";
    if s != "" && IsSpace(s[0]) {
      var more := TrimLeftShape(s[1..]);
      before := [s[0]] + more;
    }
  }

  lemma {:induction false} TrimRightShape(s: string) returns (after: string)
    ensures AllSpace(after) && s == TrimRight(s) + after
    ensures var t := TrimRight(s); t != "" ==> !IsSpace(t[|t| - 1])
  {
    after := "";
    if s != "" && IsSpace(s[|s| - 1]) {
      var more := TrimRightShape(s[..|s| - 1]);
      after := more + [s[|s| - 1]];
    }
  }

  /** Trimming removes white space at the two ends and nothing else, leaves nothing to
      trim, and changes nothing when there is nothing to trim. */
  lemma {:induction false} TrimSpaceTrims(s: string)
    ensures Trimmed(TrimSpace(s))
    ensures exists before, after :: AllSpace(before) && AllSpace(after) && s == before + TrimSpace(s) + after
    ensures Trimmed(s) ==> TrimSpace(s) == s
    ensures TrimSpace(TrimSpace(s)) == TrimSpace(s)
  {
    var before := TrimLeftShape(s);
    var after := TrimRightShape(TrimLeft(s));
    assert s == before + TrimSpace(s) + after;
    assert AllSpace(before) && AllSpace(after);
  }

  /** The length of a character in UTF-8. */
  function ByteWidth(c: char): nat {
    if c < '\U{80}' then 1 else if c < '\U{800}' then 2 else if c < '\U{10000}' then 3 else 4
  }

  function ByteLen(s: string): nat {
    if s == "" then 0 else ByteWidth(s[0]) + ByteLen(s[1..])
  }

  /** The bytes of a character in UTF-8 (section 3 of RFC 3629). */
  function Utf8(c: char): seq<int> {
    var v := c as int;
    if v < 0x80 then [v]
    else if v < 0x800 then [0xC0 + v / 64, 0x80 + v % 64]
    else if v < 0x10000 then [0xE0 + v / 4096, 0x80 + v / 64 % 64, 0x80 + v % 64]
    else [0xF0 + v / 262144, 0x80 + v / 4096 % 64, 0x80 + v / 64 % 64, 0x80 + v % 64]
  }

  function Utf8Of(s: string): seq<int> {
    if s == "" then [] else Utf8(s[0]) + Utf8Of(s[1..])
  }

  lemma {:induction false} ByteLenIsUtf8(s: string)
    ensures ByteLen(s) == |Utf8Of(s)|
  {
    if s != "" { ByteLenIsUtf8(s[1..]); }
  }

  /** The characters that count as white space, one by one. */
  lemma WhiteSpaceIs(c: char)
    ensures IsSpace(c) <==>
            c in {'\t', '\n', '\U{B}', '\U{C}', '\r', ' ', '\U{85}', '\U{A0}', '\U{1680}',
                  '\U{2000}', '\U{2001}', '\U{2002}', '\U{2003}', '\U{2004}', '\U{2005}', '\U{2006}',
                  '\U{2007}', '\U{2008}', '\U{2009}', '\U{200A}', '\U{2028}', '\U{2029}', '\U{202F}',
                  '\U{205F}', '\U{3000}'}
  {
  }

  function Lower(s: string): string {
    seq(|s|, i requires 0 <= i < |s| => if 'A' <= s[i] <= 'Z' then s[i] + 32 as char else s[i])
  }

  /** Two characters that are equal but for the case of a letter. */
  predicate SameCharButCase(c: char, d: char) {
    || c == d
    || ('A' <= c <= 'Z' && d as int == c as int + ('a' as int - 'A' as int))
    || ('A' <= d <= 'Z' && c as int == d as int + ('a' as int - 'A' as int))
  }

  predicate SameButCase(s: string, t: string) {
    |s| == |t| && forall i :: 0 <= i < |s| ==> SameCharButCase(s[i], t[i])
  }

  /** Two texts have the same lower case exactly when they differ only in case. */
  lemma LowerMeans(s: string, t: string)
    ensures Lower(s) == Lower(t) <==> SameButCase(s, t)
    ensures |Lower(s)| == |s| && forall i :: 0 <= i < |s| ==> !('A' <= Lower(s)[i] <= 'Z')
  {
    if Lower(s) == Lower(t) {
      assert |Lower(s)| == |s| && |Lower(t)| == |t|;
      forall i | 0 <= i < |s| ensures SameCharButCase(s[i], t[i]) {
        assert Lower(s)[i] == Lower(t)[i];
      }
    }
  }

  predicate SafeChar(c: char) {
    'A' <= c <= 'Z' || 'a' <= c <= 'z' || '0' <= c <= '9' || c == '_' || c == '-' || c == '.'
  }

  predicate SafeName(s: string) {
    forall i :: 0 <= i < |s| ==> SafeChar(s[i])
  }

  lemma {:induction false} SafeNameBytes(s: string)
    requires SafeName(s)
    ensures ByteLen(s) == |s|
  {
    if s != "" { SafeNameBytes(s[1..]); }
  }

  const RESERVED_ACCOUNTS: set<string> := {"matt", "root", "admin", "sysop"}
  const RESERVED_PREFIX := "ai_pool_"

  predicate IsReserved(account: string) {
    var normalized := Lower(TrimSpace(account));
    normalized in RESERVED_ACCOUNTS || RESERVED_PREFIX <= normalized
  }

  /** The names nobody can sign up for, in any case. */
  predicate Reserved(account: string) {
    || SameButCase(account, "matt") || SameButCase(account, "root")
    || SameButCase(account, "admin") || SameButCase(account, "sysop")
    || (|account| >= 8 && SameButCase(account[..8], "ai_pool_"))
  }

  lemma ReservedMeans(account: string)
    ensures (Lower(account) in RESERVED_ACCOUNTS || RESERVED_PREFIX <= Lower(account)) <==> Reserved(account)
  {
    LowerMeans(account, "matt");
    LowerMeans(account, "root");
    LowerMeans(account, "admin");
    LowerMeans(account, "sysop");
    assert Lower("matt") == "matt" && Lower("root") == "root" && Lower("admin") == "admin" && Lower("sysop") == "sysop";
    if |account| >= 8 {
      LowerMeans(account[..8], "ai_pool_");
      assert Lower("ai_pool_") == "ai_pool_" && Lower(account)[..8] == Lower(account[..8]);
    }
  }

  /** The account a signup request asks for, None when the name is refused. */
  function SignupAccount(value: string): Option<string> {
    var account := TrimSpace(value);
    if ByteLen(account) < 3 || ByteLen(account) > 32 || IsReserved(account) then None
    else if !SafeName(account) then None
    else Some(account)
  }

  /** The account a user handle names, None when it cannot be one. */
  function LoginAccount(value: string): Option<string> {
    var account := TrimSpace(value);
    if ByteLen(account) < 3 || ByteLen(account) > 32 then None
    else if !SafeName(account) then None
    else Some(account)
  }

  function PasskeyLabel(value: string): Option<string> {
    var text := TrimSpace(value);
    if ByteLen(text) < 1 || ByteLen(text) > 48 then None
    else if !SafeName(text) then None
    else Some(text)
  }

  /** The loop both account normalizers share. */
  method IsSafeAccountName(account: string) returns (safe: bool)
    ensures safe <==> SafeName(account)
  {
    for i := 0 to |account|
      invariant forall j :: 0 <= j < i ==> SafeChar(account[j])
    {
      var ch := account[i];
      if ('A' <= ch <= 'Z') || ('a' <= ch <= 'z') || ('0' <= ch <= '9') || ch == '_' || ch == '-' || ch == '.' {
        continue;
      }
      return false;
    }
    return true;
  }

  method NormalizeSignupAccount(value: string) returns (r: Option<string>)
    ensures r == SignupAccount(value)
    ensures var account := TrimSpace(value);
            r == if 3 <= |account| <= 32 && SafeName(account) && !Reserved(account)
                 then Some(account) else None
  {
    SignupAccepts(value, TrimSpace(value));
    var account := TrimSpace(value);
    if ByteLen(account) < 3 || ByteLen(account) > 32 || IsReserved(account) {
      return None;
    }
    var safe := IsSafeAccountName(account);
    return if safe then Some(account) else None;
  }

  method NormalizeLoginAccount(value: string) returns (r: Option<string>)
    ensures r == LoginAccount(value)
    ensures var account := TrimSpace(value);
            r == if 3 <= |account| <= 32 && SafeName(account)
                 then Some(account) else None
  {
    LoginAccepts(value, TrimSpace(value));
    var account := TrimSpace(value);
    if ByteLen(account) < 3 || ByteLen(account) > 32 {
      return None;
    }
    var safe := IsSafeAccountName(account);
    return if safe then Some(account) else None;
  }

  method NormalizePasskeyLabel(value: string) returns (r: Option<string>)
    ensures r == PasskeyLabel(value)
    ensures var text := TrimSpace(value); r == if 1 <= |text| <= 48 && SafeName(text) then Some(text) else None
  {
    LabelAccepts(value, TrimSpace(value));
    var text := TrimSpace(value);
    if ByteLen(text) < 1 || ByteLen(text) > 48 {
      return None;
    }
    for i := 0 to |text|
      invariant forall j :: 0 <= j < i ==> SafeChar(text[j])
    {
      var ch := text[i];
      if ('A' <= ch <= 'Z') || ('a' <= ch <= 'z') || ('0' <= ch <= '9') || ch == '_' || ch == '-' || ch == '.' {
        continue;
      }
      return None;
    }
    return Some(text);
  }

  /** Signup accepts exactly the unreserved names of 3 to 32 safe characters, whatever
      white space surrounds them, and accepts again what it returned; a name it accepts
      is also one that a login handle can carry. */
  lemma {:induction false} SignupAccepts(value: string, account: string)
    ensures SignupAccount(value) == Some(account) <==>
            account == TrimSpace(value) && 3 <= |account| <= 32 && SafeName(account) && !Reserved(account)
    ensures SignupAccount(value) == Some(account) ==>
              SignupAccount(account) == Some(account) && LoginAccount(account) == Some(account)
  {
    TrimSpaceTrims(value);
    ReservedMeans(TrimSpace(value));
    if SafeName(TrimSpace(value)) {
      SafeNameBytes(TrimSpace(value));
    }
  }

  lemma {:induction false} LoginAccepts(value: string, account: string)
    ensures LoginAccount(value) == Some(account) <==>
            account == TrimSpace(value) && 3 <= |account| <= 32 && SafeName(account)
    ensures LoginAccount(value) == Some(account) ==> TrimSpace(account) == account && account != ""
  {
    TrimSpaceTrims(value);
    if SafeName(TrimSpace(value)) {
      SafeNameBytes(TrimSpace(value));
    }
  }

  lemma {:induction false} LabelAccepts(value: string, text: string)
    ensures PasskeyLabel(value) == Some(text) <==> text == TrimSpace(value) && 1 <= |text| <= 48 && SafeName(text)
    ensures PasskeyLabel(value) == Some(text) ==> PasskeyLabel(text) == Some(text)
  {
    TrimSpaceTrims(value);
    if SafeName(TrimSpace(value)) {
      SafeNameBytes(TrimSpace(value));
    }
  }

  // ----- lines

  /** Lines, each ended by a newline. */
  function Joined(frames: seq<string>): string {
    if frames == [] then "" else frames[0] + "\n" + Joined(frames[1..])
  }

  function NewlineAt(s: string): (i: nat)
    ensures i <= |s|
    ensures forall j :: 0 <= j < i ==> s[j] != '\n'
    ensures i < |s| ==> s[i] == '\n'
  {
    if s == "" || s[0] == '\n' then 0 else 1 + NewlineAt(s[1..])
  }

  /** Splitting a stream on newline. */
  function Lines(s: string): seq<string> {
    var i := NewlineAt(s);
    if s == "" then []
    else if i == |s| then [s]
    else [s[..i]] + Lines(s[i + 1..])
  }

  predicate HasNewline(s: string) {
    exists i :: 0 <= i < |s| && s[i] == '\n'
  }

  lemma {:induction false} LinesHaveNoNewline(s: string)
    ensures forall k :: 0 <= k < |Lines(s)| ==> !HasNewline(Lines(s)[k])
  {
    var i := NewlineAt(s);
    if s != "" && i < |s| {
      LinesHaveNoNewline(s[i + 1..]);
    }
  }

  lemma {:induction false} NewlineAfter(f: string, rest: string)
    requires !HasNewline(f)
    ensures NewlineAt(f + "\n" + rest) == |f|
  {
    if f != "" {
      assert f[0] != '\n';
      forall i | 0 <= i < |f[1..]| ensures f[1..][i] != '\n' {
        assert f[i + 1] != '\n';
      }
      NewlineAfter(f[1..], rest);
      assert (f + "\n" + rest)[1..] == f[1..] + "\n" + rest;
    }
  }

  lemma {:induction false} LinesOfJoined(frames: seq<string>)
    requires forall k :: 0 <= k < |frames| ==> !HasNewline(frames[k])
    ensures Lines(Joined(frames)) == frames
  {
    if frames != [] {
      var f, rest := frames[0], Joined(frames[1..]);
      var s := f + "\n" + rest;
      NewlineAfter(f, rest);
      assert s[..|f|] == f && s[|f| + 1..] == rest;
      LinesOfJoined(frames[1..]);
    }
  }
}
