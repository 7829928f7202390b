/** The Java side of a play connection: the bounded handshake that opens a session, and
    the loop that forwards the same reader's remaining lines to the browser. */
module JavaStream {
  import opened Wrappers
  import opened Text

  /** What one read yields: a whole line, or a line too long for the reader's buffer. When
      no line is left the read fails. */
  datatype RawLine = Line(text: string) | Oversize

  datatype WireError = ReadFailed | Protocol | Rejected(message: string)

  datatype Envelope = Envelope(frameType: string, ok: bool, accepted: bool, message: string)

  /** The JSON decoding that a command uses, which may do anything: the envelope of a line,
      whether the line decodes as the expected result, and the account of that result. */
  datatype Codec = Codec(envelope: string -> Option<Envelope>, decodes: string -> bool, account: string -> string)

  /** A read that is too long or blank is an error; any other is trimmed. */
  function Bounded(raw: RawLine, max: int): Result<string, WireError> {
    if raw.Oversize? || ByteLen(raw.text) > max then Err(Protocol)
    else if TrimSpace(raw.text) == "" then Err(Protocol)
    else Ok(TrimSpace(raw.text))
  }

  const STARTUP_FRAMES: set<string> := {"hello", "prompt", "session_state"}
  const MAX_STARTUP := 8
  const SESSION_RESULT := "gateway_session_result"

  /** What the handshake makes of one line. */
  datatype Verdict = Skip | Accept(line: string) | Fail(error: WireError)

  function Judge(c: Codec, expected: string, max: int, raw: RawLine): Verdict {
    match Bounded(raw, max)
    case Err(e) => Fail(e)
    case Ok(line) => JudgeFrame(c, expected, line)
  }

  function JudgeFrame(c: Codec, expected: string, line: string): Verdict {
    match c.envelope(line)
    case None => Fail(Protocol)
    case Some(e) =>
      if e.frameType != expected then (if e.frameType in STARTUP_FRAMES then Skip else Fail(Protocol))
      else if !e.ok && !e.accepted then Fail(Rejected(e.message))
      else if !c.decodes(line) then Fail(Protocol)
      else Accept(line)
  }

  /** The outcome of the handshake over the lines to come, and the lines it leaves. */
  function Handshake(c: Codec, expected: string, max: int, lines: seq<RawLine>, left: nat)
    : (Result<string, WireError>, seq<RawLine>)
  {
    if left == 0 then (Err(Protocol), lines)
    else if lines == [] then (Err(ReadFailed), lines)
    else match Judge(c, expected, max, lines[0])
      case Fail(e) => (Err(e), lines[1..])
      case Accept(line) => (Ok(line), lines[1..])
      case Skip => Handshake(c, expected, max, lines[1..], left - 1)
  }

  /** A line that is neither too long nor blank. */
  predicate Usable(max: int, raw: RawLine) {
    raw.Line? && ByteLen(raw.text) <= max && TrimSpace(raw.text) != ""
  }

  /** A usable line of the expected type that is ok or accepted and decodes. */
  predicate Answers(c: Codec, expected: string, max: int, raw: RawLine) {
    && Usable(max, raw)
    && var e := c.envelope(TrimSpace(raw.text));
       && e.Some? && e.value.frameType == expected && (e.value.ok || e.value.accepted)
       && c.decodes(TrimSpace(raw.text))
  }

  /** A usable line that is one of the startup frames. */
  predicate Skippable(c: Codec, expected: string, max: int, raw: RawLine) {
    && Usable(max, raw)
    && var e := c.envelope(TrimSpace(raw.text));
       e.Some? && e.value.frameType != expected && e.value.frameType in {"hello", "prompt", "session_state"}
  }

  lemma JudgeMeans(c: Codec, expected: string, max: int, raw: RawLine)
    ensures Judge(c, expected, max, raw).Accept? <==> Answers(c, expected, max, raw)
    ensures Judge(c, expected, max, raw).Skip? <==> Skippable(c, expected, max, raw)
    ensures Answers(c, expected, max, raw) ==> Judge(c, expected, max, raw) == Accept(TrimSpace(raw.text))
  {
  }

  /** The line at `k` answers the command, and everything before it may be skipped. */
  ghost predicate AnswersAt(c: Codec, expected: string, max: int, lines: seq<RawLine>, k: nat) {
    && k < |lines|
    && Answers(c, expected, max, lines[k])
    && forall j :: 0 <= j < k ==> Skippable(c, expected, max, lines[j])
  }

  class Reader {
    var lines: seq<RawLine>

    constructor (lines: seq<RawLine>)
      ensures this.lines == lines
    {
      this.lines := lines;
    }

    method ReadLine() returns (r: Option<RawLine>)
      modifies this
      ensures old(lines) == [] ==> r.None? && lines == []
      ensures old(lines) != [] ==> r == Some(old(lines)[0]) && lines == old(lines)[1..]
    {
      if lines == [] {
        return None;
      }
      r := Some(lines[0]);
      lines := lines[1..];
    }

    method ReadLineBounded(max: int) returns (r: Result<string, WireError>)
      modifies this
      ensures old(lines) == [] ==> r == Err(ReadFailed) && lines == []
      ensures old(lines) != [] ==> r == Bounded(old(lines)[0], max) && lines == old(lines)[1..]
      ensures old(lines) != [] ==>
                var raw := old(lines)[0];
                r == if raw.Line? && ByteLen(raw.text) <= max && TrimSpace(raw.text) != ""
                     then Ok(TrimSpace(raw.text)) else Err(Protocol)
    {
      var raw := ReadLine();
      if raw.None? {
        return Err(ReadFailed);
      }
      if raw.value.Oversize? || ByteLen(raw.value.text) > max {
        return Err(Protocol);
      }
      var trimmed := TrimSpace(raw.value.text);
      if trimmed == "" {
        return Err(Protocol);
      }
      return Ok(trimmed);
    }
  }

  lemma AnswerInTail(c: Codec, expected: string, max: int, lines: seq<RawLine>, i: nat)
    requires lines != [] && Skippable(c, expected, max, lines[0]) && AnswersAt(c, expected, max, lines[1..], i)
    ensures AnswersAt(c, expected, max, lines, i + 1)
    ensures lines[1..][i] == lines[i + 1] && lines[1..][i + 1..] == lines[i + 2..]
  {
    assert forall j :: 0 < j <= i ==> lines[j] == lines[1..][j - 1];
  }

  /** A successful handshake has found the answer, and leaves the lines right after it. */
  lemma {:induction false} HandshakeFinds(c: Codec, expected: string, max: int, lines: seq<RawLine>, left: nat)
    returns (k: nat)
    requires Handshake(c, expected, max, lines, left).0.Ok?
    ensures k < left && AnswersAt(c, expected, max, lines, k)
    ensures Handshake(c, expected, max, lines, left) == (Ok(TrimSpace(lines[k].text)), lines[k + 1..])
  {
    JudgeMeans(c, expected, max, lines[0]);
    if Judge(c, expected, max, lines[0]).Skip? {
      var i := HandshakeFinds(c, expected, max, lines[1..], left - 1);
      AnswerInTail(c, expected, max, lines, i);
      k := i + 1;
    } else {
      k := 0;
    }
  }

  lemma {:induction false} HandshakeSucceeds(
      c: Codec, expected: string, max: int, lines: seq<RawLine>, left: nat, k: nat)
    requires k < left && AnswersAt(c, expected, max, lines, k)
    ensures Handshake(c, expected, max, lines, left).0.Ok?
  {
    JudgeMeans(c, expected, max, lines[0]);
    if k > 0 {
      assert Skippable(c, expected, max, lines[0]);
      assert forall j :: 0 <= j < k ==> lines[1..][j] == lines[j + 1];
      HandshakeSucceeds(c, expected, max, lines[1..], left - 1, k - 1);
    }
  }

  lemma AnswerIsUnique(c: Codec, expected: string, max: int, lines: seq<RawLine>, i: nat, k: nat)
    requires AnswersAt(c, expected, max, lines, i) && AnswersAt(c, expected, max, lines, k)
    ensures i == k
  {
  }

  /** The handshake succeeds exactly when one of the first `left` lines answers the
      command and all lines before it are startup frames; it returns that line and has
      read up to it and no further. */
  lemma {:induction false} HandshakeMeans(c: Codec, expected: string, max: int, lines: seq<RawLine>, left: nat)
    ensures var (r, rest) := Handshake(c, expected, max, lines, left);
            && (r.Ok? <==> exists k: nat :: k < left && AnswersAt(c, expected, max, lines, k))
            && forall k: nat :: k < left && AnswersAt(c, expected, max, lines, k) ==>
                 r == Ok(TrimSpace(lines[k].text)) && rest == lines[k + 1..]
  {
    if Handshake(c, expected, max, lines, left).0.Ok? {
      var i := HandshakeFinds(c, expected, max, lines, left);
      forall k: nat | k < left && AnswersAt(c, expected, max, lines, k) ensures k == i {
        AnswerIsUnique(c, expected, max, lines, i, k);
      }
    }
    if k: nat :| k < left && AnswersAt(c, expected, max, lines, k) {
      HandshakeSucceeds(c, expected, max, lines, left, k);
    }
  }

  // ----- every outcome of the handshake

  /** A usable answer to the command that is neither ok nor accepted. */
  predicate Rejects(c: Codec, expected: string, max: int, raw: RawLine) {
    && Usable(max, raw)
    && var e := c.envelope(TrimSpace(raw.text));
       e.Some? && e.value.frameType == expected && !e.value.ok && !e.value.accepted
  }

  /** The first `k` lines are startup frames and the next one, if it may be read, is not. */
  ghost predicate SkipsTo(c: Codec, expected: string, max: int, lines: seq<RawLine>, left: nat, k: nat) {
    && k <= left && k <= |lines|
    && (forall j :: 0 <= j < k ==> Skippable(c, expected, max, lines[j]))
    && (k < left && k < |lines| ==> !Skippable(c, expected, max, lines[k]))
  }

  /** What must come of a handshake whose first `k` lines are skipped: too many startup
      frames, no line left, the line that answers, Java's own message when it rejects the
      command, or a protocol error; and which lines are left. */
  ghost predicate EndsAfter(c: Codec, expected: string, max: int, lines: seq<RawLine>, left: nat, k: nat,
                            r: Result<string, WireError>, rest: seq<RawLine>)
    requires k <= |lines|
  {
    if k == left then r == Err(Protocol) && rest == lines[k..]
    else if k == |lines| then r == Err(ReadFailed) && rest == []
    else
      var raw := lines[k];
      && rest == lines[k + 1..]
      && r == if Answers(c, expected, max, raw) then Ok(TrimSpace(raw.text))
              else if Rejects(c, expected, max, raw)
              then Err(Rejected(c.envelope(TrimSpace(raw.text)).value.message))
              else Err(Protocol)
  }

  lemma JudgeFails(c: Codec, expected: string, max: int, raw: RawLine)
    requires !Answers(c, expected, max, raw) && !Skippable(c, expected, max, raw)
    ensures Judge(c, expected, max, raw) ==
            Fail(if Rejects(c, expected, max, raw)
                 then Rejected(c.envelope(TrimSpace(raw.text)).value.message) else Protocol)
  {
  }

  /** The handshake has exactly one outcome, and this is it. */
  lemma {:induction false} HandshakeOutcome(c: Codec, expected: string, max: int, lines: seq<RawLine>, left: nat)
    returns (k: nat)
    ensures SkipsTo(c, expected, max, lines, left, k)
    ensures EndsAfter(c, expected, max, lines, left, k,
                      Handshake(c, expected, max, lines, left).0, Handshake(c, expected, max, lines, left).1)
  {
    if left == 0 || lines == [] {
      k := 0;
      assert lines[0..] == lines;
    } else {
      JudgeMeans(c, expected, max, lines[0]);
      if Skippable(c, expected, max, lines[0]) {
        var i := HandshakeOutcome(c, expected, max, lines[1..], left - 1);
        k := i + 1;
        var (r, rest) := Handshake(c, expected, max, lines[1..], left - 1);
        OutcomeInTail(c, expected, max, lines, left, i, r, rest);
      } else {
        k := 0;
        if !Answers(c, expected, max, lines[0]) {
          JudgeFails(c, expected, max, lines[0]);
        }
      }
    }
  }

  lemma OutcomeInTail(c: Codec, expected: string, max: int, lines: seq<RawLine>, left: nat, i: nat,
                      r: Result<string, WireError>, rest: seq<RawLine>)
    requires left > 0 && lines != [] && Skippable(c, expected, max, lines[0])
    requires SkipsTo(c, expected, max, lines[1..], left - 1, i)
    requires EndsAfter(c, expected, max, lines[1..], left - 1, i, r, rest)
    ensures SkipsTo(c, expected, max, lines, left, i + 1)
    ensures EndsAfter(c, expected, max, lines, left, i + 1, r, rest)
  {
    assert lines[1..][i..] == lines[i + 1..];
    if i < |lines[1..]| {
      assert lines[1..][i] == lines[i + 1] && lines[1..][i + 1..] == lines[i + 2..];
    }
    forall j | 0 <= j < i + 1 ensures Skippable(c, expected, max, lines[j]) {
      assert j > 0 ==> lines[j] == lines[1..][j - 1];
    }
  }

  /** The body of the loop: what one bounded line means for the command. */
  method ReadFrame(c: Codec, expected: string, line: string) returns (v: Verdict)
    ensures v == JudgeFrame(c, expected, line)
  {
    var envelope := c.envelope(line);
    if envelope.None? {
      return Fail(Protocol);
    }
    if envelope.value.frameType != expected {
      if envelope.value.frameType in STARTUP_FRAMES {
        return Skip;
      }
      return Fail(Protocol);
    }
    if !envelope.value.ok && !envelope.value.accepted {
      return Fail(Rejected(envelope.value.message));
    }
    if !c.decodes(line) {
      return Fail(Protocol);
    }
    return Accept(line);
  }

  method ReadTyped(c: Codec, expected: string, max: int, reader: Reader) returns (r: Result<string, WireError>)
    modifies reader
    ensures (r, reader.lines) == Handshake(c, expected, max, old(reader.lines), MAX_STARTUP)
    ensures exists k: nat :: SkipsTo(c, expected, max, old(reader.lines), 8, k)
              && EndsAfter(c, expected, max, old(reader.lines), 8, k, r, reader.lines)
  {
    ghost var k := HandshakeOutcome(c, expected, max, reader.lines, MAX_STARTUP);
    ghost var outcome := Handshake(c, expected, max, reader.lines, MAX_STARTUP);
    for skipped := 0 to MAX_STARTUP
      invariant Handshake(c, expected, max, reader.lines, MAX_STARTUP - skipped) == outcome
    {
      var line := reader.ReadLineBounded(max);
      if line.Err? {
        return Err(line.error);
      }
      var verdict := ReadFrame(c, expected, line.value);
      if verdict.Skip? {
        continue;
      }
      return if verdict.Fail? then Err(verdict.error) else Ok(verdict.line);
    }
    return Err(Protocol);
  }

  class Connection {
    const reader: Reader
    var open: bool

    constructor (reader: Reader)
      ensures this.reader == reader && open
    {
      this.reader := reader;
      open := true;
    }

    method Close()
      modifies this
      ensures !open
    {
      open := false;
    }
  }

  /** Opening a session: `dialled` is the connection if the dial succeeded, `sent` whether
      the signed command could be built and written. The connection is closed on every
      path but success. */
  method BeginSession(c: Codec, account: string, max: int, dialled: Option<Connection>, sent: bool)
    returns (r: Result<Connection, WireError>)
    requires dialled.Some? ==> dialled.value.open
    modifies if dialled.Some? then {dialled.value, dialled.value.reader} else {}
    ensures r.Ok? ==> dialled == Some(r.value)
    ensures dialled.Some? ==> (dialled.value.open <==> r.Ok?)
    ensures dialled.Some? && sent ==>
              var (spec, rest) := Handshake(c, SESSION_RESULT, max, old(dialled.value.reader.lines), MAX_STARTUP);
              && (r.Ok? <==> spec.Ok? && c.account(spec.value) in {"", account})
              && (r.Err? ==> r.error == if spec.Err? then spec.error else Protocol)
              && dialled.value.reader.lines == rest
    ensures dialled.None? || !sent ==> r == Err(ReadFailed)
  {
    if dialled.None? {
      return Err(ReadFailed);
    }
    var conn := dialled.value;
    if !sent {
      conn.Close();
      return Err(ReadFailed);
    }
    var result := ReadTyped(c, SESSION_RESULT, max, conn.reader);
    if result.Err? {
      conn.Close();
      return Err(result.error);
    }
    if c.account(result.value) != "" && c.account(result.value) != account {
      conn.Close();
      return Err(Protocol);
    }
    return Ok(conn);
  }

  // ----- forwarding to the browser

  const DEFAULT_MAX_FRAME := 1024 * 1024

  /** A line the proxy forwards: bounded, not blank, and JSON. */
  predicate Good(isJson: string -> bool, max: int, raw: RawLine) {
    Bounded(raw, max).Ok? && isJson(Bounded(raw, max).value)
  }

  /** The browser's end of the websocket: it takes `capacity` more frames, then fails. */
  class Browser {
    var received: seq<string>
    var capacity: nat

    constructor (capacity: nat)
      ensures received == [] && this.capacity == capacity
    {
      received, this.capacity := [], capacity;
    }

    method Write(line: string) returns (ok: bool)
      modifies this
      ensures ok == (old(capacity) > 0)
      ensures ok ==> received == old(received) + [line] && capacity == old(capacity) - 1
      ensures !ok ==> received == old(received) && capacity == old(capacity)
    {
      if capacity == 0 {
        return false;
      }
      received, capacity := received + [line], capacity - 1;
      return true;
    }
  }

  /** What the browser gets of a stream of lines when it takes at most `room` frames. */
  function Relayed(isJson: string -> bool, max: int, lines: seq<RawLine>, room: nat): seq<string> {
    if room == 0 || lines == [] || !Good(isJson, max, lines[0]) then []
    else [TrimSpace(lines[0].text)] + Relayed(isJson, max, lines[1..], room - 1)
  }

  /** The lines before the first bad one, all of them or the first `room`, each trimmed;
      a line is bad when it is too long, blank, or not JSON. */
  lemma {:induction false} RelayedMeans(isJson: string -> bool, max: int, lines: seq<RawLine>, room: nat)
    ensures var r := Relayed(isJson, max, lines, room);
            && |r| <= room && |r| <= |lines|
            && (forall i :: 0 <= i < |r| ==>
                  && lines[i].Line? && r[i] == TrimSpace(lines[i].text)
                  && ByteLen(lines[i].text) <= max && r[i] != "" && isJson(r[i]))
            && (|r| < room && |r| < |lines| ==>
                  var raw := lines[|r|];
                  !(raw.Line? && ByteLen(raw.text) <= max && TrimSpace(raw.text) != "" && isJson(TrimSpace(raw.text))))
  {
    if room > 0 && lines != [] && Good(isJson, max, lines[0]) {
      RelayedMeans(isJson, max, lines[1..], room - 1);
      RelayedFirst(isJson, max, lines, TrimSpace(lines[0].text), Relayed(isJson, max, lines[1..], room - 1));
    }
  }

  lemma RelayedFirst(isJson: string -> bool, max: int, lines: seq<RawLine>, first: string, rest: seq<string>)
    requires lines != [] && Good(isJson, max, lines[0]) && first == TrimSpace(lines[0].text)
    requires |rest| < |lines|
    requires forall i :: 0 <= i < |rest| ==> IsRelayed(isJson, max, lines[1..][i], rest[i])
    ensures forall i :: 0 <= i < |[first] + rest| ==> IsRelayed(isJson, max, lines[i], ([first] + rest)[i])
    ensures |rest| < |lines| - 1 ==> lines[1..][|rest|] == lines[|[first] + rest|]
  {
    forall i | 0 <= i < |[first] + rest| ensures IsRelayed(isJson, max, lines[i], ([first] + rest)[i]) {
      assert i > 0 ==> lines[i] == lines[1..][i - 1];
    }
  }

  predicate IsRelayed(isJson: string -> bool, max: int, raw: RawLine, text: string) {
    && raw.Line? && text == TrimSpace(raw.text)
    && ByteLen(raw.text) <= max && text != "" && isJson(text)
  }

  method ProxyJavaToBrowser(isJson: string -> bool, maxFrame: int, reader: Reader, browser: Browser)
    modifies reader, browser
    ensures browser.received ==
            old(browser.received) +
            Relayed(isJson, if maxFrame <= 0 then 1048576 else maxFrame, old(reader.lines), old(browser.capacity))
  {
    var max := if maxFrame <= 0 then DEFAULT_MAX_FRAME else maxFrame;
    ghost var left := Relayed(isJson, max, reader.lines, browser.capacity);
    ghost var target := browser.received + left;
    while true
      invariant left == Relayed(isJson, max, reader.lines, browser.capacity)
      invariant browser.received + left == target
      decreases |reader.lines|
    {
      ghost var before := browser.received;
      RelayedStep(isJson, max, reader.lines, browser.capacity);
      var line := reader.ReadLineBounded(max);
      if line.Err? || !isJson(line.value) {
        NothingLeft(before, left);
        return;
      }
      var ok := browser.Write(line.value);
      if !ok {
        NothingLeft(before, left);
        return;
      }
      left := Relayed(isJson, max, reader.lines, browser.capacity);
      WriteMoves(before, line.value, left);
    }
  }

  /** What the next line does to what is left to relay. */
  lemma {:induction false} RelayedStep(isJson: string -> bool, max: int, lines: seq<RawLine>, room: nat)
    ensures lines == [] || room == 0 ==> Relayed(isJson, max, lines, room) == []
    ensures lines != [] && !Good(isJson, max, lines[0]) ==> Relayed(isJson, max, lines, room) == []
    ensures lines != [] && room > 0 && Good(isJson, max, lines[0]) ==>
              && Bounded(lines[0], max) == Ok(TrimSpace(lines[0].text))
              && Relayed(isJson, max, lines, room) ==
                 [TrimSpace(lines[0].text)] + Relayed(isJson, max, lines[1..], room - 1)
  {
  }

  lemma NothingLeft(written: seq<string>, left: seq<string>)
    ensures left == [] ==> written + left == written
  {
  }

  lemma WriteMoves(written: seq<string>, next: string, left: seq<string>)
    ensures written + ([next] + left) == (written + [next]) + left
  {
  }

  /** A whole play connection, as the browser sees the Java stream: when the handshake was
      answered by line k, the browser receives exactly the trimmed lines that follow it, in
      order, up to the first bad one or the first failed write. Nothing of the handshake
      reaches the browser, and nothing after it is lost or repeated. When the handshake
      fails, the browser receives nothing. */
  method Play(c: Codec, isJson: string -> bool, account: string, max: int, maxFrame: int,
              conn: Connection, sent: bool, browser: Browser)
    returns (ok: bool, ghost k: nat)
    requires conn.open
    modifies conn, conn.reader, browser
    ensures !ok ==> browser.received == old(browser.received) && !conn.open
    ensures ok <==>
              && sent
              && exists i: nat :: i < 8
                   && AnswersAt(c, "gateway_session_result", max, old(conn.reader.lines), i)
                   && c.account(TrimSpace(old(conn.reader.lines)[i].text)) in {"", account}
    ensures ok ==>
              && k < 8 && AnswersAt(c, "gateway_session_result", max, old(conn.reader.lines), k)
              && browser.received == old(browser.received) +
                   Relayed(isJson, if maxFrame <= 0 then 1048576 else maxFrame,
                           old(conn.reader.lines)[k + 1..], old(browser.capacity))
  {
    ghost var all := conn.reader.lines;
    HandshakeMeans(c, SESSION_RESULT, max, all, MAX_STARTUP);
    k := 0;
    if Handshake(c, SESSION_RESULT, max, all, MAX_STARTUP).0.Ok? {
      k := HandshakeFinds(c, SESSION_RESULT, max, all, MAX_STARTUP);
    }
    var session := BeginSession(c, account, max, Some(conn), sent);
    ok := session.Ok?;
    if ok {
      ProxyJavaToBrowser(isJson, maxFrame, conn.reader, browser);
    }
  }
}
