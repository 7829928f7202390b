/** The browser side of a play connection: which frames reach Java, and how Java gets the
    frames back out of the byte stream. */
module BrowserFrames {
  import opened Sequences
  import opened Text

  /** What the browser sends before its connection ends or fails. */
  datatype Message = TextFrame(data: string) | BinaryFrame

  /** The JSON checks on a frame, which may do anything: whether it is JSON, and whether
      its type is the browser's own debug type. */
  datatype Checks = Checks(isJson: string -> bool, isLocal: string -> bool)

  predicate Valid(c: Checks, max: int, m: Message) {
    m.TextFrame? && ByteLen(m.data) <= max && c.isJson(m.data)
  }

  /** The data of the frames meant for Java, up to the first frame that is refused. */
  function Forwarded(c: Checks, max: int, ms: seq<Message>): seq<string> {
    if ms == [] || !Valid(c, max, ms[0]) then []
    else (if c.isLocal(ms[0].data) then [] else [ms[0].data]) + Forwarded(c, max, ms[1..])
  }

  /** Java's connection: it takes `capacity` more writes, then fails. */
  class JavaSink {
    var bytes: string
    var capacity: nat

    constructor (capacity: nat)
      ensures bytes == "" && this.capacity == capacity
    {
      bytes, this.capacity := "", capacity;
    }

    method Write(data: string) returns (ok: bool)
      modifies this
      ensures ok == (old(capacity) > 0)
      ensures ok ==> bytes == old(bytes) + data && capacity == old(capacity) - 1
      ensures !ok ==> bytes == old(bytes) && capacity == old(capacity)
    {
      if capacity == 0 {
        return false;
      }
      bytes, capacity := bytes + data, capacity - 1;
      return true;
    }
  }

  function Take(frames: seq<string>, n: nat): seq<string> {
    if |frames| <= n then frames else frames[..n]
  }

  /** Java receives exactly the valid text frames before the first refused one, in order,
      newline-terminated, without the browser's own debug frames; or, when Java stops
      accepting writes, the first so many of them. */
  method ProxyBrowserToJava(c: Checks, max: int, messages: seq<Message>, java: JavaSink)
    modifies java
    ensures var frames, room := Forwarded(c, max, messages), old(java.capacity);
            java.bytes == old(java.bytes) + Joined(if |frames| <= room then frames else frames[..room])
  {
    ghost var left := Pending(c, max, messages, 0, java.capacity);
    ghost var target := java.bytes + left;
    assert messages[0..] == messages;
    var i := 0;
    while i < |messages|
      invariant i <= |messages|
      invariant left == Pending(c, max, messages, i, java.capacity)
      invariant java.bytes + left == target
    {
      var m := messages[i];
      PendingStep(c, max, messages, i, java.capacity);
      if !m.TextFrame? || ByteLen(m.data) > max || !c.isJson(m.data) {
        NothingLeft(java.bytes, left);
        return;
      }
      i := i + 1;
      if c.isLocal(m.data) {
        continue;
      }
      ghost var before := java.bytes;
      var ok := java.Write(m.data + "\n");
      if !ok {
        NothingLeft(java.bytes, left);
        return;
      }
      left := Pending(c, max, messages, i, java.capacity);
      WriteMoves(before, m.data + "\n", left);
    }
    NothingLeft(java.bytes, left);
  }

  /** The bytes still to be written from message `i` on. */
  function Pending(c: Checks, max: int, ms: seq<Message>, i: nat, room: nat): string
    requires i <= |ms|
  {
    Joined(Take(Forwarded(c, max, ms[i..]), room))
  }

  lemma {:induction false} PendingStep(c: Checks, max: int, ms: seq<Message>, i: nat, room: nat)
    requires i < |ms|
    ensures !Valid(c, max, ms[i]) || (room == 0 && !c.isLocal(ms[i].data)) ==> Pending(c, max, ms, i, room) == ""
    ensures Valid(c, max, ms[i]) && c.isLocal(ms[i].data) ==>
              Pending(c, max, ms, i, room) == Pending(c, max, ms, i + 1, room)
    ensures Valid(c, max, ms[i]) && !c.isLocal(ms[i].data) && room > 0 ==>
              Pending(c, max, ms, i, room) == (ms[i].data + "\n") + Pending(c, max, ms, i + 1, room - 1)
  {
    ForwardedStep(c, max, ms, i);
    if Valid(c, max, ms[i]) && !c.isLocal(ms[i].data) {
      TakeFirst(ms[i].data, Forwarded(c, max, ms[i + 1..]), room);
    }
  }

  lemma {:induction false} NothingLeft(written: string, left: string)
    ensures left == "" ==> written + left == written
  {
  }

  lemma {:induction false} WriteMoves(written: string, next: string, left: string)
    ensures written + (next + left) == (written + next) + left
  {
  }

  lemma {:induction false} ForwardedStep(c: Checks, max: int, ms: seq<Message>, i: nat)
    requires i < |ms|
    ensures Forwarded(c, max, ms[i..]) ==
            if !Valid(c, max, ms[i]) then []
            else if c.isLocal(ms[i].data) then Forwarded(c, max, ms[i + 1..])
            else [ms[i].data] + Forwarded(c, max, ms[i + 1..])
  {
    assert ms[i..][0] == ms[i] && ms[i..][1..] == ms[i + 1..];
  }

  /** Writing the first frame of what is left to write. */
  lemma {:induction false} TakeFirst(f: string, rest: seq<string>, room: nat)
    ensures room == 0 ==> Joined(Take([f] + rest, room)) == ""
    ensures room > 0 ==> Joined(Take([f] + rest, room)) == (f + "\n") + Joined(Take(rest, room - 1))
  {
    if room > 0 {
      assert Take([f] + rest, room) == [f] + Take(rest, room - 1);
    }
  }

  // ----- getting the frames back

  /** Java recovers the frames by splitting on newline exactly when no forwarded frame
      contains a newline byte. */
  lemma {:induction false} FramingRecovers(c: Checks, max: int, messages: seq<Message>)
    ensures var frames := Forwarded(c, max, messages);
            Lines(Joined(frames)) == frames <==> forall k :: 0 <= k < |frames| ==> !HasNewline(frames[k])
  {
    var frames := Forwarded(c, max, messages);
    LinesHaveNoNewline(Joined(frames));
    if forall k :: 0 <= k < |frames| ==> !HasNewline(frames[k]) {
      LinesOfJoined(frames);
    }
  }

  /** Whether a message is for Java: a text frame that is not the browser's own. */
  function ForJava(c: Checks): Message -> bool {
    (m: Message) => m.TextFrame? && !c.isLocal(m.data)
  }

  function Data(m: Message): string {
    if m.TextFrame? then m.data else ""
  }

  /** The data of the messages for Java, in order. */
  ghost predicate KeptForJava(c: Checks, ms: seq<Message>, out: seq<string>) {
    Filtered(ms, ForJava(c), Data, out)
  }

  lemma ForwardedFirst(c: Checks, m: Message, ms: seq<Message>, out: seq<string>)
    requires m.TextFrame? && KeptForJava(c, ms, out)
    ensures KeptForJava(c, [m] + ms, (if c.isLocal(m.data) then [] else [m.data]) + out)
  {
    FilteredPrepend(ms, ForJava(c), Data, out, m);
    assert [] + out == out;
  }

  /** The forwarded frames, described without recursion: the longest prefix of text frames
      that are not too long and are JSON, without the browser's own, in order. */
  lemma {:induction false} ForwardedMeans(c: Checks, max: int, ms: seq<Message>) returns (n: nat)
    ensures n <= |ms|
    ensures forall i :: 0 <= i < n ==> ms[i].TextFrame? && ByteLen(ms[i].data) <= max && c.isJson(ms[i].data)
    ensures n < |ms| ==> !(ms[n].TextFrame? && ByteLen(ms[n].data) <= max && c.isJson(ms[n].data))
    ensures KeptForJava(c, ms[..n], Forwarded(c, max, ms))
  {
    if ms == [] || !Valid(c, max, ms[0]) {
      n := 0;
      FilteredNothing(ForJava(c), Data);
    } else {
      var m := ForwardedMeans(c, max, ms[1..]);
      n := m + 1;
      ForwardedFirst(c, ms[0], ms[1..][..m], Forwarded(c, max, ms[1..]));
      assert ms[..n] == [ms[0]] + ms[1..][..m];
    }
  }
}
