/** Handshake messages over TLS: records are appended to a buffer and messages are parsed off its
    front, wherever the record boundaries fall. */
module MessageBuffer {
  import opened Wire

  const HEADER: nat := 4

  function Frame(m: HsMessage): (s: Bytes)
    ensures |s| == HEADER + |m.body|
  {
    [m.msgType] + ToBE(|m.body|, 3) + m.body
  }

  function Frames(ms: seq<HsMessage>): Bytes {
    if ms == [] then [] else Frames(ms[..|ms| - 1]) + Frame(ms[|ms| - 1])
  }

  /** parse_message: the first message, or how many bytes it would take. */
  datatype Parsed = Whole(message: HsMessage) | Needs(bytes: nat)

  function Parse(s: Bytes): Parsed {
    if |s| < HEADER then Needs(HEADER)
    else
      var len := FromBE(s[1..4]);
      if |s| - HEADER < len then Needs(HEADER + len)
      else Whole(HsMessage(s[0], s[HEADER..HEADER + len]))
  }

  lemma {:induction false} ThreeBytes(s: Bytes)
    requires |s| == 3
    ensures FromBE(s) < 0x100_0000
  {
    assert Pow256(3) == 0x100_0000;
  }

  /** A framed message is parsed back, whatever follows it. */
  lemma {:induction false} FrameParses(m: HsMessage, rest: Bytes)
    requires MessageFits(m)
    ensures Parse(Frame(m) + rest) == Whole(m)
  {
    var s := Frame(m) + rest;
    assert s[1..4] == ToBE(|m.body|, 3);
    assert Pow256(3) == 0x100_0000;
    DecodedIsEncoded(|m.body|, 3);
    assert s[HEADER..HEADER + |m.body|] == m.body;
  }

  /** What is parsed is what the buffer starts with, and a message is announced as incomplete
      exactly when more bytes are needed for it. */
  lemma {:induction false} ParsedIsFrame(s: Bytes)
    ensures match Parse(s)
            case Whole(m) => MessageFits(m) && Frame(m) <= s
            case Needs(n) => |s| < n <= HEADER + 0xff_ffff
  {
    if |s| >= HEADER {
      var len := FromBE(s[1..4]);
      ThreeBytes(s[1..4]);
      if len <= |s| - HEADER {
        EncodedIsDecoded(s[1..4]);
        assert s[..HEADER + len] == [s[0]] + s[1..4] + s[HEADER..HEADER + len];
      }
    }
  }

  // ---- the buffer ----

  datatype Outcome = Appended | Unconsumed | TooLong

  class Inbox {
    var hsBuf: Option<Bytes>
    var hasMessage: bool

    ghost function Pending(): Bytes
      reads this
    {
      if hsBuf.Some? then hsBuf.value else []
    }

    constructor ()
      ensures hsBuf == None && !hasMessage
    {
      hsBuf, hasMessage := None, false;
    }

    /** parse_message; without a buffer a header is what is needed. */
    method ParseFront() returns (r: Parsed)
      ensures r == Parse(Pending())
    {
      if hsBuf.None? {
        return Needs(HEADER);
      }
      var s := hsBuf.value;
      if |s| < HEADER {
        return Needs(HEADER);
      }
      var len := FromBE(s[1..4]);
      if |s| - HEADER < len {
        return Needs(HEADER + len);
      }
      r := Whole(HsMessage(s[0], s[HEADER..HEADER + len]));
    }

    /** ssl3_get_message: the same message until it is consumed. */
    method GetMessage() returns (m: Option<HsMessage>)
      modifies this`hasMessage
      ensures match Parse(Pending())
              case Whole(w) => m == Some(w) && hasMessage
              case Needs(_) => m == None && hasMessage == old(hasMessage)
    {
      var r := ParseFront();
      match r
      case Whole(w) =>
        hasMessage := true;
        m := Some(w);
      case Needs(_) =>
        m := None;
    }

    /** tls_can_accept_handshake_data, then the append of ssl3_open_handshake: a complete message
        must be consumed first, and no message beyond the limit is buffered. */
    method AcceptRecord(body: Bytes, maxMessageLen: nat) returns (r: Outcome)
      modifies this`hsBuf
      ensures match Parse(old(Pending()))
              case Whole(_) => r == Unconsumed && hsBuf == old(hsBuf)
              case Needs(n) => if n > HEADER + maxMessageLen then r == TooLong && hsBuf == old(hsBuf)
                               else r == Appended && hsBuf == Some(old(Pending()) + body)
      ensures r == Appended ==> |old(Pending())| < HEADER + maxMessageLen
    {
      ParsedIsFrame(Pending());
      var p := ParseFront();
      match p
      case Whole(_) =>
        r := Unconsumed;
      case Needs(n) =>
        if n > HEADER + maxMessageLen {
          return TooLong;
        }
        hsBuf := Some((if hsBuf.Some? then hsBuf.value else []) + body);
        r := Appended;
    }

    /** tls_has_unprocessed_handshake_data: anything beyond a message already handed out. */
    method HasUnprocessedData() returns (r: bool)
      ensures !r <==> Pending() == [] || (hasMessage && exists m :: MessageFits(m) && Pending() == Frame(m))
    {
      ParsedIsFrame(Pending());
      forall m | MessageFits(m) && Pending() == Frame(m)
        ensures Parse(Pending()) == Whole(m)
      {
        FrameParses(m, []);
        assert Frame(m) + [] == Frame(m);
      }
      hide Parse, Frame;
      var msgLen := 0;
      if hasMessage {
        var p := ParseFront();
        if p.Whole? {
          msgLen := HEADER + |p.message.body|;
          assert Frame(p.message) <= Pending();
        }
      }
      r := hsBuf.Some? && |hsBuf.value| > msgLen;
    }

    /** ssl3_next_message. */
    method NextMessage(inInit: bool)
      requires Parse(Pending()).Whole?
      modifies this
      ensures !hasMessage
      ensures old(Pending()) == Frame(Parse(old(Pending())).message) + Pending()
    {
      ParsedIsFrame(Pending());
      var p := ParseFront();
      var n := HEADER + |p.message.body|;
      assert hsBuf.value == Frame(p.message) + hsBuf.value[n..];
      hsBuf := Some(hsBuf.value[n..]);
      hasMessage := false;
      if !inInit && hsBuf.value == [] {
        hsBuf := None;
      }
    }
  }

  // ---- runs ----

  /** What has come in, what is still in the buffer, and which messages were consumed. */
  datatype Stream = Stream(received: Bytes, buffer: Bytes, read: seq<HsMessage>)

  datatype Event = Record(body: Bytes) | Next

  function Step(s: Stream, e: Event, maxMessageLen: nat): Stream {
    match Parse(s.buffer)
    case Whole(m) =>
      if e.Next? then s.(buffer := s.buffer[HEADER + |m.body|..], read := s.read + [m]) else s
    case Needs(n) =>
      if e.Record? && n <= HEADER + maxMessageLen then
          s.(received := s.received + e.body, buffer := s.buffer + e.body) else s
  }

  function Run(s: Stream, events: seq<Event>, maxMessageLen: nat): Stream
    decreases |events|
  {
    if events == [] then s else Run(Step(s, events[0], maxMessageLen), events[1..], maxMessageLen)
  }

  ghost predicate Conserved(s: Stream) {
    s.received == Frames(s.read) + s.buffer && forall m :: m in s.read ==> MessageFits(m)
  }

  lemma {:induction false} FramesSnoc(ms: seq<HsMessage>, m: HsMessage)
    ensures Frames(ms + [m]) == Frames(ms) + Frame(m)
  {
    assert (ms + [m])[..|ms|] == ms;
  }

  lemma {:induction false} StepConserves(s: Stream, e: Event, maxMessageLen: nat)
    requires Conserved(s)
    ensures Conserved(Step(s, e, maxMessageLen))
  {
    hide Frames, Frame, Parse;
    ParsedIsFrame(s.buffer);
    match Parse(s.buffer)
    case Whole(m) =>
      if e.Next? {
        FramesSnoc(s.read, m);
        var n := HEADER + |m.body|;
        assert s.buffer == Frame(m) + s.buffer[n..];
        assert Frames(s.read) + (Frame(m) + s.buffer[n..]) == Frames(s.read) + Frame(m) + s.buffer[n..];
      }
    case Needs(_) =>
      if e.Record? {
        assert Frames(s.read) + s.buffer + e.body == Frames(s.read) + (s.buffer + e.body);
      }
  }

  /** Every byte received is in a consumed message or in the buffer. */
  lemma {:induction false} RunConserves(s: Stream, events: seq<Event>, maxMessageLen: nat)
    requires Conserved(s)
    ensures Conserved(Run(s, events, maxMessageLen))
    decreases |events|
  {
    hide Conserved, Step;
    if events != [] {
      StepConserves(s, events[0], maxMessageLen);
      RunConserves(Step(s, events[0], maxMessageLen), events[1..], maxMessageLen);
    }
  }

  lemma {:induction false} FramesCons(ms: seq<HsMessage>)
    requires ms != []
    ensures Frames(ms) == Frame(ms[0]) + Frames(ms[1..])
    decreases |ms|
  {
    hide Frame;
    if |ms| == 1 {
      assert ms[..0] == [] && ms[1..] == [];
      assert Frames(ms) == [] + Frame(ms[0]) == Frame(ms[0]) + [];
    } else {
      var front := ms[..|ms| - 1];
      FramesCons(front);
      assert ms[1..][..|ms| - 2] == front[1..];
      assert Frame(ms[0]) + Frames(front[1..]) + Frame(ms[|ms| - 1]) == Frame(ms[0])
          + (Frames(front[1..]) + Frame(ms[|ms| - 1]));
    }
  }

  lemma {:induction false} HeadsAgree(m: HsMessage, x: Bytes, n: HsMessage, y: Bytes)
    requires MessageFits(m) && MessageFits(n) && Frame(m) + x == Frame(n) + y
    ensures m == n && x == y
  {
    hide Frame, Parse;
    FrameParses(m, x);
    FrameParses(n, y);
    assert x == (Frame(m) + x)[|Frame(m)|..];
    assert y == (Frame(n) + y)[|Frame(n)|..];
  }

  lemma {:induction false} Regroup(a: Bytes, b: Bytes, c: Bytes)
    ensures a + b + c == a + (b + c)
  {
  }

  lemma {:induction false} PrefixByHead(a: seq<HsMessage>, b: seq<HsMessage>)
    requires a != [] && b != [] && a[0] == b[0] && a[1..] <= b[1..]
    ensures a <= b
  {
    assert a == [a[0]] + a[1..] && b == [b[0]] + b[1..];
  }

  /** Framing leaves no choice: two readings of one byte string start with the same messages. */
  lemma {:induction false} ReadingIsUnique(a: seq<HsMessage>, x: Bytes, b: seq<HsMessage>, y: Bytes)
    requires Frames(a) + x == Frames(b) + y && |a| <= |b|
    requires (forall m :: m in a ==> MessageFits(m)) && (forall m :: m in b ==> MessageFits(m))
    ensures a <= b
    decreases |a|
  {
    if a != [] {
      FramesCons(a);
      FramesCons(b);
      hide Frame, Frames;
      Regroup(Frame(a[0]), Frames(a[1..]), x);
      Regroup(Frame(b[0]), Frames(b[1..]), y);
      HeadsAgree(a[0], Frames(a[1..]) + x, b[0], Frames(b[1..]) + y);
      ReadingIsUnique(a[1..], x, b[1..], y);
      PrefixByHead(a, b);
    }
  }

  lemma {:induction false} LongerFrames(a: seq<HsMessage>, b: seq<HsMessage>)
    requires a < b
    ensures |Frames(a)| < |Frames(b)|
    decreases |b|
  {
    var front := b[..|b| - 1];
    if |a| < |front| {
      assert a < front;
      LongerFrames(a, front);
    } else {
      assert a == front;
    }
  }

  /** If the bytes received come from a sequence of messages, cut into records in any way, then the
      messages consumed are the first of that sequence, unchanged and in order. */
  lemma {:induction false} MessagesArriveInOrder(ms: seq<HsMessage>, events: seq<Event>, maxMessageLen: nat,
      left: Bytes)
    requires forall m :: m in ms ==> MessageFits(m)
    requires Run(Stream([], [], []), events, maxMessageLen).received + left == Frames(ms)
    ensures Run(Stream([], [], []), events, maxMessageLen).read <= ms
  {
    var start := Stream([], [], []);
    assert Conserved(start);
    RunConserves(start, events, maxMessageLen);
    var s := Run(start, events, maxMessageLen);
    hide Run, Frames;
    assert Frames(s.read) + (s.buffer + left) == Frames(ms) + [];
    if |s.read| <= |ms| {
      ReadingIsUnique(s.read, s.buffer + left, ms, []);
    } else {
      ReadingIsUnique(ms, [], s.read, s.buffer + left);
      LongerFrames(ms, s.read);
      assert false;
    }
  }

  // ---- everything arrives ----

  lemma {:induction false} FramesJoin(a: seq<HsMessage>, b: seq<HsMessage>)
    ensures Frames(a + b) == Frames(a) + Frames(b)
    decreases |b|
  {
    if b == [] {
      assert a + b == a && Frames(a) + [] == Frames(a);
    } else {
      var front := b[..|b| - 1];
      FramesJoin(a, front);
      assert (a + b)[..|a + b| - 1] == a + front;
      Regroup(Frames(a), Frames(front), Frame(b[|b| - 1]));
    }
  }

  /** What is in the buffer and what is still to come are the frames of the messages not yet read. */
  lemma {:induction false} RestIsDue(ms: seq<HsMessage>, s: Stream, left: Bytes)
    requires (forall m :: m in ms ==> MessageFits(m)) && Conserved(s) && s.received + left == Frames(ms)
    ensures s.read <= ms && s.buffer + left == Frames(ms[|s.read|..])
  {
    hide Frames;
    Regroup(Frames(s.read), s.buffer, left);
    assert Frames(ms) + [] == Frames(ms);
    if |s.read| <= |ms| {
      ReadingIsUnique(s.read, s.buffer + left, ms, []);
      var due := ms[|s.read|..];
      assert ms == s.read + due;
      FramesJoin(s.read, due);
      assert s.buffer + left == (Frames(s.read) + (s.buffer + left))[|Frames(s.read)|..];
      assert Frames(due) == (Frames(s.read) + Frames(due))[|Frames(s.read)|..];
    } else {
      ReadingIsUnique(ms, [], s.read, s.buffer + left);
      LongerFrames(ms, s.read);
      assert false;
    }
  }

  /** The front of what is due: whole, or announced within the limit. */
  lemma {:induction false} FrontOfDue(due: seq<HsMessage>, buffer: Bytes, left: Bytes, maxMessageLen: nat)
    requires forall m :: m in due ==> MessageFits(m) && |m.body| <= maxMessageLen
    requires buffer + left == Frames(due)
    ensures match Parse(buffer)
            case Whole(m) => due != [] && m == due[0]
            case Needs(n) => n <= HEADER + maxMessageLen && (left == [] ==> due == [])
  {
    if due == [] {
      assert buffer == [];
    } else {
      FramesCons(due);
      var rest := Frames(due[1..]);
      FrameParses(due[0], rest);
      assert Parse(buffer + left) == Whole(due[0]);
      ParseOfPrefix(buffer, left);
      if left == [] {
        assert buffer + left == buffer;
      }
    }
  }

  /** A prefix parses to the same message or announces it. */
  lemma {:induction false} ParseOfPrefix(a: Bytes, b: Bytes)
    requires Parse(a + b).Whole?
    ensures match Parse(a)
            case Whole(m) => m == Parse(a + b).message
            case Needs(n) => n <= HEADER + |Parse(a + b).message.body|
  {
    if |a| >= HEADER {
      assert (a + b)[1..4] == a[1..4];
    }
  }

  /** The reader takes every message that is whole. */
  function Drain(s: Stream, maxMessageLen: nat): Stream
    decreases |s.buffer|
  {
    if Parse(s.buffer).Needs? then s
    else
      var t := Step(s, Next, maxMessageLen);
      if |t.buffer| < |s.buffer| then Drain(t, maxMessageLen) else t
  }

  /** Records come in, and the reader drains the buffer before each and at the end. */
  function Feed(s: Stream, cuts: seq<Bytes>, maxMessageLen: nat): Stream
    decreases |cuts|
  {
    if cuts == [] then Drain(s, maxMessageLen)
    else Feed(Step(Drain(s, maxMessageLen), Record(cuts[0]), maxMessageLen), cuts[1..], maxMessageLen)
  }

  function Joined(cuts: seq<Bytes>): Bytes {
    if cuts == [] then [] else cuts[0] + Joined(cuts[1..])
  }

  lemma {:induction false} DrainKeeps(s: Stream, maxMessageLen: nat)
    requires Conserved(s)
    ensures var t := Drain(s, maxMessageLen);
            Conserved(t) && t.received == s.received && Parse(t.buffer).Needs?
    decreases |s.buffer|
  {
    hide Conserved, Parse;
    if Parse(s.buffer).Whole? {
      StepConserves(s, Next, maxMessageLen);
      ParsedIsFrame(s.buffer);
      DrainKeeps(Step(s, Next, maxMessageLen), maxMessageLen);
    }
  }

  lemma {:induction false} FeedReads(ms: seq<HsMessage>, s: Stream, cuts: seq<Bytes>, maxMessageLen: nat)
    requires forall m :: m in ms ==> MessageFits(m) && |m.body| <= maxMessageLen
    requires Conserved(s) && s.received + Joined(cuts) == Frames(ms)
    ensures var t := Feed(s, cuts, maxMessageLen); t.read == ms && t.buffer == []
    decreases |cuts|
  {
    hide Conserved, Parse, Frames, Drain, Step;
    var t := Drain(s, maxMessageLen);
    DrainKeeps(s, maxMessageLen);
    RestIsDue(ms, t, Joined(cuts));
    FrontOfDue(ms[|t.read|..], t.buffer, Joined(cuts), maxMessageLen);
    if cuts == [] {
      NothingDue(t.buffer);
    } else {
      StepConserves(t, Record(cuts[0]), maxMessageLen);
      RecordAccepted(t, cuts[0], maxMessageLen);
      Regroup(t.received, cuts[0], Joined(cuts[1..]));
      FeedReads(ms, Step(t, Record(cuts[0]), maxMessageLen), cuts[1..], maxMessageLen);
    }
  }

  lemma {:induction false} NothingDue(buffer: Bytes)
    ensures buffer + [] == Frames([]) ==> buffer == []
  {
    assert buffer + [] == buffer;
  }

  lemma {:induction false} RecordAccepted(s: Stream, body: Bytes, maxMessageLen: nat)
    requires Parse(s.buffer).Needs? && Parse(s.buffer).bytes <= HEADER + maxMessageLen
    ensures Step(s, Record(body), maxMessageLen).received == s.received + body
  {
  }

  /** However the bytes of some messages within the limit are cut into records: a reader that takes
      what is whole before each record ends with exactly these messages and an empty buffer. */
  lemma {:induction false} EveryMessageArrives(ms: seq<HsMessage>, cuts: seq<Bytes>, maxMessageLen: nat)
    requires forall m :: m in ms ==> MessageFits(m) && |m.body| <= maxMessageLen
    requires Joined(cuts) == Frames(ms)
    ensures var t := Feed(Stream([], [], []), cuts, maxMessageLen); t.read == ms && t.buffer == []
  {
    var start := Stream([], [], []);
    assert Conserved(start);
    hide Frames, Feed;
    assert [] + Joined(cuts) == Joined(cuts);
    FeedReads(ms, start, cuts, maxMessageLen);
  }
}
