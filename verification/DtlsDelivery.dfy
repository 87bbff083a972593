/** Sender, lossy network and receiver together: whatever is lost, duplicated or reordered, the
    receiver hands out exactly the messages the sender added (RFC 6347, sections 4.2.3, 4.2.6). */
module DtlsDelivery {
  import opened Wire
  import opened Reassembly
  import opened HandshakeReceive
  import RecordWriter
  import Send = HandshakeSend

  /** The message with sequence number `k`, as it was built. */
  function AsFragment(m: HsMessage, k: nat): Fragment {
    Fragment(WholeHeader(m.msgType, |m.body|, k), m.body)
  }

  /** One connection direction. `history[k]` is the message added with sequence number `k`,
      `sent` are all records ever put on the wire, `delivered` the messages released so far. */
  datatype Net = Net(history: seq<HsMessage>, sent: set<RecordWriter.Sealed>, recv: ReceiveState,
      delivered: seq<seq<byte>>)

  datatype NetEvent =
    | Add(m: HsMessage)
    | Transmit(flight: seq<Send.Outgoing>, records: set<RecordWriter.Sealed>)
    | Deliver(record: RecordWriter.Sealed, nullCipher: bool, maxMessageLen: nat)
    | Local(e: Event)

  const START: Net := Net([], {}, HandshakeReceive.INITIAL, [])

  /** The flight consists of added messages and ChangeCipherSpecs. */
  ghost predicate FlightFrom(flight: seq<Send.Outgoing>, history: seq<HsMessage>) {
    forall i :: 0 <= i < |flight| && !flight[i].isCcs ==>
      exists k :: 0 <= k < |history| && flight[i].data == FragmentBytes(AsFragment(history[k], k))
  }

  /** What the network and the two ends may do. Sequence numbers have 16 bits, so at most 65536
      messages have distinct ones. */
  ghost predicate Allowed(net: Net, e: NetEvent) {
    match e
    case Add(m) => |net.history| < SEQ_LIMIT && MessageFits(m)
    case Transmit(flight, records) =>
      FlightFrom(flight, net.history) && forall r :: r in records ==> Send.CarriesFlight(r, flight)
    case Deliver(record, _, _) => record in net.sent
    case Local(e) => !e.Open?
  }

  ghost function NetStep(net: Net, e: NetEvent): (net': Net)
    requires RingOk(net.recv)
    ensures RingOk(net'.recv)
  {
    if !Allowed(net, e) then net
    else match e
      case Add(m) => net.(history := net.history + [m])
      case Transmit(_, records) => net.(sent := net.sent + records)
      case Deliver(r, nullCipher, maxMessageLen) =>
        net.(recv := Step(net.recv, Open(r.contentType, nullCipher, r.payload, maxMessageLen)))
      case Local(e) =>
        net.(recv := Step(net.recv, e),
             delivered := if e.Next? && net.recv.hasMessage
                          then net.delivered + [net.recv.slots[Slot(net.recv.readSeq)].value.data]
                          else net.delivered)
  }

  ghost function RunNet(events: seq<NetEvent>): (net: Net)
    ensures RingOk(net.recv)
  {
    if events == [] then START else NetStep(RunNet(events[..|events| - 1]), events[|events| - 1])
  }

  // ---- honesty ----

  /** The record carries a piece of an added message, or a ChangeCipherSpec. */
  ghost predicate Honest(history: seq<HsMessage>, r: RecordWriter.Sealed) {
    || r.contentType == CHANGE_CIPHER_SPEC
    || (r.contentType == HANDSHAKE
        && exists k: nat, from: nat, to: nat :: PieceOf(history, r.payload, k, from, to))
  }

  ghost predicate PieceOf(history: seq<HsMessage>, payload: seq<byte>, k: nat, from: nat, to: nat) {
    && k < |history| && from <= to <= |history[k].body|
    && payload == FragmentBytes(Send.Slice(AsFragment(history[k], k), from, to))
  }

  /** The received bytes of a message are the bytes that were added under its number. */
  ghost predicate Agrees(history: seq<HsMessage>, m: Incoming) {
    && m.seqNum < |history|
    && m.msgType == history[m.seqNum].msgType
    && m.msgLen == |history[m.seqNum].body|
    && |m.data| == HM_HEADER_LENGTH + m.msgLen
    && forall i :: i in m.received && i < m.msgLen ==> m.data[HM_HEADER_LENGTH + i] == history[m.seqNum].body[i]
  }

  ghost predicate RingAgrees(history: seq<HsMessage>, s: ReceiveState)
    requires |s.slots| == MAX_FLIGHT
  {
    forall i :: 0 <= i < MAX_FLIGHT && s.slots[i].Some? ==> Agrees(history, s.slots[i].value)
  }

  ghost predicate AllFit(history: seq<HsMessage>) {
    |history| <= SEQ_LIMIT && forall k :: 0 <= k < |history| ==> MessageFits(history[k])
  }

  lemma {:induction false} PieceParses(history: seq<HsMessage>, payload: seq<byte>, k: nat, from: nat, to: nat)
    requires AllFit(history) && PieceOf(history, payload, k, from, to)
    ensures HeaderFits(Send.Slice(AsFragment(history[k], k), from, to).header)
    ensures ParseFragment(payload) == Some((Send.Slice(AsFragment(history[k], k), from, to), []))
    ensures payload != []
  {
    Send.SliceFits(AsFragment(history[k], k), from, to);
    assert |payload| >= HM_HEADER_LENGTH;
  }

  lemma {:induction false} WholeMessageParses(m: HsMessage, k: nat)
    requires MessageFits(m) && k < SEQ_LIMIT
    ensures var data := FragmentBytes(AsFragment(m, k));
            Send.WholeMessage(data) && Send.MessageOf(data) == AsFragment(m, k)
  {
    var f := AsFragment(m, k);
    FragmentRoundTrip(f, []);
    assert FragmentBytes(f) + [] == FragmentBytes(f);
  }

  /** Records of a flight of added messages are honest. */
  lemma {:induction false} FlightRecordsAreHonest(history: seq<HsMessage>, flight: seq<Send.Outgoing>,
      r: RecordWriter.Sealed)
    requires AllFit(history) && FlightFrom(flight, history) && Send.CarriesFlight(r, flight)
    ensures Honest(history, r)
  {
    hide ParseFragment, HeaderBytes, Send.MessageOf;
    var i :| 0 <= i < |flight| && Send.CarriesPieceOf(r, flight[i]);
    if !flight[i].isCcs {
      var k :| 0 <= k < |history| && flight[i].data == FragmentBytes(AsFragment(history[k], k));
      WholeMessageParses(history[k], k);
      var from: nat, to: nat :| from <= to <= |Send.MessageOf(flight[i].data).body|
                                && r.payload == FragmentBytes(Send.Slice(Send.MessageOf(flight[i].data), from, to));
      assert PieceOf(history, r.payload, k, from, to);
    }
  }

  // ---- receiving honest records ----

  lemma {:induction false} AddBytesAgrees(history: seq<HsMessage>, m: Incoming, k: nat, from: nat, to: nat, era: nat)
    requires Agrees(history, m) && m.seqNum == k && from <= to <= m.msgLen
    ensures Agrees(history, AddBytes(m, Send.Slice(AsFragment(history[k], k), from, to), era))
  {
    var f := Send.Slice(AsFragment(history[k], k), from, to);
    var m' := AddBytes(m, f, era);
    forall i | i in m'.received && i < m.msgLen
      ensures m'.data[HM_HEADER_LENGTH + i] == history[k].body[i]
    {
      if from <= i < to {
        assert f.body[i - from] == history[k].body[i];
      }
    }
  }

  lemma {:induction false} HonestFragmentAgrees(history: seq<HsMessage>, s: ReceiveState, k: nat, from: nat, to: nat,
      maxMessageLen: nat)
    requires RingOk(s) && RingAgrees(history, s) && k < |history| && from <= to <= |history[k].body|
    requires HeaderFits(Send.Slice(AsFragment(history[k], k), from, to).header)
    ensures var f := Send.Slice(AsFragment(history[k], k), from, to);
            var (s', outcome) := ProcessFragment(s, f, maxMessageLen);
            && |s'.slots| == MAX_FLIGHT && RingAgrees(history, s')
            && (outcome == Continue && s.readSeq <= k < s.readSeq + MAX_FLIGHT ==>
                  && s'.slots[Slot(k)].Some?
                  && s'.slots[Slot(k)].value.seqNum == k
                  && Range(from, to) <= s'.slots[Slot(k)].value.received)
  {
    hide IncomingOk, Overwrite, HeaderFits;
    var f := Send.Slice(AsFragment(history[k], k), from, to);
    ProcessKeepsRing(s, f, maxMessageLen);
    if s.readSeq <= k < s.readSeq + MAX_FLIGHT {
      FoundIsOk(s, f.header);
      var found := FindIncoming(s, f.header);
      if found.Some? {
        NewIncomingOk(f.header);
        assert Agrees(history, found.value);
        AddBytesAgrees(history, found.value, k, from, to, s.era);
      }
    }
  }

  lemma {:induction false} HonestRecordAgrees(history: seq<HsMessage>, s: ReceiveState, payload: seq<byte>, k: nat,
      from: nat, to: nat, maxMessageLen: nat)
    requires AllFit(history) && RingOk(s) && RingAgrees(history, s) && PieceOf(history, payload, k, from, to)
    ensures var (s', outcome) := ProcessRecord(s, payload, maxMessageLen);
            && |s'.slots| == MAX_FLIGHT && RingAgrees(history, s')
            && (s', outcome) == ProcessFragment(s, Send.Slice(AsFragment(history[k], k), from, to), maxMessageLen)
            && (outcome == Continue && s.readSeq <= k < s.readSeq + MAX_FLIGHT ==>
                  && s'.slots[Slot(k)].Some?
                  && s'.slots[Slot(k)].value.seqNum == k
                  && Range(from, to) <= s'.slots[Slot(k)].value.received)
  {
    hide RingOk, ProcessFragment, ParseFragment, RingAgrees, HeaderFits, FragmentBytes;
    PieceParses(history, payload, k, from, to);
    HonestFragmentAgrees(history, s, k, from, to, maxMessageLen);
    var f := Send.Slice(AsFragment(history[k], k), from, to);
    var (s', outcome) := ProcessFragment(s, f, maxMessageLen);
    ProcessKeepsRing(s, f, maxMessageLen);
    assert ProcessRecord(s', [], maxMessageLen) == (s', Continue);
  }

  // ---- safety over every run ----

  /** The released messages are the added ones, in order (numbers modulo 2^16). */
  ghost predicate DeliveredInOrder(history: seq<HsMessage>, delivered: seq<seq<byte>>) {
    forall j :: 0 <= j < |delivered| ==>
      j % SEQ_LIMIT < |history| && delivered[j] == FragmentBytes(AsFragment(history[j % SEQ_LIMIT], j % SEQ_LIMIT))
  }

  ghost predicate NetOk(net: Net) {
    && RingOk(net.recv) && AllFit(net.history) && RingAgrees(net.history, net.recv)
    && (forall r :: r in net.sent ==> Honest(net.history, r))
    && net.recv.readSeq == |net.delivered| % SEQ_LIMIT
    && DeliveredInOrder(net.history, net.delivered)
  }

  lemma {:induction false} CompleteIsWhole(history: seq<HsMessage>, m: Incoming)
    requires IncomingOk(m) && Agrees(history, m) && m.Complete()
    ensures m.data == FragmentBytes(AsFragment(history[m.seqNum], m.seqNum))
  {
    var whole := FragmentBytes(AsFragment(history[m.seqNum], m.seqNum));
    forall i | 0 <= i < |m.data|
      ensures m.data[i] == whole[i]
    {
      if i < HM_HEADER_LENGTH {
        assert m.data[i] == m.data[..HM_HEADER_LENGTH][i];
      } else {
        assert i - HM_HEADER_LENGTH in m.received;
      }
    }
  }

  lemma {:induction false} HistoryGrows(history: seq<HsMessage>, m: HsMessage, s: ReceiveState,
      sent: set<RecordWriter.Sealed>, delivered: seq<seq<byte>>)
    requires RingOk(s) && RingAgrees(history, s) && DeliveredInOrder(history, delivered)
    requires forall r :: r in sent ==> Honest(history, r)
    ensures RingAgrees(history + [m], s) && DeliveredInOrder(history + [m], delivered)
    ensures forall r :: r in sent ==> Honest(history + [m], r)
  {
    hide IncomingOk, FragmentBytes, AsFragment;
    forall r | r in sent && !(r.contentType == CHANGE_CIPHER_SPEC)
      ensures Honest(history + [m], r)
    {
      var k: nat, from: nat, to: nat :| PieceOf(history, r.payload, k, from, to);
      assert PieceOf(history + [m], r.payload, k, from, to);
    }
  }

  lemma {:induction false} DeliverKeepsOk(net: Net, r: RecordWriter.Sealed, nullCipher: bool, maxMessageLen: nat)
    requires NetOk(net) && r in net.sent
    ensures NetOk(NetStep(net, Deliver(r, nullCipher, maxMessageLen)))
  {
    hide RingOk, ProcessFragment, Agrees, DeliveredInOrder, ProcessRecord, AllFit;
    if r.contentType == HANDSHAKE {
      var k: nat, from: nat, to: nat :| PieceOf(net.history, r.payload, k, from, to);
      HonestRecordAgrees(net.history, net.recv, r.payload, k, from, to, maxMessageLen);
      RecordKeepsCounters(net.recv, r.payload, maxMessageLen);
    }
  }

  lemma {:induction false} RecordKeepsCounters(s: ReceiveState, record: seq<byte>, maxMessageLen: nat)
    requires RingOk(s)
    ensures RingOk(ProcessRecord(s, record, maxMessageLen).0)
    ensures ProcessRecord(s, record, maxMessageLen).0.readSeq == s.readSeq
    ensures |ProcessRecord(s, record, maxMessageLen).0.slots| == MAX_FLIGHT
  {
  }

  lemma {:induction false} FrontIsWhole(history: seq<HsMessage>, s: ReceiveState)
    requires RingOk(s) && RingAgrees(history, s) && CurrentComplete(s)
    ensures s.readSeq < |history|
    ensures s.slots[Slot(s.readSeq)].value.data == FragmentBytes(AsFragment(history[s.readSeq], s.readSeq))
  {
    hide IncomingOk, Agrees;
    var m := s.slots[Slot(s.readSeq)].value;
    SameSlotSameSequence(s, s.readSeq);
    assert Agrees(history, m) && IncomingOk(m);
    CompleteIsWhole(history, m);
    AgreesNumber(history, m);
  }

  lemma {:induction false} AgreesNumber(history: seq<HsMessage>, m: Incoming)
    requires Agrees(history, m)
    ensures m.seqNum < |history| && m.msgType == history[m.seqNum].msgType
    ensures m.msgLen == |history[m.seqNum].body|
  {
  }

  lemma {:induction false} NextKeepsOk(net: Net)
    requires NetOk(net) && net.recv.hasMessage
    ensures NetOk(NetStep(net, Local(Next)))
  {
    hide IncomingOk, Agrees, FragmentBytes, AsFragment, Honest;
    FrontIsWhole(net.history, net.recv);
    NextKeepsRing(net.recv);
    Counts(|net.delivered|);
  }

  lemma {:induction false} Counts(n: nat)
    ensures (n + 1) % SEQ_LIMIT == (n % SEQ_LIMIT + 1) % SEQ_LIMIT
  {
  }

  lemma {:induction false} StepKeepsOk(net: Net, e: NetEvent)
    requires NetOk(net)
    ensures NetOk(NetStep(net, e))
  {
    hide RingOk, Agrees, Honest, DeliveredInOrder;
    if Allowed(net, e) {
      match e
      case Add(m) =>
        HistoryGrows(net.history, m, net.recv, net.sent, net.delivered);
      case Transmit(flight, records) =>
        forall r | r in records
          ensures Honest(net.history, r)
        {
          FlightRecordsAreHonest(net.history, flight, r);
        }
      case Deliver(r, nullCipher, maxMessageLen) => DeliverKeepsOk(net, r, nullCipher, maxMessageLen);
      case Local(e) =>
        if e.Next? && net.recv.hasMessage {
          NextKeepsOk(net);
        }
    }
  }

  lemma {:induction false} RunIsOk(events: seq<NetEvent>)
    ensures NetOk(RunNet(events))
  {
    if events != [] {
      RunIsOk(events[..|events| - 1]);
      StepKeepsOk(RunNet(events[..|events| - 1]), events[|events| - 1]);
    }
  }

  /** Whatever the network did: a message that is handed out is, header and body, byte for byte
      the one that was added with the next sequence number. */
  lemma {:induction false} HandedOutIsWhatWasAdded(events: seq<NetEvent>)
    ensures var net := RunNet(events);
            var s := net.recv;
            GetMessage(s).1.Some? ==>
              && s.readSeq < |net.history|
              && var m := net.history[s.readSeq];
                 GetMessage(s).1.value
                 == HandshakeReceive.Message(m.msgType, m.body, FragmentBytes(AsFragment(m, s.readSeq)))
  {
    hide IncomingOk, Agrees, Honest;
    RunIsOk(events);
    var net := RunNet(events);
    if CurrentComplete(net.recv) {
      FrontIsWhole(net.history, net.recv);
      AgreesNumber(net.history, net.recv.slots[Slot(net.recv.readSeq)].value);
      SameSlotSameSequence(net.recv, net.recv.readSeq);
    }
  }

  /** The messages released over a run are the added ones, each once and in order. */
  lemma {:induction false} ReleasedInOrder(events: seq<NetEvent>)
    ensures var net := RunNet(events);
            && |net.delivered| % SEQ_LIMIT == net.recv.readSeq
            && (|net.delivered| <= SEQ_LIMIT ==>
                  && |net.delivered| <= |net.history|
                  && forall j :: 0 <= j < |net.delivered| ==>
                      net.delivered[j] == FragmentBytes(AsFragment(net.history[j], j)))
  {
    hide FragmentBytes, AsFragment, RingOk, Honest, Agrees;
    RunIsOk(events);
    var net := RunNet(events);
    assert forall j :: 0 <= j < SEQ_LIMIT ==> j % SEQ_LIMIT == j;
    if 0 < |net.delivered| <= SEQ_LIMIT {
      assert (|net.delivered| - 1) % SEQ_LIMIT < |net.history|;
    }
  }

  // ---- nothing is missing once everything has arrived ----

  /** Opens handshake payloads one after the other, as long as none is refused. */
  function OpenAll(s: ReceiveState, payloads: seq<seq<byte>>, maxMessageLen: nat): (r: (ReceiveState, bool))
    requires RingOk(s)
    ensures RingOk(r.0)
  {
    if payloads == [] then (s, true)
    else
      var (s', ok) := OpenAll(s, payloads[..|payloads| - 1], maxMessageLen);
      var (s'', outcome) := ProcessRecord(s', payloads[|payloads| - 1], maxMessageLen);
      (s'', ok && outcome == Continue)
  }

  ghost predicate HonestPayload(history: seq<HsMessage>, payload: seq<byte>) {
    exists k: nat, from: nat, to: nat :: PieceOf(history, payload, k, from, to)
  }

  /** Some payload carries byte `i` of message `k`. */
  ghost predicate ByteArrives(history: seq<HsMessage>, payloads: seq<seq<byte>>, k: nat, i: nat) {
    exists p, from: nat, to: nat :: p in payloads && PieceOf(history, p, k, from, to) && from <= i < to
  }

  ghost predicate MessageArrives(history: seq<HsMessage>, payloads: seq<seq<byte>>, k: nat) {
    exists p, from: nat, to: nat :: p in payloads && PieceOf(history, p, k, from, to)
  }

  lemma {:induction false} ReceivedGrows(s: ReceiveState, f: Fragment, maxMessageLen: nat, k: nat)
    requires RingOk(s) && HeaderFits(f.header) && |f.body| == f.header.fragLen
    requires s.readSeq <= k < s.readSeq + MAX_FLIGHT
    requires s.slots[Slot(k)].Some? && s.slots[Slot(k)].value.seqNum == k
    ensures var s' := ProcessFragment(s, f, maxMessageLen).0;
            && |s'.slots| == MAX_FLIGHT
            && s'.slots[Slot(k)].Some? && s'.slots[Slot(k)].value.seqNum == k
            && s.slots[Slot(k)].value.received <= s'.slots[Slot(k)].value.received
  {
    hide IncomingOk, Overwrite, HeaderFits;
    ProcessKeepsRing(s, f, maxMessageLen);
  }

  lemma {:induction false} PieceIsUnique(history: seq<HsMessage>, p: seq<byte>, k: nat, from: nat, to: nat, k': nat,
      from': nat, to': nat)
    requires AllFit(history) && PieceOf(history, p, k, from, to) && PieceOf(history, p, k', from', to')
    ensures k == k' && from == from' && to == to'
  {
    PieceParses(history, p, k, from, to);
    PieceParses(history, p, k', from', to');
  }

  // ---- when an honest record is refused ----

  /** A message too long for the receiver, one out of turn in epoch 1, or the one just past the
      window of seven, which is not ignored like those further ahead. */
  predicate Unwelcome(history: seq<HsMessage>, s: ReceiveState, k: nat, maxMessageLen: nat)
    requires k < |history|
  {
    || |history[k].body| > maxMessageLen
    || (s.readEpoch == 1 && k != s.readSeq)
    || k == s.readSeq + MAX_FLIGHT
  }

  /** Exactly these are refused. */
  lemma {:induction false} HonestRecordRefused(history: seq<HsMessage>, s: ReceiveState, payload: seq<byte>, k: nat,
      from: nat, to: nat, maxMessageLen: nat)
    requires AllFit(history) && RingOk(s) && RingAgrees(history, s) && PieceOf(history, payload, k, from, to)
    ensures ProcessRecord(s, payload, maxMessageLen).1.Failed? <==> Unwelcome(history, s, k, maxMessageLen)
  {
    hide ProcessRecord, ParseFragment, HeaderFits, FragmentBytes, IncomingOk, AddBytes;
    HonestRecordAgrees(history, s, payload, k, from, to, maxMessageLen);
    PieceParses(history, payload, k, from, to);
    if s.readSeq <= k < s.readSeq + MAX_FLIGHT {
      SameSlotSameSequence(s, k);
    }
  }

  lemma {:induction false} OpenAllKeepsCounters(s: ReceiveState, payloads: seq<seq<byte>>, maxMessageLen: nat)
    requires RingOk(s)
    ensures var t := OpenAll(s, payloads, maxMessageLen).0; t.readSeq == s.readSeq && t.readEpoch == s.readEpoch
  {
    hide RingOk, ProcessRecord;
    if payloads != [] {
      OpenAllKeepsCounters(s, payloads[..|payloads| - 1], maxMessageLen);
    }
  }

  ghost predicate AllWelcome(history: seq<HsMessage>, payloads: seq<seq<byte>>, s: ReceiveState, maxMessageLen: nat) {
    forall p, k: nat, from: nat, to: nat :: p in payloads && PieceOf(history, p, k, from, to) ==>
        !Unwelcome(history, s, k, maxMessageLen)
  }

  /** A series of honest records goes through if and only if none of them is unwelcome. */
  lemma {:induction false} AllOpenedIffWelcome(history: seq<HsMessage>, payloads: seq<seq<byte>>, s: ReceiveState,
      maxMessageLen: nat)
    requires AllFit(history) && RingOk(s) && RingAgrees(history, s)
    requires forall p :: p in payloads ==> HonestPayload(history, p)
    ensures var (t, ok) := OpenAll(s, payloads, maxMessageLen);
            |t.slots| == MAX_FLIGHT && RingAgrees(history, t)
                && (ok <==> AllWelcome(history, payloads, s, maxMessageLen))
  {
    hide RingOk, RingAgrees, ProcessRecord, AllFit, PieceOf;
    if payloads == [] {
      RingHasSlots(s);
    } else {
      var front, p := payloads[..|payloads| - 1], payloads[|payloads| - 1];
      AllOpenedIffWelcome(history, front, s, maxMessageLen);
      OpenAllKeepsCounters(s, front, maxMessageLen);
      var t := OpenAll(s, front, maxMessageLen).0;
      assert HonestPayload(history, p);
      var k: nat, from: nat, to: nat :| PieceOf(history, p, k, from, to);
      HonestRecordAgrees(history, t, p, k, from, to, maxMessageLen);
      HonestRecordRefused(history, t, p, k, from, to, maxMessageLen);
      WelcomeMore(history, front, p, s, k, from, to, maxMessageLen);
      assert front + [p] == payloads;
    }
  }

  lemma {:induction false} RingHasSlots(s: ReceiveState)
    requires RingOk(s)
    ensures |s.slots| == MAX_FLIGHT
  {
  }

  lemma {:induction false} WelcomeMore(history: seq<HsMessage>, payloads: seq<seq<byte>>, p: seq<byte>,
      s: ReceiveState, k: nat, from: nat, to: nat, maxMessageLen: nat)
    requires AllFit(history) && PieceOf(history, p, k, from, to)
    ensures AllWelcome(history, payloads + [p], s, maxMessageLen)
            <==> AllWelcome(history, payloads, s, maxMessageLen) && !Unwelcome(history, s, k, maxMessageLen)
  {
    hide Unwelcome, AllFit, FragmentBytes;
    forall k': nat, from': nat, to': nat | PieceOf(history, p, k', from', to')
      ensures k' == k
    {
      PieceIsUnique(history, p, k, from, to, k', from', to');
    }
    assert p in payloads + [p];
  }

  // ---- a receiver that opens, hands out and releases in any order ----

  /** The receiver after some events, and what it has released meanwhile. */
  datatype Played = Played(recv: ReceiveState, released: seq<seq<byte>>)

  ghost function Play(s: ReceiveState, events: seq<Event>): (p: Played)
    requires RingOk(s)
    ensures RingOk(p.recv)
    decreases |events|
  {
    if events == [] then Played(s, [])
    else
      var p, e := Play(s, events[..|events| - 1]), events[|events| - 1];
      Played(Step(p.recv, e), if e.Next? && p.recv.hasMessage then
          p.released + [p.recv.slots[Slot(p.recv.readSeq)].value.data] else p.released)
  }

  /** Handshake records are the sender's; everything else may be anything. */
  ghost predicate HonestEvents(history: seq<HsMessage>, events: seq<Event>) {
    forall e :: e in events && e.Open? && e.contentType == HANDSHAKE ==>
        HonestPayload(history, e.record)
  }

  /** Event `j` opens a welcome record with bytes `from..to` of message `k` while `k` is in the window. */
  ghost predicate InTime(history: seq<HsMessage>, s: ReceiveState, events: seq<Event>, j: nat, k: nat, from: nat,
      to: nat)
    requires RingOk(s)
  {
    && j < |events| && events[j].Open? && events[j].contentType == HANDSHAKE
    && PieceOf(history, events[j].record, k, from, to)
    && var t := Play(s, events[..j]).recv;
       t.readSeq <= k < t.readSeq + MAX_FLIGHT && !Unwelcome(history, t, k, events[j].maxMessageLen)
  }

  /** The slot of message `k` holds everything of it that came in time. */
  ghost predicate Kept(history: seq<HsMessage>, s: ReceiveState, events: seq<Event>, k: nat)
    requires RingOk(s)
  {
    var t := Play(s, events).recv;
    |t.slots| == MAX_FLIGHT
    && forall j: nat, from: nat, to: nat :: InTime(history, s, events, j, k, from, to) ==>
         && k < t.readSeq + MAX_FLIGHT
         && t.slots[Slot(k)].Some? && t.slots[Slot(k)].value.seqNum == k
             && Range(from, to) <= t.slots[Slot(k)].value.received
  }

  /** What was released are the added messages from number `first` on. */
  ghost predicate ReleasedRight(history: seq<HsMessage>, first: nat, released: seq<seq<byte>>) {
    forall m :: 0 <= m < |released| ==>
      first + m < |history| && released[m] == FragmentBytes(AsFragment(history[first + m], first + m))
  }

  ghost predicate PlayedOk(history: seq<HsMessage>, s: ReceiveState, events: seq<Event>, k: nat)
    requires RingOk(s)
  {
    var p := Play(s, events);
    && |p.recv.slots| == MAX_FLIGHT && RingAgrees(history, p.recv)
    && p.recv.readSeq == s.readSeq + |p.released| && ReleasedRight(history, s.readSeq, p.released)
    && (k >= p.recv.readSeq ==> Kept(history, s, events, k))
  }

  lemma {:induction false} InTimeBefore(history: seq<HsMessage>, s: ReceiveState, front: seq<Event>, e: Event, j: nat,
      k: nat, from: nat, to: nat)
    requires RingOk(s) && j < |front|
    ensures InTime(history, s, front + [e], j, k, from, to) == InTime(history, s, front, j, k, from, to)
  {
    assert (front + [e])[..j] == front[..j];
  }

  /** An event that neither opens a handshake record nor releases changes no slot. */
  lemma {:induction false} SlotsUntouched(s: ReceiveState, e: Event)
    requires RingOk(s)
    requires (e.Open? ==> e.contentType != HANDSHAKE) && !(e.Next? && s.hasMessage)
    ensures Step(s, e).slots == s.slots && Step(s, e).readSeq == s.readSeq
  {
  }

  lemma {:induction false} KeptUntouched(history: seq<HsMessage>, s: ReceiveState, front: seq<Event>, e: Event, k: nat)
    requires RingOk(s) && Kept(history, s, front, k)
    requires e.Open? ==> e.contentType != HANDSHAKE
    requires var t := Play(s, front).recv; var u := Play(s, front + [e]).recv;
             |u.slots| == MAX_FLIGHT && u.slots[Slot(k)] == t.slots[Slot(k)] && u.readSeq >= t.readSeq
    ensures Kept(history, s, front + [e], k)
  {
    hide PieceOf, Unwelcome, Play;
    forall j: nat, from: nat, to: nat | InTime(history, s, front + [e], j, k, from, to)
      ensures InTime(history, s, front, j, k, from, to)
    {
      InTimeBefore(history, s, front, e, j, k, from, to);
    }
  }

  /** Opening an honest record adds what it carries and loses nothing. */
  lemma {:induction false} KeptOpened(history: seq<HsMessage>, s: ReceiveState, front: seq<Event>, e: Event, k: nat)
    requires AllFit(history) && RingOk(s) && Kept(history, s, front, k)
    requires e.Open? && e.contentType == HANDSHAKE && HonestPayload(history, e.record)
    requires var t := Play(s, front).recv;
             && RingAgrees(history, t) && k >= t.readSeq
             && Play(s, front + [e]).recv == ProcessRecord(t, e.record, e.maxMessageLen).0
    ensures Kept(history, s, front + [e], k)
  {
    hide RingAgrees, Play, ProcessRecord, ProcessFragment, ParseFragment, HeaderFits, AllFit, Unwelcome, RingOk,
        PieceOf;
    var t := Play(s, front).recv;
    var u := ProcessRecord(t, e.record, e.maxMessageLen).0;
    var a: nat, from: nat, to: nat :| PieceOf(history, e.record, a, from, to);
    HonestRecordAgrees(history, t, e.record, a, from, to, e.maxMessageLen);
    RecordKeepsCounters(t, e.record, e.maxMessageLen);
    forall j: nat, b: nat, c: nat | InTime(history, s, front + [e], j, k, b, c)
      ensures k < u.readSeq + MAX_FLIGHT && u.slots[Slot(k)].Some? && u.slots[Slot(k)].value.seqNum == k
              && Range(b, c) <= u.slots[Slot(k)].value.received
    {
      if j < |front| {
        InTimeBefore(history, s, front, e, j, k, b, c);
        KeepsReceived(history, t, e.record, a, from, to, k, e.maxMessageLen);
      } else {
        assert (front + [e])[..j] == front;
        HonestRecordRefused(history, t, e.record, k, b, c, e.maxMessageLen);
        HonestRecordAgrees(history, t, e.record, k, b, c, e.maxMessageLen);
      }
    }
  }

  lemma {:induction false} KeepsReceived(history: seq<HsMessage>, t: ReceiveState, record: seq<byte>, a: nat,
      from: nat, to: nat, k: nat, maxMessageLen: nat)
    requires AllFit(history) && RingOk(t) && RingAgrees(history, t) && PieceOf(history, record, a, from, to)
    requires t.readSeq <= k < t.readSeq + MAX_FLIGHT && t.slots[Slot(k)].Some? && t.slots[Slot(k)].value.seqNum == k
    ensures var u := ProcessRecord(t, record, maxMessageLen).0;
            && |u.slots| == MAX_FLIGHT && u.slots[Slot(k)].Some? && u.slots[Slot(k)].value.seqNum == k
            && t.slots[Slot(k)].value.received <= u.slots[Slot(k)].value.received
  {
    hide RingOk, RingAgrees, ProcessRecord, ProcessFragment, ParseFragment, HeaderFits, AllFit;
    HonestRecordAgrees(history, t, record, a, from, to, maxMessageLen);
    PieceParses(history, record, a, from, to);
    ReceivedGrows(t, Send.Slice(AsFragment(history[a], a), from, to), maxMessageLen, k);
  }

  /** Releasing the front message: the added one goes, the others stay. */
  lemma {:induction false} ReleaseOne(history: seq<HsMessage>, t: ReceiveState, k: nat)
    requires RingOk(t) && RingAgrees(history, t) && t.hasMessage && |history| < SEQ_LIMIT
    ensures var u := NextMessage(t);
            && |u.slots| == MAX_FLIGHT && RingAgrees(history, u) && u.readSeq == t.readSeq + 1
            && t.readSeq < |history|
            && t.slots[Slot(t.readSeq)].value.data == FragmentBytes(AsFragment(history[t.readSeq], t.readSeq))
            && (t.readSeq < k < t.readSeq + MAX_FLIGHT ==> u.slots[Slot(k)] == t.slots[Slot(k)])
  {
    hide IncomingOk, Agrees, FragmentBytes, AsFragment;
    FrontIsWhole(history, t);
  }

  lemma {:induction false} PlayStep(history: seq<HsMessage>, s: ReceiveState, front: seq<Event>, e: Event, k: nat)
    requires AllFit(history) && |history| < SEQ_LIMIT && RingOk(s) && PlayedOk(history, s, front, k)
    requires e.Open? && e.contentType == HANDSHAKE ==> HonestPayload(history, e.record)
    ensures PlayedOk(history, s, front + [e], k)
  {
    hide RingOk, AllFit, RingAgrees, Kept, HonestPayload, ProcessRecord, NextMessage, GetMessage, SetReadState,
        FragmentBytes, AsFragment;
    var p := Play(s, front);
    assert (front + [e])[..|front|] == front;
    assert Play(s, front + [e]) == Played(Step(p.recv, e), Play(s, front + [e]).released);
    if e.Open? && e.contentType == HANDSHAKE {
      OpensHonest(history, p.recv, e);
      if k >= p.recv.readSeq {
        KeptOpened(history, s, front, e, k);
      }
    } else if e.Next? && p.recv.hasMessage {
      ReleaseOne(history, p.recv, k);
      if k > p.recv.readSeq {
        KeptReleased(history, s, front, e, k);
      }
    } else {
      SlotsUntouched(p.recv, e);
      AgreesSameSlots(history, p.recv, Step(p.recv, e));
      if k >= p.recv.readSeq {
        KeptUntouched(history, s, front, e, k);
      }
    }
  }

  lemma {:induction false} AgreesSameSlots(history: seq<HsMessage>, t: ReceiveState, u: ReceiveState)
    requires |t.slots| == MAX_FLIGHT && RingAgrees(history, t) && u.slots == t.slots
    ensures RingAgrees(history, u)
  {
    hide Agrees;
  }

  lemma {:induction false} OpensHonest(history: seq<HsMessage>, t: ReceiveState, e: Event)
    requires AllFit(history) && RingOk(t) && RingAgrees(history, t)
    requires e.Open? && e.contentType == HANDSHAKE && HonestPayload(history, e.record)
    ensures var u := Step(t, e);
            && u == ProcessRecord(t, e.record, e.maxMessageLen).0
            && |u.slots| == MAX_FLIGHT && RingAgrees(history, u) && u.readSeq == t.readSeq
  {
    hide RingOk, RingAgrees, ProcessRecord, AllFit;
    var a: nat, from: nat, to: nat :| PieceOf(history, e.record, a, from, to);
    HonestRecordAgrees(history, t, e.record, a, from, to, e.maxMessageLen);
    RecordKeepsCounters(t, e.record, e.maxMessageLen);
  }

  lemma {:induction false} KeptReleased(history: seq<HsMessage>, s: ReceiveState, front: seq<Event>, e: Event, k: nat)
    requires RingOk(s) && Kept(history, s, front, k) && e.Next?
    requires var t := Play(s, front).recv; var u := Play(s, front + [e]).recv;
             && |u.slots| == MAX_FLIGHT && u.readSeq >= t.readSeq && t.readSeq < k
             && (k < t.readSeq + MAX_FLIGHT ==> u.slots[Slot(k)] == t.slots[Slot(k)])
    ensures Kept(history, s, front + [e], k)
  {
    hide PieceOf, Unwelcome, Play;
    forall j: nat, from: nat, to: nat | InTime(history, s, front + [e], j, k, from, to)
      ensures InTime(history, s, front, j, k, from, to)
    {
      InTimeBefore(history, s, front, e, j, k, from, to);
    }
  }

  lemma {:induction false} PlayKeeps(history: seq<HsMessage>, s: ReceiveState, events: seq<Event>, k: nat)
    requires AllFit(history) && |history| < SEQ_LIMIT && RingOk(s) && RingAgrees(history, s)
        && HonestEvents(history, events)
    ensures PlayedOk(history, s, events, k)
    decreases |events|
  {
    hide AllFit, RingOk, RingAgrees, HonestPayload, Kept;
    if events == [] {
      RingHasSlots(s);
      NothingInTime(history, s, k);
    } else {
      var front, e := events[..|events| - 1], events[|events| - 1];
      assert HonestEvents(history, front);
      PlayKeeps(history, s, front, k);
      PlayStep(history, s, front, e, k);
      assert front + [e] == events;
    }
  }

  lemma {:induction false} NothingInTime(history: seq<HsMessage>, s: ReceiveState, k: nat)
    requires RingOk(s)
    ensures Kept(history, s, [], k)
  {
  }

  // ---- a whole flight ----


  /** Byte `i` of message `k` is carried by some of the records. */
  lemma {:induction false} MarkedByteArrives(history: seq<HsMessage>, rs: seq<RecordWriter.Sealed>,
      payloads: seq<seq<byte>>, mark: Send.Mark)
    requires AllFit(history) && mark in Send.RecordsMarks(rs) && !mark.Ccs?
    requires forall r :: r in rs ==> Honest(history, r)
    requires forall r :: r in rs && r.contentType == HANDSHAKE ==> r.payload in payloads
    ensures MessageArrives(history, payloads, mark.seqNum)
    ensures mark.Byte? ==> ByteArrives(history, payloads, mark.seqNum, mark.offset)
  {
    hide RingOk, AllFit, ParseFragment, FragmentBytes;
    var front, r := rs[..|rs| - 1], rs[|rs| - 1];
    if mark in Send.RecordsMarks(front) {
      MarkedByteArrives(history, front, payloads, mark);
    } else {
      assert mark in Send.RecordMarks(r);
      assert Honest(history, r) && r.contentType != CHANGE_CIPHER_SPEC;
      var k: nat, from: nat, to: nat :| PieceOf(history, r.payload, k, from, to);
      PieceParses(history, r.payload, k, from, to);
      var f := Send.Slice(AsFragment(history[k], k), from, to);
      assert mark in Send.FragmentMarks(f);
    }
  }

  lemma {:induction false} MarksOfMessage(flight: seq<Send.Outgoing>, w: nat, i: nat, mark: Send.Mark)
    requires w <= i < |flight| && mark in Send.MessageMarks(flight[i], 0)
    ensures mark in Send.Remaining(flight, w, 0)
    decreases i - w
  {
    hide Send.MessageMarks;
    var first, rest := Send.MessageMarks(flight[w], 0), Send.Remaining(flight, w + 1, 0);
    assert Send.Remaining(flight, w, 0) == first + rest;
    hide Send.Remaining;
    if w < i {
      MarksOfMessage(flight, w + 1, i, mark);
    }
    InEither(first, rest, mark);
  }

  lemma {:induction false} InEither<T>(a: seq<T>, b: seq<T>, x: T)
    ensures x in a || x in b ==> x in a + b
  {
  }

  /** When a whole flight was written (as SendFlight reports), and every handshake record of it that
      carries part of message `k` is opened in time, in any order, any number of times, among other
      records of the sender and with messages handed out and released in between: then the message
      is complete in its slot or has been released, and it is what was added. */
  lemma {:induction false} WholeFlightArrives(history: seq<HsMessage>, flight: seq<Send.Outgoing>,
      rs: seq<RecordWriter.Sealed>, payloads: seq<seq<byte>>, s: ReceiveState, events: seq<Event>, i: nat, k: nat)
    requires AllFit(history) && |history| < SEQ_LIMIT && FlightFrom(flight, history)
    requires Send.RecordsMarks(rs) == Send.Remaining(flight, 0, 0)
    requires forall r :: r in rs ==> Send.CarriesFlight(r, flight)
    requires forall r :: r in rs && r.contentType == HANDSHAKE ==> r.payload in payloads
    requires i < |flight| && !flight[i].isCcs && k < |history|
        && flight[i].data == FragmentBytes(AsFragment(history[k], k))
    requires RingOk(s) && RingAgrees(history, s) && s.readSeq <= k && HonestEvents(history, events)
    requires forall p, from: nat, to: nat :: p in payloads && PieceOf(history, p, k, from, to) ==>
               exists j: nat :: InTime(history, s, events, j, k, from, to)
    ensures var p := Play(s, events);
            && p.recv.readSeq == s.readSeq + |p.released| && |p.recv.slots| == MAX_FLIGHT
            && if k < p.recv.readSeq then p.released[k - s.readSeq] == FragmentBytes(AsFragment(history[k], k))
               else
                 && p.recv.slots[Slot(k)].Some?
                 && p.recv.slots[Slot(k)].value.seqNum == k && p.recv.slots[Slot(k)].value.Complete()
                 && p.recv.slots[Slot(k)].value.data == FragmentBytes(AsFragment(history[k], k))
  {
    hide RingOk, ProcessRecord, AllFit, ParseFragment, FragmentBytes, Send.CarriesFlight, RingAgrees, Play,
        HonestEvents, PieceOf;
    forall r | r in rs
      ensures Honest(history, r)
    {
      FlightRecordsAreHonest(history, flight, r);
    }
    PlayKeeps(history, s, events, k);
    var t := Play(s, events).recv;
    if k >= t.readSeq {
      MessageMarksOf(flight[i], history[k], k, history);
      AllOfItArrived(history, flight, rs, payloads, s, events, i, k);
      CompleteInSlot(history, t, k);
    }
  }

  /** Every byte of the message is in its slot. */
  lemma {:induction false} AllOfItArrived(history: seq<HsMessage>, flight: seq<Send.Outgoing>,
      rs: seq<RecordWriter.Sealed>, payloads: seq<seq<byte>>, s: ReceiveState, events: seq<Event>, i: nat, k: nat)
    requires AllFit(history) && Send.RecordsMarks(rs) == Send.Remaining(flight, 0, 0)
    requires forall r :: r in rs ==> Honest(history, r)
    requires forall r :: r in rs && r.contentType == HANDSHAKE ==> r.payload in payloads
    requires i < |flight| && k < |history| && RingOk(s) && Kept(history, s, events, k)
    requires Send.Start(k) in Send.MessageMarks(flight[i], 0)
    requires forall b :: 0 <= b < |history[k].body| ==>
        Send.Byte(k, b, history[k].body[b]) in Send.MessageMarks(flight[i], 0)
    requires forall p, from: nat, to: nat :: p in payloads && PieceOf(history, p, k, from, to) ==>
               exists j: nat :: InTime(history, s, events, j, k, from, to)
    ensures var t := Play(s, events).recv;
            && |t.slots| == MAX_FLIGHT && t.slots[Slot(k)].Some? && t.slots[Slot(k)].value.seqNum == k
            && Range(0, |history[k].body|) <= t.slots[Slot(k)].value.received
  {
    hide RingOk, AllFit, Honest, PieceOf, Play, InTime, Send.MessageMarks, Send.Remaining, Send.RecordsMarks;
    MarksOfMessage(flight, 0, i, Send.Start(k));
    MarkedByteArrives(history, rs, payloads, Send.Start(k));
    var t := Play(s, events).recv;
    forall b | 0 <= b < |history[k].body|
      ensures b in t.slots[Slot(k)].value.received
    {
      MarksOfMessage(flight, 0, i, Send.Byte(k, b, history[k].body[b]));
      MarkedByteArrives(history, rs, payloads, Send.Byte(k, b, history[k].body[b]));
      var p, from: nat, to: nat :| p in payloads && PieceOf(history, p, k, from, to) && from <= b < to;
      assert b in Range(from, to);
    }
  }

  lemma {:induction false} CompleteInSlot(history: seq<HsMessage>, t: ReceiveState, k: nat)
    requires RingOk(t) && RingAgrees(history, t) && k < |history| && t.slots[Slot(k)].Some?
        && t.slots[Slot(k)].value.seqNum == k
    requires Range(0, |history[k].body|) <= t.slots[Slot(k)].value.received
    ensures t.slots[Slot(k)].value.Complete() && t.slots[Slot(k)].value.data == FragmentBytes(AsFragment(history[k], k))
  {
    hide FragmentBytes, AsFragment;
    var got := t.slots[Slot(k)].value;
    SlotIsOk(t, Slot(k));
    assert got.received == Range(0, got.msgLen);
    CompleteIsWhole(history, got);
  }

  lemma {:induction false} SlotIsOk(t: ReceiveState, i: nat)
    requires RingOk(t) && i < MAX_FLIGHT && t.slots[i].Some?
    ensures IncomingOk(t.slots[i].value)
  {
  }

  lemma {:induction false} MessageMarksOf(o: Send.Outgoing, m: HsMessage, k: nat, history: seq<HsMessage>)
    requires AllFit(history) && k < |history| && m == history[k]
    requires !o.isCcs && o.data == FragmentBytes(AsFragment(m, k))
    ensures Send.Start(k) in Send.MessageMarks(o, 0)
    ensures forall j :: 0 <= j < |m.body| ==> Send.Byte(k, j, m.body[j]) in Send.MessageMarks(o, 0)
  {
    WholeMessageParses(m, k);
    var f := AsFragment(m, k);
    assert Send.Slice(f, 0, |f.body|) == f;
    var marks := Send.MessageMarks(o, 0);
    assert marks == [Send.Start(k)] + Send.ByteMarks(k, 0, m.body);
    assert marks[0] == Send.Start(k);
    forall j | 0 <= j < |m.body|
      ensures Send.Byte(k, j, m.body[j]) in marks
    {
      assert marks[1 + j] == Send.Byte(k, j, m.body[j]);
    }
  }
}
