/** Receiving DTLS handshake messages (RFC 6347, sections 4.2.2 and 4.2.6): the seven-slot
    ring of messages being reassembled, as a value, and what every step keeps. */
module HandshakeReceive {
  import opened Wire
  import opened Reassembly

  const SEQ_LIMIT: nat := 0x1_0000

  datatype ReceiveState = ReceiveState(readSeq: nat, slots: seq<Option<Incoming>>, hasMessage: bool,
                                       readEpoch: nat, era: nat, hasChangeCipherSpec: bool)

  datatype Alert = DecodeError | IllegalParameter | UnexpectedMessage | InternalError

  datatype Outcome = Continue | Failed(alert: Alert)

  function Slot(seqNum: nat): (i: nat)
    ensures i < MAX_FLIGHT
  {
    seqNum % MAX_FLIGHT
  }

  // ---- the ring invariant ----

  ghost predicate IncomingOk(m: Incoming) {
    && m.msgType < 0x100 && m.seqNum < SEQ_LIMIT && m.msgLen < 0x100_0000
    && |m.data| == HM_HEADER_LENGTH + m.msgLen
    && m.data[..HM_HEADER_LENGTH] == HeaderBytes(WholeHeader(m.msgType, m.msgLen, m.seqNum))
    && m.received <= Range(0, m.msgLen)
  }

  /** Every occupied slot holds a message of the current window, at its own index. */
  ghost predicate RingOk(s: ReceiveState) {
    && |s.slots| == MAX_FLIGHT
    && s.readSeq < SEQ_LIMIT
    && (forall i :: 0 <= i < MAX_FLIGHT && s.slots[i].Some? ==>
          var m := s.slots[i].value;
          IncomingOk(m) && Slot(m.seqNum) == i && s.readSeq <= m.seqNum < s.readSeq + MAX_FLIGHT)
    && (s.hasMessage ==> CurrentComplete(s))
  }

  predicate CurrentComplete(s: ReceiveState)
    requires |s.slots| == MAX_FLIGHT
  {
    var current := s.slots[Slot(s.readSeq)];
    current.Some? && current.value.Complete()
  }

  const INITIAL: ReceiveState :=
    ReceiveState(0, [None, None, None, None, None, None, None], false, 0, 0, false)

  // ---- opening a handshake record ----

  predicate FragmentInBounds(h: HmHeader, maxMessageLen: nat) {
    h.fragOff + h.fragLen <= h.msgLen <= maxMessageLen
  }

  /** dtls1_get_incoming_message: the slot's message, new if there was none. */
  function FindIncoming(s: ReceiveState, h: HmHeader): (r: Option<Incoming>)
    requires |s.slots| == MAX_FLIGHT
  {
    match s.slots[Slot(h.seqNum)]
    case None => Some(NewIncoming(h))
    case Some(m) => if m.msgType != h.msgType || m.msgLen != h.msgLen then None else Some(m)
  }

  function ProcessFragment(s: ReceiveState, f: Fragment, maxMessageLen: nat): (r: (ReceiveState, Outcome))
    requires RingOk(s) && HeaderFits(f.header) && |f.body| == f.header.fragLen
  {
    var h := f.header;
    if !FragmentInBounds(h, maxMessageLen) then (s, Failed(IllegalParameter))
    else if s.readEpoch == 1 && h.seqNum != s.readSeq then (s, Failed(UnexpectedMessage))
    else if h.seqNum < s.readSeq || h.seqNum > s.readSeq + MAX_FLIGHT then (s, Continue)
    else if h.seqNum - s.readSeq >= MAX_FLIGHT then (s, Failed(InternalError))
    else match FindIncoming(s, h)
      case None => (s, Failed(IllegalParameter))
      case Some(m) =>
        var m' := if m.Complete() then m else AddBytes(m, f, s.era);
        (s.(slots := s.slots[Slot(h.seqNum) := Some(m')]), Continue)
  }

  /** The loop of dtls1_open_handshake over the fragments of one handshake record. */
  function ProcessRecord(s: ReceiveState, record: seq<byte>, maxMessageLen: nat): (r: (ReceiveState, Outcome))
    requires RingOk(s)
    ensures RingOk(r.0)
    ensures r.0.(slots := s.slots) == s
    decreases |record|
  {
    if record == [] then (s, Continue)
    else match ParseFragment(record)
      case None => (s, Failed(DecodeError))
      case Some((f, rest)) =>
        ParsedFragmentPrints(record);
        ProcessKeepsRing(s, f, maxMessageLen);
        var (s', outcome) := ProcessFragment(s, f, maxMessageLen);
        if outcome.Failed? then (s', outcome) else ProcessRecord(s', rest, maxMessageLen)
  }

  lemma {:induction false} NewIncomingOk(h: HmHeader)
    requires HeaderFits(h)
    ensures IncomingOk(NewIncoming(h))
  {
    var m := NewIncoming(h);
    assert m.data[..HM_HEADER_LENGTH] == HeaderBytes(WholeHeader(h.msgType, h.msgLen, h.seqNum));
  }

  lemma {:induction false} AddBytesOk(m: Incoming, f: Fragment, era: nat)
    requires IncomingOk(m) && f.header.fragOff + |f.body| <= m.msgLen
    ensures IncomingOk(AddBytes(m, f, era))
  {
    assert AddBytes(m, f, era).data[..HM_HEADER_LENGTH] == m.data[..HM_HEADER_LENGTH];
  }

  lemma {:induction false} StoreKeepsRing(s: ReceiveState, m: Incoming)
    requires RingOk(s) && IncomingOk(m) && s.readSeq <= m.seqNum < s.readSeq + MAX_FLIGHT
    requires s.hasMessage && m.seqNum == s.readSeq ==> m.Complete()
    ensures RingOk(s.(slots := s.slots[Slot(m.seqNum) := Some(m)]))
  {
    hide IncomingOk, Slot;
    if Slot(m.seqNum) == Slot(s.readSeq) {
      SlotIsUnique(s.readSeq, m.seqNum);
    }
  }

  lemma {:induction false} SlotIsUnique(readSeq: nat, seqNum: nat)
    requires readSeq <= seqNum < readSeq + MAX_FLIGHT && Slot(seqNum) == Slot(readSeq)
    ensures seqNum == readSeq
  {
  }

  /** One fragment keeps the ring invariant, touches at most its own slot, and a fragment
      outside the window touches none. */
  lemma {:induction false} ProcessKeepsRing(s: ReceiveState, f: Fragment, maxMessageLen: nat)
    requires RingOk(s) && HeaderFits(f.header) && |f.body| == f.header.fragLen
    ensures var (s', outcome) := ProcessFragment(s, f, maxMessageLen);
            && RingOk(s')
            && s'.(slots := s.slots) == s
            && (forall i :: 0 <= i < 7 && i != f.header.seqNum % 7 ==> s'.slots[i] == s.slots[i])
            && (!(s.readSeq <= f.header.seqNum < s.readSeq + 7) ==> s' == s)
            && (outcome.Failed? ==> s' == s)
  {
    hide IncomingOk, Overwrite;
    var h := f.header;
    if FragmentInBounds(h, maxMessageLen) && s.readSeq <= h.seqNum < s.readSeq + MAX_FLIGHT {
      FoundIsOk(s, h);
      var found := FindIncoming(s, h);
      if found.Some? && !(s.readEpoch == 1 && h.seqNum != s.readSeq) {
        if found.value.Complete() {
          StoreKeepsRing(s, found.value);
        } else {
          AddBytesOk(found.value, f, s.era);
          StoreKeepsRing(s, AddBytes(found.value, f, s.era));
        }
      }
    }
  }

  lemma {:induction false} FoundIsOk(s: ReceiveState, h: HmHeader)
    requires RingOk(s) && HeaderFits(h) && s.readSeq <= h.seqNum < s.readSeq + MAX_FLIGHT
    ensures var found := FindIncoming(s, h);
            found.Some? ==> IncomingOk(found.value) && found.value.seqNum == h.seqNum
                            && found.value.msgLen == h.msgLen && found.value.msgType == h.msgType
    ensures s.hasMessage && h.seqNum == s.readSeq && FindIncoming(s, h).Some? ==> FindIncoming(s, h).value.Complete()
  {
    NewIncomingOk(h);
    SameSlotSameSequence(s, h.seqNum);
  }

  lemma {:induction false} CountersKeepRing(s: ReceiveState, t: ReceiveState)
    requires RingOk(s) && t.slots == s.slots && t.readSeq == s.readSeq && t.hasMessage == s.hasMessage
    ensures RingOk(t)
  {
  }

  /** An occupied slot always belongs to the sequence number that was looked up. */
  lemma {:induction false} SameSlotSameSequence(s: ReceiveState, seqNum: nat)
    requires RingOk(s) && s.readSeq <= seqNum < s.readSeq + MAX_FLIGHT
    ensures s.slots[Slot(seqNum)].Some? ==> s.slots[Slot(seqNum)].value.seqNum == seqNum
  {
  }

  // ---- the other operations on the ring ----

  datatype OpenResult = Success | Discard | Error(alert: Alert)

  /** dtls1_open_handshake on an opened record. */
  function OpenHandshake(s: ReceiveState, contentType: nat, nullCipher: bool, record: seq<byte>, maxMessageLen: nat)
    : (r: (ReceiveState, OpenResult))
    requires RingOk(s)
  {
    if contentType == APPLICATION_DATA then
      (s, if nullCipher then Error(UnexpectedMessage) else Discard)
    else if contentType == CHANGE_CIPHER_SPEC then
      if !nullCipher then (s, Error(UnexpectedMessage))
      else if record != [1] then (s, Error(IllegalParameter))
      else (s.(hasChangeCipherSpec := true), Success)
    else if contentType != HANDSHAKE then
      (s, Error(UnexpectedMessage))
    else
      var (s', outcome) := ProcessRecord(s, record, maxMessageLen);
      (s', match outcome case Continue => Success case Failed(alert) => Error(alert))
  }

  /** What dtls1_get_message hands out. */
  datatype Message = Message(msgType: nat, body: seq<byte>, raw: seq<byte>)

  function GetMessage(s: ReceiveState): (r: (ReceiveState, Option<Message>))
    requires RingOk(s)
  {
    if !CurrentComplete(s) then (s, None)
    else
      var m := s.slots[Slot(s.readSeq)].value;
      (s.(hasMessage := true), Some(Message(m.msgType, m.data[HM_HEADER_LENGTH..], m.data)))
  }

  function NextMessage(s: ReceiveState): ReceiveState
    requires RingOk(s) && s.hasMessage
  {
    s.(slots := s.slots[Slot(s.readSeq) := None], readSeq := (s.readSeq + 1) % SEQ_LIMIT, hasMessage := false)
  }

  predicate HasUnprocessed(s: ReceiveState)
    requires |s.slots| == MAX_FLIGHT
  {
    || s.hasChangeCipherSpec
    || exists i :: 0 <= i < MAX_FLIGHT && s.slots[i].Some? && !(s.hasMessage && i == Slot(s.readSeq))
  }

  /** dtls1_set_read_state: refused while the current epoch has leftover data. */
  function SetReadState(s: ReceiveState): (r: (ReceiveState, bool))
    requires RingOk(s)
  {
    if HasUnprocessed(s) then (s, false)
    else (s.(readEpoch := (s.readEpoch + 1) % SEQ_LIMIT, era := s.era + 1), true)
  }

  /** The tail of dtls1_open_change_cipher_spec. */
  function TakeChangeCipherSpec(s: ReceiveState): ReceiveState {
    s.(hasChangeCipherSpec := false)
  }

  /** Releasing the front message keeps the ring invariant, also when the 16-bit counter wraps:
      no buffered number exceeds 65535, so the ring is then empty. */
  lemma {:induction false} NextKeepsRing(s: ReceiveState)
    requires RingOk(s) && s.hasMessage
    ensures RingOk(NextMessage(s))
    ensures s.readSeq == SEQ_LIMIT - 1 ==> forall i :: 0 <= i < MAX_FLIGHT ==> NextMessage(s).slots[i] == None
  {
    hide IncomingOk;
    forall i | 0 <= i < MAX_FLIGHT && NextMessage(s).slots[i].Some?
      ensures var m := NextMessage(s).slots[i].value;
              s.readSeq < m.seqNum < SEQ_LIMIT && m.seqNum < s.readSeq + MAX_FLIGHT
    {
      assert s.slots[i] == NextMessage(s).slots[i];
      IncomingNumber(s.slots[i].value);
    }
  }

  lemma {:induction false} IncomingNumber(m: Incoming)
    requires IncomingOk(m)
    ensures m.seqNum < SEQ_LIMIT
  {
  }

  // ---- runs of the receiver, and read epochs ----

  datatype Event =
    | Open(contentType: nat, nullCipher: bool, record: seq<byte>, maxMessageLen: nat)
    | Get
    | Next
    | ChangeReadEpoch
    | TakeCcs

  /** One event; `Next` is only called on a message that was handed out. */
  function Step(s: ReceiveState, e: Event): (s': ReceiveState)
    requires RingOk(s)
    ensures RingOk(s')
  {
    match e
    case Open(contentType, nullCipher, record, maxMessageLen) =>
      OpenHandshake(s, contentType, nullCipher, record, maxMessageLen).0
    case Get => GetMessage(s).0
    case Next => if s.hasMessage then NextKeepsRing(s); NextMessage(s) else s
    case ChangeReadEpoch => SetReadState(s).0
    case TakeCcs => TakeChangeCipherSpec(s)
  }

  function Run(events: seq<Event>): (s: ReceiveState)
    ensures RingOk(s)
  {
    if events == [] then INITIAL else Step(Run(events[..|events| - 1]), events[|events| - 1])
  }

  /** Only a message already handed out may hold bytes of an earlier epoch. */
  ghost predicate ErasOk(s: ReceiveState)
    requires |s.slots| == MAX_FLIGHT
  {
    forall i :: 0 <= i < MAX_FLIGHT && s.slots[i].Some? && !(s.hasMessage && i == Slot(s.readSeq)) ==>
      s.slots[i].value.eras <= {s.era}
  }

  lemma {:induction false} FragmentKeepsEras(s: ReceiveState, f: Fragment, maxMessageLen: nat)
    requires RingOk(s) && ErasOk(s) && HeaderFits(f.header) && |f.body| == f.header.fragLen
    ensures |ProcessFragment(s, f, maxMessageLen).0.slots| == MAX_FLIGHT
    ensures ErasOk(ProcessFragment(s, f, maxMessageLen).0)
  {
    hide IncomingOk, Overwrite;
  }

  lemma {:induction false} RecordKeepsEras(s: ReceiveState, record: seq<byte>, maxMessageLen: nat)
    requires RingOk(s) && ErasOk(s)
    ensures ErasOk(ProcessRecord(s, record, maxMessageLen).0)
    decreases |record|
  {
    hide RingOk, ErasOk, ProcessFragment, ParseFragment;
    if record != [] && ParseFragment(record).Some? {
      var (f, rest) := ParseFragment(record).value;
      ParsedFragmentPrints(record);
      ProcessKeepsRing(s, f, maxMessageLen);
      FragmentKeepsEras(s, f, maxMessageLen);
      var (s', outcome) := ProcessFragment(s, f, maxMessageLen);
      if outcome.Continue? {
        RecordKeepsEras(s', rest, maxMessageLen);
      }
    }
  }

  lemma {:induction false} RunKeepsEras(events: seq<Event>)
    ensures ErasOk(Run(events))
  {
    if events != [] {
      var s, e := Run(events[..|events| - 1]), events[|events| - 1];
      RunKeepsEras(events[..|events| - 1]);
      if e.Open? {
        RecordKeepsEras(s, e.record, e.maxMessageLen);
      }
    }
  }

  /** In every run, a message handed out for the first time contains no byte from a record of
      an earlier read epoch. */
  lemma {:induction false} FirstDeliveryIsOfCurrentEra(events: seq<Event>)
    ensures var s := Run(events);
            !s.hasMessage && GetMessage(s).1.Some? ==> s.slots[Slot(s.readSeq)].value.eras <= {s.era}
  {
    RunKeepsEras(events);
  }

  /** In every run, the read epoch changes exactly when no ChangeCipherSpec is pending and the
      ring is empty except for a message already handed out. */
  lemma {:induction false} EpochChangeNeedsEmptyRing(events: seq<Event>)
    ensures var s := Run(events);
            var (s', changed) := SetReadState(s);
            && (changed <==> !s.hasChangeCipherSpec
                             && forall i :: 0 <= i < MAX_FLIGHT && s.slots[i].Some? ==>
                                  s.hasMessage && i == Slot(s.readSeq))
            && (!changed ==> s' == s)
            && (changed ==> s'.era == s.era + 1 && s'.slots == s.slots && ErasOk(s'))
  {
    RunKeepsEras(events);
  }

  // ---- ChangeCipherSpec ----

  /** A well-formed ChangeCipherSpec record under the null cipher. */
  predicate IsChangeCipherSpec(e: Event) {
    e.Open? && e.contentType == 20 && e.nullCipher && e.record == [1]
  }

  /** One was opened and none has been taken since. */
  ghost predicate Pending(events: seq<Event>) {
    exists j ::
      0 <= j < |events| && IsChangeCipherSpec(events[j]) && forall k :: j < k < |events| ==> !events[k].TakeCcs?
  }

  lemma {:induction false} PendingMore(front: seq<Event>, e: Event)
    ensures Pending(front + [e]) <==> IsChangeCipherSpec(e) || (Pending(front) && !e.TakeCcs?)
  {
    var events := front + [e];
    if IsChangeCipherSpec(e) {
      assert IsChangeCipherSpec(events[|front|]);
    } else if Pending(front) && !e.TakeCcs? {
      var j :| 0 <= j < |front| && IsChangeCipherSpec(front[j]) && forall k :: j < k < |front| ==> !front[k].TakeCcs?;
      assert IsChangeCipherSpec(events[j]);
    }
    if Pending(events) && !IsChangeCipherSpec(e) {
      var j :| 0 <= j < |events| && IsChangeCipherSpec(events[j])
          && forall k :: j < k < |events| ==> !events[k].TakeCcs?;
      assert events[|front|] == e;
      assert IsChangeCipherSpec(front[j]);
      forall k | j < k < |front|
        ensures !front[k].TakeCcs?
      {
        assert front[k] == events[k];
      }
    }
  }

  lemma {:induction false} StepFlags(s: ReceiveState, e: Event)
    requires RingOk(s)
    ensures Step(s, e).hasChangeCipherSpec <==> IsChangeCipherSpec(e) || (s.hasChangeCipherSpec && !e.TakeCcs?)
  {
    hide RingOk, ProcessRecord;
  }

  /** In every run, a ChangeCipherSpec is pending if and only if a well-formed one was opened under
      the null cipher since one was last taken; and while one is pending the read epoch does not
      change. */
  lemma {:induction false} PendingIffOpened(events: seq<Event>)
    ensures Run(events).hasChangeCipherSpec <==> Pending(events)
    ensures Pending(events) ==> SetReadState(Run(events)) == (Run(events), false)
  {
    if events != [] {
      var front, e := events[..|events| - 1], events[|events| - 1];
      assert events == front + [e];
      PendingIffOpened(front);
      PendingMore(front, e);
      StepFlags(Run(front), e);
    }
  }

  /** How many of the events changed the read epoch, and how many released a message. */
  function Changes(events: seq<Event>): nat {
    if events == [] then 0
    else
      var front, e := events[..|events| - 1], events[|events| - 1];
      Changes(front) + (if e.ChangeReadEpoch? && SetReadState(Run(front)).1 then 1 else 0)
  }

  function Releases(events: seq<Event>): nat {
    if events == [] then 0
    else
      var front, e := events[..|events| - 1], events[|events| - 1];
      Releases(front) + (if e.Next? && Run(front).hasMessage then 1 else 0)
  }

  lemma {:induction false} StepCounts(s: ReceiveState, e: Event)
    requires RingOk(s)
    ensures var t := Step(s, e);
            && (if e.ChangeReadEpoch? && SetReadState(s).1 then t == s.(readEpoch := (s.readEpoch + 1) % 65536,
                                                                         era := s.era + 1)
                else t.readEpoch == s.readEpoch && t.era == s.era)
            && (if e.Next? && s.hasMessage then t.readSeq == (s.readSeq + 1) % 65536 else t.readSeq == s.readSeq)
            && (e.Open? ==> t.hasMessage == s.hasMessage)
  {
    hide RingOk, ProcessRecord, HasUnprocessed;
  }

  /** Over every run, the read epoch is the number of changes that were not refused and the next
      sequence number is the number of released messages, both modulo 2^16. */
  lemma {:induction false} RunCounts(events: seq<Event>)
    ensures var s := Run(events);
            s.readEpoch == Changes(events) % 65536 && s.era == Changes(events) && s.readSeq == Releases(events) % 65536
  {
    hide SetReadState, Step, RingOk;
    if events != [] {
      var front := events[..|events| - 1];
      RunCounts(front);
      StepCounts(Run(front), events[|events| - 1]);
      NextModulo(Changes(front));
      NextModulo(Releases(front));
    }
  }

  lemma {:induction false} NextModulo(n: nat)
    ensures (n % 65536 + 1) % 65536 == (n + 1) % 65536
  {
  }

  /** A message is handed out exactly when the front slot holds one of which every byte has been
      received; it is that message, and it counts as handed out from then on. */
  lemma {:induction false} GetOutcome(s: ReceiveState)
    requires RingOk(s)
    ensures var front, (t, message) := s.slots[s.readSeq % 7], GetMessage(s);
            && (message.Some? <==>
                  front.Some? && forall i :: 0 <= i < front.value.msgLen ==> i in front.value.received)
            && (message.Some? ==>
                  && t == s.(hasMessage := true) && message.value.msgType == front.value.msgType
                  && message.value.raw == front.value.data && message.value.body == front.value.data[12..])
            && (message.None? ==> t == s)
  {
    if s.slots[s.readSeq % 7].Some? {
      ReceivedAll(s.slots[s.readSeq % 7].value);
    }
  }

  lemma {:induction false} ReceivedAll(m: Incoming)
    requires IncomingOk(m)
    ensures m.Complete() <==> forall i :: 0 <= i < m.msgLen ==> i in m.received
  {
    if forall i :: 0 <= i < m.msgLen ==> i in m.received {
      assert m.received == Range(0, m.msgLen);
    }
  }

  /** A message was handed out and has not been released. */
  ghost predicate HandedOut(events: seq<Event>) {
    exists j :: 0 <= j < |events| && HandsOut(events, j) && forall k :: j < k < |events| ==> !events[k].Next?
  }

  ghost predicate HandsOut(events: seq<Event>, j: nat)
    requires j < |events|
  {
    events[j].Get? && GetMessage(Run(events[..j])).1.Some?
  }

  lemma {:induction false} HandedOutMore(front: seq<Event>, e: Event)
    ensures HandedOut(front + [e]) <==>
              (e.Get? && GetMessage(Run(front)).1.Some?) || (HandedOut(front) && !e.Next?)
  {
    hide GetMessage;
    var events := front + [e];
    assert events[..|front|] == front;
    forall j | 0 <= j < |front|
      ensures HandsOut(events, j) == HandsOut(front, j)
    {
      assert events[..j] == front[..j];
    }
    if e.Get? && GetMessage(Run(front)).1.Some? {
      assert HandsOut(events, |front|);
    } else if HandedOut(front) && !e.Next? {
      var j :| 0 <= j < |front| && HandsOut(front, j) && forall k :: j < k < |front| ==> !front[k].Next?;
      assert HandsOut(events, j);
    }
    if HandedOut(events) && !HandsOut(events, |front|) {
      var j :| 0 <= j < |events| && HandsOut(events, j) && forall k :: j < k < |events| ==> !events[k].Next?;
      assert events[|front|] == e && HandsOut(front, j);
      forall k | j < k < |front|
        ensures !front[k].Next?
      {
        assert front[k] == events[k];
      }
    }
  }

  lemma {:induction false} StepHands(s: ReceiveState, e: Event)
    requires RingOk(s)
    ensures Step(s, e).hasMessage <==> (e.Get? && GetMessage(s).1.Some?) || (s.hasMessage && !e.Next?)
  {
    hide RingOk, ProcessRecord, HasUnprocessed;
  }

  /** Over every run, `has_message` holds if and only if a message was handed out and not released
      since. */
  lemma {:induction false} HandedOutIff(events: seq<Event>)
    ensures Run(events).hasMessage <==> HandedOut(events)
  {
    hide Step, GetMessage;
    if events != [] {
      var front, e := events[..|events| - 1], events[|events| - 1];
      assert events == front + [e];
      HandedOutIff(front);
      HandedOutMore(front, e);
      StepHands(Run(front), e);
    }
  }

  /** What becomes of a record, by its content type: application data are discarded, but an error
      under the null cipher; a ChangeCipherSpec is taken only under the null cipher and only as one
      byte 1; types other than those and handshake are errors. Only a ChangeCipherSpec changes the
      flag and only a handshake record changes anything else. */
  lemma {:induction false} OpenedByType(s: ReceiveState, contentType: nat, nullCipher: bool, record: seq<byte>,
      maxMessageLen: nat)
    requires RingOk(s)
    ensures var (t, result) := OpenHandshake(s, contentType, nullCipher, record, maxMessageLen);
            && (result == Discard <==> contentType == 23 && !nullCipher)
            && (contentType == 20 ==> (result == Success <==> nullCipher && record == [1]))
            && (contentType == 20 && nullCipher && record != [1] ==> result == Error(IllegalParameter))
            && (contentType !in {20, 22, 23} || (contentType == 20 && !nullCipher) || (contentType == 23 && nullCipher)
                ==> result == Error(UnexpectedMessage))
            && (contentType != 22 ==>
                  t == s.(hasChangeCipherSpec := s.hasChangeCipherSpec || (contentType == 20 && result == Success)))
            && (contentType == 22 ==> t == s.(slots := t.slots))
  {
  }
}
