/** Sending a DTLS handshake flight (RFC 6347, sections 4.2.3 and 4.2.4): messages are cut into
    fragments that fit the MTU, packed into packets, and resumed after a failed write. */
module HandshakeSend {
  import opened Wire
  import opened Reassembly
  import opened RecordWriter

  /** DTLS_OUTGOING_MESSAGE. */
  datatype Outgoing = Outgoing(data: seq<byte>, epoch: nat, isCcs: bool)

  /** A handshake message is stored as a single fragment covering all of it. */
  predicate WholeMessage(data: seq<byte>) {
    match ParseFragment(data)
    case None => false
    case Some((f, rest)) => f.header.fragOff == 0 && f.header.msgLen == f.header.fragLen && rest == []
  }

  function MessageOf(data: seq<byte>): (f: Fragment)
    requires WholeMessage(data)
    ensures HeaderFits(f.header) && |f.body| == f.header.fragLen == f.header.msgLen && f.header.fragOff == 0
    ensures data == FragmentBytes(f)
  {
    ParsedFragmentPrints(data);
    ParseFragment(data).value.0
  }

  /** The fragment of `m` that holds its bytes `from..to`. */
  function Slice(m: Fragment, from: nat, to: nat): Fragment
    requires from <= to <= |m.body|
  {
    Fragment(m.header.(fragOff := from, fragLen := to - from), m.body[from..to])
  }

  // ---- what a flight still has to say ----

  /** A flight as a stream of marks: where each message starts, each of its bytes, and each
      ChangeCipherSpec. */
  datatype Mark = Start(seqNum: nat) | Byte(seqNum: nat, offset: nat, value: byte) | Ccs

  function ByteMarks(seqNum: nat, offset: nat, bytes: seq<byte>): (s: seq<Mark>)
    ensures |s| == |bytes|
  {
    seq(|bytes|, i requires 0 <= i < |bytes| => Byte(seqNum, offset + i, bytes[i]))
  }

  function FragmentMarks(f: Fragment): seq<Mark> {
    (if f.header.fragOff == 0 then [Start(f.header.seqNum)] else [])
        + ByteMarks(f.header.seqNum, f.header.fragOff, f.body)
  }

  /** The marks of a record on the wire. */
  function RecordMarks(r: Sealed): seq<Mark> {
    if r.contentType == CHANGE_CIPHER_SPEC then [Ccs]
    else match ParseFragment(r.payload)
      case None => []
      case Some((f, _)) => FragmentMarks(f)
  }

  function RecordsMarks(rs: seq<Sealed>): seq<Mark> {
    if rs == [] then [] else RecordsMarks(rs[..|rs| - 1]) + RecordMarks(rs[|rs| - 1])
  }

  function PacketsMarks(ps: seq<seq<Sealed>>): seq<Mark> {
    if ps == [] then [] else PacketsMarks(ps[..|ps| - 1]) + RecordsMarks(ps[|ps| - 1])
  }

  /** The marks of one message from `offset` on. */
  function MessageMarks(m: Outgoing, offset: nat): seq<Mark> {
    if m.isCcs then [Ccs]
    else if !WholeMessage(m.data) then []
    else
      var f := MessageOf(m.data);
      if offset > |f.body| then [] else FragmentMarks(Slice(f, offset, |f.body|))
  }

  /** The marks of a flight from message `written`, byte `offset` on. */
  function Remaining(flight: seq<Outgoing>, written: nat, offset: nat): seq<Mark>
    decreases |flight| - written
  {
    if written >= |flight| then []
    else MessageMarks(flight[written], offset) + Remaining(flight, written + 1, 0)
  }

  lemma {:induction false} NothingRemains(flight: seq<Outgoing>, written: nat, offset: nat)
    requires written >= |flight|
    ensures Remaining(flight, written, offset) == []
  {
  }

  /** The record carries a piece of this message, under its own epoch. */
  ghost predicate CarriesPieceOf(r: Sealed, m: Outgoing) {
    && r.epoch == m.epoch
    && if m.isCcs then r.contentType == CHANGE_CIPHER_SPEC && r.payload == [1]
       else
         && r.contentType == HANDSHAKE && WholeMessage(m.data)
         && exists from: nat, to: nat ::
              from <= to <= |MessageOf(m.data).body| && r.payload == FragmentBytes(Slice(MessageOf(m.data), from, to))
  }

  ghost predicate CarriesFlight(r: Sealed, flight: seq<Outgoing>) {
    exists k :: 0 <= k < |flight| && CarriesPieceOf(r, flight[k])
  }

  function WireLength(rs: seq<Sealed>): nat {
    if rs == [] then 0 else WireLength(rs[..|rs| - 1]) + rs[|rs| - 1].wireLen
  }

  // ---- cutting ----

  lemma {:induction false} SliceFits(m: Fragment, from: nat, to: nat)
    requires HeaderFits(m.header) && |m.body| == m.header.fragLen && from <= to <= |m.body|
    ensures HeaderFits(Slice(m, from, to).header)
    ensures ParseFragment(FragmentBytes(Slice(m, from, to))) == Some((Slice(m, from, to), []))
  {
    var f := Slice(m, from, to);
    FragmentRoundTrip(f, []);
    assert FragmentBytes(f) + [] == FragmentBytes(f);
  }

  /** Cutting a message at `mid` loses and repeats nothing. */
  lemma {:induction false} CutMarks(m: Fragment, from: nat, mid: nat)
    requires from <= mid <= |m.body| && (mid == 0 ==> |m.body| == 0)
    ensures mid < |m.body| ==>
              FragmentMarks(Slice(m, from, |m.body|))
                == FragmentMarks(Slice(m, from, mid)) + FragmentMarks(Slice(m, mid, |m.body|))
  {
    var n := |m.body|;
    var s := m.header.seqNum;
    assert m.body[from..n] == m.body[from..mid] + m.body[mid..n];
    assert ByteMarks(s, from, m.body[from..n]) == ByteMarks(s, from, m.body[from..mid])
        + ByteMarks(s, mid, m.body[mid..n]);
  }

  /** What a record holding bytes `from..to` of a message leaves still to be sent. */
  lemma {:induction false} PieceMarks(m: Outgoing, from: nat, to: nat, r: Sealed)
    requires !m.isCcs && WholeMessage(m.data) && from <= to <= |MessageOf(m.data).body|
    requires from < to || to == |MessageOf(m.data).body|
    requires r.epoch == m.epoch && r.contentType == HANDSHAKE
    requires r.payload == FragmentBytes(Slice(MessageOf(m.data), from, to))
    ensures CarriesPieceOf(r, m)
    ensures to == |MessageOf(m.data).body| ==> MessageMarks(m, from) == RecordMarks(r)
    ensures to < |MessageOf(m.data).body| ==> MessageMarks(m, from) == RecordMarks(r) + MessageMarks(m, to)
  {
    hide FragmentMarks, ParseFragment, WholeMessage;
    var f := MessageOf(m.data);
    SliceFits(f, from, to);
    if to < |f.body| {
      CutMarks(f, from, to);
    }
  }

  lemma {:induction false} CcsMarks(m: Outgoing, offset: nat, r: Sealed)
    requires m.isCcs && r.epoch == m.epoch && r.contentType == CHANGE_CIPHER_SPEC && r.payload == [1]
    ensures CarriesPieceOf(r, m) && MessageMarks(m, offset) == RecordMarks(r)
  {
  }

  lemma {:induction false} RecordsMarksAppend(rs: seq<Sealed>, r: Sealed)
    ensures RecordsMarks(rs + [r]) == RecordsMarks(rs) + RecordMarks(r)
    ensures WireLength(rs + [r]) == WireLength(rs) + r.wireLen
  {
    assert (rs + [r])[..|rs|] == rs;
  }

  lemma {:induction false} PacketsMarksAppend(ps: seq<seq<Sealed>>, p: seq<Sealed>)
    ensures PacketsMarks(ps + [p]) == PacketsMarks(ps) + RecordsMarks(p)
  {
    assert (ps + [p])[..|ps|] == ps;
  }

  /** A packet being filled: what its records say and what is left make up what was to be said. */
  ghost predicate PacketSoFar(all: seq<Mark>, records: seq<Sealed>, left: seq<Mark>, flight: seq<Outgoing>, room: nat,
      maxOut: nat) {
    && all == RecordsMarks(records) + left
    && (forall r :: r in records ==> CarriesFlight(r, flight))
    && WireLength(records) + room == maxOut
    && (records != [] ==> 0 < WireLength(records))
  }

  lemma {:induction false} EmptyPacket(left: seq<Mark>, flight: seq<Outgoing>, maxOut: nat)
    ensures PacketSoFar(left, [], left, flight, maxOut, maxOut)
  {
    assert RecordsMarks([]) == [] && [] + left == left;
  }

  lemma {:induction false} PacketGrows(all: seq<Mark>, records: seq<Sealed>, r: Sealed, before: seq<Mark>,
      left: seq<Mark>, flight: seq<Outgoing>, room: nat, maxOut: nat)
    requires PacketSoFar(all, records, before, flight, room, maxOut)
    requires 0 < r.wireLen <= room && CarriesFlight(r, flight) && before == RecordMarks(r) + left
    ensures PacketSoFar(all, records + [r], left, flight, room - r.wireLen, maxOut)
  {
    RecordsMarksAppend(records, r);
    assert (records + [r])[..|records|] == records;
    assert WireLength(records + [r]) == WireLength(records) + r.wireLen;
    hide CarriesFlight, RecordMarks, RecordsMarks, WireLength;
    Associates(RecordsMarks(records), RecordMarks(r), left);
    assert RecordsMarks(records) + [] == RecordsMarks(records);
  }

  lemma {:induction false} PacketMeans(all: seq<Mark>, records: seq<Sealed>, left: seq<Mark>, flight: seq<Outgoing>,
      room: nat, maxOut: nat)
    requires PacketSoFar(all, records, left, flight, room, maxOut)
    ensures all == RecordsMarks(records) + left && WireLength(records) <= maxOut
    ensures forall r :: r in records ==> CarriesFlight(r, flight)
    ensures records != [] ==> 0 < WireLength(records)
  {
    hide CarriesFlight, WireLength, RecordsMarks;
  }

  /** The packets written and the records given up say, in order and once, what was to be sent,
      up to what is left. */
  ghost predicate SaidOf(all: seq<Mark>, packets: seq<seq<Sealed>>, dropped: seq<Sealed>, left: seq<Mark>) {
    all == PacketsMarks(packets) + RecordsMarks(dropped) + left
  }

  /** Every packet is non-empty, fits the MTU, and carries pieces of the flight. */
  ghost predicate GoodPackets(packets: seq<seq<Sealed>>, flight: seq<Outgoing>, mtu: nat) {
    forall p :: p in packets ==>
      && p != [] && 0 < WireLength(p) <= mtu
      && forall r :: r in p ==> CarriesFlight(r, flight)
  }

  lemma {:induction false} SaidNothing(left: seq<Mark>)
    ensures SaidOf(left, [], [], left)
  {
    assert PacketsMarks([]) == [] && RecordsMarks([]) == [];
    assert [] + [] + left == left;
  }

  lemma {:induction false} SaidMore(all: seq<Mark>, packets: seq<seq<Sealed>>, records: seq<Sealed>,
      before: seq<Mark>, left: seq<Mark>)
    requires SaidOf(all, packets, [], before) && before == RecordsMarks(records) + left
    ensures SaidOf(all, packets, records, left) && SaidOf(all, packets + [records], [], left)
  {
    assert RecordsMarks([]) == [];
    hide PacketsMarks, RecordsMarks;
    PacketsMarksAppend(packets, records);
    Associates(PacketsMarks(packets), RecordsMarks(records), left);
  }

  lemma {:induction false} Associates<T>(a: seq<T>, b: seq<T>, c: seq<T>)
    ensures a + [] + (b + c) == a + b + c
    ensures a + b + [] + c == a + b + c
  {
    assert a + [] == a && a + b + [] == a + b;
    assert a + (b + c) == a + b + c;
  }

  lemma {:induction false} NoPackets(flight: seq<Outgoing>, mtu: nat)
    ensures GoodPackets([], flight, mtu)
  {
  }

  lemma {:induction false} OneMorePacket(packets: seq<seq<Sealed>>, records: seq<Sealed>, flight: seq<Outgoing>,
      mtu: nat)
    requires GoodPackets(packets, flight, mtu) && records != [] && 0 < WireLength(records) <= mtu
    requires forall r :: r in records ==> CarriesFlight(r, flight)
    ensures GoodPackets(packets + [records], flight, mtu)
  {
    hide CarriesFlight, WireLength;
  }

  lemma {:induction false} AllSaid(all: seq<Mark>, packets: seq<seq<Sealed>>)
    requires SaidOf(all, packets, [], [])
    ensures PacketsMarks(packets) == all
  {
    assert RecordsMarks([]) == [];
    hide PacketsMarks;
    assert PacketsMarks(packets) + [] + [] == PacketsMarks(packets);
  }

  // ---- the sender ----

  const MIN_MTU: nat := 228
  const DEFAULT_MTU: nat := 1472

  datatype SealResult = SealError | NoProgress | SealPartial | SealSuccess

  datatype SendResult = Sent | WriteBlocked | SealFailed | ShutDown | FlushBlocked

  // ---- one packet, as a value ----

  /** The numbers and ciphers a flight is sealed with, and the cursor into the flight. */
  datatype Sender = Sender(numbers: Numbers, aead: AeadLengths, lastAead: AeadLengths, written: nat, offset: nat)

  function UseFor(numbers: Numbers, m: Outgoing): (r: Option<UseEpoch>)
    ensures r == Some(PreviousEpoch) ==> numbers.epoch >= 1
  {
    if numbers.epoch >= 1 && m.epoch == numbers.epoch - 1 then Some(PreviousEpoch)
    else if m.epoch == numbers.epoch then Some(CurrentEpoch)
    else None
  }

  function LengthsFor(s: Sender, use: UseEpoch): AeadLengths {
    if use.PreviousEpoch? then s.lastAead else s.aead
  }

  /** The body bytes of the next fragment of `m`. */
  function Todo(m: Fragment, offset: nat, maxOut: nat, overhead: nat): nat
    requires offset <= |m.body| && HM_HEADER_LENGTH + overhead <= maxOut
  {
    if |m.body| - offset > maxOut - HM_HEADER_LENGTH - overhead then maxOut - HM_HEADER_LENGTH - overhead
        else |m.body| - offset
  }

  /** seal_next_message. */
  function Attempt(s: Sender, m: Outgoing, maxOut: nat, aeadOk: bool): (SealResult, Sender, Option<Sealed>) {
    match UseFor(s.numbers, m)
    case None => (SealError, s, None)
    case Some(use) =>
      var lengths := LengthsFor(s, use);
      if m.isCcs then
        if maxOut < 1 + lengths.MaxSealOverhead() then (NoProgress, s, None)
        else
          var (numbers, sealed) := SealOutcome(s.numbers, lengths, maxOut, CHANGE_CIPHER_SPEC, [1], false, use, aeadOk);
          (if sealed.Some? then SealSuccess else SealError, s.(numbers := numbers), sealed)
      else if !WholeMessage(m.data) || s.offset > |MessageOf(m.data).body| then (SealError, s, None)
      else if maxOut < HM_HEADER_LENGTH + 1 + lengths.MaxSealOverhead()
          || maxOut < lengths.PrefixLen() then (NoProgress, s, None)
      else
        var f := MessageOf(m.data);
        var next := s.offset + Todo(f, s.offset, maxOut, lengths.MaxSealOverhead());
        var (numbers, sealed) :=
          SealOutcome(s.numbers, lengths, maxOut, HANDSHAKE, FragmentBytes(Slice(f, s.offset, next)), true, use,
              aeadOk);
        if sealed.None? then (SealError, s.(numbers := numbers), None)
        else if next == |f.body| then (SealSuccess, s.(numbers := numbers, offset := 0), sealed)
        else (SealPartial, s.(numbers := numbers, offset := next), sealed)
  }

  /** seal_next_packet's loop from a state with `n` records in the packet: whether a seal failed,
      the state it stops in, and the records it adds. `aead(k)` is whether the packet's `k`-th
      AEAD operation works. */
  function Packet(s: Sender, flight: seq<Outgoing>, room: nat, aead: nat -> bool, n: nat): (bool, Sender, seq<Sealed>)
    decreases |flight| - s.written
  {
    if s.written >= |flight| then (false, s, [])
    else
      match Attempt(s, flight[s.written], room, aead(n))
      case (SealError, t, _) => (true, t, [])
      case (NoProgress, t, _) => (false, t, [])
      case (SealPartial, t, sealed) => (false, t, if sealed.Some? then [sealed.value] else [])
      case (SealSuccess, t, sealed) =>
        if sealed.None? || sealed.value.wireLen > room then (true, t, [])
        else
          var (failed, u, records) := Packet(t.(written := s.written + 1), flight, room - sealed.value.wireLen, aead,
              n + 1);
          (failed, u, [sealed.value] + records)
  }

  // ---- what can be sealed ----

  /** An empty packet has room for a record of this message. */
  predicate RoomFor(s: Sender, m: Outgoing, mtu: nat) {
    match UseFor(s.numbers, m)
    case None => false
    case Some(use) => (if m.isCcs then 1 else HM_HEADER_LENGTH + 1) + LengthsFor(s, use).MaxSealOverhead() <= mtu
  }

  /** The message is of the current epoch or the one before, and whole around the cursor. */
  predicate WellFormed(s: Sender, m: Outgoing) {
    UseFor(s.numbers, m).Some? && (m.isCcs || (WholeMessage(m.data) && s.offset <= |MessageOf(m.data).body|))
  }

  function NextNumber(s: Sender, m: Outgoing): nat {
    if UseFor(s.numbers, m) == Some(PreviousEpoch) then s.numbers.lastNext else s.numbers.next
  }

  /** How long the plaintext of the next record of this message is. */
  function NextLength(s: Sender, m: Outgoing, room: nat): nat
    requires WellFormed(s, m) && RoomFor(s, m, room)
  {
    if m.isCcs then 1
    else
      var lengths := LengthsFor(s, UseFor(s.numbers, m).value);
      HM_HEADER_LENGTH + Todo(MessageOf(m.data), s.offset, room, lengths.MaxSealOverhead())
  }

  /** The record can be made: there is a number for it, and its ciphertext is below 2^16 bytes. */
  predicate Makeable(s: Sender, m: Outgoing, room: nat)
    requires WellFormed(s, m) && RoomFor(s, m, room)
  {
    var lengths, n := LengthsFor(s, UseFor(s.numbers, m).value), NextLength(s, m, room);
    (NextNumber(s, m) + 1) % NUMBERS != 0 && lengths.explicitNonceLen + n + lengths.suffixLen(n) < 0x1_0000
  }

  /** A record of this message will be made in this room. */
  predicate CanSeal(s: Sender, m: Outgoing, room: nat, aeadOk: bool) {
    WellFormed(s, m) && RoomFor(s, m, room) && aeadOk && Makeable(s, m, room)
  }

  // ---- records that are dropped ----

  /** A call of seal_next_packet that reports failure. */
  predicate PacketFails(s: Sender, flight: seq<Outgoing>, room: nat, aead: nat -> bool) {
    var (failed, _, records) := Packet(s, flight, room, aead, 0);
    failed || records == []
  }

  lemma {:induction false} AttemptSeals(s: Sender, m: Outgoing, maxOut: nat, aeadOk: bool)
    ensures var (result, t, sealed) := Attempt(s, m, maxOut, aeadOk);
            && (sealed.Some? <==> result.SealPartial? || result.SealSuccess?)
            && (sealed.Some? ==> 0 < sealed.value.wireLen <= maxOut)
            && t == s.(numbers := t.numbers, offset := t.offset)
            && (result.SealPartial? ==> t.offset > s.offset)
            && (sealed.None? ==> t.offset == s.offset)
  {
    hide ParseFragment, WholeMessage, HeaderBytes, FragmentBytes, SealStep;
  }

  lemma {:induction false} PacketMoves(s: Sender, flight: seq<Outgoing>, room: nat, aead: nat -> bool, n: nat)
    ensures var (failed, t, records) := Packet(s, flight, room, aead, n);
            && t.written >= s.written
            && (records == [] ==> t.written == s.written && t.offset == s.offset)
            && (records != [] ==> t.written > s.written || t.offset > s.offset)
    decreases |flight| - s.written
  {
    hide Attempt;
    if s.written < |flight| {
      AttemptSeals(s, flight[s.written], room, aead(n));
      var (result, t, sealed) := Attempt(s, flight[s.written], room, aead(n));
      if result == SealSuccess {
        PacketMoves(t.(written := s.written + 1), flight, room - sealed.value.wireLen, aead, n + 1);
      }
    }
  }

  /** A failing call gives up no record if and only if no record of its first message can be made
      in the state before the call. Otherwise the cursor stays behind records that are never
      written. */
  lemma {:induction false} DropsNothingIff(s: Sender, flight: seq<Outgoing>, room: nat, aead: nat -> bool)
    requires s.written < |flight| && PacketFails(s, flight, room, aead) && s.aead.Valid() && s.lastAead.Valid()
    ensures var (_, t, dropped) := Packet(s, flight, room, aead, 0);
            && (dropped == [] <==> !CanSeal(s, flight[s.written], room, aead(0)))
            && (dropped == [] <==> t.written == s.written && t.offset == s.offset)
  {
    hide Attempt, CanSeal;
    AttemptSeals(s, flight[s.written], room, aead(0));
    AttemptFailsIff(s, flight[s.written], room, aead(0));
    PacketMoves(s, flight, room, aead, 0);
  }

  /** When an attempt fails, in any room: the entry belongs to an old epoch or is not a whole
      message around the cursor, or there is room but no record can be made; without room nothing
      happens. */
  lemma {:induction false} AttemptFailsIff(s: Sender, m: Outgoing, room: nat, aeadOk: bool)
    requires s.aead.Valid() && s.lastAead.Valid()
    ensures var result := Attempt(s, m, room, aeadOk).0;
            && (result.SealError? <==> !WellFormed(s, m) || (RoomFor(s, m, room) && (!aeadOk || !Makeable(s, m, room))))
            && (result.NoProgress? <==> WellFormed(s, m) && !RoomFor(s, m, room))
            && (result.SealPartial? || result.SealSuccess? <==> CanSeal(s, m, room, aeadOk))
  {
    hide ParseFragment, WholeMessage, HeaderBytes, SealOutcome;
    if WellFormed(s, m) && RoomFor(s, m, room) {
      var use := UseFor(s.numbers, m).value;
      var lengths := LengthsFor(s, use);
      if m.isCcs {
        SealsIff(s.numbers, lengths, room, CHANGE_CIPHER_SPEC, [1], false, use, aeadOk);
      } else {
        var f := MessageOf(m.data);
        var next := s.offset + Todo(f, s.offset, room, lengths.MaxSealOverhead());
        SealsIff(s.numbers, lengths, room, HANDSHAKE, FragmentBytes(Slice(f, s.offset, next)), true, use, aeadOk);
      }
    }
  }

  lemma {:induction false} SealsIff(s: Numbers, lengths: AeadLengths, room: nat, contentType: nat, payload: seq<byte>,
      inPlace: bool, use: UseEpoch, aeadOk: bool)
    requires (use.PreviousEpoch? ==> s.epoch >= 1) && lengths.Valid()
    requires |payload| + lengths.MaxSealOverhead() <= room
    ensures var number := if use.PreviousEpoch? then s.lastNext else s.next;
            SealOutcome(s, lengths, room, contentType, payload, inPlace, use, aeadOk).1.Some?
            <==> aeadOk && (number + 1) % NUMBERS != 0
                 && lengths.explicitNonceLen + |payload| + lengths.suffixLen(|payload|) < 0x1_0000
  {
    if aeadOk {
      SealFailsIff(s, lengths, room, contentType, payload, inPlace, use);
    }
  }

  /** An input on which records are dropped: the MTU lets a record reach 2^16 bytes, a short
      message is sealed, and then a long one fails. */
  lemma {:induction false} DropsShortMessage(short: seq<byte>, long: seq<byte>)
    requires |short| == 1 && |long| == 70000
    ensures var flight := [Outgoing(FragmentBytes(Fragment(WholeHeader(1, 1, 0), short)), 0, false),
                           Outgoing(FragmentBytes(Fragment(WholeHeader(2, 70000, 1), long)), 0, false)];
            var start := Sender(RecordWriter.INITIAL, NULL_CIPHER, NULL_CIPHER, 0, 0);
            var (failed, t, dropped) := Packet(start, flight, 200000, _ => true, 0);
            failed && |dropped| == 1 && t.written == 1 && t.offset == 0
  {
    hide Attempt, FragmentBytes;
    var first := Fragment(WholeHeader(1, 1, 0), short);
    var second := Fragment(WholeHeader(2, 70000, 1), long);
    var flight := [Outgoing(FragmentBytes(first), 0, false), Outgoing(FragmentBytes(second), 0, false)];
    var start := Sender(RecordWriter.INITIAL, NULL_CIPHER, NULL_CIPHER, 0, 0);
    NullCipherAttempt(start, first, 200000);
    var (_, t, sealed) := Attempt(start, flight[0], 200000, true);
    NullCipherAttempt(t.(written := 1), second, 200000 - sealed.value.wireLen);
  }

  lemma {:induction false} NullCipherAttempt(s: Sender, f: Fragment, maxOut: nat)
    requires s.numbers.epoch == 0 && s.numbers.next < 2 && s.aead == NULL_CIPHER && s.offset == 0
    requires HeaderFits(f.header) && f.header == WholeHeader(f.header.msgType, |f.body|, f.header.seqNum)
    requires maxOut >= |f.body| + 26
    ensures var m := Outgoing(FragmentBytes(f), 0, false);
            var (result, t, sealed) := Attempt(s, m, maxOut, true);
            if |f.body| + 12 >= 0x1_0000 || |f.body| + 26 > maxOut
            then result == SealError && t.written == s.written && t.offset == 0
            else
              && result == SealSuccess && sealed.Some? && sealed.value.wireLen == |f.body| + 25
              && t == s.(numbers := t.numbers) && t.numbers.epoch == 0 && t.numbers.next == s.numbers.next + 1
  {
    FragmentRoundTrip(f, []);
    assert FragmentBytes(f) + [] == FragmentBytes(f);
    hide ParseFragment, HeaderBytes;
    assert Slice(f, 0, |f.body|) == f;
  }

  /** The loop of seal_next_packet has made `records` and goes on from `now`. */
  ghost predicate PacketGoesOn(first: Sender, flight: seq<Outgoing>, maxOut: nat, aead: nat -> bool,
      records: seq<Sealed>, now: Sender, room: nat) {
    var (failed, t, rest) := Packet(now, flight, room, aead, |records|);
    Packet(first, flight, maxOut, aead, 0) == (failed, t, records + rest)
  }

  lemma {:induction false} PacketBegins(first: Sender, flight: seq<Outgoing>, maxOut: nat, aead: nat -> bool)
    ensures PacketGoesOn(first, flight, maxOut, aead, [], first, maxOut)
  {
    hide Packet;
    var rest := Packet(first, flight, maxOut, aead, 0).2;
    assert [] + rest == rest;
  }

  /** One turn: the packet ends here, or goes on with one more record. */
  lemma {:induction false} PacketTurn(first: Sender, flight: seq<Outgoing>, maxOut: nat, aead: nat -> bool,
      records: seq<Sealed>, now: Sender, room: nat)
    requires PacketGoesOn(first, flight, maxOut, aead, records, now, room) && now.written < |flight|
    ensures var (result, t, sealed) := Attempt(now, flight[now.written], room, aead(|records|));
            && (result.SealError? ==> Packet(first, flight, maxOut, aead, 0) == (true, t, records))
            && (result.NoProgress? ==> Packet(first, flight, maxOut, aead, 0) == (false, t, records))
            && (result.SealPartial? ==>
                  sealed.Some? && Packet(first, flight, maxOut, aead, 0) == (false, t, records + [sealed.value]))
            && (result.SealSuccess? ==>
                  && sealed.Some? && sealed.value.wireLen <= room
                  && PacketGoesOn(first, flight, maxOut, aead, records + [sealed.value], t.(written := now.written + 1),
                                  room - sealed.value.wireLen))
  {
    hide Attempt;
    AttemptSeals(now, flight[now.written], room, aead(|records|));
    var (result, t, sealed) := Attempt(now, flight[now.written], room, aead(|records|));
    var (failed, u, rest) := Packet(now, flight, room, aead, |records|);
    if result.SealSuccess? {
      assert records + [sealed.value] + rest[1..] == records + rest;
    } else {
      assert records + [] == records;
    }
  }

  lemma {:induction false} PacketEnds(first: Sender, flight: seq<Outgoing>, maxOut: nat, aead: nat -> bool,
      records: seq<Sealed>, now: Sender, room: nat)
    requires PacketGoesOn(first, flight, maxOut, aead, records, now, room) && now.written >= |flight|
    ensures Packet(first, flight, maxOut, aead, 0) == (false, now, records)
  {
    assert records + [] == records;
  }

  // ---- when no seal fails ----

  /** A whole message or a ChangeCipherSpec, of the current epoch or the one before. */
  predicate Sealable(s: Sender, m: Outgoing) {
    UseFor(s.numbers, m).Some? && (m.isCcs || WholeMessage(m.data))
  }

  /** What is left of the flight can be sealed: there are numbers for it, counting one for every
      mark, and the cursor is inside its message. */
  ghost predicate Healthy(s: Sender, flight: seq<Outgoing>) {
    && s.aead.Valid() && s.lastAead.Valid()
    && (forall k :: s.written <= k < |flight| ==> Sealable(s, flight[k]))
    && (s.written < |flight| && s.offset != 0 ==>
          !flight[s.written].isCcs && s.offset < |MessageOf(flight[s.written].data).body|)
    && s.numbers.next + |Remaining(flight, s.written, s.offset)| < NUMBERS
    && s.numbers.lastNext + |Remaining(flight, s.written, s.offset)| < NUMBERS
  }

  ghost predicate AllRoom(s: Sender, flight: seq<Outgoing>, mtu: nat) {
    forall k :: s.written <= k < |flight| ==> RoomFor(s, flight[k], mtu)
  }

  lemma {:induction false} MarksLength(m: Outgoing, offset: nat)
    requires m.isCcs || (WholeMessage(m.data) && offset <= |MessageOf(m.data).body|)
    ensures |MessageMarks(m, offset)| == if m.isCcs then 1
        else (if offset == 0 then 1 else 0) + (|MessageOf(m.data).body| - offset)
  {
    hide WholeMessage;
  }

  lemma {:induction false} HealthyAttempt(s: Sender, flight: seq<Outgoing>, room: nat)
    requires Healthy(s, flight) && s.written < |flight| && room < 0x1_0000
    ensures var (result, t, sealed) := Attempt(s, flight[s.written], room, true);
            && !result.SealError?
            && (RoomFor(s, flight[s.written], room) ==> !result.NoProgress?)
            && (result.NoProgress? ==> t == s)
            && (result.SealPartial? ==> Healthy(t, flight))
            && (result.SealSuccess? ==> Healthy(t.(written := s.written + 1), flight))
  {
    hide ParseFragment, WholeMessage, HeaderBytes, FragmentBytes, MessageMarks, SealOutcome;
    var m := flight[s.written];
    assert Sealable(s, m);
    AttemptFailsIff(s, m, room, true);
    AttemptSeals(s, m, room, true);
    MarksLength(m, s.offset);
    if RoomFor(s, m, room) {
      ShortEnough(s, m, room);
    }
    assert Remaining(flight, s.written, s.offset) == MessageMarks(m, s.offset) + Remaining(flight, s.written + 1, 0);
    var (result, t, sealed) := Attempt(s, m, room, true);
    AttemptNumbers(s, m, room);
    if result.SealPartial? {
      MarksLength(m, t.offset);
      assert Remaining(flight, s.written, t.offset) == MessageMarks(m, t.offset) + Remaining(flight, s.written + 1, 0);
    }
  }

  lemma {:induction false} ShortEnough(s: Sender, m: Outgoing, room: nat)
    requires WellFormed(s, m) && RoomFor(s, m, room) && room < 0x1_0000 && s.aead.Valid() && s.lastAead.Valid()
    requires (NextNumber(s, m) + 1) % NUMBERS != 0
    ensures Makeable(s, m, room)
  {
    hide WholeMessage, ParseFragment;
  }

  lemma {:induction false} AttemptNumbers(s: Sender, m: Outgoing, room: nat)
    ensures var (result, t, sealed) := Attempt(s, m, room, true);
            && t.numbers.epoch == s.numbers.epoch
            && (s.numbers.next + 1 < NUMBERS ==> t.numbers.next <= s.numbers.next + 1)
            && (s.numbers.lastNext + 1 < NUMBERS ==> t.numbers.lastNext <= s.numbers.lastNext + 1)
            && (result.NoProgress? ==> t == s)
            && (result.SealSuccess? ==> t.offset == if m.isCcs then s.offset else 0)
            && (result.SealPartial? ==>
                  !m.isCcs && WholeMessage(m.data) && s.offset < t.offset < |MessageOf(m.data).body|)
  {
    hide ParseFragment, WholeMessage, HeaderBytes, FragmentBytes;
  }

  /** With whole messages of known epochs, records below 2^16 bytes, a working AEAD and numbers
      left, no seal of a packet fails, and a packet with room for its first record is sent. */
  lemma {:induction false} NoSealFails(s: Sender, flight: seq<Outgoing>, room: nat, aead: nat -> bool, n: nat)
    requires Healthy(s, flight) && room < 0x1_0000 && forall k :: aead(k)
    ensures var (failed, t, records) := Packet(s, flight, room, aead, n);
            && !failed && Healthy(t, flight) && t.numbers.epoch == s.numbers.epoch && t.aead == s.aead
                && t.lastAead == s.lastAead
            && t.written >= s.written
            && (s.written < |flight| && RoomFor(s, flight[s.written], room) ==> records != [])
    decreases |flight| - s.written
  {
    hide Attempt, Healthy;
    if s.written < |flight| {
      HealthyAttempt(s, flight, room);
      AttemptSeals(s, flight[s.written], room, true);
      AttemptNumbers(s, flight[s.written], room);
      var (result, t, sealed) := Attempt(s, flight[s.written], room, true);
      if result.SealSuccess? {
        NoSealFails(t.(written := s.written + 1), flight, room - sealed.value.wireLen, aead, n + 1);
      }
    }
  }

  /** A packet of a healthy sender goes out, and leaves it healthy. */
  lemma {:induction false} PacketIsSent(s: Sender, flight: seq<Outgoing>, mtu: nat, aead: nat -> bool)
    requires Healthy(s, flight) && AllRoom(s, flight, mtu) && mtu < 0x1_0000 && s.written < |flight|
        && forall k :: aead(k)
    ensures !PacketFails(s, flight, mtu, aead)
    ensures var t := Packet(s, flight, mtu, aead, 0).1; Healthy(t, flight) && AllRoom(t, flight, mtu)
  {
    hide Healthy, Packet;
    NoSealFails(s, flight, mtu, aead, 0);
  }

  /** What a failed send leaves behind: the records of the packet that was given up, none exactly
      when its first message could not be sealed or did not fit. */
  ghost predicate GivenUp(last: Sender, flight: seq<Outgoing>, mtu: nat, aead: nat -> bool, now: Sender,
      dropped: seq<Sealed>) {
    && last.written < |flight| && PacketFails(last, flight, mtu, aead)
    && Packet(last, flight, mtu, aead, 0).1 == now && Packet(last, flight, mtu, aead, 0).2 == dropped
    && (dropped == [] <==> !CanSeal(last, flight[last.written], mtu, aead(0)))
    && (dropped == [] <==> now.written == last.written && now.offset == last.offset)
  }

  lemma {:induction false} FailureMeans(s: Sender, flight: seq<Outgoing>, mtu: nat, aead: nat -> bool)
    requires s.written < |flight| && PacketFails(s, flight, mtu, aead) && s.aead.Valid() && s.lastAead.Valid()
    ensures GivenUp(s, flight, mtu, aead, Packet(s, flight, mtu, aead, 0).1, Packet(s, flight, mtu, aead, 0).2)
  {
    hide Attempt, Packet, CanSeal;
    DropsNothingIff(s, flight, mtu, aead);
  }

  // ---- packets are as full as they can be ----

  /** A record that does not end its message uses all the room; one that does carries the rest. */
  lemma {:induction false} PieceIsLargest(s: Sender, m: Outgoing, room: nat, aeadOk: bool)
    ensures var (result, t, sealed) := Attempt(s, m, room, aeadOk);
            && (result.SealPartial? ==>
                  && UseFor(s.numbers, m).Some? && sealed.Some?
                  && |sealed.value.payload| + LengthsFor(s, UseFor(s.numbers, m).value).MaxSealOverhead() == room)
            && (result.SealSuccess? ==>
                  && sealed.Some?
                  && sealed.value.payload == (if m.isCcs then [1]
                      else if WholeMessage(m.data) && s.offset <= |MessageOf(m.data).body| then
                        FragmentBytes(Slice(MessageOf(m.data), s.offset, |MessageOf(m.data).body|))
                      else []))
            && (result.NoProgress? ==> WellFormed(s, m) && !RoomFor(s, m, room))
  {
    hide ParseFragment, HeaderBytes, SealStep;
  }

  /** seal_next_packet stops, without a failure, only at the end of the flight, in front of a
      message of which no record fits in what is left of the packet, or behind a record that uses
      all of it. */
  ghost predicate Full(flight: seq<Outgoing>, room: nat, t: Sender, records: seq<Sealed>) {
    WireLength(records) <= room
    && (|| t.written == |flight|
        || (t.written < |flight| && WellFormed(t, flight[t.written])
            && !RoomFor(t, flight[t.written], room - WireLength(records)))
        || (t.written < |flight| && records != [] && UseFor(t.numbers, flight[t.written]).Some?
            && |records[|records| - 1].payload|
               + LengthsFor(t, UseFor(t.numbers, flight[t.written]).value).MaxSealOverhead()
               == room - WireLength(records[..|records| - 1])))
  }

  lemma {:induction false} WireLengthJoin(r: Sealed, rs: seq<Sealed>)
    ensures WireLength([r] + rs) == r.wireLen + WireLength(rs)
  {
    if rs == [] {
      assert [r] + rs == [r] && [r][..0] == [];
    } else {
      WireLengthJoin(r, rs[..|rs| - 1]);
      assert ([r] + rs)[..|rs|] == [r] + rs[..|rs| - 1];
    }
  }

  lemma {:induction false} FullJoin(flight: seq<Outgoing>, room: nat, t: Sender, r: Sealed, rest: seq<Sealed>)
    requires r.wireLen <= room && Full(flight, room - r.wireLen, t, rest)
    ensures Full(flight, room, t, [r] + rest)
  {
    hide WellFormed, RoomFor, UseFor;
    WireLengthJoin(r, rest);
    if rest != [] {
      WireLengthJoin(r, rest[..|rest| - 1]);
      assert ([r] + rest)[..|rest|] == [r] + rest[..|rest| - 1];
    }
  }

  lemma {:induction false} FullAtEnd(s: Sender, flight: seq<Outgoing>, room: nat)
    requires s.written == |flight|
    ensures Full(flight, room, s, [])
  {
  }

  lemma {:induction false} FullWhenStuck(s: Sender, flight: seq<Outgoing>, room: nat, aeadOk: bool)
    requires s.written < |flight|
    ensures var (result, t, _) := Attempt(s, flight[s.written], room, aeadOk);
            result.NoProgress? ==> Full(flight, room, t, [])
  {
    hide Attempt, WellFormed, RoomFor, UseFor, LengthsFor;
    PieceIsLargest(s, flight[s.written], room, aeadOk);
    AttemptKeepsUse(s, flight[s.written], room, aeadOk);
  }

  lemma {:induction false} FullWhenCut(s: Sender, flight: seq<Outgoing>, room: nat, aeadOk: bool)
    requires s.written < |flight|
    ensures var (result, t, sealed) := Attempt(s, flight[s.written], room, aeadOk);
            result.SealPartial? ==> sealed.Some? && Full(flight, room, t, [sealed.value])
  {
    hide Attempt, WellFormed, RoomFor, UseFor, LengthsFor;
    var (result, t, sealed) := Attempt(s, flight[s.written], room, aeadOk);
    PieceIsLargest(s, flight[s.written], room, aeadOk);
    AttemptSeals(s, flight[s.written], room, aeadOk);
    AttemptKeepsUse(s, flight[s.written], room, aeadOk);
    if result.SealPartial? {
      assert [sealed.value][..0] == [];
      assert WireLength([sealed.value]) == sealed.value.wireLen;
    }
  }

  lemma {:induction false} PacketIsFull(s: Sender, flight: seq<Outgoing>, room: nat, aead: nat -> bool, n: nat)
    requires s.written <= |flight|
    ensures var (failed, t, records) := Packet(s, flight, room, aead, n);
            !failed ==> Full(flight, room, t, records)
    decreases |flight| - s.written
  {
    hide Attempt, Full;
    if s.written >= |flight| {
      FullAtEnd(s, flight, room);
    } else {
      var (result, t, sealed) := Attempt(s, flight[s.written], room, aead(n));
      AttemptSeals(s, flight[s.written], room, aead(n));
      match result
      case SealError =>
      case NoProgress =>
        FullWhenStuck(s, flight, room, aead(n));
      case SealPartial =>
        FullWhenCut(s, flight, room, aead(n));
      case SealSuccess =>
        var u := t.(written := s.written + 1);
        PacketIsFull(u, flight, room - sealed.value.wireLen, aead, n + 1);
        var (failed, v, rest) := Packet(u, flight, room - sealed.value.wireLen, aead, n + 1);
        if !failed {
          FullJoin(flight, room, v, sealed.value, rest);
        }
    }
  }

  lemma {:induction false} AttemptKeepsUse(s: Sender, m: Outgoing, room: nat, aeadOk: bool)
    ensures var (result, t, sealed) := Attempt(s, m, room, aeadOk);
            && UseFor(t.numbers, m) == UseFor(s.numbers, m)
            && (UseFor(s.numbers, m).Some? ==>
                  LengthsFor(t, UseFor(s.numbers, m).value) == LengthsFor(s, UseFor(s.numbers, m).value))
            && (result.NoProgress? ==> t == s)
  {
    hide ParseFragment, WholeMessage, HeaderBytes, FragmentBytes;
  }

  // ---- what a call of send_flight reports ----

  /** The transport takes the first `n` packets. */
  ghost predicate AllTaken(accepts: nat -> bool, n: nat) {
    forall i :: 0 <= i < n ==> accepts(i)
  }

  lemma {:induction false} NoneTaken(accepts: nat -> bool)
    ensures AllTaken(accepts, 0)
  {
  }

  lemma {:induction false} OneMoreTaken(accepts: nat -> bool, n: nat)
    requires AllTaken(accepts, n) && accepts(n)
    ensures AllTaken(accepts, n + 1)
  {
  }

  /** The report says how far the call came: `accepts(i)` is whether the transport takes packet
      `i`, and `flushed` whether the flush behind the last packet works. */
  ghost predicate Reported(result: SendResult, shutDown: bool, accepts: nat -> bool, flushed: bool,
      packets: seq<seq<Sealed>>) {
    && (result.ShutDown? <==> shutDown)
    && AllTaken(accepts, |packets|)
    && match result
       case Sent => flushed
       case WriteBlocked => !accepts(|packets|)
       case SealFailed => true
       case ShutDown => packets == []
       case FlushBlocked => !flushed
  }

  /** Nothing stands in the way of sending what is left of the flight. */
  ghost predicate Unhindered(s: Sender, flight: seq<Outgoing>, mtu: nat, shutDown: bool, aead: nat -> nat -> bool,
      accepts: nat -> bool, flushed: bool) {
    && !shutDown && flushed && Healthy(s, flight) && AllRoom(s, flight, mtu) && mtu < 0x1_0000
    && (forall i, k :: aead(i)(k)) && forall i :: accepts(i)
  }

  class FlightSender {
    const writer: Writer
    const outgoing: array<Outgoing>
    var len: nat
    var written: nat
    var offset: nat
    var complete: bool
    var hasReply: bool
    var writeSeq: nat
    var mtu: nat

    ghost predicate Valid()
      reads this, writer, outgoing
    {
      && writer.Valid()
      && outgoing.Length == MAX_FLIGHT
      && written <= len <= MAX_FLIGHT
      && (offset != 0 ==> written < len && !outgoing[written].isCcs)
      && writeSeq < 0x1_0000
    }

    ghost function Flight(): seq<Outgoing>
      requires Valid()
      reads this, writer, outgoing
    {
      outgoing[..len]
    }

    ghost function Snap(): Sender
      reads this, writer
    {
      Sender(writer.numbers, writer.aead, writer.lastAead, written, offset)
    }

    constructor ()
      ensures Valid() && fresh(writer) && fresh(outgoing)
      ensures Flight() == [] && writeSeq == 0 && !complete && written == 0 && offset == 0
    {
      writer := new Writer();
      outgoing := new Outgoing[MAX_FLIGHT](_ => Outgoing([], 0, false));
      len, written, offset, complete, hasReply, writeSeq, mtu := 0, 0, 0, false, false, 0, 0;
    }

    /** dtls1_init_message followed by dtls1_finish_message: the header is written with a zero
        length, and the fragment length is then copied over it. */
    method BuildMessage(msgType: byte, body: seq<byte>) returns (message: Option<seq<byte>>)
      requires Valid()
      ensures message.Some? <==> |body| < 0x100_0000
      ensures message.Some? ==>
                message.value == FragmentBytes(Fragment(WholeHeader(msgType, |body|, writeSeq), body))
                && WholeMessage(message.value) && |message.value| == HM_HEADER_LENGTH + |body|
    {
      if |body| >= 0x100_0000 {
        return None;
      }
      var unfinished := FragmentBytes(Fragment(HmHeader(msgType, 0, writeSeq, 0, |body|), body));
      var buffer := new byte[|unfinished|](i requires 0 <= i < |unfinished| => unfinished[i]);
      assert buffer[..] == unfinished;
      buffer[1], buffer[2], buffer[3] := buffer[9], buffer[10], buffer[11];
      var f := Fragment(WholeHeader(msgType, |body|, writeSeq), body);
      assert buffer[..] == FragmentBytes(f) by {
        var lengthBytes := ToBE(|body|, 3);
        assert unfinished[9..12] == lengthBytes;
        assert forall i :: 0 <= i < 3 ==> buffer[1 + i] == lengthBytes[i] by {
          assert unfinished[9] == lengthBytes[0] && unfinished[10] == lengthBytes[1]
              && unfinished[11] == lengthBytes[2];
        }
      }
      FragmentRoundTrip(f, []);
      assert FragmentBytes(f) + [] == FragmentBytes(f);
      message := Some(buffer[..]);
    }

    /** dtls_clear_outgoing_messages. */
    method Clear()
      requires Valid()
      modifies this`len, this`written, this`offset, this`complete, this`hasReply
      ensures Valid() && Flight() == [] && written == 0 && offset == 0 && !complete
    {
      len, written, offset, complete, hasReply := 0, 0, 0, false, false;
    }

    /** add_outgoing: a completed flight is dropped and a new one begun; a flight never exceeds
        seven entries. */
    method Add(isCcs: bool, data: seq<byte>) returns (added: bool)
      requires Valid()
      modifies this`len, this`written, this`offset, this`complete, this`hasReply, this`writeSeq, outgoing
      ensures Valid() && !complete
      ensures var before := if old(complete) then [] else old(Flight());
              && (added <==> |before| < 7 && |data| <= 0xffff_ffff)
              && Flight() == (if added then before + [Outgoing(data, writer.numbers.epoch, isCcs)] else before)
              && writeSeq == (if added && !isCcs then (old(writeSeq) + 1) % 0x1_0000 else old(writeSeq))
              && (if old(complete) then written == 0 && offset == 0
                  else written == old(written) && offset == old(offset))
    {
      if complete {
        Clear();
      }
      if len >= MAX_FLIGHT || |data| > 0xffff_ffff {
        return false;
      }
      if !isCcs {
        writeSeq := (writeSeq + 1) % 0x1_0000;
      }
      outgoing[len] := Outgoing(data, writer.numbers.epoch, isCcs);
      len := len + 1;
      return true;
    }

    /** dtls1_update_mtu; `queried` is the transport's answer. */
    method UpdateMtu(noQuery: bool, queried: int)
      modifies this`mtu
      ensures old(mtu) >= MIN_MTU || noQuery ==> mtu == old(mtu)
      ensures old(mtu) < 228 && !noQuery ==> mtu == if 228 <= queried <= 0x4000_0000 then queried else 1472
      ensures !noQuery ==> mtu >= MIN_MTU
    {
      if mtu < MIN_MTU && !noQuery {
        mtu := if MIN_MTU <= queried <= 0x4000_0000 then queried else DEFAULT_MTU;
      }
    }

    /** seal_next_message. */
    method SealNextMessage(maxOut: nat, aeadOk: bool) returns (result: SealResult, sealed: Option<Sealed>)
      requires Valid() && written < len
      modifies this`offset, writer`numbers
      ensures Valid() && writer.numbers.epoch == old(writer.numbers.epoch)
      ensures (result, Snap(), sealed) == Attempt(old(Snap()), outgoing[written], maxOut, aeadOk)
      ensures sealed.Some? <==> result.SealPartial? || result.SealSuccess?
      ensures sealed.None? ==> offset == old(offset)
      ensures sealed.Some? ==>
                && 0 < sealed.value.wireLen <= maxOut
                && CarriesPieceOf(sealed.value, outgoing[written])
      ensures result.SealSuccess? ==>
                offset == 0 && MessageMarks(outgoing[written], old(offset)) == RecordMarks(sealed.value)
      ensures result.SealPartial? ==>
                && !outgoing[written].isCcs && WholeMessage(outgoing[written].data)
                && old(offset) < offset < |MessageOf(outgoing[written].data).body|
                && MessageMarks(outgoing[written], old(offset)) == RecordMarks(sealed.value)
                    + MessageMarks(outgoing[written], offset)
    {
      hide CarriesPieceOf, MessageMarks, RecordMarks, SealOutcome, HeaderBytes, ParseFragment;
      var m := outgoing[written];
      var use := CurrentEpoch;
      if writer.numbers.epoch >= 1 && m.epoch == writer.numbers.epoch - 1 {
        use := PreviousEpoch;
      } else if m.epoch != writer.numbers.epoch {
        return SealError, None;
      }
      var overhead := writer.Lengths(use).MaxSealOverhead();
      var prefix := writer.Lengths(use).PrefixLen();
      if m.isCcs {
        if maxOut < 1 + overhead {
          return NoProgress, None;
        }
        sealed := writer.SealRecord(maxOut, CHANGE_CIPHER_SPEC, [1], false, use, aeadOk);
        if sealed == None {
          return SealError, None;
        }
        CcsMarks(m, offset, sealed.value);
        return SealSuccess, sealed;
      }
      if !WholeMessage(m.data) || offset > |MessageOf(m.data).body| {
        return SealError, None;
      }
      var f := MessageOf(m.data);
      if maxOut < HM_HEADER_LENGTH + 1 + overhead || maxOut < prefix {
        return NoProgress, None;
      }
      var todo := |f.body| - offset;
      if todo > maxOut - HM_HEADER_LENGTH - overhead {
        todo := maxOut - HM_HEADER_LENGTH - overhead;
      }
      var piece := FragmentBytes(Slice(f, offset, offset + todo));
      assert |piece| == HM_HEADER_LENGTH + todo <= maxOut - prefix;
      sealed := writer.SealRecord(maxOut, HANDSHAKE, piece, true, use, aeadOk);
      if sealed == None {
        return SealError, None;
      }
      PieceMarks(m, offset, offset + todo, sealed.value);
      if todo == |f.body| - offset {
        offset := 0;
        return SealSuccess, sealed;
      }
      offset := offset + todo;
      return SealPartial, sealed;
    }

    /** The bytes of the current message not yet sent, for termination. */
    ghost function BytesLeft(): nat
      requires Valid()
      reads this, writer, outgoing
    {
      if written < len && !outgoing[written].isCcs && WholeMessage(outgoing[written].data)
         && offset <= |MessageOf(outgoing[written].data).body|
      then |MessageOf(outgoing[written].data).body| - offset
      else 0
    }

    ghost function ToSend(): seq<Mark>
      requires Valid()
      reads this, writer, outgoing
    {
      Remaining(Flight(), written, offset)
    }

    /** One round of seal_next_packet's loop: seals from the current message and moves the
        cursor past it when it is complete. */
    method SealFromCursor(room: nat, aeadOk: bool) returns (result: SealResult, sealed: Option<Sealed>)
      requires Valid() && written < len
      modifies this`written, this`offset, writer`numbers
      ensures Valid() && writer.numbers.epoch == old(writer.numbers.epoch)
      ensures var (outcome, t, made) := Attempt(old(Snap()), old(Flight()[written]), room, aeadOk);
              result == outcome && sealed == made && Snap() == if result.SealSuccess? then
                  t.(written := old(written) + 1) else t
      ensures sealed.Some? <==> result.SealPartial? || result.SealSuccess?
      ensures sealed.None? ==> written == old(written) && offset == old(offset)
      ensures sealed.Some? ==>
                && 0 < sealed.value.wireLen <= room
                && CarriesFlight(sealed.value, Flight())
                && old(ToSend()) == RecordMarks(sealed.value) + ToSend()
      ensures result.SealSuccess? ==> written == old(written) + 1
      ensures result.SealPartial? ==> written == old(written) && BytesLeft() < old(BytesLeft())
    {
      hide MessageMarks, RecordMarks, CarriesPieceOf, Attempt;
      ghost var flight, k, from := Flight(), written, offset;
      assert Remaining(flight, k, from) == MessageMarks(flight[k], from) + Remaining(flight, k + 1, 0);
      result, sealed := SealNextMessage(room, aeadOk);
      if sealed.Some? {
        assert CarriesPieceOf(sealed.value, flight[k]);
      }
      if result == SealPartial {
        assert Remaining(flight, k, offset) == MessageMarks(flight[k], offset) + Remaining(flight, k + 1, 0);
      }
      if result == SealSuccess {
        written := written + 1;
      }
    }

    /** seal_next_packet: seals as much of the flight as fits. On failure the cursor stays behind
        the records already sealed, which are then dropped. */
    method SealNextPacket(maxOut: nat, aead: nat -> bool) returns (ok: bool, records: seq<Sealed>)
      requires Valid() && written < len
      modifies this`written, this`offset, writer`numbers
      ensures Valid() && writer.numbers.epoch == old(writer.numbers.epoch)
      ensures ok == !PacketFails(old(Snap()), Flight(), maxOut, aead)
      ensures var (_, t, rs) := Packet(old(Snap()), Flight(), maxOut, aead, 0); Snap() == t && records == rs
      ensures old(ToSend()) == RecordsMarks(records) + ToSend()
      ensures forall r :: r in records ==> CarriesFlight(r, Flight())
      ensures WireLength(records) <= maxOut
      ensures ok ==> records != [] && 0 < WireLength(records)
      ensures ok ==> old(written) < written || (old(written) == written && BytesLeft() < old(BytesLeft()))
    {
      hide PacketSoFar, Remaining, RecordsMarks, WireLength, CarriesFlight, MessageOf, WholeMessage, MessageMarks,
          RecordMarks,
           CarriesPieceOf, Attempt, Packet, PacketGoesOn;
      records := [];
      var room: nat := maxOut;
      ghost var start, flight, first := ToSend(), Flight(), Snap();
      EmptyPacket(start, flight, maxOut);
      PacketBegins(first, flight, maxOut, aead);
      while written < len
        invariant Valid() && writer.numbers.epoch == old(writer.numbers.epoch)
        invariant Flight() == flight && PacketSoFar(start, records, ToSend(), flight, room, maxOut)
        invariant PacketGoesOn(first, flight, maxOut, aead, records, Snap(), room)
        invariant records == [] ==> written == old(written) && offset == old(offset)
        invariant records != [] ==> old(written) < written
        decreases len - written
      {
        ghost var before, now := ToSend(), Snap();
        var result, sealed := SealFromCursor(room, aead(|records|));
        PacketTurn(first, flight, maxOut, aead, records, now, room);
        if result == SealError {
          PacketMeans(start, records, ToSend(), flight, room, maxOut);
          return false, records;
        }
        if result == NoProgress {
          PacketMeans(start, records, ToSend(), flight, room, maxOut);
          return records != [], records;
        }
        PacketGrows(start, records, sealed.value, before, ToSend(), flight, room, maxOut);
        records := records + [sealed.value];
        room := room - sealed.value.wireLen;
        if result == SealPartial {
          PacketMeans(start, records, ToSend(), flight, room, maxOut);
          return true, records;
        }
      }
      PacketEnds(first, flight, maxOut, aead, records, Snap(), room);
      PacketMeans(start, records, ToSend(), flight, room, maxOut);
      ok := records != [];
    }

    /** One round of send_flight's loop: seal a packet and offer it to the transport, which may
        refuse it; then the cursor is put back. */
    method SendPacket(aead: nat -> bool, accepted: bool) returns (result: SendResult, records: seq<Sealed>)
      requires Valid() && written < len
      modifies this`written, this`offset, writer`numbers
      ensures Valid() && writer.numbers.epoch == old(writer.numbers.epoch)
      ensures result.SealFailed? <==> PacketFails(old(Snap()), Flight(), mtu, aead)
      ensures result.WriteBlocked? ==> !accepted
      ensures result.Sent? ==> accepted
      ensures !result.WriteBlocked? ==>
                var (_, t, rs) := Packet(old(Snap()), Flight(), mtu, aead, 0); Snap() == t && records == rs
      ensures result.Sent? || result.WriteBlocked? || result.SealFailed?
      ensures result.WriteBlocked? ==> written == old(written) && offset == old(offset)
      ensures !result.WriteBlocked? ==> old(ToSend()) == RecordsMarks(records) + ToSend()
      ensures forall r :: r in records ==> CarriesFlight(r, Flight())
      ensures result.Sent? ==>
                && records != [] && 0 < WireLength(records) <= mtu
                && (old(written) < written || (old(written) == written && BytesLeft() < old(BytesLeft())))
    {
      hide Packet, PacketFails, Remaining, RecordsMarks, WireLength, CarriesFlight, WholeMessage, MessageOf;
      var oldWritten, oldOffset := written, offset;
      var ok;
      ok, records := SealNextPacket(mtu, aead);
      if !ok {
        return SealFailed, records;
      }
      if !accepted {
        written, offset := oldWritten, oldOffset;
        return WriteBlocked, records;
      }
      return Sent, records;
    }

    /** The loop of send_flight. `packets` were written; `dropped` are records sealed for a packet
        that was given up because sealing failed, and `last` is the state its sealing started
        from. `aead(i)(k)` is whether the AEAD works for record `k` of packet `i`. */
    method SendPackets(aead: nat -> nat -> bool, accepts: nat -> bool)
      returns (result: SendResult, packets: seq<seq<Sealed>>, dropped: seq<Sealed>, ghost last: Sender)
      requires Valid()
      modifies this`written, this`offset, writer`numbers
      ensures Valid() && writer.numbers.epoch == old(writer.numbers.epoch)
      ensures SaidOf(old(ToSend()), packets, dropped, ToSend()) && GoodPackets(packets, Flight(), mtu)
      ensures result.Sent? || result.WriteBlocked? || result.SealFailed?
      ensures result.WriteBlocked? ==> !accepts(|packets|)
      ensures AllTaken(accepts, |packets|)
      ensures result.Sent? ==> ToSend() == [] && written == len && offset == 0
      ensures !result.SealFailed? ==> dropped == []
      ensures result.SealFailed? ==> GivenUp(last, Flight(), mtu, aead(|packets|), Snap(), dropped)
      ensures old(Healthy(Snap(), Flight()) && AllRoom(Snap(), Flight(), mtu)) && mtu < 0x1_0000
              && (forall i, k :: aead(i)(k)) ==>
                !result.SealFailed?
    {
      hide SaidOf, GoodPackets, Remaining, Healthy, AllRoom, Packet, PacketFails, GivenUp, WireLength, CarriesFlight,
          RecordsMarks, AllTaken, BytesLeft, PacketsMarks, MessageOf, WholeMessage, CanSeal;
      NoneTaken(accepts);
      packets, dropped, last := [], [], Snap();
      SaidNothing(ToSend());
      NoPackets(Flight(), mtu);
      ghost var flight := Flight();
      ghost var well := Healthy(Snap(), flight) && AllRoom(Snap(), flight, mtu) && mtu < 0x1_0000
          && forall i, k :: aead(i)(k);
      while written < len
        invariant Valid() && writer.numbers.epoch == old(writer.numbers.epoch) && Flight() == flight
        invariant SaidOf(old(ToSend()), packets, [], ToSend()) && GoodPackets(packets, flight, mtu)
        invariant AllTaken(accepts, |packets|)
        invariant well ==> Healthy(Snap(), flight) && AllRoom(Snap(), flight, mtu)
        decreases len - written, BytesLeft()
      {
        var records;
        ghost var before := ToSend();
        last := Snap();
        if well {
          PacketIsSent(last, flight, mtu, aead(|packets|));
        }
        result, records := SendPacket(aead(|packets|), accepts(|packets|));
        if result == WriteBlocked {
          return result, packets, dropped, last;
        }
        SaidMore(old(ToSend()), packets, records, before, ToSend());
        if result == SealFailed {
          dropped := records;
          FailureMeans(last, flight, mtu, aead(|packets|));
          return result, packets, dropped, last;
        }
        OneMorePacket(packets, records, flight, mtu);
        OneMoreTaken(accepts, |packets|);
        packets := packets + [records];
      }
      NothingRemains(Flight(), written, offset);
      result := Sent;
    }

    /** send_flight over a datagram transport; `queried` is what the transport says its MTU is. */
    method SendFlight(shutDown: bool, noQuery: bool, queried: int, aead: nat -> nat -> bool, accepts: nat -> bool,
                      flushed: bool)
      returns (result: SendResult, packets: seq<seq<Sealed>>, dropped: seq<Sealed>, ghost last: Sender)
      requires Valid()
      modifies this`written, this`offset, this`mtu, writer`numbers
      ensures Valid() && writer.numbers.epoch == old(writer.numbers.epoch)
      ensures SaidOf(old(ToSend()), packets, dropped, ToSend()) && GoodPackets(packets, Flight(), mtu)
      ensures result.Sent? || result.FlushBlocked? ==> ToSend() == [] && written == len && offset == 0
      ensures !result.SealFailed? ==> dropped == []
      ensures result.SealFailed? ==> GivenUp(last, Flight(), mtu, aead(|packets|), Snap(), dropped)
      ensures Reported(result, shutDown, accepts, flushed, packets) && (shutDown ==> Snap() == old(Snap()))
      ensures mtu == if shutDown || noQuery || old(mtu) >= 228 then old(mtu)
                     else if 228 <= queried <= 0x4000_0000 then queried else 1472
      ensures old(Healthy(Snap(), Flight())) && AllRoom(old(Snap()), Flight(), mtu) && mtu < 0x1_0000
              && (forall i, k :: aead(i)(k)) ==>
                !result.SealFailed?
      ensures Unhindered(old(Snap()), Flight(), mtu, shutDown, aead, accepts, flushed) ==> result.Sent?
    {
      hide SaidOf, GoodPackets, Remaining, Healthy, AllRoom, GivenUp;
      packets, dropped, last := [], [], Snap();
      if shutDown {
        SaidNothing(ToSend());
        NoPackets(Flight(), mtu);
        return ShutDown, packets, dropped, last;
      }
      UpdateMtu(noQuery, queried);
      result, packets, dropped, last := SendPackets(aead, accepts);
      if result == Sent {
        result := if flushed then Sent else FlushBlocked;
      }
    }

    /** dtls1_flush_flight. */
    method FlushFlight(shutDown: bool, noQuery: bool, queried: int, aead: nat -> nat -> bool, accepts: nat -> bool,
                      flushed: bool)
      returns (result: SendResult, packets: seq<seq<Sealed>>, dropped: seq<Sealed>)
      requires Valid()
      modifies this`written, this`offset, this`mtu, this`complete, writer`numbers
      ensures Valid() && complete && (!result.SealFailed? ==> dropped == [])
      ensures SaidOf(old(ToSend()), packets, dropped, ToSend()) && GoodPackets(packets, Flight(), mtu)
      ensures result.Sent? ==> PacketsMarks(packets) == old(ToSend()) && ToSend() == []
      ensures Reported(result, shutDown, accepts, flushed, packets)
      ensures Unhindered(old(Snap()), Flight(), mtu, shutDown, aead, accepts, flushed) ==> result.Sent?
    {
      hide SaidOf, GoodPackets, Remaining, Reported, Unhindered;
      complete := true;
      ghost var last;
      result, packets, dropped, last := SendFlight(shutDown, noQuery, queried, aead, accepts, flushed);
      if result == Sent {
        AllSaid(old(ToSend()), packets);
      }
    }

    /** dtls1_retransmit_outgoing_messages: the whole flight again, whatever had been sent. */
    method Retransmit(shutDown: bool, noQuery: bool, queried: int, aead: nat -> nat -> bool, accepts: nat -> bool,
                      flushed: bool)
      returns (result: SendResult, packets: seq<seq<Sealed>>, dropped: seq<Sealed>)
      requires Valid()
      modifies this`written, this`offset, this`mtu, writer`numbers
      ensures Valid() && (!result.SealFailed? ==> dropped == [])
      ensures SaidOf(Remaining(Flight(), 0, 0), packets, dropped, ToSend()) && GoodPackets(packets, Flight(), mtu)
      ensures result.Sent? ==> PacketsMarks(packets) == Remaining(Flight(), 0, 0) && ToSend() == []
      ensures Reported(result, shutDown, accepts, flushed, packets)
      ensures Unhindered(old(Snap()).(written := 0, offset := 0), Flight(), mtu, shutDown, aead, accepts, flushed) ==>
                result.Sent?
    {
      hide SaidOf, GoodPackets, Remaining, Reported, Unhindered;
      written, offset := 0, 0;
      ghost var last;
      result, packets, dropped, last := SendFlight(shutDown, noQuery, queried, aead, accepts, flushed);
      if result == Sent {
        AllSaid(Remaining(Flight(), 0, 0), packets);
      }
    }
  }
}
