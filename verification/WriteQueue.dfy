/** The TLS write path as functions on a state: a buffer being written, a handshake flight waiting
    behind it, and the memory of an unfinished application write. The future answers of the
    transport, of the record cipher and of malloc are part of the state, so that a claim for every
    state is a claim for every behaviour of all three. */
module WriteQueue {
  import opened Wire

  const INT_MAX: nat := 0x7fff_ffff
  const MAX_BUFFER: nat := 0xffff
  const U16: nat := 0x1_0000
  const SSL3_ALIGN_PAYLOAD: nat := 8

  /** A sealed record: its type, its plaintext, and the bytes that go on the wire. */
  datatype Record = Record(kind: nat, body: Bytes, bytes: Bytes)

  /** `alignPrefix` is how far into a sealed record its body begins. */
  datatype Config = Config(maxSendFragment: nat, sealOverhead: nat, alignPrefix: nat, partialWrite: bool,
                           movingBuffer: bool)

  /** Where malloc puts new memory, and what is in it (zeros behind `memory`). */
  datatype Placement = Placement(address: nat, memory: Bytes)

  function Memory(place: Placement, n: nat): (s: Bytes)
    ensures |s| == n
  {
    seq(n, i requires 0 <= i < n => if i < |place.memory| then place.memory[i] else 0)
  }

  /** The write buffer is `buffer`, with `slack` in front of it in memory and room for `cap` bytes
      in all. `answers`: what the next BIO calls will return. `seals`: what the next seal calls
      will produce, and `mallocs`: what the next allocations will, None for a failure. `sent` and
      `sealed` are the history. */
  datatype Pipe = Pipe(
    slack: Bytes, buffer: Bytes, cap: nat,
    flight: Option<Bytes>, offset: nat,
    wnum: nat,
    wpendPending: bool, wpendTot: nat, wpendBuf: nat, wpendType: nat,
    shutdown: bool,
    alert: Option<Bytes>,
    answers: seq<int>, seals: seq<Option<Bytes>>, mallocs: seq<Option<Placement>>,
    sent: Bytes, sealed: seq<Record>)

  predicate PipeOk(p: Pipe) {
    p.offset <= |FlightBytes(p)|
  }

  function FlightBytes(p: Pipe): Bytes {
    if p.flight.Some? then p.flight.value else []
  }

  /** The flight's bytes that have not been written yet. */
  function FlightRest(p: Pipe): Bytes {
    if p.offset <= |FlightBytes(p)| then FlightBytes(p)[p.offset..] else []
  }

  // ---- the transport and the cipher ----

  /** BIO_write: takes any non-empty part of the data, or fails. */
  function BioWrite(p: Pipe, data: Bytes): (r: (Pipe, int))
    ensures r.1 <= |data|
  {
    if p.answers == [] then (p, -1)
    else
      var n := if p.answers[0] > |data| then |data| else p.answers[0];
      (p.(answers := p.answers[1..], sent := if n > 0 then p.sent + data[..n] else p.sent), n)
  }

  function BioFlush(p: Pipe): (Pipe, int) {
    if p.answers == [] then (p, -1) else (p.(answers := p.answers[1..]), p.answers[0])
  }

  /** tls_seal_record: fails, or gives at most the body and the overhead. */
  function Seal(p: Pipe, cfg: Config, kind: nat, body: Bytes): (r: (Pipe, Option<Bytes>))
    ensures r.1.Some? ==> |r.1.value| <= |body| + cfg.sealOverhead
  {
    if p.seals == [] then (p, None)
    else
      var q := p.(seals := p.seals[1..]);
      if p.seals[0].None? || |p.seals[0].value| > |body| + cfg.sealOverhead then (q, None)
      else (q.(sealed := q.sealed + [Record(kind, body, p.seals[0].value)]), p.seals[0])
  }

  // ---- the write buffer ----

  /** Where SSLBuffer::Consume leaves `offset_`, a 16-bit number. */
  function OffsetAfter(offset: nat, len: nat): (r: nat)
    ensures r <= offset + len && r < U16
  {
    (offset + len) % U16
  }

  /** SSLBuffer::Consume. */
  function Consume(p: Pipe, n: nat): (q: Pipe)
    requires n <= |p.buffer|
    ensures |q.buffer| == |p.buffer| - n
  {
    var memory, at := p.slack + p.buffer, OffsetAfter(|p.slack|, n);
    p.(slack := memory[..at], buffer := memory[at..at + (|p.buffer| - n)], cap := if n <= p.cap then p.cap - n else 0)
  }

  /** How far into new memory the contents are put, so that what follows `headerLen` bytes of
      them is aligned. */
  function AlignedOffset(headerLen: nat, address: nat): (r: nat)
    ensures r < SSL3_ALIGN_PAYLOAD
  {
    (-(headerLen as int) - address) % SSL3_ALIGN_PAYLOAD
  }

  /** SSLBuffer::EnsureCap. */
  function EnsureCap(p: Pipe, headerLen: nat, newCap: nat): (r: (Pipe, bool))
    ensures r.1 ==> r.0.cap >= newCap
    ensures r.0 == p.(slack := r.0.slack, cap := r.0.cap, mallocs := r.0.mallocs)
  {
    if newCap > MAX_BUFFER then (p, false)
    else if p.cap >= newCap then (p, true)
    else if p.mallocs == [] then (p, false)
    else
      match p.mallocs[0]
      case None => (p.(mallocs := p.mallocs[1..]), false)
      case Some(place) =>
        var slack := Memory(place, AlignedOffset(headerLen, place.address));
        (p.(slack := slack, cap := newCap, mallocs := p.mallocs[1..]), true)
  }

  /** tls_write_buffer_flush. */
  function FlushBuffer(p: Pipe): (r: (Pipe, int))
    ensures r.1 <= 1 && r.0.wpendTot == p.wpendTot
    decreases |p.buffer|
  {
    if p.buffer == [] then (p.(slack := [], cap := 0), 1)
    else
      var (q, n) := BioWrite(p, p.buffer);
      if n <= 0 then (q, n) else FlushBuffer(Consume(q, n))
  }

  // ---- the two queues ----

  /** add_record_to_flight. */
  function AddRecord(p: Pipe, cfg: Config, kind: nat, body: Bytes): (Pipe, bool) {
    var q := if p.flight.None? then p.(flight := Some([])) else p;
    var (r, out) := Seal(q, cfg, kind, body);
    if out.None? then (r, false) else (r.(flight := Some(q.flight.value + out.value)), true)
  }

  /** ssl3_add_message: as many records as the fragment limit asks for, at least one. */
  function AddMessage(p: Pipe, cfg: Config, msg: Bytes): (Pipe, bool)
    requires cfg.maxSendFragment > 0
    decreases |msg|
  {
    var n := if |msg| < cfg.maxSendFragment then |msg| else cfg.maxSendFragment;
    var (q, ok) := AddRecord(p, cfg, HANDSHAKE, msg[..n]);
    if !ok then (q, false)
    else if msg[n..] == [] then (q, true)
    else AddMessage(q, cfg, msg[n..])
  }

  function WriteFlight(p: Pipe): (Pipe, int)
    requires p.flight.Some?
    decreases |FlightRest(p)|
  {
    if p.offset >= |p.flight.value| then (p, 1)
    else
      var (q, n) := BioWrite(p, FlightRest(p));
      if n <= 0 then (q, n) else WriteFlight(q.(offset := p.offset + n))
  }

  function FlushIfAny(p: Pipe): (Pipe, int) {
    if p.buffer == [] then (p, 1) else FlushBuffer(p)
  }

  /** ssl3_flush_flight. */
  function FlushFlight(p: Pipe): (Pipe, int) {
    if p.flight.None? then (p, 1)
    else if p.shutdown then (p, -1)
    else if |p.flight.value| > INT_MAX then (p, -1)
    else
      var (q, ret) := FlushIfAny(p);
      if ret <= 0 || q.flight.None? then (q, ret)
      else
        var (r, ret2) := WriteFlight(q);
        if ret2 <= 0 then (r, ret2)
        else
          var (s, ret3) := BioFlush(r);
          if ret3 <= 0 then (s, -1) else (s.(flight := None, offset := 0), 1)
  }

  // ---- application data ----

  /** ssl3_write_pending. */
  function WritePending(p: Pipe, cfg: Config, kind: nat, addr: nat, len: nat): (r: (Pipe, int))
    ensures r.1 <= len
  {
    if p.wpendTot > len || (!cfg.movingBuffer && p.wpendBuf != addr) || p.wpendType != kind then (p, -1)
    else
      var (q, ret) := FlushBuffer(p);
      if ret <= 0 then (q, ret) else (q.(wpendPending := false), q.wpendTot)
  }

  /** do_ssl3_write: flush what is pending, or take over the flight and seal one record behind it. */
  function DoWrite(p: Pipe, cfg: Config, kind: nat, addr: nat, body: Bytes): (r: (Pipe, int))
    ensures r.1 <= |body|
  {
    if p.wpendPending then WritePending(p, cfg, kind, addr, |body|)
    else if |body| > MAX_PLAIN_LENGTH || p.buffer != [] then (p, -1)
    else if body == [] then (p, 0)
    else
      var (s, ok) := Fill(p, cfg, kind, addr, body);
      if !ok then (s, -1) else WritePending(s, cfg, kind, addr, |body|)
  }

  /** Room for one more record, the waiting flight in front of it, and the record. */
  function Fill(p: Pipe, cfg: Config, kind: nat, addr: nat, body: Bytes): (Pipe, bool) {
    var (o, ok) := EnsureCap(p, |FlightRest(p)| + cfg.alignPrefix, Asked(p, cfg, body));
    if !ok then (o, false)
    else
      var (r, out) := Seal(TakeOver(o), cfg, kind, body);
      if out.None? then (r, false) else (AfterSeal(r, kind, addr, body, out.value), true)
  }

  /** The capacity do_ssl3_write asks for: the waiting flight and one more record. */
  function Asked(p: Pipe, cfg: Config, body: Bytes): nat {
    |FlightRest(p)| + |body| + cfg.sealOverhead
  }

  /** The waiting flight moves into the write buffer. */
  function TakeOver(p: Pipe): Pipe {
    if p.flight.Some? then p.(buffer := FlightRest(p), flight := None, offset := 0) else p
  }

  /** The state of do_ssl3_write right after sealing. */
  function AfterSeal(r: Pipe, kind: nat, addr: nat, body: Bytes, out: Bytes): Pipe {
    r.(buffer := r.buffer + out, wpendPending := true, wpendTot := |body|, wpendBuf := addr, wpendType := kind)
  }

  /** The loop of ssl3_write_app_data, with `tot` bytes of `data` behind it. */
  function AppLoop(p: Pipe, cfg: Config, addr: nat, data: Bytes, tot: nat): (Pipe, int)
    requires tot <= |data|
    decreases |data| - tot
  {
    var n := |data| - tot;
    var nw := if n > cfg.maxSendFragment then cfg.maxSendFragment else n;
    var (q, ret) := DoWrite(p, cfg, APPLICATION_DATA, addr + tot, data[tot..tot + nw]);
    if ret <= 0 then (q.(wnum := tot), ret)
    else if ret == n || cfg.partialWrite then (q, tot + ret)
    else AppLoop(q, cfg, addr, data, tot + ret)
  }

  lemma {:induction false} AppLoopUnfold(p: Pipe, cfg: Config, addr: nat, data: Bytes, tot: nat)
    requires tot <= |data|
    ensures var n := |data| - tot;
            var nw := if n > cfg.maxSendFragment then cfg.maxSendFragment else n;
            var (q, ret) := DoWrite(p, cfg, APPLICATION_DATA, addr + tot, data[tot..tot + nw]);
            AppLoop(p, cfg, addr, data, tot)
            == if ret <= 0 then (q.(wnum := tot), ret)
               else if ret == n || cfg.partialWrite then (q, tot + ret)
               else AppLoop(q, cfg, addr, data, tot + ret)
  {
    hide DoWrite;
  }

  /** ssl3_write_app_data, without early data. */
  function WriteApp(p: Pipe, cfg: Config, addr: nat, data: Bytes): (Pipe, int) {
    if p.shutdown then (p, -1)
    else if |data| < p.wnum then (p.(wnum := 0), -1)
    else AppLoop(p.(wnum := 0), cfg, addr, data, p.wnum)
  }

  // ---- alerts ----

  const ALERT_ADDRESS: nat := 0

  predicate Fatal(alert: Bytes) {
    alert != [] && alert[0] == 2
  }

  /** ssl3_dispatch_alert. Behind a fatal alert the transport is flushed, whatever it answers. */
  function DispatchAlert(p: Pipe, cfg: Config): (Pipe, int)
    requires p.alert.Some?
  {
    var (q, ret) := DoWrite(p, cfg, ALERT, ALERT_ADDRESS, p.alert.value);
    if ret <= 0 then (q, ret)
    else
      var r := q.(alert := None);
      (if Fatal(p.alert.value) then BioFlush(r).0 else r, 1)
  }

  /** ssl_send_alert: no application data is accepted afterwards. */
  function SendAlert(p: Pipe, cfg: Config, level: byte, desc: byte): (Pipe, int) {
    if p.shutdown then (p, -1)
    else
      var q := p.(shutdown := true, alert := Some([level, desc]));
      if q.buffer == [] then DispatchAlert(q, cfg) else (q, -1)
  }

  lemma {:induction false} BioFlushKeeps(p: Pipe)
    ensures BioFlush(p).0 == p.(answers := BioFlush(p).0.answers)
  {
  }

  // ---- the order of what is sent ----

  function AllBytes(rs: seq<Record>): Bytes {
    if rs == [] then [] else AllBytes(rs[..|rs| - 1]) + rs[|rs| - 1].bytes
  }

  /** Sent, being written and waiting: together, the sealed records in the order of sealing. */
  predicate InOrder(p: Pipe) {
    PipeOk(p) && p.sent + p.buffer + FlightRest(p) == AllBytes(p.sealed)
  }

  lemma {:induction false} AllBytesSnoc(rs: seq<Record>, r: Record)
    ensures AllBytes(rs + [r]) == AllBytes(rs) + r.bytes
  {
    assert (rs + [r])[..|rs|] == rs;
  }

  lemma {:induction false} Regroup(a: Bytes, b: Bytes, c: Bytes)
    ensures a + (b + c) == a + b + c
  {
  }

  /** Filled to its capacity, the write buffer would still end by the 16-bit limit. */
  predicate Steady(p: Pipe) {
    |p.buffer| <= p.cap && |p.slack| + p.cap <= U16
  }

  lemma {:induction false} FlushOnce(p: Pipe)
    requires p.buffer != []
    ensures var (q, n) := BioWrite(p, p.buffer);
            FlushBuffer(p) == if n <= 0 then (q, n) else FlushBuffer(Consume(q, n))
  {
    hide BioWrite, Consume;
  }

  lemma {:induction false} FlushNothing(p: Pipe)
    requires p.buffer == []
    ensures FlushBuffer(p) == (p.(slack := [], cap := 0), 1)
  {
  }

  lemma {:induction false} FlushBufferShape(p: Pipe)
    ensures var (q, ret) := FlushBuffer(p);
            && q == p.(slack := q.slack, buffer := q.buffer, cap := q.cap, answers := q.answers, sent := q.sent)
            && p.sent <= q.sent && (ret > 0 ==> q.buffer == [] && ret == 1)
    decreases |p.buffer|
  {
    hide OffsetAfter;
    if p.buffer != [] {
      BioWriteTakes(p, p.buffer);
      var (q, n) := BioWrite(p, p.buffer);
      if n > 0 {
        FlushBufferShape(Consume(q, n));
      }
    }
  }

  /** From a steady buffer exactly the first bytes are dropped. */
  lemma {:induction false} ConsumeSteady(p: Pipe, n: nat)
    requires Steady(p) && n <= |p.buffer|
    ensures Steady(Consume(p, n)) && Consume(p, n).buffer == p.buffer[n..]
  {
    var memory := p.slack + p.buffer;
    if |p.slack| + n < U16 {
      assert memory[|p.slack| + n..] == p.buffer[n..];
    } else {
      assert n == |p.buffer|;
    }
  }

  lemma {:induction false} FlushBufferInOrder(p: Pipe)
    requires InOrder(p) && Steady(p)
    ensures InOrder(FlushBuffer(p).0) && Steady(FlushBuffer(p).0)
    decreases |p.buffer|
  {
    hide AllBytes, Consume, Steady;
    if p.buffer == [] {
      EmptyIsSteady(p);
      SameQueueInOrder(p, p.(slack := [], cap := 0));
    } else {
      var (q, n) := BioWrite(p, p.buffer);
      SteadyIgnores(p, q);
      if n > 0 {
        ConsumeSteady(q, n);
        ConsumeRest(q, n);
        assert p.sent + p.buffer == p.sent + p.buffer[..n] + p.buffer[n..];
        FlushBufferInOrder(Consume(q, n));
      }
    }
  }

  lemma {:induction false} EmptyIsSteady(p: Pipe)
    requires p.buffer == []
    ensures Steady(p.(slack := [], cap := 0))
  {
  }

  lemma {:induction false} SteadyIgnores(p: Pipe, q: Pipe)
    requires q.slack == p.slack && q.buffer == p.buffer && q.cap == p.cap
    ensures Steady(q) == Steady(p)
  {
  }

  lemma {:induction false} ConsumeRest(p: Pipe, n: nat)
    requires n <= |p.buffer|
    ensures var q := Consume(p, n); q == p.(slack := q.slack, buffer := q.buffer, cap := q.cap)
    ensures FlightRest(Consume(p, n)) == FlightRest(p)
  {
  }

  lemma {:induction false} WriteFlightInOrder(p: Pipe)
    requires InOrder(p) && p.flight.Some? && p.buffer == []
    ensures var (q, ret) := WriteFlight(p);
            && InOrder(q) && (ret > 0 ==> FlightRest(q) == [])
            && q == p.(offset := q.offset, answers := q.answers, sent := q.sent)
            && p.sent <= q.sent
    decreases |FlightRest(p)|
  {
    hide AllBytes, BioWrite;
    if p.offset < |p.flight.value| {
      var rest := FlightRest(p);
      var (q, n) := BioWrite(p, rest);
      BioWriteTakes(p, rest);
      if n > 0 {
        var next := q.(offset := p.offset + n);
        FlightMoves(p, q, n);
        hide FlightRest, InOrder;
        WriteFlightInOrder(next);
      }
    }
  }

  lemma {:induction false} BioWriteTakes(p: Pipe, data: Bytes)
    ensures var (q, n) := BioWrite(p, data);
            q == p.(answers := q.answers, sent := if n > 0 then p.sent + data[..n] else p.sent)
  {
  }

  lemma {:induction false} FlightMoves(p: Pipe, q: Pipe, n: nat)
    requires InOrder(p) && p.flight.Some? && p.buffer == [] && n <= |FlightRest(p)|
    requires q == p.(answers := q.answers, sent := p.sent + FlightRest(p)[..n])
    ensures InOrder(q.(offset := p.offset + n)) && FlightRest(q.(offset := p.offset + n)) == FlightRest(p)[n..]
  {
    hide AllBytes;
    var rest := FlightRest(p);
    assert p.flight.value[p.offset + n..] == rest[n..];
    MoveAcross(p.sent, rest, n);
  }

  lemma {:induction false} MoveAcross(sent: Bytes, rest: Bytes, n: nat)
    requires n <= |rest|
    ensures sent + rest[..n] + [] + rest[n..] == sent + [] + rest
  {
  }

  lemma {:induction false} WriteFlightShape(p: Pipe)
    requires p.flight.Some?
    ensures var q := WriteFlight(p).0;
            q == p.(offset := q.offset, answers := q.answers, sent := q.sent) && p.sent <= q.sent
    decreases |FlightRest(p)|
  {
    hide BioWrite;
    if p.offset < |p.flight.value| {
      BioWriteTakes(p, FlightRest(p));
      var (q, n) := BioWrite(p, FlightRest(p));
      if n > 0 {
        WriteFlightShape(q.(offset := p.offset + n));
      }
    }
  }

  lemma {:induction false} FlushFlightShape(p: Pipe)
    ensures var q := FlushFlight(p).0;
            && q == p.(slack := q.slack, buffer := q.buffer, cap := q.cap, flight := q.flight, offset := q.offset,
                       answers := q.answers, sent := q.sent)
            && p.sent <= q.sent
  {
    hide FlushBuffer, WriteFlight;
    FlushBufferShape(p);
    if p.flight.Some? && !p.shutdown && |p.flight.value| <= INT_MAX {
      var (q, ret) := FlushIfAny(p);
      if ret > 0 {
        WriteFlightShape(q);
      }
    }
  }

  lemma {:induction false} FlushFlightInOrder(p: Pipe)
    requires InOrder(p) && Steady(p)
    ensures InOrder(FlushFlight(p).0) && Steady(FlushFlight(p).0)
    ensures FlushFlight(p).1 > 0 && p.flight.Some? ==> FlushFlight(p).0.sent == AllBytes(p.sealed)
  {
    hide AllBytes, FlushBuffer, WriteFlight, Steady;
    if p.flight.Some? && !p.shutdown && |p.flight.value| <= INT_MAX {
      FlushBufferShape(p);
      FlushBufferInOrder(p);
      var (q, ret) := FlushIfAny(p);
      if ret > 0 {
        WriteFlightInOrder(q);
        SteadyIgnores(q, WriteFlight(q).0);
        SteadyIgnores(q, FlushFlight(p).0);
      }
    }
  }

  lemma {:induction false} SameQueueInOrder(p: Pipe, q: Pipe)
    requires InOrder(p) && q.sent == p.sent && q.sealed == p.sealed
    requires q.buffer == p.buffer && FlightBytes(q) == FlightBytes(p) && q.offset == p.offset
    ensures InOrder(q)
  {
    hide AllBytes;
  }

  lemma {:induction false} AddRecordShape(p: Pipe, cfg: Config, kind: nat, body: Bytes)
    ensures var (q, ok) := AddRecord(p, cfg, kind, body);
            && q == p.(flight := q.flight, seals := q.seals, sealed := q.sealed)
            && (if ok then |q.sealed| == |p.sealed| + 1 && q.sealed[..|p.sealed|] == p.sealed
                  && q.sealed[|p.sealed|].kind == kind && q.sealed[|p.sealed|].body == body
                else q.sealed == p.sealed)
  {
  }

  lemma {:induction false} AddRecordInOrder(p: Pipe, cfg: Config, kind: nat, body: Bytes)
    requires InOrder(p)
    ensures InOrder(AddRecord(p, cfg, kind, body).0)
  {
    hide AllBytes, InOrder, FlightRest;
    var q := if p.flight.None? then p.(flight := Some([])) else p;
    var (r, out) := Seal(q, cfg, kind, body);
    if out.Some? {
      AppendInOrder(p, r, Record(kind, body, out.value), q.flight.value);
    } else {
      SameQueueInOrder(p, r);
    }
  }

  lemma {:induction false} AppendInOrder(p: Pipe, r: Pipe, record: Record, flight: Bytes)
    requires InOrder(p) && flight == FlightBytes(p)
    requires r.sent == p.sent && r.buffer == p.buffer && r.offset == p.offset && r.sealed == p.sealed + [record]
    ensures InOrder(r.(flight := Some(flight + record.bytes)))
  {
    hide AllBytes;
    AllBytesSnoc(p.sealed, record);
    var s := r.(flight := Some(flight + record.bytes));
    assert FlightRest(s) == FlightRest(p) + record.bytes;
    hide FlightRest;
    assert PipeOk(s);
    Regroup(p.sent + p.buffer, FlightRest(p), record.bytes);
  }

  /** The plaintext of the records of one type. */
  function Bodies(rs: seq<Record>, kind: nat): Bytes {
    if rs == [] then []
    else Bodies(rs[..|rs| - 1], kind) + (if rs[|rs| - 1].kind == kind then rs[|rs| - 1].body else [])
  }

  lemma {:induction false} BodiesSnoc(rs: seq<Record>, r: Record, kind: nat)
    ensures Bodies(rs + [r], kind) == Bodies(rs, kind) + (if r.kind == kind then r.body else [])
  {
    assert (rs + [r])[..|rs|] == rs;
  }

  /** A message is sealed whole and in order, however the fragment limit cuts it. */
  lemma {:induction false} AddMessageSealed(p: Pipe, cfg: Config, msg: Bytes)
    requires cfg.maxSendFragment > 0
    ensures var (q, ok) := AddMessage(p, cfg, msg);
            && q == p.(flight := q.flight, seals := q.seals, sealed := q.sealed)
            && p.sealed <= q.sealed
            && (ok ==> Bodies(q.sealed, HANDSHAKE) == Bodies(p.sealed, HANDSHAKE) + msg)
            && Bodies(q.sealed, APPLICATION_DATA) == Bodies(p.sealed, APPLICATION_DATA)
    decreases |msg|
  {
    hide AddRecord, Bodies;
    var n := if |msg| < cfg.maxSendFragment then |msg| else cfg.maxSendFragment;
    AddRecordShape(p, cfg, HANDSHAKE, msg[..n]);
    var (q, ok) := AddRecord(p, cfg, HANDSHAKE, msg[..n]);
    if ok {
      var r := q.sealed[|p.sealed|];
      assert q.sealed == p.sealed + [r];
      BodiesSnoc(p.sealed, r, HANDSHAKE);
      BodiesSnoc(p.sealed, r, APPLICATION_DATA);
      assert msg == msg[..n] + msg[n..];
      assert Bodies(p.sealed, APPLICATION_DATA) + [] == Bodies(p.sealed, APPLICATION_DATA);
      if msg[n..] != [] {
        AddMessageSealed(q, cfg, msg[n..]);
        assert Bodies(p.sealed, HANDSHAKE) + msg[..n] + msg[n..] == Bodies(p.sealed, HANDSHAKE) + msg;
      }
    }
  }

  /** Handshake records, all but the last as long as the limit allows. */
  predicate CutAtLimit(rs: seq<Record>, limit: nat) {
    && rs != [] && (forall i :: 0 <= i < |rs| ==> rs[i].kind == 22 && |rs[i].body| <= limit)
    && (forall i :: 0 <= i < |rs| - 1 ==> |rs[i].body| == limit)
  }

  /** A message takes as few records as the fragment limit allows, and an empty one takes one. */
  lemma {:induction false} AddMessageCuts(p: Pipe, cfg: Config, msg: Bytes)
    requires cfg.maxSendFragment > 0
    ensures var (q, ok) := AddMessage(p, cfg, msg);
            ok ==>
              && p.sealed < q.sealed && CutAtLimit(q.sealed[|p.sealed|..], cfg.maxSendFragment)
              && (msg != [] ==> q.sealed[|q.sealed| - 1].body != [])
    decreases |msg|
  {
    hide AddRecord;
    var n := if |msg| < cfg.maxSendFragment then |msg| else cfg.maxSendFragment;
    AddRecordShape(p, cfg, HANDSHAKE, msg[..n]);
    var (q, ok) := AddRecord(p, cfg, HANDSHAKE, msg[..n]);
    if ok {
      var r := q.sealed[|p.sealed|];
      assert q.sealed[|p.sealed|..] == [r];
      if msg[n..] != [] {
        AddMessageCuts(q, cfg, msg[n..]);
        var (s, done) := AddMessage(q, cfg, msg[n..]);
        if done {
          var more := s.sealed[|q.sealed|..];
          assert s.sealed[|p.sealed|..] == [r] + more;
        }
      }
    }
  }

  lemma {:induction false} AddMessageInOrder(p: Pipe, cfg: Config, msg: Bytes)
    requires InOrder(p) && cfg.maxSendFragment > 0
    ensures InOrder(AddMessage(p, cfg, msg).0)
    decreases |msg|
  {
    hide AddRecord, InOrder;
    var n := if |msg| < cfg.maxSendFragment then |msg| else cfg.maxSendFragment;
    AddRecordInOrder(p, cfg, HANDSHAKE, msg[..n]);
    var (q, ok) := AddRecord(p, cfg, HANDSHAKE, msg[..n]);
    if ok && msg[n..] != [] {
      AddMessageInOrder(q, cfg, msg[n..]);
    }
  }
}
