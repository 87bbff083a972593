/** Any run of the TLS write path: what the transport has been given, and which application bytes
    have been sealed. */
module WriteRuns {
  import opened Wire
  import opened WriteQueue

  // ---- one call ----

  lemma {:induction false} WritePendingShape(p: Pipe, cfg: Config, kind: nat, addr: nat, len: nat)
    ensures var (q, ret) := WritePending(p, cfg, kind, addr, len);
            && q == p.(slack := q.slack, buffer := q.buffer, cap := q.cap, answers := q.answers, sent := q.sent,
                       wpendPending := q.wpendPending)
            && p.sent <= q.sent
            && (ret > 0 ==>
                  p.wpendTot <= len && p.wpendType == kind && ret == p.wpendTot && !q.wpendPending && q.buffer == [])
            && (ret <= 0 ==> q.wpendPending == p.wpendPending || (p.wpendTot == 0 && !q.wpendPending))
  {
    hide FlushBuffer;
    FlushBufferShape(p);
  }

  lemma {:induction false} WritePendingInOrder(p: Pipe, cfg: Config, kind: nat, addr: nat, len: nat)
    requires InOrder(p) && Steady(p)
    ensures InOrder(WritePending(p, cfg, kind, addr, len).0) && Steady(WritePending(p, cfg, kind, addr, len).0)
  {
    hide FlushBuffer, AllBytes, Steady;
    FlushBufferInOrder(p);
    var q := FlushBuffer(p).0;
    SteadyIgnores(q, q.(wpendPending := false));
    SameQueueInOrder(q, q.(wpendPending := false));
  }

  /** What one record write does to the queues. */
  ghost predicate Wrote(p: Pipe, q: Pipe, ret: int, kind: nat, body: Bytes) {
    && p.sent <= q.sent
    && q.wnum == p.wnum && q.shutdown == p.shutdown && q.alert == p.alert
    && (ret > 0 ==> !q.wpendPending && q.buffer == [])
    && if p.wpendPending then
         && q.sealed == p.sealed && q.wpendTot == p.wpendTot && q.wpendType == p.wpendType
         && (ret > 0 ==> p.wpendTot <= |body| && p.wpendType == kind && ret == p.wpendTot)
         && (ret <= 0 ==> q.wpendPending || p.wpendTot == 0)
       else if |q.sealed| == |p.sealed| then
         q.sealed == p.sealed && !q.wpendPending && ret <= 0
       else
         && body != [] && |q.sealed| == |p.sealed| + 1 && q.sealed[..|p.sealed|] == p.sealed
         && q.sealed[|p.sealed|].kind == kind && q.sealed[|p.sealed|].body == body
         && q.wpendTot == |body| && q.wpendType == kind && q.wpendPending == (ret <= 0)
         && (ret > 0 ==> ret == |body|)
  }

  lemma {:induction false} DoWriteShape(p: Pipe, cfg: Config, kind: nat, addr: nat, body: Bytes)
    ensures Wrote(p, DoWrite(p, cfg, kind, addr, body).0, DoWrite(p, cfg, kind, addr, body).1, kind, body)
  {
    hide WritePending, Seal, FlightRest, EnsureCap;
    if p.wpendPending {
      WritePendingShape(p, cfg, kind, addr, |body|);
    } else if |body| <= MAX_PLAIN_LENGTH && p.buffer == [] && body != [] {
      var (o, ok) := EnsureCap(p, |FlightRest(p)| + cfg.alignPrefix, Asked(p, cfg, body));
      if ok {
        var q := TakeOver(o);
        SealShape(q, cfg, kind, body);
        var (r, out) := Seal(q, cfg, kind, body);
        if out.Some? {
          WritePendingShape(AfterSeal(r, kind, addr, body, out.value), cfg, kind, addr, |body|);
        }
      }
    }
  }

  lemma {:induction false} SealShape(p: Pipe, cfg: Config, kind: nat, body: Bytes)
    ensures var (r, out) := Seal(p, cfg, kind, body);
            match out
            case None => r == p.(seals := r.seals)
            case Some(bytes) =>
              r == p.(seals := r.seals, sealed := p.sealed + [Record(kind, body, bytes)])
              && |bytes| <= |body| + cfg.sealOverhead
  {
  }

  // ---- which capacities are safe ----

  /** The buffer is refused, or ends by the 16-bit limit wherever malloc puts it. */
  predicate SafeCapacity(cap: nat) {
    cap > MAX_BUFFER || cap + SSL3_ALIGN_PAYLOAD - 1 <= U16
  }

  /** The record write asks for a buffer. */
  predicate Asks(p: Pipe, body: Bytes) {
    !p.wpendPending && 0 < |body| <= MAX_PLAIN_LENGTH && p.buffer == []
  }

  /** If it does, the capacity is safe. */
  predicate SafeWrite(p: Pipe, cfg: Config, body: Bytes) {
    Asks(p, body) ==> SafeCapacity(Asked(p, cfg, body))
  }

  lemma {:induction false} EnsureCapSteady(p: Pipe, headerLen: nat, newCap: nat)
    requires Steady(p) && p.buffer == [] && SafeCapacity(newCap)
    ensures Steady(EnsureCap(p, headerLen, newCap).0)
  {
    hide Memory, AlignedOffset;
  }

  lemma {:induction false} TakeOverInOrder(p: Pipe)
    requires InOrder(p) && p.buffer == []
    ensures InOrder(TakeOver(p)) && TakeOver(p).flight.None? && TakeOver(p).buffer == FlightRest(p)
  {
    hide AllBytes;
    var q := TakeOver(p);
    assert FlightRest(q) == [];
    assert p.sent + [] + FlightRest(p) == p.sent + FlightRest(p) + [];
  }

  lemma {:induction false} SealIntoBuffer(p: Pipe, r: Pipe, record: Record, addr: nat)
    requires InOrder(p) && p.flight.None? && r == p.(seals := r.seals, sealed := p.sealed + [record])
    ensures InOrder(AfterSeal(r, record.kind, addr, record.body, record.bytes))
  {
    hide AllBytes;
    var q := AfterSeal(r, record.kind, addr, record.body, record.bytes);
    assert FlightRest(p) == [] && FlightRest(q) == [];
    hide FlightRest;
    AllBytesSnoc(p.sealed, record);
    JoinedBehind(p.sent, p.buffer, record.bytes);
  }

  lemma {:induction false} JoinedBehind(a: Bytes, b: Bytes, c: Bytes)
    ensures a + (b + c) + [] == a + b + [] + c
  {
    assert a + b + [] == a + b && a + (b + c) + [] == a + (b + c);
    Regroup(a, b, c);
  }

  /** A record write that asks for a safe capacity keeps the order. */
  lemma {:induction false} DoWriteInOrder(p: Pipe, cfg: Config, kind: nat, addr: nat, body: Bytes)
    requires InOrder(p) && Steady(p) && SafeWrite(p, cfg, body)
    ensures InOrder(DoWrite(p, cfg, kind, addr, body).0) && Steady(DoWrite(p, cfg, kind, addr, body).0)
  {
    hide AllBytes, WritePending, Seal, InOrder, FlightRest, EnsureCap, SafeCapacity;
    if p.wpendPending {
      WritePendingInOrder(p, cfg, kind, addr, |body|);
    } else if |body| <= MAX_PLAIN_LENGTH && p.buffer == [] && body != [] {
      var (o, ok) := EnsureCap(p, |FlightRest(p)| + cfg.alignPrefix, Asked(p, cfg, body));
      EnsureCapSteady(p, |FlightRest(p)| + cfg.alignPrefix, Asked(p, cfg, body));
      SameQueueInOrder(p, o);
      RestIgnores(p, o);
      if ok {
        TakeOverInOrder(o);
        SealsInOrder(TakeOver(o), cfg, kind, addr, body);
      }
    }
  }

  lemma {:induction false} RestIgnores(p: Pipe, q: Pipe)
    requires q.flight == p.flight && q.offset == p.offset
    ensures FlightRest(q) == FlightRest(p)
  {
  }

  /** The second half of a record write. */
  lemma {:induction false} SealsInOrder(q: Pipe, cfg: Config, kind: nat, addr: nat, body: Bytes)
    requires InOrder(q) && q.flight.None? && |q.slack| + q.cap <= U16 && |q.buffer| + |body| + cfg.sealOverhead <= q.cap
    ensures var (r, out) := Seal(q, cfg, kind, body);
            match out
            case None => InOrder(r) && Steady(r)
            case Some(bytes) =>
              var t := WritePending(AfterSeal(r, kind, addr, body, bytes), cfg, kind, addr, |body|).0;
              InOrder(t) && Steady(t)
  {
    hide AllBytes, WritePending, Seal, InOrder;
    SealShape(q, cfg, kind, body);
    var (r, out) := Seal(q, cfg, kind, body);
    if out.Some? {
      SealIntoBuffer(q, r, Record(kind, body, out.value), addr);
      WritePendingInOrder(AfterSeal(r, kind, addr, body, out.value), cfg, kind, addr, |body|);
    } else {
      SameQueueInOrder(q, r);
    }
  }

  /** When malloc and sealing work and the transport takes everything at once, one record write
      puts the waiting flight and the new record, in this order, on the wire and reports success. */
  lemma {:induction false} WriteCompletes(p: Pipe, cfg: Config, kind: nat, addr: nat, body: Bytes, out: Bytes)
    requires PipeOk(p) && Asks(p, body) && Asked(p, cfg, body) <= MAX_BUFFER
    requires Asked(p, cfg, body) <= p.cap || (p.mallocs != [] && p.mallocs[0].Some?)
    requires p.seals != [] && p.seals[0] == Some(out) && 0 < |out| <= |body| + cfg.sealOverhead
    requires p.answers != [] && p.answers[0] >= |FlightRest(p)| + |out|
    ensures var (q, ret) := DoWrite(p, cfg, kind, addr, body);
            && ret == |body| && !q.wpendPending && q.buffer == [] && FlightRest(q) == []
            && q.sent == p.sent + FlightRest(p) + out
            && q.sealed == p.sealed + [Record(kind, body, out)]
            && q.seals == p.seals[1..] && q.answers == p.answers[1..]
            && q.mallocs == (if Asked(p, cfg, body) <= p.cap then p.mallocs else p.mallocs[1..])
            && q.cap == 0 && q.flight.None? && q.offset == (if p.flight.Some? then 0 else p.offset)
            && q.wnum == p.wnum && q.shutdown == p.shutdown
  {
    hide FlushBuffer, Seal, EnsureCap, FlightRest;
    HasRoom(p, |FlightRest(p)| + cfg.alignPrefix, Asked(p, cfg, body));
    var o := EnsureCap(p, |FlightRest(p)| + cfg.alignPrefix, Asked(p, cfg, body)).0;
    RestIgnores(p, o);
    TakesOver(o);
    var q := TakeOver(o);
    SealsNow(q, cfg, kind, body, out);
    var r := Seal(q, cfg, kind, body).0;
    FlushAtOnce(AfterSeal(r, kind, addr, body, out));
    assert p.sent + (FlightRest(p) + out) == p.sent + FlightRest(p) + out;
  }

  lemma {:induction false} HasRoom(p: Pipe, headerLen: nat, newCap: nat)
    requires newCap <= MAX_BUFFER && (newCap <= p.cap || (p.mallocs != [] && p.mallocs[0].Some?))
    ensures var (q, ok) := EnsureCap(p, headerLen, newCap);
            ok && q.mallocs == if newCap <= p.cap then p.mallocs else p.mallocs[1..]
  {
  }

  lemma {:induction false} TakesOver(p: Pipe)
    requires PipeOk(p) && p.buffer == []
    ensures var q := TakeOver(p);
            && q == p.(buffer := FlightRest(p), flight := None, offset := q.offset)
            && q.offset == (if p.flight.Some? then 0 else p.offset)
    ensures forall r: Pipe :: r.flight.None? ==> FlightRest(r) == []
  {
  }

  lemma {:induction false} SealsNow(p: Pipe, cfg: Config, kind: nat, body: Bytes, out: Bytes)
    requires p.seals != [] && p.seals[0] == Some(out) && |out| <= |body| + cfg.sealOverhead
    ensures Seal(p, cfg, kind, body)
            == (p.(seals := p.seals[1..], sealed := p.sealed + [Record(kind, body, out)]), Some(out))
  {
  }

  lemma {:induction false} FlushAtOnce(s: Pipe)
    requires s.buffer != [] && s.answers != [] && s.answers[0] >= |s.buffer|
    ensures FlushBuffer(s)
            == (s.(answers := s.answers[1..], sent := s.sent + s.buffer, buffer := [], slack := [], cap := 0), 1)
  {
    assert s.buffer[..|s.buffer|] == s.buffer;
    var q := Consume(BioWrite(s, s.buffer).0, |s.buffer|);
    assert q.buffer == [];
    assert FlushBuffer(q) == (q.(slack := [], cap := 0), 1);
  }

  // ---- a capacity that is not safe ----

  /** The write buffer, seven bytes into its memory, holds more than fits before the 16-bit limit.
      A partial write that leaves off at or behind that limit is followed by bytes from the front of
      the memory. */
  lemma {:induction false} WrappedFlush(s: Pipe, k: nat)
    requires |s.slack| == 7 && U16 - 7 <= k < |s.buffer| <= MAX_BUFFER && s.answers == [k, |s.buffer| - k]
    ensures var (q, ret) := FlushBuffer(s);
            && ret == 1 && q.buffer == [] && q.sealed == s.sealed
            && q.sent == s.sent + s.buffer[..k] + s.slack[k - (U16 - 7)..|s.buffer| - (U16 - 7)]
  {
    var q := BioWrite(s, s.buffer).0;
    var t := Consume(q, k);
    ConsumeWraps(q, k);
    assert t.answers == [|s.buffer| - k];
    FlushAtOnce(t);
    hide FlushBuffer;
    FlushOnce(s);
  }

  lemma {:induction false} ConsumeWraps(p: Pipe, k: nat)
    requires |p.slack| == 7 && U16 - 7 <= k <= |p.buffer| <= MAX_BUFFER
    ensures var q := Consume(p, k);
            && q.buffer == p.slack[k - (U16 - 7)..|p.buffer| - (U16 - 7)]
            && q == p.(slack := q.slack, buffer := q.buffer, cap := q.cap)
  {
    var at, n := OffsetAfter(7, k), |p.buffer| - k;
    assert at == k - (U16 - 7);
    assert (p.slack + p.buffer)[at..at + n] == p.slack[at..at + n];
  }

  /** Such a record write: everything is reported as written, but the last bytes sent are memory in
      front of the buffer. */
  lemma {:induction false} UnsafeWrite(p: Pipe, cfg: Config, kind: nat, addr: nat, body: Bytes, place: Placement,
      out: Bytes, k: nat)
    requires PipeOk(p) && Asks(p, body) && p.cap < Asked(p, cfg, body) <= MAX_BUFFER
    requires p.mallocs != [] && p.mallocs[0] == Some(place) && p.seals != [] && p.seals[0] == Some(out)
    requires AlignedOffset(|FlightRest(p)| + cfg.alignPrefix, place.address) == 7
    requires |out| <= |body| + cfg.sealOverhead && U16 - 7 <= k < |FlightRest(p)| + |out|
    requires p.answers == [k, |FlightRest(p)| + |out| - k]
    ensures var (q, ret) := DoWrite(p, cfg, kind, addr, body);
            var due := FlightRest(p) + out;
            && ret == |body| && q.buffer == [] && q.sealed == p.sealed + [Record(kind, body, out)]
            && q.sent == p.sent + due[..k] + Memory(place, 7)[k - (U16 - 7)..|due| - (U16 - 7)]
  {
    hide FlushBuffer, Seal, FlightRest, Memory, AlignedOffset;
    var (o, ok) := EnsureCap(p, |FlightRest(p)| + cfg.alignPrefix, Asked(p, cfg, body));
    assert ok && o.slack == Memory(place, 7);
    hide EnsureCap;
    RestIgnores(p, o);
    TakesOver(o);
    var q := TakeOver(o);
    SealsNow(q, cfg, kind, body, out);
    var r := Seal(q, cfg, kind, body).0;
    WrappedFlush(AfterSeal(r, kind, addr, body, out), k);
  }

  // ---- a long message and an alert behind it ----

  function Concat(outs: seq<Bytes>): Bytes {
    if outs == [] then [] else outs[0] + Concat(outs[1..])
  }

  /** The fragment limit cuts `msg` into as many pieces as there are records in `outs`. */
  predicate Cuts(cfg: Config, msg: Bytes, outs: seq<Bytes>)
    requires cfg.maxSendFragment > 0
    decreases |outs|
  {
    outs != []
    && if |msg| <= cfg.maxSendFragment then |outs| == 1 && |outs[0]| <= |msg| + cfg.sealOverhead
       else |outs[0]| <= cfg.maxSendFragment + cfg.sealOverhead && Cuts(cfg, msg[cfg.maxSendFragment..], outs[1..])
  }

  lemma {:induction false} RecordJoins(p: Pipe, cfg: Config, kind: nat, body: Bytes, out: Bytes)
    requires p.seals != [] && p.seals[0] == Some(out) && |out| <= |body| + cfg.sealOverhead
    ensures AddRecord(p, cfg, kind, body)
            == (p.(flight := Some(FlightBytes(p) + out), seals := p.seals[1..],
                   sealed := p.sealed + [Record(kind, body, out)]), true)
  {
  }

  lemma {:induction false} MessageUnfold(p: Pipe, cfg: Config, msg: Bytes)
    requires cfg.maxSendFragment > 0
    ensures var n := if |msg| < cfg.maxSendFragment then |msg| else cfg.maxSendFragment;
            var (q, ok) := AddRecord(p, cfg, HANDSHAKE, msg[..n]);
            AddMessage(p, cfg, msg)
            == if !ok then (q, false) else if msg[n..] == [] then (q, true) else AddMessage(q, cfg, msg[n..])
  {
    hide AddRecord;
  }

  /** The message joins the flight as these records. */
  lemma {:induction false} MessageJoins(p: Pipe, cfg: Config, msg: Bytes, outs: seq<Bytes>)
    requires cfg.maxSendFragment > 0 && Cuts(cfg, msg, outs)
    requires |p.seals| >= |outs| && forall i :: 0 <= i < |outs| ==> p.seals[i] == Some(outs[i])
    ensures var (q, ok) := AddMessage(p, cfg, msg);
            && ok && q.flight == Some(FlightBytes(p) + Concat(outs)) && q.seals == p.seals[|outs|..]
            && AllBytes(q.sealed) == AllBytes(p.sealed) + Concat(outs)
            && q == p.(flight := q.flight, seals := q.seals, sealed := q.sealed)
    decreases |outs|
  {
    hide AddRecord, AddMessage, AllBytes;
    var n := if |msg| < cfg.maxSendFragment then |msg| else cfg.maxSendFragment;
    var record := Record(HANDSHAKE, msg[..n], outs[0]);
    MessageUnfold(p, cfg, msg);
    RecordJoins(p, cfg, HANDSHAKE, msg[..n], outs[0]);
    AllBytesSnoc(p.sealed, record);
    var q := AddRecord(p, cfg, HANDSHAKE, msg[..n]).0;
    if |msg| <= cfg.maxSendFragment {
      assert msg[n..] == [];
      assert Concat(outs[1..]) == [] && outs[0] + [] == outs[0];
    } else {
      MessageJoins(q, cfg, msg[n..], outs[1..]);
      assert FlightBytes(p) + outs[0] + Concat(outs[1..]) == FlightBytes(p) + Concat(outs);
      assert AllBytes(p.sealed) + outs[0] + Concat(outs[1..]) == AllBytes(p.sealed) + Concat(outs);
    }
  }


  /** What malloc, sealing and the transport may do to one record write. */
  ghost predicate KeepsOrder(p: Pipe, cfg: Config, kind: nat, addr: nat, body: Bytes, mallocs: seq<Option<Placement>>,
      seals: seq<Option<Bytes>>, answers: seq<int>)
  {
    var q := DoWrite(p.(mallocs := mallocs, seals := seals, answers := answers), cfg, kind, addr, body).0;
    q.sent <= AllBytes(q.sealed)
  }

  /** A record write that needs a new buffer keeps the order for every placement and content of the
      memory, every sealed record and every transport, exactly when the capacity it asks for is
      above 0xffff or at most 0xfff9. */
  lemma {:induction false} WriteKeepsOrderIff(p: Pipe, cfg: Config, kind: nat, addr: nat, body: Bytes)
    requires InOrder(p) && Steady(p) && Asks(p, body) && p.cap < Asked(p, cfg, body)
    ensures (forall mallocs, seals, answers :: KeepsOrder(p, cfg, kind, addr, body, mallocs, seals, answers))
            <==> SafeCapacity(Asked(p, cfg, body))
  {
    hide AllBytes, DoWrite;
    if SafeCapacity(Asked(p, cfg, body)) {
      forall mallocs, seals, answers
        ensures KeepsOrder(p, cfg, kind, addr, body, mallocs, seals, answers)
      {
        OrderKept(p, cfg, kind, addr, body, mallocs, seals, answers);
      }
    } else {
      var mallocs, seals, answers := OrderBroken(p, cfg, kind, addr, body);
    }
  }

  lemma {:induction false} OrderKept(p: Pipe, cfg: Config, kind: nat, addr: nat, body: Bytes,
      mallocs: seq<Option<Placement>>,
      seals: seq<Option<Bytes>>, answers: seq<int>)
    requires InOrder(p) && Steady(p) && SafeWrite(p, cfg, body)
    ensures KeepsOrder(p, cfg, kind, addr, body, mallocs, seals, answers)
  {
    hide AllBytes, DoWrite, FlightRest, Steady;
    var q := p.(mallocs := mallocs, seals := seals, answers := answers);
    SameQueueInOrder(p, q);
    SteadyIgnores(p, q);
    RestIgnores(p, q);
    DoWriteInOrder(q, cfg, kind, addr, body);
    var r := DoWrite(q, cfg, kind, addr, body).0;
    assert r.sent + r.buffer + FlightRest(r) == r.sent + (r.buffer + FlightRest(r));
  }

  /** The answers under which an unsafe capacity sends other bytes than were sealed. */
  lemma {:induction false} OrderBroken(p: Pipe, cfg: Config, kind: nat, addr: nat, body: Bytes)
      returns (mallocs: seq<Option<Placement>>, seals: seq<Option<Bytes>>, answers: seq<int>)
    requires InOrder(p) && Asks(p, body) && p.cap < Asked(p, cfg, body) && !SafeCapacity(Asked(p, cfg, body))
    ensures !KeepsOrder(p, cfg, kind, addr, body, mallocs, seals, answers)
  {
    hide AllBytes, DoWrite, FlightRest, Memory;
    var k := U16 - 7;
    var rest := FlightRest(p);
    var out: Bytes := seq(|body| + cfg.sealOverhead, _ => 0);
    var due := rest + out;
    var address := 1 + 7 * (|rest| + cfg.alignPrefix);
    AlignsAtSeven(|rest| + cfg.alignPrefix);
    var place := Placement(address, [if due[k] == 0 then 1 else 0]);
    mallocs, seals, answers := [Some(place)], [Some(out)], [k, |due| - k];
    var q := p.(mallocs := mallocs, seals := seals, answers := answers);
    RestIgnores(p, q);
    UnsafeWrite(q, cfg, kind, addr, body, place, out, k);
    var r := DoWrite(q, cfg, kind, addr, body).0;
    AllBytesSnoc(p.sealed, Record(kind, body, out));
    FirstByteOf(place);
    var junk := Memory(place, 7)[0..|due| - k];
    OtherByte(p.sent, due, k, junk, AllBytes(r.sealed), p.buffer);
  }

  lemma {:induction false} AlignsAtSeven(headerLen: nat)
    ensures AlignedOffset(headerLen, 1 + 7 * headerLen) == 7
  {
  }

  lemma {:induction false} FirstByteOf(place: Placement)
    requires place.memory != []
    ensures Memory(place, 7)[0] == place.memory[0]
  {
  }

  lemma {:induction false} OtherByte(sent: Bytes, due: Bytes, k: nat, junk: Bytes, all: Bytes, none: Bytes)
    requires k < |due| && |junk| == |due| - k && junk[0] != due[k] && none == []
    requires all == sent + none + due
    ensures !(sent + due[..k] + junk <= all)
  {
    assert (sent + due[..k] + junk)[|sent| + k] == junk[0];
    assert all[|sent| + k] == due[k];
  }

  // ---- which application bytes have been sealed ----

  function PendingApp(p: Pipe): nat {
    if p.wpendPending && p.wpendType == APPLICATION_DATA then p.wpendTot else 0
  }

  /** The sealed application data are the first `n` bytes of the stream and the pending record. */
  predicate SealedUpTo(p: Pipe, n: nat, stream: Bytes) {
    && n + PendingApp(p) <= |stream|
    && Bodies(p.sealed, APPLICATION_DATA) == stream[..n + PendingApp(p)]
    && (p.wpendPending ==> p.wpendTot > 0)
  }

  /** Acknowledged bytes, `wnum` and the pending record account for everything sealed. */
  predicate Accounted(p: Pipe, acked: nat, stream: Bytes) {
    SealedUpTo(p, acked + p.wnum, stream)
  }

  lemma {:induction false} DoWriteSealsInStream(p: Pipe, cfg: Config, kind: nat, addr: nat, body: Bytes, n: nat,
      stream: Bytes)
    requires SealedUpTo(p, n, stream)
    requires kind == APPLICATION_DATA ==> n + |body| <= |stream| && body == stream[n..n + |body|]
    ensures var (q, ret) := DoWrite(p, cfg, kind, addr, body);
            && (ret <= 0 || kind != APPLICATION_DATA ==> SealedUpTo(q, n, stream))
            && (ret > 0 && kind == APPLICATION_DATA ==> SealedUpTo(q, n + ret, stream))
  {
    hide DoWrite, Bodies;
    DoWriteShape(p, cfg, kind, addr, body);
    var (q, ret) := DoWrite(p, cfg, kind, addr, body);
    if |q.sealed| != |p.sealed| {
      var r := q.sealed[|p.sealed|];
      assert q.sealed == p.sealed + [r];
      BodiesSnoc(p.sealed, r, APPLICATION_DATA);
      if kind == APPLICATION_DATA {
        assert stream[..n] + body == stream[..n + |body|];
      } else {
        assert stream[..n] + [] == stream[..n];
      }
    }
  }

  lemma {:induction false} SliceOfSlice(s: Bytes, a: nat, b: nat, i: nat, j: nat)
    requires a <= b <= |s| && i <= j <= b - a
    ensures s[a..b][i..j] == s[a + i..a + j]
  {
    var t := s[a..b];
    assert forall k :: 0 <= k < j - i ==> t[i..j][k] == t[i + k] == s[a + i..a + j][k];
  }

  lemma {:induction false} AppLoopAccounted(p: Pipe, cfg: Config, addr: nat, data: Bytes, tot: nat, acked: nat,
      stream: Bytes)
    requires tot <= |data| && SealedUpTo(p, acked + tot, stream)
    requires acked + |data| <= |stream| && data == stream[acked..acked + |data|]
    ensures var (q, ret) := AppLoop(p, cfg, addr, data, tot);
            && p.sent <= q.sent && q.shutdown == p.shutdown && q.alert == p.alert
            && (ret <= 0 ==> SealedUpTo(q, acked + q.wnum, stream) && tot <= q.wnum)
            && (ret > 0 ==>
                  SealedUpTo(q, acked + ret, stream) && q.wnum == p.wnum && tot < ret <= |data| && q.buffer == [])
            && (ret > 0 && !cfg.partialWrite ==> ret == |data|)
    decreases |data| - tot
  {
    hide DoWrite, SealedUpTo, Wrote;
    var n := |data| - tot;
    var nw := if n > cfg.maxSendFragment then cfg.maxSendFragment else n;
    var (q, ret) := DoWrite(p, cfg, APPLICATION_DATA, addr + tot, data[tot..tot + nw]);
    OneAppRecord(p, cfg, addr, data, tot, nw, acked, stream);
    if ret <= 0 {
      SealedIgnoresWnum(q, acked + tot, stream, tot);
    } else if ret != n && !cfg.partialWrite {
      AppLoopAccounted(q, cfg, addr, data, tot + ret, acked, stream);
    }
  }

  /** One turn of the loop. */
  lemma {:induction false} OneAppRecord(p: Pipe, cfg: Config, addr: nat, data: Bytes, tot: nat, nw: nat, acked: nat,
      stream: Bytes)
    requires tot + nw <= |data| && SealedUpTo(p, acked + tot, stream)
    requires acked + |data| <= |stream| && data == stream[acked..acked + |data|]
    ensures var (q, ret) := DoWrite(p, cfg, APPLICATION_DATA, addr + tot, data[tot..tot + nw]);
            && p.sent <= q.sent && q.shutdown == p.shutdown && q.alert == p.alert && q.wnum == p.wnum
            && (ret <= 0 ==> SealedUpTo(q, acked + tot, stream))
            && (ret > 0 ==> SealedUpTo(q, acked + tot + ret, stream) && ret <= nw && q.buffer == [])
  {
    hide DoWrite, SealedUpTo;
    SliceOfSlice(stream, acked, acked + |data|, tot, tot + nw);
    DoWriteShape(p, cfg, APPLICATION_DATA, addr + tot, data[tot..tot + nw]);
    DoWriteSealsInStream(p, cfg, APPLICATION_DATA, addr + tot, data[tot..tot + nw], acked + tot, stream);
  }

  lemma {:induction false} SealedIgnoresWnum(p: Pipe, n: nat, stream: Bytes, w: nat)
    ensures SealedUpTo(p.(wnum := w), n, stream) == SealedUpTo(p, n, stream)
    ensures InOrder(p.(wnum := w)) == InOrder(p) && Steady(p.(wnum := w)) == Steady(p)
  {
    hide AllBytes, Bodies;
    RestIgnores(p, p.(wnum := w));
  }

  /** An application write keeps the account exactly when it is not shorter than what earlier
      calls have already written of it: a shorter retry makes the writer forget `wnum`. */
  lemma {:induction false} WriteKeepsAccount(p: Pipe, cfg: Config, addr: nat, data: Bytes, acked: nat, stream: Bytes)
    requires Accounted(p, acked, stream) && !p.shutdown
    requires acked + |data| <= |stream| && data == stream[acked..acked + |data|]
    ensures var (q, ret) := WriteApp(p, cfg, addr, data);
            && p.sent <= q.sent
            && (Accounted(q, if ret > 0 then acked + ret else acked, stream) <==> |data| >= p.wnum)
            && (ret > 0 ==> ret <= |data| && q.wnum == 0 && q.buffer == [])
            && (ret > 0 && !cfg.partialWrite ==> ret == |data|)
  {
    hide AppLoop, Bodies;
    SealedIgnoresWnum(p, acked + p.wnum, stream, 0);
    if |data| >= p.wnum {
      AppLoopAccounted(p.(wnum := 0), cfg, addr, data, p.wnum, acked, stream);
    } else {
      assert |stream[..acked + p.wnum + PendingApp(p)]| != |stream[..acked + PendingApp(p)]|;
    }
  }

  // ---- a retry that is too short ----

  /** Nothing is waiting or being written, and malloc, seals and the transport will do this. */
  predicate Expects(p: Pipe, places: seq<Placement>, outs: seq<Bytes>, answers: seq<int>) {
    && !p.wpendPending && p.buffer == [] && p.cap == 0 && p.flight.None? && p.offset == 0 && !p.shutdown
    && |p.mallocs| == |places| == |p.seals| == |outs| && p.answers == answers
    && (forall i :: 0 <= i < |places| ==> p.mallocs[i] == Some(places[i]))
    && (forall i :: 0 <= i < |outs| ==> p.seals[i] == Some(outs[i]))
  }

  /** A record that is written at once. */
  lemma {:induction false} RecordWritten(p: Pipe, cfg: Config, addr: nat, body: Bytes, places: seq<Placement>,
      outs: seq<Bytes>, answers: seq<int>)
    requires Expects(p, places, outs, answers) && outs != [] && answers != [] && answers[0] >= |outs[0]|
    requires 0 < |body| <= MAX_PLAIN_LENGTH && |body| + cfg.sealOverhead <= MAX_BUFFER
    requires 0 < |outs[0]| <= |body| + cfg.sealOverhead
    ensures var (q, ret) := DoWrite(p, cfg, APPLICATION_DATA, addr, body);
            && ret == |body| && Expects(q, places[1..], outs[1..], answers[1..])
            && q.sealed == p.sealed + [Record(APPLICATION_DATA, body, outs[0])] && q.wnum == p.wnum
  {
    hide DoWrite;
    WriteCompletes(p, cfg, APPLICATION_DATA, addr, body, outs[0]);
  }

  /** A record that is sealed, but of which nothing is written. */
  lemma {:induction false} RecordBlocked(p: Pipe, cfg: Config, addr: nat, body: Bytes, places: seq<Placement>,
      outs: seq<Bytes>, answers: seq<int>)
    requires Expects(p, places, outs, answers) && outs != [] && answers != [] && answers[0] < 0
    requires 0 < |body| <= MAX_PLAIN_LENGTH && |body| + cfg.sealOverhead <= MAX_BUFFER
    requires 0 < |outs[0]| <= |body| + cfg.sealOverhead
    ensures var (q, ret) := DoWrite(p, cfg, APPLICATION_DATA, addr, body);
            && ret < 0 && q.wpendPending && q.wpendTot == |body| && q.wpendType == APPLICATION_DATA
            && q.buffer == outs[0]
            && q.sealed == p.sealed + [Record(APPLICATION_DATA, body, outs[0])] && q.wnum == p.wnum
            && q.flight.None? && q.offset == 0 && !q.shutdown
            && q.answers == answers[1..] && q.seals == p.seals[1..] && q.mallocs == p.mallocs[1..]
  {
    assert FlightRest(p) == [];
    var o := EnsureCap(p, |FlightRest(p)| + cfg.alignPrefix, Asked(p, cfg, body)).0;
    assert TakeOver(o) == o && o.buffer == [] && o.mallocs == p.mallocs[1..];
    hide EnsureCap;
    var r := Seal(o, cfg, APPLICATION_DATA, body).0;
    assert r == o.(seals := o.seals[1..], sealed := o.sealed + [Record(APPLICATION_DATA, body, outs[0])]);
    hide Seal;
    var t := AfterSeal(r, APPLICATION_DATA, addr, body, outs[0]);
    assert t.buffer == outs[0];
    assert FlushBuffer(t) == (t.(answers := t.answers[1..]), t.answers[0]);
    hide FlushBuffer;
  }

  /** The pending record of one byte goes out, and is taken for the first byte of this call. */
  lemma {:induction false} PendingByteWritten(p: Pipe, cfg: Config, addr: nat, body: Bytes, places: seq<Placement>,
      outs: seq<Bytes>, answers: seq<int>)
    requires p.wpendPending && p.wpendTot == 1 && p.wpendType == APPLICATION_DATA && cfg.movingBuffer && body != []
    requires p.flight.None? && p.offset == 0 && !p.shutdown && p.buffer != []
    requires |p.mallocs| == |places| == |p.seals| == |outs|
    requires p.answers == answers && answers != [] && answers[0] >= |p.buffer|
    requires forall i :: 0 <= i < |places| ==> p.mallocs[i] == Some(places[i])
    requires forall i :: 0 <= i < |outs| ==> p.seals[i] == Some(outs[i])
    ensures var (q, ret) := DoWrite(p, cfg, APPLICATION_DATA, addr, body);
            ret == 1 && Expects(q, places, outs, answers[1..]) && q.sealed == p.sealed && q.wnum == p.wnum
  {
    FlushAtOnce(p);
    hide FlushBuffer;
  }

  /** What it takes to seal bytes twice, at any fragment limit `n`: a write of `n + 1` bytes whose
      second record is blocked, a retry with less than `n` bytes, and a retry with all. The second
      byte onwards is then sealed again, so the sealed bytes are no prefix of what the caller wrote. */
  lemma {:induction false} ShortRetrySealsTwice(p: Pipe, cfg: Config, addr: nat, data: Bytes, short: Bytes,
      places: seq<Placement>, outs: seq<Bytes>)
    requires 512 <= cfg.maxSendFragment <= MAX_PLAIN_LENGTH && cfg.maxSendFragment + cfg.sealOverhead <= MAX_BUFFER
    requires !cfg.partialWrite && cfg.movingBuffer
    requires |data| == cfg.maxSendFragment + 1 && |short| < cfg.maxSendFragment
    requires |places| == 3 && |outs| == 3 && 5 <= |outs[0]| <= cfg.maxSendFragment + cfg.sealOverhead
    requires 5 <= |outs[1]| <= 1 + cfg.sealOverhead && 5 <= |outs[2]| <= cfg.maxSendFragment + cfg.sealOverhead
    requires Expects(p, places, outs, [|outs[0]|, -1, |outs[1]|, |outs[2]|]) && p.wnum == 0 && p.sealed == []
    ensures var (first, ret1) := WriteApp(p, cfg, addr, data);
            var (second, ret2) := WriteApp(first, cfg, addr, short);
            var (third, ret3) := WriteApp(second, cfg, addr, data);
            var n := cfg.maxSendFragment;
            && ret1 < 0 && first.wnum == n && ret2 < 0 && ret3 == |data|
            && Bodies(third.sealed, APPLICATION_DATA) == data[..n] + data[n..] + data[1..]
            && !(Bodies(third.sealed, APPLICATION_DATA) <= data)
  {
    hide DoWrite, AppLoop, Bodies, Expects;
    var n, answers := cfg.maxSendFragment, [|outs[0]|, -1, |outs[1]|, |outs[2]|];
    assert data[0..n] == data[..n] && data[n..n + 1] == data[n..] && data[1..1 + n] == data[1..];
    AppLoopUnfold(p, cfg, addr, data, 0);
    assert p.(wnum := 0) == p && !p.shutdown by { ExpectsOpen(p, places, outs, answers); }
    RecordWritten(p, cfg, addr, data[..n], places, outs, answers);
    var p1 := DoWrite(p, cfg, APPLICATION_DATA, addr + 0, data[..n]).0;
    AppLoopUnfold(p1, cfg, addr, data, n);
    RecordBlocked(p1, cfg, addr + n, data[n..], places[1..], outs[1..], answers[1..]);
    var first := WriteApp(p, cfg, addr, data).0;
    assert first.wnum == n;
    var second := first.(wnum := 0);
    assert WriteApp(first, cfg, addr, short) == (second, -1);
    ExpectsOpen(p1, places[1..], outs[1..], answers[1..]);
    AppLoopUnfold(second, cfg, addr, data, 0);
    PendingByteWritten(second, cfg, addr + 0, data[..n], places[2..], outs[2..], answers[2..]);
    var p3 := DoWrite(second, cfg, APPLICATION_DATA, addr + 0, data[..n]).0;
    AppLoopUnfold(p3, cfg, addr, data, 1);
    RecordWritten(p3, cfg, addr + 1, data[1..], places[2..], outs[2..], answers[3..]);
    ThreeBodies(data[..n], data[n..], data[1..], outs);
  }

  lemma {:induction false} ExpectsOpen(p: Pipe, places: seq<Placement>, outs: seq<Bytes>, answers: seq<int>)
    requires Expects(p, places, outs, answers)
    ensures !p.shutdown && p.answers == answers && |p.mallocs| == |places| == |p.seals| == |outs|
    ensures forall i :: 0 <= i < |places| ==> p.mallocs[i] == Some(places[i])
    ensures forall i :: 0 <= i < |outs| ==> p.seals[i] == Some(outs[i])
  {
  }

  lemma {:induction false} ThreeBodies(a: Bytes, b: Bytes, c: Bytes, outs: seq<Bytes>)
    requires |outs| == 3
    ensures Bodies([] + [Record(APPLICATION_DATA, a, outs[0])] + [Record(APPLICATION_DATA, b, outs[1])]
                   + [Record(APPLICATION_DATA, c, outs[2])], APPLICATION_DATA) == a + b + c
  {
    var first, second, third := Record(APPLICATION_DATA, a, outs[0]), Record(APPLICATION_DATA, b, outs[1]),
        Record(APPLICATION_DATA, c, outs[2]);
    BodiesSnoc([], first, APPLICATION_DATA);
    BodiesSnoc([] + [first], second, APPLICATION_DATA);
    BodiesSnoc([] + [first] + [second], third, APPLICATION_DATA);
    assert [] + a + b + c == a + b + c;
  }

  // ---- runs ----

  datatype Event =
    | Message(cfg: Config, msg: Bytes)
    | FlightRecord(cfg: Config, kind: nat, body: Bytes)
    | Flush
    | Write(cfg: Config, addr: nat, data: Bytes)
    | Close(cfg: Config, level: byte, desc: byte)
    | RetryAlert(cfg: Config)

  /** The connection and how many bytes its user has been told were written. */
  datatype Session = Session(pipe: Pipe, acked: nat)

  predicate WFEvent(e: Event) {
    && (e.Message? ==> e.cfg.maxSendFragment > 0)
    && (e.FlightRecord? ==> e.kind == CHANGE_CIPHER_SPEC || e.kind == ALERT)
  }

  function Step(s: Session, e: Event): Session
    requires WFEvent(e)
  {
    match e
    case Message(cfg, msg) => s.(pipe := AddMessage(s.pipe, cfg, msg).0)
    case FlightRecord(cfg, kind, body) => s.(pipe := AddRecord(s.pipe, cfg, kind, body).0)
    case Flush => s.(pipe := FlushFlight(s.pipe).0)
    case Write(cfg, addr, data) =>
      var (q, ret) := WriteApp(s.pipe, cfg, addr, data);
      Session(q, if ret > 0 then s.acked + ret else s.acked)
    case Close(cfg, level, desc) => s.(pipe := SendAlert(s.pipe, cfg, level, desc).0)
    case RetryAlert(cfg) => if s.pipe.alert.Some? then s.(pipe := DispatchAlert(s.pipe, cfg).0) else s
  }

  function Run(s: Session, events: seq<Event>): Session
    requires forall e :: e in events ==> WFEvent(e)
    decreases |events|
  {
    if events == [] then s else Run(Step(s, events[0]), events[1..])
  }

  lemma {:induction false} RunOnce(s: Session, events: seq<Event>)
    requires events != [] && forall e :: e in events ==> WFEvent(e)
    ensures Run(s, events) == Run(Step(s, events[0]), events[1..])
  {
    hide Step;
  }

  lemma {:induction false} RunNothing(s: Session, events: seq<Event>)
    requires events == []
    ensures Run(s, events) == s
  {
  }

  /** The caller offers the bytes after the acknowledged ones, and on a retry not fewer than have
      been written already. */
  predicate Honest(s: Session, e: Event, stream: Bytes) {
    e.Write? ==>
      && s.acked + |e.data| <= |stream| && e.data == stream[s.acked..s.acked + |e.data|]
      && |e.data| >= s.pipe.wnum
  }

  predicate AllHonest(s: Session, events: seq<Event>, stream: Bytes)
    requires forall e :: e in events ==> WFEvent(e)
    decreases |events|
  {
    events != [] ==> Honest(s, events[0], stream) && AllHonest(Step(s, events[0]), events[1..], stream)
  }

  /** Every capacity the fragments cut from `data` ask for is safe. */
  predicate SafeLoop(p: Pipe, cfg: Config, addr: nat, data: Bytes, tot: nat)
    requires tot <= |data|
    decreases |data| - tot
  {
    var n := |data| - tot;
    var nw := if n > cfg.maxSendFragment then cfg.maxSendFragment else n;
    var (q, ret) := DoWrite(p, cfg, APPLICATION_DATA, addr + tot, data[tot..tot + nw]);
    SafeWrite(p, cfg, data[tot..tot + nw])
    && (ret > 0 && ret != n && !cfg.partialWrite ==> SafeLoop(q, cfg, addr, data, tot + ret))
  }

  /** Every capacity this event asks for is refused, or at most 0xfff9. */
  predicate SafeEvent(p: Pipe, e: Event) {
    match e
    case Write(cfg, addr, data) =>
      !p.shutdown && |data| >= p.wnum ==> SafeLoop(p.(wnum := 0), cfg, addr, data, p.wnum)
    case Close(cfg, level, desc) => !p.shutdown ==> SafeWrite(p, cfg, [level, desc])
    case RetryAlert(cfg) => p.alert.Some? ==> SafeWrite(p, cfg, p.alert.value)
    case _ => true
  }

  predicate AllSafe(s: Session, events: seq<Event>)
    requires forall e :: e in events ==> WFEvent(e)
    decreases |events|
  {
    events != [] ==> SafeEvent(s.pipe, events[0]) && AllSafe(Step(s, events[0]), events[1..])
  }

  lemma {:induction false} DispatchInOrder(p: Pipe, cfg: Config)
    requires InOrder(p) && Steady(p) && p.alert.Some? && SafeWrite(p, cfg, p.alert.value)
    ensures InOrder(DispatchAlert(p, cfg).0) && Steady(DispatchAlert(p, cfg).0)
  {
    hide AllBytes, DoWrite, Steady, SafeWrite;
    DoWriteInOrder(p, cfg, ALERT, ALERT_ADDRESS, p.alert.value);
    var q := DoWrite(p, cfg, ALERT, ALERT_ADDRESS, p.alert.value).0;
    BioFlushKeeps(q.(alert := None));
    SameQueueInOrder(q, DispatchAlert(p, cfg).0);
    SteadyIgnores(q, DispatchAlert(p, cfg).0);
  }

  lemma {:induction false} AlertKeepsAccount(p: Pipe, cfg: Config, acked: nat, stream: Bytes)
    requires p.alert.Some? && Accounted(p, acked, stream)
    ensures Accounted(DispatchAlert(p, cfg).0, acked, stream)
  {
    hide DoWrite, Bodies;
    DoWriteShape(p, cfg, ALERT, ALERT_ADDRESS, p.alert.value);
    DoWriteSealsInStream(p, cfg, ALERT, ALERT_ADDRESS, p.alert.value, acked + p.wnum, stream);
  }

  lemma {:induction false} AppLoopInOrder(p: Pipe, cfg: Config, addr: nat, data: Bytes, tot: nat)
    requires InOrder(p) && Steady(p) && tot <= |data| && SafeLoop(p, cfg, addr, data, tot)
    ensures InOrder(AppLoop(p, cfg, addr, data, tot).0) && Steady(AppLoop(p, cfg, addr, data, tot).0)
    decreases |data| - tot
  {
    hide AllBytes, DoWrite, InOrder, Steady, SafeWrite;
    var n := |data| - tot;
    var nw := if n > cfg.maxSendFragment then cfg.maxSendFragment else n;
    DoWriteInOrder(p, cfg, APPLICATION_DATA, addr + tot, data[tot..tot + nw]);
    var (q, ret) := DoWrite(p, cfg, APPLICATION_DATA, addr + tot, data[tot..tot + nw]);
    SealedIgnoresWnum(q, 0, [], tot);
    if ret > 0 && ret != n && !cfg.partialWrite {
      AppLoopInOrder(q, cfg, addr, data, tot + ret);
    }
  }

  lemma {:induction false} StepInOrder(s: Session, e: Event)
    requires InOrder(s.pipe) && Steady(s.pipe) && WFEvent(e) && SafeEvent(s.pipe, e)
    ensures InOrder(Step(s, e).pipe) && Steady(Step(s, e).pipe)
  {
    hide AllBytes, AppLoop, SafeLoop, DispatchAlert, FlushFlight, AddRecord, AddMessage, InOrder, Steady, FlightRest;
    var p := s.pipe;
    match e
    case Message(cfg, msg) =>
      AddMessageSealed(p, cfg, msg);
      AddMessageInOrder(p, cfg, msg);
      SteadyIgnores(p, AddMessage(p, cfg, msg).0);
    case FlightRecord(cfg, kind, body) =>
      AddRecordShape(p, cfg, kind, body);
      AddRecordInOrder(p, cfg, kind, body);
      SteadyIgnores(p, AddRecord(p, cfg, kind, body).0);
    case Flush => FlushFlightInOrder(p);
    case Write(cfg, addr, data) =>
      SealedIgnoresWnum(p, 0, [], 0);
      if !p.shutdown && |data| >= p.wnum {
        AppLoopInOrder(p.(wnum := 0), cfg, addr, data, p.wnum);
      }
    case Close(cfg, level, desc) =>
      var q := p.(shutdown := true, alert := Some([level, desc]));
      SameQueueInOrder(p, q);
      SteadyIgnores(p, q);
      RestIgnores(p, q);
      if !p.shutdown {
        DispatchInOrder(q, cfg);
      }
    case RetryAlert(cfg) =>
      if p.alert.Some? {
        DispatchInOrder(p, cfg);
      }
  }

  /** Whatever is added to the flight, flushed, written and retried, wherever malloc puts the
      buffer and however much of each write the transport takes: as long as every capacity asked
      for is safe, the bytes sent are a prefix of all sealed records, concatenated in the order
      they were sealed. */
  lemma {:induction false} SentIsPrefixOfSealed(s: Session, events: seq<Event>)
    requires InOrder(s.pipe) && Steady(s.pipe) && (forall e :: e in events ==> WFEvent(e)) && AllSafe(s, events)
    ensures InOrder(Run(s, events).pipe) && Steady(Run(s, events).pipe)
    ensures Run(s, events).pipe.sent <= AllBytes(Run(s, events).pipe.sealed)
    decreases |events|
  {
    hide AllBytes, Step, FlightRest, SafeEvent, Steady;
    if events == [] {
      var p := s.pipe;
      assert p.sent + p.buffer + FlightRest(p) == p.sent + (p.buffer + FlightRest(p));
    } else {
      StepInOrder(s, events[0]);
      SentIsPrefixOfSealed(Step(s, events[0]), events[1..]);
    }
  }

  lemma {:induction false} SameBodies(p: Pipe, q: Pipe, acked: nat, stream: Bytes)
    requires Accounted(p, acked, stream)
    requires Bodies(q.sealed, APPLICATION_DATA) == Bodies(p.sealed, APPLICATION_DATA)
    requires q.wnum == p.wnum && q.wpendPending == p.wpendPending && q.wpendTot == p.wpendTot
        && q.wpendType == p.wpendType
    ensures Accounted(q, acked, stream)
  {
  }

  lemma {:induction false} FlightRecordKeepsBodies(p: Pipe, cfg: Config, kind: nat, body: Bytes)
    requires kind != APPLICATION_DATA
    ensures var q := AddRecord(p, cfg, kind, body).0;
            && Bodies(q.sealed, APPLICATION_DATA) == Bodies(p.sealed, APPLICATION_DATA)
            && q == p.(flight := q.flight, seals := q.seals, sealed := q.sealed)
  {
    hide AddRecord;
    AddRecordShape(p, cfg, kind, body);
    var (q, ok) := AddRecord(p, cfg, kind, body);
    if ok {
      assert q.sealed == p.sealed + [q.sealed[|p.sealed|]];
      BodiesSnoc(p.sealed, q.sealed[|p.sealed|], APPLICATION_DATA);
      assert Bodies(p.sealed, APPLICATION_DATA) + [] == Bodies(p.sealed, APPLICATION_DATA);
    }
  }

  lemma {:induction false} ClosedRefuses(p: Pipe, cfg: Config, addr: nat, data: Bytes)
    requires p.shutdown
    ensures WriteApp(p, cfg, addr, data) == (p, -1)
  {
  }

  lemma {:induction false} StepKeepsAccount(s: Session, e: Event, stream: Bytes)
    requires WFEvent(e) && Honest(s, e, stream) && Accounted(s.pipe, s.acked, stream)
    ensures Accounted(Step(s, e).pipe, Step(s, e).acked, stream)
  {
    hide WriteApp, DispatchAlert, FlushFlight, AddRecord, AddMessage, Accounted, Bodies;
    var p := s.pipe;
    match e
    case Message(cfg, msg) =>
      AddMessageSealed(p, cfg, msg);
      SameBodies(p, AddMessage(p, cfg, msg).0, s.acked, stream);
    case FlightRecord(cfg, kind, body) =>
      FlightRecordKeepsBodies(p, cfg, kind, body);
      SameBodies(p, AddRecord(p, cfg, kind, body).0, s.acked, stream);
    case Flush =>
      FlushFlightShape(p);
      SameBodies(p, FlushFlight(p).0, s.acked, stream);
    case Write(cfg, addr, data) =>
      if p.shutdown {
        ClosedRefuses(p, cfg, addr, data);
      } else {
        WriteKeepsAccount(p, cfg, addr, data, s.acked, stream);
      }
    case Close(cfg, level, desc) =>
      var q := p.(shutdown := true, alert := Some([level, desc]));
      SameBodies(p, q, s.acked, stream);
      AlertKeepsAccount(q, cfg, s.acked, stream);
    case RetryAlert(cfg) =>
      if p.alert.Some? {
        AlertKeepsAccount(p, cfg, s.acked, stream);
      }
  }

  /** In every run of an honest caller, each application byte is sealed exactly once and in order:
      the sealed application data are a prefix of the caller's stream, as long as the bytes
      acknowledged, written of the current call, and pending. */
  lemma {:induction false} SealedExactlyOnce(s: Session, events: seq<Event>, stream: Bytes)
    requires Accounted(s.pipe, s.acked, stream)
    requires (forall e :: e in events ==> WFEvent(e)) && AllHonest(s, events, stream)
    ensures Accounted(Run(s, events).pipe, Run(s, events).acked, stream)
    ensures Bodies(Run(s, events).pipe.sealed, APPLICATION_DATA) <= stream
    decreases |events|
  {
    hide Step, Bodies;
    if events != [] {
      StepKeepsAccount(s, events[0], stream);
      SealedExactlyOnce(Step(s, events[0]), events[1..], stream);
    }
  }
}
