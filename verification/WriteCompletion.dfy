/** What the TLS write path must achieve: with a transport that goes on taking bytes, everything
    that waits is sent; what is refused is refused for a stated reason. */
module WriteCompletion {
  import opened Wire
  import opened WriteQueue
  import opened WriteRuns

  /** The transport takes `n` bytes in these parts, and the last of them with the last part. */
  predicate Takes(parts: seq<int>, n: nat)
    decreases |parts|
  {
    if n == 0 then parts == []
    else parts != [] && parts[0] > 0 && Takes(parts[1..], if parts[0] < n then n - parts[0] else 0)
  }

  /** All that is due: sent, being written and waiting. */
  function Due(p: Pipe): Bytes {
    p.sent + p.buffer + FlightRest(p)
  }

  // ---- the write buffer ----

  lemma {:induction false} BufferTurn(p: Pipe)
    requires Steady(p) && p.buffer != [] && p.answers != [] && p.answers[0] > 0
    ensures var n := if p.answers[0] > |p.buffer| then |p.buffer| else p.answers[0];
            var (q, m) := BioWrite(p, p.buffer);
            var r := Consume(q, n);
            && m == n && Steady(r) && r.buffer == p.buffer[n..]
            && r == p.(slack := r.slack, cap := r.cap, buffer := p.buffer[n..], answers := p.answers[1..],
                       sent := p.sent + p.buffer[..n])
  {
    hide Steady, Consume;
    var n := if p.answers[0] > |p.buffer| then |p.buffer| else p.answers[0];
    var q := BioWrite(p, p.buffer).0;
    SteadyIgnores(p, q);
    ConsumeSteady(q, n);
    ConsumeRest(q, n);
  }

  lemma {:induction false} BufferCompletes(p: Pipe, parts: seq<int>, rest: seq<int>)
    requires Steady(p) && Takes(parts, |p.buffer|) && p.answers == parts + rest
    ensures FlushBuffer(p)
            == (p.(slack := [], cap := 0, buffer := [], answers := rest, sent := p.sent + p.buffer), 1)
    decreases |p.buffer|
  {
    hide Steady, FlushBuffer, Consume, BioWrite;
    if p.buffer == [] {
      FlushNothing(p);
      assert p.answers == rest && p.sent + [] == p.sent;
    } else {
      BufferTurn(p);
      FlushOnce(p);
      var n := if p.answers[0] > |p.buffer| then |p.buffer| else p.answers[0];
      var r := Consume(BioWrite(p, p.buffer).0, n);
      assert r.answers == parts[1..] + rest;
      BufferCompletes(r, parts[1..], rest);
      assert p.sent + p.buffer[..n] + p.buffer[n..] == p.sent + p.buffer;
    }
  }

  // ---- the flight ----

  lemma {:induction false} FlightEnds(p: Pipe)
    requires PipeOk(p) && p.flight.Some? && FlightRest(p) == []
    ensures p.offset == |p.flight.value| && WriteFlight(p) == (p, 1)
  {
  }

  lemma {:induction false} FlightStops(p: Pipe)
    requires PipeOk(p) && p.flight.Some? && FlightRest(p) != [] && (p.answers == [] || p.answers[0] <= 0)
    ensures var (q, ret) := WriteFlight(p); ret <= 0 && q == p.(answers := q.answers)
    ensures |WriteFlight(p).0.answers| == if p.answers == [] then 0 else |p.answers| - 1
  {
  }

  /** The state after the transport has taken one part of the flight. */
  function AfterPart(p: Pipe): Pipe
    requires FlightRest(p) != [] && p.answers != [] && p.answers[0] > 0
  {
    var n := if p.answers[0] > |FlightRest(p)| then |FlightRest(p)| else p.answers[0];
    p.(answers := p.answers[1..], sent := p.sent + FlightRest(p)[..n], offset := p.offset + n)
  }

  lemma {:induction false} PartMoves(p: Pipe)
    requires PipeOk(p) && p.flight.Some? && FlightRest(p) != [] && p.answers != [] && p.answers[0] > 0
    ensures var r, n := AfterPart(p), if p.answers[0] > |FlightRest(p)| then |FlightRest(p)| else p.answers[0];
            && PipeOk(r) && FlightRest(r) == FlightRest(p)[n..]
            && r.sent + FlightRest(r) == p.sent + FlightRest(p)
  {
    var todo := FlightRest(p);
    var n := if p.answers[0] > |todo| then |todo| else p.answers[0];
    assert p.offset + n <= |p.flight.value|;
    assert p.flight.value[p.offset..][n..] == p.flight.value[p.offset + n..];
    assert p.sent + todo[..n] + todo[n..] == p.sent + todo;
  }

  lemma {:induction false} FlightUnfold(p: Pipe)
    requires p.flight.Some? && p.offset < |p.flight.value|
    ensures var (q, n) := BioWrite(p, FlightRest(p));
            WriteFlight(p) == if n <= 0 then (q, n) else WriteFlight(q.(offset := p.offset + n))
  {
    hide BioWrite;
  }

  lemma {:induction false} FlightTurn(p: Pipe)
    requires PipeOk(p) && p.flight.Some? && FlightRest(p) != [] && p.answers != [] && p.answers[0] > 0
    ensures var r, n := AfterPart(p), if p.answers[0] > |FlightRest(p)| then |FlightRest(p)| else p.answers[0];
            && WriteFlight(p) == WriteFlight(r) && PipeOk(r) && FlightRest(r) == FlightRest(p)[n..]
            && r.sent + FlightRest(r) == p.sent + FlightRest(p)
  {
    hide WriteFlight;
    PartMoves(p);
    FlightUnfold(p);
  }

  lemma {:induction false} FlightCompletes(p: Pipe, parts: seq<int>, rest: seq<int>)
    requires PipeOk(p) && p.flight.Some? && Takes(parts, |FlightRest(p)|) && p.answers == parts + rest
    ensures WriteFlight(p)
            == (p.(offset := |p.flight.value|, answers := rest, sent := p.sent + FlightRest(p)), 1)
    decreases |FlightRest(p)|
  {
    hide WriteFlight, FlightRest, PipeOk;
    if FlightRest(p) == [] {
      FlightEnds(p);
      assert p.answers == rest && p.sent + [] == p.sent;
    } else {
      FlightTurn(p);
      var q := AfterPart(p);
      assert q.answers == parts[1..] + rest;
      FlightCompletes(q, parts[1..], rest);
    }
  }

  /** On an open connection, a flush with a transport that takes what waits, in any parts, and is
      flushed: it succeeds, has sent exactly the write buffer and the rest of the flight, and no
      flight is left. */
  lemma {:induction false} FlushCompletes(p: Pipe, first: seq<int>, second: seq<int>, flushed: int, rest: seq<int>)
    requires PipeOk(p) && Steady(p) && !p.shutdown && p.flight.Some? && |p.flight.value| <= INT_MAX
    requires Takes(first, |p.buffer|) && Takes(second, |FlightRest(p)|) && flushed > 0
    requires p.answers == first + (second + ([flushed] + rest))
    ensures var (q, ret) := FlushFlight(p);
            && ret == 1
            && q == p.(slack := q.slack, cap := q.cap, buffer := [], flight := None, offset := 0, answers := rest,
                       sent := p.sent + p.buffer + FlightRest(p))
  {
    hide FlushBuffer, WriteFlight, Steady, FlightRest;
    var after := second + ([flushed] + rest);
    var q := FlushIfAny(p).0;
    if p.buffer == [] {
      assert p.answers == after && p.sent + [] == p.sent;
    } else {
      BufferCompletes(p, first, after);
    }
    RestIgnores(p, q);
    FlightCompletes(q, second, [flushed] + rest);
    assert ([flushed] + rest)[1..] == rest;
  }

  /** While the transport has answers, a flush of a flight leaves everything untouched and fails if
      and only if writing is shut down or the flight is too long. */
  lemma {:induction false} FlushRefusedIff(p: Pipe)
    requires PipeOk(p) && p.flight.Some? && p.answers != []
    ensures FlushFlight(p) == (p, -1) <==> p.shutdown || |p.flight.value| > 0x7fff_ffff
    ensures p.shutdown || |p.flight.value| > INT_MAX || |FlushFlight(p).0.answers| < |p.answers|
  {
    hide FlushBuffer, WriteFlight, PipeOk, FlightRest;
    if !p.shutdown && |p.flight.value| <= INT_MAX {
      BufferReads(p);
      FlushBufferShape(p);
      var (q, ret) := FlushIfAny(p);
      if ret > 0 {
        OkIgnores(p, q);
        FlightReads(q);
        WriteFlightShape(q);
        BioFlushReads(WriteFlight(q).0);
      }
    }
  }

  lemma {:induction false} OkIgnores(p: Pipe, q: Pipe)
    requires q.flight == p.flight && q.offset == p.offset
    ensures PipeOk(q) == PipeOk(p)
  {
  }

  lemma {:induction false} BioFlushReads(p: Pipe)
    ensures |BioFlush(p).0.answers| == if p.answers == [] then 0 else |p.answers| - 1
  {
  }

  lemma {:induction false} BufferReads(p: Pipe)
    ensures |FlushBuffer(p).0.answers| <= |p.answers|
    ensures p.buffer != [] && p.answers != [] ==> |FlushBuffer(p).0.answers| < |p.answers|
    decreases |p.buffer|
  {
    hide Consume;
    if p.buffer != [] {
      var (q, n) := BioWrite(p, p.buffer);
      if n > 0 {
        ConsumeRest(q, n);
        BufferReads(Consume(q, n));
      }
    }
  }

  lemma {:induction false} FlightReads(p: Pipe)
    requires PipeOk(p) && p.flight.Some?
    ensures var (q, ret) := WriteFlight(p);
            && (FlightRest(p) == [] ==> (q, ret) == (p, 1))
            && (FlightRest(p) != [] && p.answers != [] ==> |q.answers| < |p.answers|)
            && (FlightRest(p) != [] && p.answers == [] ==> q.answers == [])
    decreases |FlightRest(p)|
  {
    hide WriteFlight, FlightRest, PipeOk;
    if FlightRest(p) == [] {
      FlightEnds(p);
    } else if p.answers == [] || p.answers[0] <= 0 {
      FlightStops(p);
    } else {
      FlightTurn(p);
      FlightReads(AfterPart(p));
    }
  }

  // ---- what the transport decides ----

  /** All answers taken in between are positive. */
  ghost predicate Taken(before: seq<int>, after: seq<int>) {
    |after| <= |before| && after == before[|before| - |after|..]
    && forall i :: 0 <= i < |before| - |after| ==> before[i] > 0
  }

  /** All are positive but the last, or they ran out. */
  ghost predicate Stopped(before: seq<int>, after: seq<int>) {
    exists middle: seq<int> :: Taken(before, middle) && AtStop(middle, after)
  }

  predicate AtStop(middle: seq<int>, after: seq<int>) {
    if middle == [] then after == [] else middle[0] <= 0 && after == middle[1..]
  }

  lemma {:induction false} TakenNone(a: seq<int>)
    ensures Taken(a, a)
  {
  }

  lemma {:induction false} TakenOne(a: seq<int>)
    requires a != [] && a[0] > 0
    ensures Taken(a, a[1..])
  {
  }

  lemma {:induction false} TakenTwice(a: seq<int>, b: seq<int>, c: seq<int>)
    requires Taken(a, b)
    ensures Taken(b, c) ==> Taken(a, c)
    ensures Stopped(b, c) ==> Stopped(a, c)
  {
    if Taken(b, c) {
      TakenJoin(a, b, c);
    }
    if Stopped(b, c) {
      var middle :| Taken(b, middle) && AtStop(middle, c);
      TakenJoin(a, b, middle);
    }
  }

  lemma {:induction false} TakenJoin(a: seq<int>, b: seq<int>, c: seq<int>)
    requires Taken(a, b) && Taken(b, c)
    ensures Taken(a, c)
  {
    var n := |a| - |b|;
    forall i | 0 <= i < |a| - |c|
      ensures a[i] > 0
    {
      if i >= n {
        assert a[i] == b[i - n];
      }
    }
    assert a[n..][|b| - |c|..] == a[|a| - |c|..];
  }

  lemma {:induction false} StopsHere(a: seq<int>, after: seq<int>)
    requires AtStop(a, after)
    ensures Stopped(a, after)
  {
    TakenNone(a);
  }

  /** Between the calls the answer says how it went. */
  ghost predicate Decided(p: Pipe, q: Pipe, ret: int) {
    if ret > 0 then Taken(p.answers, q.answers) else Stopped(p.answers, q.answers)
  }

  lemma {:induction false} BioWriteDecides(p: Pipe, data: Bytes)
    requires data != []
    ensures Decided(p, BioWrite(p, data).0, BioWrite(p, data).1)
  {
    if p.answers == [] || p.answers[0] <= 0 {
      StopsHere(p.answers, BioWrite(p, data).0.answers);
    } else {
      TakenOne(p.answers);
    }
  }

  lemma {:induction false} BioFlushDecides(p: Pipe)
    ensures Decided(p, BioFlush(p).0, BioFlush(p).1)
    ensures BioFlush(p).1 > 0 ==> |BioFlush(p).0.answers| < |p.answers|
  {
    if p.answers == [] || p.answers[0] <= 0 {
      StopsHere(p.answers, BioFlush(p).0.answers);
    } else {
      TakenOne(p.answers);
    }
  }

  lemma {:induction false} BufferDecides(p: Pipe)
    ensures Decided(p, FlushBuffer(p).0, FlushBuffer(p).1)
    decreases |p.buffer|
  {
    hide BioWrite, Taken, Stopped, Consume;
    if p.buffer == [] {
      TakenNone(p.answers);
    } else {
      var (q, n) := BioWrite(p, p.buffer);
      BioWriteDecides(p, p.buffer);
      BioWriteFrame(p, p.buffer);
      if n > 0 {
        ConsumeFrame(q, n);
        BufferDecides(Consume(q, n));
        TakenTwice(p.answers, q.answers, FlushBuffer(Consume(q, n)).0.answers);
      }
    }
  }

  lemma {:induction false} BioWriteFrame(p: Pipe, data: Bytes)
    ensures BioWrite(p, data).0.buffer == p.buffer && BioWrite(p, data).0.flight == p.flight
    ensures BioWrite(p, data).0.offset == p.offset
  {
  }

  lemma {:induction false} ConsumeFrame(p: Pipe, n: nat)
    requires n <= |p.buffer|
    ensures Consume(p, n).answers == p.answers
  {
  }

  lemma {:induction false} FlightDecides(p: Pipe)
    requires p.flight.Some?
    ensures Decided(p, WriteFlight(p).0, WriteFlight(p).1)
    decreases |FlightRest(p)|
  {
    hide BioWrite, Taken, Stopped;
    if p.offset >= |p.flight.value| {
      TakenNone(p.answers);
    } else {
      var (q, n) := BioWrite(p, FlightRest(p));
      BioWriteDecides(p, FlightRest(p));
      BioWriteFrame(p, FlightRest(p));
      if n > 0 {
        var r := q.(offset := p.offset + n);
        FlightDecides(r);
        TakenTwice(p.answers, q.answers, WriteFlight(r).0.answers);
      }
    }
  }

  /** A flush that was not refused goes on exactly while the transport's answers are positive; it
      reports success only after a positive answer to the flush itself. */
  lemma {:induction false} TransportDecidesFlush(p: Pipe)
    requires p.flight.Some? && !p.shutdown && |p.flight.value| <= INT_MAX
    ensures var (q, ret) := FlushFlight(p);
            && (if ret == 1 then Taken(p.answers, q.answers) && |q.answers| < |p.answers| && q.flight.None?
                else ret <= 0 && Stopped(p.answers, q.answers) && q.flight == p.flight)
  {
    hide FlushBuffer, WriteFlight, BioFlush, Taken, Stopped, FlightRest;
    var (q, ret) := FlushIfAny(p);
    TakenNone(p.answers);
    BufferDecides(p);
    FlushBufferShape(p);
    if ret > 0 {
      FlightDecides(q);
      WriteFlightShape(q);
      var (r, ret2) := WriteFlight(q);
      TakenTwice(p.answers, q.answers, r.answers);
      if ret2 > 0 {
        BioFlushDecides(r);
        BioFlushKeeps(r);
        TakenTwice(p.answers, r.answers, BioFlush(r).0.answers);
        AnswersShrink(p.answers, r.answers);
      }
    }
  }

  lemma {:induction false} AnswersShrink(a: seq<int>, b: seq<int>)
    requires Taken(a, b)
    ensures |b| <= |a|
  {
  }

  // ---- a flush that is blocked and resumed ----

  lemma {:induction false} BufferDue(p: Pipe)
    requires Steady(p)
    ensures var (q, ret) := FlushBuffer(p);
            && Steady(q) && q.sent + q.buffer == p.sent + p.buffer && FlightRest(q) == FlightRest(p)
    decreases |p.buffer|
  {
    hide Steady, Consume;
    if p.buffer == [] {
      EmptyIsSteady(p);
      assert p.sent + [] == p.sent;
    } else if p.answers != [] && p.answers[0] > 0 {
      BufferTurn(p);
      var n := if p.answers[0] > |p.buffer| then |p.buffer| else p.answers[0];
      var r := Consume(BioWrite(p, p.buffer).0, n);
      BufferDue(r);
      assert p.sent + p.buffer[..n] + p.buffer[n..] == p.sent + p.buffer;
    } else {
      SteadyIgnores(p, BioWrite(p, p.buffer).0);
    }
  }

  lemma {:induction false} FlightDue(p: Pipe)
    requires PipeOk(p) && p.flight.Some?
    ensures var (q, ret) := WriteFlight(p);
            && q == p.(offset := q.offset, answers := q.answers, sent := q.sent) && PipeOk(q)
            && q.sent + FlightRest(q) == p.sent + FlightRest(p)
    decreases |FlightRest(p)|
  {
    hide WriteFlight, FlightRest, PipeOk;
    if FlightRest(p) == [] {
      FlightEnds(p);
    } else if p.answers == [] || p.answers[0] <= 0 {
      FlightStops(p);
      RestIgnores(p, WriteFlight(p).0);
      OkIgnores(p, WriteFlight(p).0);
    } else {
      FlightTurn(p);
      FlightDue(AfterPart(p));
    }
  }

  /** A flush that is blocked loses nothing and sends nothing out of turn. */
  lemma {:induction false} BlockedFlushKeepsDue(p: Pipe)
    requires PipeOk(p) && Steady(p) && FlushFlight(p).1 <= 0
    ensures var q := FlushFlight(p).0;
            && Due(q) == Due(p) && PipeOk(q) && Steady(q) && p.sent <= q.sent
            && q.flight == p.flight && q.shutdown == p.shutdown && q.sealed == p.sealed
  {
    hide FlushBuffer, WriteFlight, Steady, FlightRest, BioFlush, PipeOk;
    FlushFlightShape(p);
    if !p.shutdown && |p.flight.value| <= INT_MAX {
      FlushBufferShape(p);
      BufferDue(p);
      var (q, ret) := FlushIfAny(p);
      OkIgnores(p, q);
      if ret > 0 {
        FlightDue(q);
        var r := WriteFlight(q).0;
        BioFlushKeeps(r);
        SameDue(q, r, FlushFlight(p).0);
      }
    }
  }

  lemma {:induction false} SameDue(q: Pipe, r: Pipe, s: Pipe)
    requires q.buffer == [] && PipeOk(r) && q.sent + FlightRest(q) == r.sent + FlightRest(r)
    requires r == q.(offset := r.offset, answers := r.answers, sent := r.sent) && s == r.(answers := s.answers)
    ensures Due(s) == Due(q) && PipeOk(s) && Steady(s) == Steady(q)
  {
    assert q.sent + [] == q.sent && r.sent + [] == r.sent;
    assert FlightRest(s) == FlightRest(r);
  }

  /** Resumed with a willing transport it ends as if it had never been blocked. */
  lemma {:induction false} ResumedFlushCompletes(p: Pipe, answers: seq<int>, first: seq<int>, second: seq<int>,
      flushed: int, rest: seq<int>)
    requires PipeOk(p) && Steady(p) && p.flight.Some? && FlushFlight(p).1 <= 0
    requires !p.shutdown && |p.flight.value| <= INT_MAX
    requires var q := FlushFlight(p).0; Takes(first, |q.buffer|) && Takes(second, |FlightRest(q)|)
    requires flushed > 0 && answers == first + (second + ([flushed] + rest))
    ensures var (r, ret) := FlushFlight(FlushFlight(p).0.(answers := answers));
            && ret == 1 && r.flight == None && r.buffer == [] && r.sent == p.sent + p.buffer + FlightRest(p)
  {
    hide FlushFlight, Steady;
    BlockedFlushKeepsDue(p);
    var q := FlushFlight(p).0.(answers := answers);
    SteadyIgnores(FlushFlight(p).0, q);
    FlushCompletes(q, first, second, flushed, rest);
  }

  /** An input: a flight of six bytes, a transport that takes them, and a flush. */
  lemma {:induction false} FlightLeaves(mallocs: seq<Option<Placement>>, seals: seq<Option<Bytes>>)
    ensures var p := Pipe([], [], 0, Some([22, 3, 3, 0, 1, 9]), 0, 0, false, 0, 0, 0, false, None, [6, 1], seals,
                          mallocs, [], []);
            FlushFlight(p).1 == 1 && FlushFlight(p).0.sent == [22, 3, 3, 0, 1, 9]
  {
    var p := Pipe([], [], 0, Some([22, 3, 3, 0, 1, 9]), 0, 0, false, 0, 0, 0, false, None, [6, 1], seals, mallocs,
                  [], []);
    assert FlightRest(p) == [22, 3, 3, 0, 1, 9];
    assert [6, 1] == [] + ([6] + ([1] + []));
    FlushCompletes(p, [], [6], 1, []);
    assert [] + [] + FlightRest(p) == FlightRest(p);
  }

  // ---- records ----

  /** While the transport has answers, the retry of a pending record is refused if and only if it is
      shorter than the record, of another type, or at another address without the mode for that. */
  lemma {:induction false} RetryRefusedIff(p: Pipe, cfg: Config, kind: nat, addr: nat, body: Bytes)
    requires p.wpendPending && p.buffer != [] && p.answers != []
    ensures DoWrite(p, cfg, kind, addr, body) == (p, -1)
            <==> |body| < p.wpendTot || kind != p.wpendType || (addr != p.wpendBuf && !cfg.movingBuffer)
  {
    hide FlushBuffer;
    BufferReads(p);
  }

  /** A retry that is not refused finishes the record and reports it. */
  lemma {:induction false} RetryCompletes(p: Pipe, cfg: Config, kind: nat, addr: nat, body: Bytes, parts: seq<int>,
      rest: seq<int>)
    requires p.wpendPending && p.wpendTot <= |body| && p.wpendType == kind && (cfg.movingBuffer || p.wpendBuf == addr)
    requires Steady(p) && Takes(parts, |p.buffer|) && p.answers == parts + rest
    ensures DoWrite(p, cfg, kind, addr, body)
            == (p.(slack := [], cap := 0, buffer := [], answers := rest, sent := p.sent + p.buffer,
                   wpendPending := false), p.wpendTot)
  {
    hide FlushBuffer, Steady;
    BufferCompletes(p, parts, rest);
  }

  /** The state right after sealing `out`. */
  /** A retry that was not refused ends exactly when all of the buffer has been taken. */
  lemma {:induction false} TransportDecidesWrite(p: Pipe, cfg: Config, kind: nat, addr: nat, len: nat)
    requires p.wpendTot <= len && (cfg.movingBuffer || p.wpendBuf == addr) && p.wpendType == kind
    ensures var (q, ret) := WritePending(p, cfg, kind, addr, len);
            if Taken(p.answers, q.answers) && q.buffer == [] then ret == p.wpendTot && !q.wpendPending
            else ret <= 0 && Stopped(p.answers, q.answers) && q.wpendPending == p.wpendPending
  {
    hide FlushBuffer, Taken, Stopped;
    BufferDecides(p);
    FlushBufferShape(p);
    FlushedIffEmpty(p);
  }

  lemma {:induction false} FlushedIffEmpty(p: Pipe)
    ensures FlushBuffer(p).1 > 0 <==> FlushBuffer(p).0.buffer == []
    decreases |p.buffer|
  {
    hide Consume;
    if p.buffer != [] {
      var (q, n) := BioWrite(p, p.buffer);
      BioWriteFrame(p, p.buffer);
      if n > 0 {
        FlushedIffEmpty(Consume(q, n));
      }
    }
  }

  /** Application data of which nothing is pending: with something else in the write buffer, with a
      fragment over the limit, or with nothing left to write, nothing is sealed or sent and nothing
      changes; only the last is not an error. */
  lemma {:induction false} NothingStarts(p: Pipe, cfg: Config, addr: nat, data: Bytes)
    requires !p.shutdown && !p.wpendPending && p.wnum <= |data|
    requires p.buffer != [] || |data| == p.wnum || (|data| - p.wnum > 16384 && cfg.maxSendFragment > 16384)
    ensures WriteApp(p, cfg, addr, data) == (p, if p.buffer == [] && |data| == p.wnum then 0 else -1)
  {
    hide FlushBuffer, Fill;
    var q := p.(wnum := 0);
    AppLoopUnfold(q, cfg, addr, data, p.wnum);
  }

  lemma {:induction false} Filled(p: Pipe, cfg: Config, kind: nat, addr: nat, body: Bytes, out: Bytes)
    requires PipeOk(p) && Steady(p) && Asks(p, body)
    requires SafeCapacity(Asked(p, cfg, body)) && Asked(p, cfg, body) <= MAX_BUFFER
    requires Asked(p, cfg, body) <= p.cap || (p.mallocs != [] && p.mallocs[0].Some?)
    requires p.seals != [] && p.seals[0] == Some(out) && |out| <= |body| + cfg.sealOverhead
    ensures var (s, ok) := Fill(p, cfg, kind, addr, body);
            && ok && Steady(s)
            && s == p.(slack := s.slack, cap := s.cap, buffer := FlightRest(p) + out, flight := None,
                       offset := if p.flight.Some? then 0 else p.offset, seals := p.seals[1..],
                       mallocs := if Asked(p, cfg, body) <= p.cap then p.mallocs else p.mallocs[1..],
                       sealed := p.sealed + [Record(kind, body, out)], wpendPending := true, wpendTot := |body|,
                       wpendBuf := addr, wpendType := kind)
  {
    hide EnsureCap, Seal, FlightRest;
    var headerLen, asked := |FlightRest(p)| + cfg.alignPrefix, Asked(p, cfg, body);
    HasRoom(p, headerLen, asked);
    EnsureCapSteady(p, headerLen, asked);
    var o := EnsureCap(p, headerLen, asked).0;
    RestIgnores(p, o);
    TakesOver(o);
    SealsNow(TakeOver(o), cfg, kind, body, out);
  }

  /** When malloc and sealing work and the capacity is safe, a record write with a transport that
      takes the waiting flight and the record, in any parts, sends them in this order and reports
      the whole record. */
  lemma {:induction false} WriteCompletesInParts(p: Pipe, cfg: Config, kind: nat, addr: nat, body: Bytes, out: Bytes,
      parts: seq<int>, rest: seq<int>)
    requires PipeOk(p) && Steady(p) && Asks(p, body)
    requires SafeCapacity(Asked(p, cfg, body)) && Asked(p, cfg, body) <= MAX_BUFFER
    requires Asked(p, cfg, body) <= p.cap || (p.mallocs != [] && p.mallocs[0].Some?)
    requires p.seals != [] && p.seals[0] == Some(out) && |out| <= |body| + cfg.sealOverhead
    requires Takes(parts, |FlightRest(p)| + |out|) && p.answers == parts + rest
    ensures DoWrite(p, cfg, kind, addr, body)
            == (p.(slack := [], cap := 0, buffer := [], flight := None,
                   offset := if p.flight.Some? then 0 else p.offset, seals := p.seals[1..], answers := rest,
                   mallocs := if Asked(p, cfg, body) <= p.cap then p.mallocs else p.mallocs[1..],
                   sealed := p.sealed + [Record(kind, body, out)], sent := p.sent + FlightRest(p) + out,
                   wpendPending := false, wpendTot := |body|, wpendBuf := addr, wpendType := kind), |body|)
  {
    hide FlushBuffer, Steady, Fill, FlightRest, SafeCapacity, Asked;
    Filled(p, cfg, kind, addr, body, out);
    BufferCompletes(Fill(p, cfg, kind, addr, body).0, parts, rest);
    assert p.sent + (FlightRest(p) + out) == p.sent + FlightRest(p) + out;
  }

  /** New memory is used so that what follows `headerLen` bytes of the contents is aligned to eight
      bytes. */
  lemma {:induction false} OffsetAligns(headerLen: nat, address: nat)
    ensures (address + AlignedOffset(headerLen, address) + headerLen) % 8 == 0 && AlignedOffset(headerLen, address) < 8
  {
  }

  // ---- application data ----

  function Joined(parts: seq<seq<int>>): seq<int> {
    if parts == [] then [] else parts[0] + Joined(parts[1..])
  }

  /** The connection can go on writing: nothing is pending and nothing is in the write buffer. */
  predicate Idle(p: Pipe) {
    PipeOk(p) && Steady(p) && !p.wpendPending && p.buffer == []
  }

  /** What a write of `data` meets: one ciphertext for each fragment, memory for each, and a
      transport that takes each record, and what waits in front of the first. */
  ghost predicate Willing(p: Pipe, cfg: Config, data: Bytes, outs: seq<Bytes>, parts: seq<seq<int>>, rest: seq<int>) {
    && cfg.maxSendFragment > 0 && Cuts(cfg, data, outs)
    && |parts| == |outs| <= |p.seals| && |outs| <= |p.mallocs|
    && (forall i :: 0 <= i < |outs| ==> p.seals[i] == Some(outs[i]) && p.mallocs[i].Some?)
    && (forall i :: 0 <= i < |outs| ==> Takes(parts[i], (if i == 0 then |FlightRest(p)| else 0) + |outs[i]|))
    && p.answers == Joined(parts) + rest
  }

  lemma {:induction false} WillingFirst(p: Pipe, cfg: Config, data: Bytes, outs: seq<Bytes>, parts: seq<seq<int>>,
      rest: seq<int>)
    requires Willing(p, cfg, data, outs, parts, rest)
    ensures var n := if |data| < cfg.maxSendFragment then |data| else cfg.maxSendFragment;
            && p.seals[0] == Some(outs[0]) && p.mallocs[0].Some? && |outs[0]| <= n + cfg.sealOverhead
            && Takes(parts[0], |FlightRest(p)| + |outs[0]|)
            && p.answers == parts[0] + (Joined(parts[1..]) + rest)
  {
  }

  lemma {:induction false} WillingRest(p: Pipe, cfg: Config, data: Bytes, outs: seq<Bytes>, parts: seq<seq<int>>,
      rest: seq<int>, q: Pipe)
    requires Willing(p, cfg, data, outs, parts, rest) && |data| > cfg.maxSendFragment
    requires FlightRest(q) == [] && q.seals == p.seals[1..] && q.answers == Joined(parts[1..]) + rest
    requires q.mallocs == p.mallocs || q.mallocs == p.mallocs[1..]
    ensures Willing(q, cfg, data[cfg.maxSendFragment..], outs[1..], parts[1..], rest)
  {
    hide Takes;
    forall i | 0 <= i < |outs[1..]|
      ensures q.seals[i] == Some(outs[1..][i]) && Takes(parts[1..][i], 0 + |outs[1..][i]|)
      ensures q.mallocs[i].Some?
    {
      assert p.seals[i + 1] == Some(outs[i + 1]) && parts[1..][i] == parts[i + 1];
      assert p.mallocs[i].Some? && p.mallocs[i + 1].Some?;
    }
  }

  /** One fragment of the loop. */
  lemma {:induction false} FragmentCompletes(p: Pipe, cfg: Config, addr: nat, data: Bytes, tot: nat,
      outs: seq<Bytes>, parts: seq<seq<int>>, rest: seq<int>)
    requires Idle(p) && 0 < cfg.maxSendFragment <= MAX_PLAIN_LENGTH && tot < |data|
    requires |FlightRest(p)| + cfg.maxSendFragment + cfg.sealOverhead + SSL3_ALIGN_PAYLOAD - 1 <= U16
    requires Willing(p, cfg, data[tot..], outs, parts, rest)
    ensures var n := if |data| - tot > cfg.maxSendFragment then cfg.maxSendFragment else |data| - tot;
            var (q, ret) := DoWrite(p, cfg, APPLICATION_DATA, addr + tot, data[tot..tot + n]);
            && ret == n && Idle(q) && FlightRest(q) == [] && q.answers == Joined(parts[1..]) + rest
            && q.seals == p.seals[1..] && (q.mallocs == p.mallocs || q.mallocs == p.mallocs[1..])
            && q.sent == p.sent + FlightRest(p) + outs[0]
            && q.sealed == p.sealed + [Record(APPLICATION_DATA, data[tot..tot + n], outs[0])]
            && q.wnum == p.wnum && q.shutdown == p.shutdown && q.alert == p.alert
  {
    hide DoWrite, Takes, Joined, FlightRest;
    var n := if |data| - tot > cfg.maxSendFragment then cfg.maxSendFragment else |data| - tot;
    WillingFirst(p, cfg, data[tot..], outs, parts, rest);
    WriteCompletesInParts(p, cfg, APPLICATION_DATA, addr + tot, data[tot..tot + n], outs[0], parts[0],
        Joined(parts[1..]) + rest);
    NoFlightNoRest(DoWrite(p, cfg, APPLICATION_DATA, addr + tot, data[tot..tot + n]).0);
  }

  lemma {:induction false} NoFlightNoRest(p: Pipe)
    ensures p.flight.None? ==> FlightRest(p) == []
  {
  }

  lemma {:induction false} LoopCompletes(p: Pipe, cfg: Config, addr: nat, data: Bytes, tot: nat, outs: seq<Bytes>,
      parts: seq<seq<int>>, rest: seq<int>)
    requires Idle(p) && 0 < cfg.maxSendFragment <= MAX_PLAIN_LENGTH && !cfg.partialWrite && tot < |data|
    requires |FlightRest(p)| + cfg.maxSendFragment + cfg.sealOverhead + SSL3_ALIGN_PAYLOAD - 1 <= U16
    requires Willing(p, cfg, data[tot..], outs, parts, rest)
    ensures var (q, ret) := AppLoop(p, cfg, addr, data, tot);
            && ret == |data| && Idle(q) && FlightRest(q) == [] && q.wnum == p.wnum && q.answers == rest
            && q.sent == p.sent + FlightRest(p) + Concat(outs)
            && Bodies(q.sealed, APPLICATION_DATA) == Bodies(p.sealed, APPLICATION_DATA) + data[tot..]
            && q.shutdown == p.shutdown && q.alert == p.alert
    decreases |outs|
  {
    hide DoWrite, AppLoop, Idle, Willing, FlightRest, Bodies;
    var n := if |data| - tot > cfg.maxSendFragment then cfg.maxSendFragment else |data| - tot;
    FragmentCompletes(p, cfg, addr, data, tot, outs, parts, rest);
    AppLoopUnfold(p, cfg, addr, data, tot);
    var q := DoWrite(p, cfg, APPLICATION_DATA, addr + tot, data[tot..tot + n]).0;
    WillingCounts(p, cfg, data[tot..], outs, parts, rest);
    BodiesSnoc(p.sealed, Record(APPLICATION_DATA, data[tot..tot + n], outs[0]), APPLICATION_DATA);
    if n < |data| - tot {
      assert data[tot..][n..] == data[tot + n..];
      WillingRest(p, cfg, data[tot..], outs, parts, rest, q);
      LoopCompletes(q, cfg, addr, data, tot + n, outs[1..], parts[1..], rest);
      assert q.sent + [] + Concat(outs[1..]) == p.sent + FlightRest(p) + Concat(outs);
      assert data[tot..tot + n] + data[tot + n..] == data[tot..];
    } else {
      assert parts[1..] == [] && Joined([]) + rest == rest;
      assert outs == [outs[0]] && Concat(outs[1..]) == [] && outs[0] + [] == outs[0];
    }
  }

  lemma {:induction false} WillingCounts(p: Pipe, cfg: Config, data: Bytes, outs: seq<Bytes>, parts: seq<seq<int>>,
      rest: seq<int>)
    requires Willing(p, cfg, data, outs, parts, rest)
    ensures |parts| == |outs| >= 1 && (|data| <= cfg.maxSendFragment ==> |outs| == 1)
  {
  }

  /** On an open connection, a write whose capacities are safe, with malloc, sealing and transport
      willing: all of it is sealed in order and sent behind what waited, and the call says so. */
  lemma {:induction false} AppWriteCompletes(p: Pipe, cfg: Config, addr: nat, data: Bytes, outs: seq<Bytes>,
      parts: seq<seq<int>>, rest: seq<int>)
    requires Idle(p) && !p.shutdown && p.wnum == 0 && data != []
    requires 0 < cfg.maxSendFragment <= MAX_PLAIN_LENGTH && !cfg.partialWrite
    requires |FlightRest(p)| + cfg.maxSendFragment + cfg.sealOverhead + SSL3_ALIGN_PAYLOAD - 1 <= U16
    requires Willing(p, cfg, data, outs, parts, rest)
    ensures var (q, ret) := WriteApp(p, cfg, addr, data);
            && ret == |data| && Idle(q) && FlightRest(q) == [] && q.wnum == 0 && q.answers == rest
            && q.sent == p.sent + FlightRest(p) + Concat(outs)
            && Bodies(q.sealed, APPLICATION_DATA) == Bodies(p.sealed, APPLICATION_DATA) + data
  {
    hide AppLoop, Idle, Willing, FlightRest, Bodies;
    assert data[0..] == data && p.(wnum := 0) == p;
    LoopCompletes(p, cfg, addr, data, 0, outs, parts, rest);
  }

  /** In partial-write mode one call seals at most one record, and reports no more than that. */
  lemma {:induction false} PartialWriteSealsOne(p: Pipe, cfg: Config, addr: nat, data: Bytes)
    requires cfg.partialWrite
    ensures var (q, ret) := WriteApp(p, cfg, addr, data);
            |q.sealed| <= |p.sealed| + 1 && ret <= p.wnum + cfg.maxSendFragment
  {
    hide DoWrite;
    if !p.shutdown && |data| >= p.wnum {
      var n := |data| - p.wnum;
      var nw := if n > cfg.maxSendFragment then cfg.maxSendFragment else n;
      DoWriteShape(p.(wnum := 0), cfg, APPLICATION_DATA, addr + p.wnum, data[p.wnum..p.wnum + nw]);
    }
  }

  // ---- alerts ----

  /** A dispatched alert is cleared exactly when it was written. */
  lemma {:induction false} AlertClearedIff(p: Pipe, cfg: Config)
    requires p.alert.Some?
    ensures var (q, ret) := DispatchAlert(p, cfg);
            && (ret > 0 ==> ret == 1 && q.alert == None)
            && (ret <= 0 ==> q.alert == p.alert)
            && q.shutdown == p.shutdown
  {
    hide DoWrite;
    DoWriteShape(p, cfg, ALERT, ALERT_ADDRESS, p.alert.value);
  }

  /** The first closing alert shuts writing down; with everything willing it is on the wire when
      the call returns, behind what waited, and the transport has been flushed behind a fatal one.
      Later ones change nothing. */
  lemma {:induction false} AlertCompletes(p: Pipe, cfg: Config, level: byte, desc: byte, out: Bytes, parts: seq<int>,
      rest: seq<int>)
    requires Idle(p) && !p.shutdown
    requires |FlightRest(p)| + 2 + cfg.sealOverhead + SSL3_ALIGN_PAYLOAD - 1 <= U16
    requires p.mallocs != [] && p.mallocs[0].Some?
    requires p.seals != [] && p.seals[0] == Some(out) && |out| <= 2 + cfg.sealOverhead
    requires Takes(parts, |FlightRest(p)| + |out|) && p.answers == parts + rest
    ensures var (q, ret) := SendAlert(p, cfg, level, desc);
            && ret == 1 && q.shutdown && q.alert == None && Idle(q) && FlightRest(q) == []
            && q.sent == p.sent + FlightRest(p) + out
            && q.sealed == p.sealed + [Record(ALERT, [level, desc], out)]
            && q.answers == if level == 2 && rest != [] then rest[1..] else rest
    ensures SendAlert(SendAlert(p, cfg, level, desc).0, cfg, desc, level)
            == (SendAlert(p, cfg, level, desc).0, -1)
  {
    hide DoWrite, Takes;
    var q := p.(shutdown := true, alert := Some([level, desc]));
    RestIgnores(p, q);
    WriteCompletesInParts(q, cfg, ALERT, ALERT_ADDRESS, [level, desc], out, parts, rest);
  }

  /** An alert that cannot be written at once waits, and writing is shut down all the same. */
  lemma {:induction false} BlockedAlertWaits(p: Pipe, cfg: Config, level: byte, desc: byte)
    requires !p.shutdown && SendAlert(p, cfg, level, desc).1 <= 0
    ensures SendAlert(p, cfg, level, desc).0.shutdown
    ensures SendAlert(p, cfg, level, desc).0.alert == Some([level, desc])
  {
    hide DispatchAlert;
    AlertClearedIff(p.(shutdown := true, alert := Some([level, desc])), cfg);
  }

  // ---- after the end ----

  lemma {:induction false} ClosedStep(s: Session, e: Event)
    requires WFEvent(e) && s.pipe.shutdown
    ensures var t := Step(s, e);
            && t.pipe.shutdown && t.acked == s.acked
            && Bodies(t.pipe.sealed, APPLICATION_DATA) == Bodies(s.pipe.sealed, APPLICATION_DATA)
  {
    hide DoWrite, FlushFlight, AddRecord, AddMessage, Bodies;
    var p := s.pipe;
    match e
    case Message(cfg, msg) => AddMessageSealed(p, cfg, msg);
    case FlightRecord(cfg, kind, body) => FlightRecordKeepsBodies(p, cfg, kind, body);
    case Flush => FlushFlightShape(p);
    case Write(cfg, addr, data) => ClosedRefuses(p, cfg, addr, data);
    case Close(cfg, level, desc) =>
    case RetryAlert(cfg) =>
      if p.alert.Some? {
        DoWriteShape(p, cfg, ALERT, ALERT_ADDRESS, p.alert.value);
        var q := DoWrite(p, cfg, ALERT, ALERT_ADDRESS, p.alert.value).0;
        OneAlertMore(p, q);
      }
  }

  lemma {:induction false} OneAlertMore(p: Pipe, q: Pipe)
    requires q.sealed == p.sealed
        || (|q.sealed| == |p.sealed| + 1 && q.sealed[..|p.sealed|] == p.sealed && q.sealed[|p.sealed|].kind == ALERT)
    ensures Bodies(q.sealed, APPLICATION_DATA) == Bodies(p.sealed, APPLICATION_DATA)
  {
    hide Bodies;
    if q.sealed != p.sealed {
      assert q.sealed == p.sealed + [q.sealed[|p.sealed|]];
      BodiesSnoc(p.sealed, q.sealed[|p.sealed|], APPLICATION_DATA);
      assert Bodies(p.sealed, APPLICATION_DATA) + [] == Bodies(p.sealed, APPLICATION_DATA);
    }
  }

  /** Once writing is shut down it stays shut down, and no application data is sealed or
      acknowledged any more. */
  lemma {:induction false} ClosedStaysClosed(s: Session, events: seq<Event>)
    requires (forall e :: e in events ==> WFEvent(e)) && s.pipe.shutdown
    ensures var t := Run(s, events);
            && t.pipe.shutdown && t.acked == s.acked
            && Bodies(t.pipe.sealed, APPLICATION_DATA) == Bodies(s.pipe.sealed, APPLICATION_DATA)
    decreases |events|
  {
    hide Step, Bodies;
    if events != [] {
      ClosedStep(s, events[0]);
      ClosedStaysClosed(Step(s, events[0]), events[1..]);
    }
  }
}
