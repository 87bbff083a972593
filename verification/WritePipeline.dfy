/** The TLS write path as the program runs it: SSLBuffer with its 16-bit counters, and the writer
    whose methods update both queues in place. */
module WritePipeline {
  import opened Wire
  import opened WriteQueue
  import Runs = WriteRuns

  /** What the buffer points at after `len` of its `size` bytes have been consumed. */
  function Rest(mem: Bytes, offset: nat, size: nat, len: nat): Bytes
    requires offset + size <= |mem| && len <= size
  {
    mem[OffsetAfter(offset, len)..OffsetAfter(offset, len) + (size - len)]
  }

  /** Consuming leaves exactly the bytes that follow. */
  ghost predicate ConsumesRight(mem: Bytes, offset: nat, size: nat, len: nat)
    requires offset + size <= |mem| && len <= size
  {
    Rest(mem, offset, size, len) == mem[offset..offset + size][len..]
  }

  /** The contents of a buffer survive every consumption, whatever is in the memory, exactly when
      they end by the 16-bit limit. */
  lemma {:induction false} ConsumesRightIff(offset: nat, size: nat)
    requires offset < U16
    ensures (forall mem: Bytes, len: nat :: offset + size <= |mem| && len <= size ==>
        ConsumesRight(mem, offset, size, len))
            <==> offset + size <= U16
  {
    if offset + size <= U16 {
      forall mem: Bytes, len: nat | offset + size <= |mem| && len <= size
        ensures ConsumesRight(mem, offset, size, len)
      {
        SteadyConsume(mem, offset, size, len);
      }
    } else {
      var mem := seq(U16, _ => 0) + seq(offset + size - U16, _ => 1);
      var len := U16 - offset;
      assert OffsetAfter(offset, len) == 0;
      assert Rest(mem, offset, size, len)[0] == 0;
      assert mem[offset..offset + size][len..][0] == mem[U16] == 1;
      assert !ConsumesRight(mem, offset, size, len);
    }
  }

  lemma {:induction false} SteadyConsume(mem: Bytes, offset: nat, size: nat, len: nat)
    requires offset < U16 && offset + size <= U16 && offset + size <= |mem| && len <= size
    ensures ConsumesRight(mem, offset, size, len)
    ensures OffsetAfter(offset, len) == offset + len || (len == size && OffsetAfter(offset, len) == 0)
  {
    SliceTail(mem, offset, offset + size, len);
    if offset + len < U16 {
      NoWrap(offset, len);
    }
  }

  /** So a full buffer of this capacity is safe wherever malloc puts it exactly when the largest
      alignment offset fits beside it. Capacities from 0xfffa to 0xffff are accepted but unsafe. */
  lemma {:induction false} CapacitySafeIff(cap: nat)
    ensures (forall offset: nat, mem: Bytes, len: nat ::
               offset < SSL3_ALIGN_PAYLOAD && offset + cap <= |mem| && len <= cap ==>
                 ConsumesRight(mem, offset, cap, len))
            <==> cap + SSL3_ALIGN_PAYLOAD - 1 <= U16
  {
    if cap + SSL3_ALIGN_PAYLOAD - 1 <= U16 {
      forall offset: nat, mem: Bytes, len: nat | offset < SSL3_ALIGN_PAYLOAD && offset + cap <= |mem| && len <= cap
        ensures ConsumesRight(mem, offset, cap, len)
      {
        SteadyConsume(mem, offset, cap, len);
      }
    } else {
      ConsumesRightIff(SSL3_ALIGN_PAYLOAD - 1, cap);
      var mem: Bytes, len: nat :| SSL3_ALIGN_PAYLOAD - 1 + cap <= |mem| && len <= cap
                                  && !ConsumesRight(mem, SSL3_ALIGN_PAYLOAD - 1, cap, len);
    }
  }

  lemma {:induction false} NoWrap(offset: nat, len: nat)
    requires offset + len < U16
    ensures OffsetAfter(offset, len) == offset + len
  {
  }

  lemma {:induction false} SliceTail(s: Bytes, a: nat, b: nat, k: nat)
    requires a <= b <= |s| && k <= b - a
    ensures s[a..b][k..] == s[a + k..b]
  {
  }

  lemma {:induction false} FrontOf(memory: Bytes, offset: nat, size: nat, at: nat, left: nat)
    requires offset + size <= |memory| && at + left <= offset + size
    ensures (memory[..offset] + memory[offset..offset + size])[..at] == memory[..at]
    ensures (memory[..offset] + memory[offset..offset + size])[at..at + left] == memory[at..at + left]
  {
    assert memory[..offset] + memory[offset..offset + size] == memory[..offset + size];
  }

  /** OPENSSL_memcpy. */
  method Copy(dest: array<byte>, at: nat, data: Bytes)
    requires at + |data| <= dest.Length
    modifies dest
    ensures dest[at..at + |data|] == data
    ensures dest[..at] == old(dest[..at])
  {
    var i := 0;
    while i < |data|
      invariant 0 <= i <= |data|
      invariant dest[at..at + i] == data[..i]
      invariant dest[..at] == old(dest[..at])
    {
      dest[at + i] := data[i];
      i := i + 1;
    }
  }

  class SSLBuffer {
    var buf: array?<byte>
    var offset: nat
    var size: nat
    var cap: nat

    ghost predicate Valid()
      reads this
    {
      && size <= cap <= MAX_BUFFER && offset < U16
      && if buf == null then offset == 0 && cap == 0 else offset + cap <= buf.Length
    }

    /** What is in memory in front of the contents. */
    ghost function Slack(): (s: Bytes)
      requires Valid()
      reads this, buf
      ensures |s| == offset
    {
      if buf == null then [] else buf[..][..offset]
    }

    function Contents(): (s: Bytes)
      requires Valid()
      reads this, buf
      ensures |s| == size
    {
      if buf == null then [] else buf[..][offset..offset + size]
    }

    constructor ()
      ensures Valid() && Contents() == [] && Slack() == [] && cap == 0 && buf == null
    {
      buf := null;
      offset, size, cap := 0, 0, 0;
    }

    method Clear()
      modifies this
      ensures Valid() && Contents() == [] && Slack() == [] && cap == 0 && buf == null
    {
      buf := null;
      offset, size, cap := 0, 0, 0;
    }

    /** The new memory is placed so that what follows `headerLen` bytes is aligned; `place` is where
        malloc puts it and what it finds there, None if it fails. */
    method EnsureCap(headerLen: nat, newCap: nat, place: Option<Placement>) returns (ok: bool)
      requires Valid()
      modifies this
      ensures Valid() && Contents() == old(Contents())
      ensures ok == (newCap <= MAX_BUFFER && (newCap <= old(cap) || place.Some?))
      ensures ok ==> cap >= newCap && (newCap > 0 ==> buf != null)
      ensures buf == old(buf) || fresh(buf)
      ensures if ok && newCap > old(cap)
              then cap == newCap && Slack() == Memory(place.value, AlignedOffset(headerLen, place.value.address))
              else Slack() == old(Slack()) && cap == old(cap) && buf == old(buf)
    {
      if newCap > MAX_BUFFER {
        return false;
      }
      if cap >= newCap {
        return true;
      }
      if place.None? {
        return false;
      }
      var found := Memory(place.value, newCap + SSL3_ALIGN_PAYLOAD - 1);
      var newBuf := new byte[newCap + SSL3_ALIGN_PAYLOAD - 1](i requires 0 <= i < |found| => found[i]);
      assert newBuf[..] == found;
      var newOffset := AlignedOffset(headerLen, place.value.address);
      assert newBuf[..newOffset] == Memory(place.value, newOffset);
      if buf != null {
        Copy(newBuf, newOffset, buf[offset..offset + size]);
      }
      buf := newBuf;
      offset := newOffset;
      cap := newCap;
      ok := true;
    }

    /** A copy into remaining(), then DidWrite. */
    method Append(data: Bytes)
      requires Valid() && |data| <= cap - size && buf != null
      modifies this, buf
      ensures Valid() && Contents() == old(Contents()) + data
      ensures buf == old(buf) && cap == old(cap) && offset == old(offset) && Slack() == old(Slack())
    {
      assert buf[..offset + size][..offset] == Slack();
      assert Contents() == buf[..offset + size][offset..];
      Copy(buf, offset + size, data);
      assert buf[..][offset..offset + size + |data|] == buf[..offset + size][offset..]
          + buf[offset + size..offset + size + |data|];
      size := size + |data|;
    }

    method Consume(len: nat)
      requires Valid() && len <= size
      modifies this
      ensures Valid() && buf == old(buf) && size == old(size) - len && offset == OffsetAfter(old(offset), len)
      ensures cap == old(cap) - len
      ensures var memory := old(Slack() + Contents());
              && Slack() == memory[..offset] && Contents() == memory[offset..offset + size]
    {
      hide OffsetAfter;
      if buf != null {
        FrontOf(buf[..], offset, size, OffsetAfter(offset, len), size - len);
      }
      offset := OffsetAfter(offset, len);
      size := size - len;
      cap := cap - len;
    }
  }

  /** The largest buffer the source accepts, placed seven bytes into its memory and filled: after
      all but five bytes have been consumed it points at the memory's second byte, in front of
      where the data began. */
  method WrappedBuffer(data: Bytes, memory: Bytes) returns (b: SSLBuffer)
    requires |data| == MAX_BUFFER && |memory| >= 7
    ensures fresh(b) && b.Valid() && b.offset == 1
    ensures b.Contents() == memory[1..6]
  {
    b := new SSLBuffer();
    var ok := b.EnsureCap(0, MAX_BUFFER, Some(Placement(1, memory)));
    assert b.Slack() == memory[..7];
    b.Append(data);
    assert b.Contents() == data;
    b.Consume(MAX_BUFFER - 5);
    assert (memory[..7] + data)[1..6] == memory[1..6];
  }

  lemma {:induction false} WriteFlightUnfold(p: Pipe)
    requires p.flight.Some?
    ensures WriteFlight(p)
            == if p.offset >= |p.flight.value| then (p, 1)
               else
                 var (q, n) := BioWrite(p, p.flight.value[p.offset..]);
                 if n <= 0 then (q, n) else WriteFlight(q.(offset := p.offset + n))
  {
    hide BioWrite;
  }

  /** A connection on which nothing has been written. */
  function NewPipe(answers: seq<int>, seals: seq<Option<Bytes>>, mallocs: seq<Option<Placement>>): Pipe {
    Pipe([], [], 0, None, 0, 0, false, 0, 0, 0, false, None, answers, seals, mallocs, [], [])
  }

  class Writer {
    const writeBuffer: SSLBuffer
    var pendingFlight: Option<Bytes>
    var pendingFlightOffset: nat
    var wnum: nat
    var wpendPending: bool
    var wpendTot: nat
    var wpendRet: nat
    var wpendBuf: nat
    var wpendType: nat
    var writeShutdown: bool
    var sendAlert: Option<Bytes>
    var answers: seq<int>
    var seals: seq<Option<Bytes>>
    var mallocs: seq<Option<Placement>>
    ghost var sent: Bytes
    ghost var sealed: seq<Record>

    ghost predicate Valid()
      reads this, writeBuffer
    {
      && writeBuffer.Valid()
      && pendingFlightOffset <= (if pendingFlight.Some? then |pendingFlight.value| else 0)
      && wpendRet == wpendTot
    }

    ghost function View(): Pipe
      requires Valid()
      reads this, writeBuffer, writeBuffer.buf
    {
      Pipe(writeBuffer.Slack(), writeBuffer.Contents(), writeBuffer.cap, pendingFlight, pendingFlightOffset, wnum,
           wpendPending, wpendTot, wpendBuf, wpendType, writeShutdown, sendAlert, answers, seals, mallocs, sent, sealed)
    }

    /** How much of the flight is still to be written. */
    function Waiting(): nat
      requires Valid()
      reads this, writeBuffer
    {
      if pendingFlight.Some? then |pendingFlight.value| - pendingFlightOffset else 0
    }

    constructor (answers: seq<int>, seals: seq<Option<Bytes>>, mallocs: seq<Option<Placement>>)
      ensures Valid() && View() == NewPipe(answers, seals, mallocs) && fresh(writeBuffer) && writeBuffer.buf == null
    {
      writeBuffer := new SSLBuffer();
      pendingFlight, pendingFlightOffset := None, 0;
      wnum, wpendPending, wpendTot, wpendRet, wpendBuf, wpendType := 0, false, 0, 0, 0, 0;
      writeShutdown, sendAlert := false, None;
      this.answers, this.seals, this.mallocs := answers, seals, mallocs;
      sent, sealed := [], [];
    }

    /** BIO_write; how much the transport takes is for `answers` to say. */
    method BioWrite(data: Bytes) returns (n: int)
      requires Valid()
      modifies this`answers, this`sent
      ensures Valid() && (View(), n) == WriteQueue.BioWrite(old(View()), data)
    {
      if answers == [] {
        return -1;
      }
      n := if answers[0] > |data| then |data| else answers[0];
      answers := answers[1..];
      if n > 0 {
        sent := sent + data[..n];
      }
    }

    method BioFlush() returns (n: int)
      requires Valid()
      modifies this`answers
      ensures Valid() && (View(), n) == WriteQueue.BioFlush(old(View()))
    {
      if answers == [] {
        return -1;
      }
      n := answers[0];
      answers := answers[1..];
    }

    /** tls_seal_record. */
    method SealRecord(cfg: Config, kind: nat, body: Bytes) returns (out: Option<Bytes>)
      requires Valid()
      modifies this`seals, this`sealed
      ensures Valid() && (View(), out) == Seal(old(View()), cfg, kind, body)
    {
      if seals == [] {
        return None;
      }
      out := seals[0];
      seals := seals[1..];
      if out.None? || |out.value| > |body| + cfg.sealOverhead {
        return None;
      }
      sealed := sealed + [Record(kind, body, out.value)];
    }

    method ConsumeBuffer(n: nat)
      requires Valid() && n <= writeBuffer.size
      modifies writeBuffer
      ensures Valid() && View() == Consume(old(View()), n)
      ensures writeBuffer.buf == old(writeBuffer.buf) && writeBuffer.size == old(writeBuffer.size) - n
    {
      writeBuffer.Consume(n);
    }

    /** ssl_write_buffer_flush. */
    method FlushWriteBuffer() returns (ret: int)
      requires Valid()
      modifies this`answers, this`sent, writeBuffer
      ensures Valid() && (View(), ret) == FlushBuffer(old(View()))
      ensures writeBuffer.buf == old(writeBuffer.buf) || writeBuffer.buf == null
    {
      hide WriteQueue.BioWrite, Consume, FlushBuffer;
      ghost var goal := FlushBuffer(View());
      while writeBuffer.size != 0
        invariant Valid() && writeBuffer.buf == old(writeBuffer.buf)
        invariant FlushBuffer(View()) == goal
        decreases writeBuffer.size
      {
        FlushOnce(View());
        ret := BioWrite(writeBuffer.Contents());
        if ret <= 0 {
          return;
        }
        ConsumeBuffer(ret);
      }
      FlushNothing(View());
      writeBuffer.Clear();
      ret := 1;
    }

    /** add_record_to_flight. */
    method AddRecordToFlight(cfg: Config, kind: nat, body: Bytes) returns (ok: bool)
      requires Valid()
      modifies this`pendingFlight, this`seals, this`sealed
      ensures Valid() && (View(), ok) == AddRecord(old(View()), cfg, kind, body)
    {
      if pendingFlight.None? {
        pendingFlight := Some([]);
      }
      var out := SealRecord(cfg, kind, body);
      if out.None? {
        return false;
      }
      pendingFlight := Some(pendingFlight.value + out.value);
      ok := true;
    }

    /** ssl3_add_message. */
    method AddHandshakeMessage(cfg: Config, msg: Bytes) returns (ok: bool)
      requires Valid() && cfg.maxSendFragment > 0
      modifies this`pendingFlight, this`seals, this`sealed
      ensures Valid() && (View(), ok) == AddMessage(old(View()), cfg, msg)
    {
      hide AddRecord;
      var rest := msg;
      ok := true;
      var more := true;
      while more
        invariant Valid()
        invariant more ==> AddMessage(old(View()), cfg, msg) == AddMessage(View(), cfg, rest)
        invariant !more ==> AddMessage(old(View()), cfg, msg) == (View(), true)
        decreases more, |rest|
      {
        var n := if |rest| < cfg.maxSendFragment then |rest| else cfg.maxSendFragment;
        ok := AddRecordToFlight(cfg, HANDSHAKE, rest[..n]);
        if !ok {
          return;
        }
        rest := rest[n..];
        more := rest != [];
      }
      ok := true;
    }

    method FlushIfNotEmpty() returns (ret: int)
      requires Valid()
      modifies this`answers, this`sent, writeBuffer
      ensures Valid() && (View(), ret) == FlushIfAny(old(View()))
      ensures writeBuffer.buf == old(writeBuffer.buf) || writeBuffer.buf == null
    {
      ret := 1;
      if writeBuffer.size != 0 {
        ret := FlushWriteBuffer();
      }
    }

    /** ssl3_flush_flight. */
    method FlushPendingFlight() returns (ret: int)
      requires Valid()
      modifies this`answers, this`sent, this`pendingFlight, this`pendingFlightOffset, writeBuffer
      ensures Valid() && (View(), ret) == FlushFlight(old(View()))
      ensures writeBuffer.buf == old(writeBuffer.buf) || writeBuffer.buf == null
    {
      hide FlushIfAny, WriteFlight, WriteQueue.BioFlush, SSLBuffer.Slack, SSLBuffer.Contents, SSLBuffer.Valid;
      if pendingFlight.None? {
        return 1;
      }
      if writeShutdown || |pendingFlight.value| > INT_MAX {
        return -1;
      }
      ret := FlushIfNotEmpty();
      if ret <= 0 {
        return;
      }
      ret := WritePendingFlight();
      if ret <= 0 {
        return;
      }
      ret := BioFlush();
      if ret <= 0 {
        return -1;
      }
      pendingFlight, pendingFlightOffset := None, 0;
      ret := 1;
    }

    method WritePendingFlight() returns (ret: int)
      requires Valid() && pendingFlight.Some?
      modifies this`answers, this`sent, this`pendingFlightOffset
      ensures Valid() && (View(), ret) == WriteFlight(old(View()))
    {
      hide WriteQueue.BioWrite, WriteFlight;
      while pendingFlightOffset < |pendingFlight.value|
        invariant Valid() && pendingFlight.Some?
        invariant WriteFlight(View()) == WriteFlight(old(View()))
        decreases |pendingFlight.value| - pendingFlightOffset
      {
        WriteFlightUnfold(View());
        ret := BioWrite(pendingFlight.value[pendingFlightOffset..]);
        if ret <= 0 {
          return;
        }
        pendingFlightOffset := pendingFlightOffset + ret;
      }
      WriteFlightUnfold(View());
      ret := 1;
    }

    /** ssl3_write_pending. */
    method WriteBlocked(cfg: Config, kind: nat, addr: nat, len: nat) returns (ret: int)
      requires Valid()
      modifies this`answers, this`sent, this`wpendPending, writeBuffer
      ensures Valid() && ret <= len && (View(), ret) == WritePending(old(View()), cfg, kind, addr, len)
      ensures writeBuffer.buf == old(writeBuffer.buf) || writeBuffer.buf == null
    {
      hide FlushBuffer;
      if wpendTot > len || (!cfg.movingBuffer && wpendBuf != addr) || wpendType != kind {
        return -1;
      }
      ret := FlushWriteBuffer();
      if ret <= 0 {
        return;
      }
      wpendPending := false;
      ret := wpendRet;
    }

    /** Asks for room in the write buffer. */
    method MakeRoom(headerLen: nat, newCap: nat) returns (ok: bool)
      requires Valid()
      modifies this`mallocs, writeBuffer
      ensures Valid() && (View(), ok) == EnsureCap(old(View()), headerLen, newCap)
      ensures ok && newCap > 0 ==> writeBuffer.buf != null && newCap <= writeBuffer.cap
      ensures writeBuffer.buf == old(writeBuffer.buf) || fresh(writeBuffer.buf)
    {
      hide Memory, AlignedOffset;
      if newCap > MAX_BUFFER || newCap <= writeBuffer.cap || mallocs == [] {
        ok := writeBuffer.EnsureCap(headerLen, newCap, None);
      } else {
        var place := mallocs[0];
        mallocs := mallocs[1..];
        ok := writeBuffer.EnsureCap(headerLen, newCap, place);
      }
    }

    /** Moves unwritten handshake data into the write buffer. */
    method TakeOverFlight()
      requires Valid() && writeBuffer.size == 0 && writeBuffer.buf != null && Waiting() <= writeBuffer.cap
      modifies this`pendingFlight, this`pendingFlightOffset, writeBuffer, writeBuffer.buf
      ensures Valid() && View() == TakeOver(old(View())) && writeBuffer.buf == old(writeBuffer.buf)
      ensures writeBuffer.cap == old(writeBuffer.cap) && writeBuffer.size == old(Waiting())
    {
      if pendingFlight.Some? {
        var rest := pendingFlight.value[pendingFlightOffset..];
        writeBuffer.Append(rest);
        assert [] + rest == rest;
        pendingFlight, pendingFlightOffset := None, 0;
      }
    }

    method AppendToBuffer(bytes: Bytes)
      requires Valid() && writeBuffer.buf != null && |bytes| <= writeBuffer.cap - writeBuffer.size
      modifies writeBuffer, writeBuffer.buf
      ensures Valid() && writeBuffer.buf == old(writeBuffer.buf)
      ensures View() == old(View()).(buffer := old(View()).buffer + bytes)
    {
      writeBuffer.Append(bytes);
    }

    method RememberPending(kind: nat, addr: nat, len: nat)
      requires Valid()
      modifies this`wpendTot, this`wpendRet, this`wpendBuf, this`wpendType, this`wpendPending
      ensures Valid()
      ensures View() == old(View()).(wpendPending := true, wpendTot := len, wpendBuf := addr, wpendType := kind)
    {
      hide SSLBuffer.Slack, SSLBuffer.Contents, SSLBuffer.Valid;
      wpendTot, wpendBuf, wpendType, wpendRet := len, addr, kind, len;
      wpendPending := true;
    }

    /** Seals one record behind what the buffer holds and remembers it as pending. */
    method SealIntoWriteBuffer(cfg: Config, kind: nat, addr: nat, body: Bytes) returns (ok: bool)
      requires Valid() && writeBuffer.buf != null && writeBuffer.cap - writeBuffer.size >= |body| + cfg.sealOverhead
      modifies this, writeBuffer, writeBuffer.buf
      ensures Valid() && writeBuffer.buf == old(writeBuffer.buf)
      ensures var (r, out) := Seal(old(View()), cfg, kind, body);
              match out
              case None => !ok && View() == r
              case Some(bytes) => ok && View() == AfterSeal(r, kind, addr, body, bytes)
    {
      hide Seal;
      var out := SealRecord(cfg, kind, body);
      ok := out.Some?;
      if ok {
        AppendToBuffer(out.value);
        RememberPending(kind, addr, |body|);
      }
    }

    /** The middle of do_ssl3_write. */
    method FillWriteBuffer(cfg: Config, kind: nat, addr: nat, body: Bytes) returns (ok: bool)
      requires Valid() && writeBuffer.size == 0 && body != []
      modifies this, writeBuffer, writeBuffer.buf
      ensures Valid() && (View(), ok) == Fill(old(View()), cfg, kind, addr, body)
      ensures writeBuffer.buf == old(writeBuffer.buf) || fresh(writeBuffer.buf)
    {
      hide Seal, EnsureCap, TakeOver;
      var flightLen := Waiting();
      assert |FlightRest(View())| == flightLen;
      hide FlightRest;
      ok := MakeRoom(flightLen + cfg.alignPrefix, flightLen + |body| + cfg.sealOverhead);
      if ok {
        TakeOverFlight();
        ok := SealIntoWriteBuffer(cfg, kind, addr, body);
      }
    }

    /** do_ssl3_write. */
    method WriteRecord(cfg: Config, kind: nat, addr: nat, body: Bytes) returns (ret: int)
      requires Valid()
      modifies this, writeBuffer, writeBuffer.buf
      ensures Valid() && (View(), ret) == DoWrite(old(View()), cfg, kind, addr, body)
      ensures writeBuffer.buf == old(writeBuffer.buf) || writeBuffer.buf == null || fresh(writeBuffer.buf)
    {
      hide WritePending, Fill;
      if wpendPending {
        ret := WriteBlocked(cfg, kind, addr, |body|);
        return;
      }
      if |body| > MAX_PLAIN_LENGTH || writeBuffer.size != 0 {
        return -1;
      }
      if body == [] {
        return 0;
      }
      var ok := FillWriteBuffer(cfg, kind, addr, body);
      if !ok {
        return -1;
      }
      ret := WriteBlocked(cfg, kind, addr, |body|);
    }

    /** ssl3_write_app_data. */
    method WriteAppData(cfg: Config, addr: nat, data: Bytes) returns (ret: int)
      requires Valid()
      modifies this, writeBuffer, writeBuffer.buf
      ensures Valid() && (View(), ret) == WriteApp(old(View()), cfg, addr, data)
      ensures writeBuffer.buf == old(writeBuffer.buf) || writeBuffer.buf == null || fresh(writeBuffer.buf)
    {
      hide DoWrite, AppLoop;
      if writeShutdown {
        return -1;
      }
      var tot := wnum;
      wnum := 0;
      if |data| < tot {
        return -1;
      }
      ghost var goal := AppLoop(View(), cfg, addr, data, tot);
      while true
        invariant Valid() && tot <= |data|
        invariant goal == AppLoop(View(), cfg, addr, data, tot)
        invariant writeBuffer.buf == old(writeBuffer.buf) || writeBuffer.buf == null || fresh(writeBuffer.buf)
        decreases |data| - tot
      {
        var n := |data| - tot;
        var nw := if n > cfg.maxSendFragment then cfg.maxSendFragment else n;
        AppLoopUnfold(View(), cfg, addr, data, tot);
        ret := WriteRecord(cfg, APPLICATION_DATA, addr + tot, data[tot..tot + nw]);
        if ret <= 0 {
          wnum := tot;
          return;
        }
        if ret == n || cfg.partialWrite {
          ret := tot + ret;
          return;
        }
        tot := tot + ret;
      }
    }

    /** ssl3_dispatch_alert. */
    method DispatchPendingAlert(cfg: Config) returns (ret: int)
      requires Valid() && sendAlert.Some?
      modifies this, writeBuffer, writeBuffer.buf
      ensures Valid() && (View(), ret) == DispatchAlert(old(View()), cfg)
      ensures writeBuffer.buf == old(writeBuffer.buf) || writeBuffer.buf == null || fresh(writeBuffer.buf)
    {
      hide DoWrite;
      var fatal := Fatal(sendAlert.value);
      ret := WriteRecord(cfg, ALERT, ALERT_ADDRESS, sendAlert.value);
      if ret > 0 {
        sendAlert := None;
        if fatal {
          var _ := BioFlush();
        }
        ret := 1;
      }
    }

    /** ssl_send_alert. */
    method SendClosingAlert(cfg: Config, level: byte, desc: byte) returns (ret: int)
      requires Valid()
      modifies this, writeBuffer, writeBuffer.buf
      ensures Valid() && (View(), ret) == SendAlert(old(View()), cfg, level, desc)
      ensures writeBuffer.buf == old(writeBuffer.buf) || writeBuffer.buf == null || fresh(writeBuffer.buf)
    {
      hide DispatchAlert;
      if writeShutdown {
        return -1;
      }
      writeShutdown := true;
      sendAlert := Some([level, desc]);
      if writeBuffer.size != 0 {
        return -1;
      }
      ret := DispatchPendingAlert(cfg);
    }
  }

  // ---- any run of the writer ----

  /** One writer through any schedule of handshake messages, flight records, flushes, writes and
      alerts, with any answers of the transport, the record cipher and malloc. As long as every
      capacity asked for is safe, what was sent is a prefix of all sealed records in the order of
      sealing; and if the caller is honest about `stream`, each of its bytes was sealed once and in
      order, whatever the capacities. */
  method Drive(events: seq<Runs.Event>, answers: seq<int>, seals: seq<Option<Bytes>>, mallocs: seq<Option<Placement>>,
      ghost stream: Bytes) returns (w: Writer, acked: nat)
    requires forall e :: e in events ==> Runs.WFEvent(e)
    ensures fresh(w) && w.Valid()
    ensures var start := Runs.Session(NewPipe(answers, seals, mallocs), 0);
            && Runs.Session(w.View(), acked) == Runs.Run(start, events)
            && (Runs.AllSafe(start, events) ==> InOrder(w.View()) && w.sent <= AllBytes(w.sealed))
            && (Runs.AllHonest(start, events, stream) ==> Bodies(w.sealed, APPLICATION_DATA) <= stream)
  {
    hide Runs.Run, Runs.Step, Runs.AllSafe, Runs.AllHonest, InOrder, Steady, AllBytes, Bodies;
    w := new Writer(answers, seals, mallocs);
    acked := 0;
    ghost var start := Runs.Session(NewPipe(answers, seals, mallocs), 0);
    assert events[0..] == events;
    for i := 0 to |events|
      invariant fresh(w) && fresh(w.writeBuffer) && w.Valid()
      invariant w.writeBuffer.buf == null || fresh(w.writeBuffer.buf)
      invariant Runs.Run(Runs.Session(w.View(), acked), events[i..]) == Runs.Run(start, events)
    {
      Runs.RunOnce(Runs.Session(w.View(), acked), events[i..]);
      assert events[i..][1..] == events[i + 1..];
      acked := OneEvent(w, events[i], acked);
    }
    Runs.RunNothing(Runs.Session(w.View(), acked), events[|events|..]);
    NewPipeOk(answers, seals, mallocs, stream);
    if Runs.AllSafe(start, events) {
      Runs.SentIsPrefixOfSealed(start, events);
    }
    if Runs.AllHonest(start, events, stream) {
      Runs.SealedExactlyOnce(start, events, stream);
    }
  }

  method OneEvent(w: Writer, e: Runs.Event, acked: nat) returns (acked': nat)
    requires w.Valid() && Runs.WFEvent(e)
    modifies w, w.writeBuffer, w.writeBuffer.buf
    ensures w.Valid() && Runs.Session(w.View(), acked') == Runs.Step(Runs.Session(old(w.View()), acked), e)
    ensures w.writeBuffer.buf == old(w.writeBuffer.buf) || w.writeBuffer.buf == null || fresh(w.writeBuffer.buf)
  {
    hide AddMessage, AddRecord, FlushFlight, WriteApp, SendAlert, DispatchAlert;
    acked' := acked;
    match e
    case Message(cfg, msg) => var _ := w.AddHandshakeMessage(cfg, msg);
    case FlightRecord(cfg, kind, body) => var _ := w.AddRecordToFlight(cfg, kind, body);
    case Flush => var _ := w.FlushPendingFlight();
    case Write(cfg, addr, data) =>
      var ret := w.WriteAppData(cfg, addr, data);
      acked' := if ret > 0 then acked + ret else acked;
    case Close(cfg, level, desc) => var _ := w.SendClosingAlert(cfg, level, desc);
    case RetryAlert(cfg) =>
      if w.sendAlert.Some? {
        var _ := w.DispatchPendingAlert(cfg);
      }
  }

  lemma {:induction false} NewPipeOk(answers: seq<int>, seals: seq<Option<Bytes>>, mallocs: seq<Option<Placement>>,
      stream: Bytes)
    ensures var p := NewPipe(answers, seals, mallocs);
            InOrder(p) && Steady(p) && Runs.Accounted(p, 0, stream)
  {
    assert stream[..0] == [];
  }

  // ---- a run that breaks the order ----

  /** Before keys are agreed: a five-byte header and no cipher. */
  const PLAIN: Config := Config(16384, 5, 5, false, false)

  /** A handshake message of about 64K is in the flight, unflushed, when an alert is sent behind it.
      malloc puts the write buffer where its contents begin seven bytes in, and the transport takes
      `k` bytes, up to the 16-bit limit, before it takes the rest. The alert is reported as sent, but
      the last bytes on the wire are those that were in memory in front of the buffer. */
  method MemoryIsSent(msg: Bytes, outs: seq<Bytes>, out: Bytes, place: Placement, k: nat) returns (w: Writer, ret: int)
    requires 65503 <= |msg| <= 65508 && |outs| == 4 && |out| == 7
    requires |outs[0]| == |outs[1]| == |outs[2]| == 16389 && |outs[3]| == |msg| - 49147
    requires (place.address + |msg| + 32) % 8 == 0 && U16 - 7 <= k < |msg| + 27
    ensures var due := outs[0] + outs[1] + outs[2] + outs[3] + out;
            && ret == 1 && AllBytes(w.sealed) == due
            && w.sent == due[..k] + Memory(place, 7)[k - (U16 - 7)..|due| - (U16 - 7)]
            && (Memory(place, 7)[k - (U16 - 7)] != due[k] ==> !(w.sent <= AllBytes(w.sealed)))
  {
    hide AddMessage, SendAlert, Memory, AllBytes, Runs.Concat, Runs.Cuts;
    FourJoined(outs);
    ghost var flight := outs[0] + outs[1] + outs[2] + outs[3];
    var seals := [Some(outs[0]), Some(outs[1]), Some(outs[2]), Some(outs[3]), Some(out)];
    w := new Writer([k, |msg| + 27 - k], seals, [Some(place)]);
    CutsInFour(msg, outs);
    Runs.MessageJoins(w.View(), PLAIN, msg, outs);
    var added := w.AddHandshakeMessage(PLAIN, msg);
    ghost var q := w.View();
    assert [] + flight == flight;
    NothingSealed();
    assert q.seals == [Some(out)];
    AlertAfter(q, out, place, flight, k);
    ret := w.SendClosingAlert(PLAIN, 2, 40);
    AllBytesSnoc(q.sealed, Record(ALERT, [2, 40], out));
    SlackIsSent(flight + out, k, Memory(place, 7)[k - (U16 - 7)..|flight + out| - (U16 - 7)]);
  }

  lemma {:induction false} NothingSealed()
    ensures AllBytes([]) == []
  {
  }

  lemma {:induction false} SlackIsSent(due: Bytes, k: nat, junk: Bytes)
    requires k < |due| && |junk| == |due| - k
    ensures [] + due[..k] + junk == due[..k] + junk
    ensures junk[0] != due[k] ==> !(due[..k] + junk <= due)
  {
    assert (due[..k] + junk)[k] == junk[0];
  }

  lemma {:induction false} FourJoined(outs: seq<Bytes>)
    requires |outs| == 4
    ensures Runs.Concat(outs) == outs[0] + outs[1] + outs[2] + outs[3]
  {
    var one, two, three := outs[1..], outs[1..][1..], outs[1..][1..][1..];
    assert Runs.Concat(three[1..]) == [];
    assert Runs.Concat(three) == outs[3] + [] == outs[3];
    assert Runs.Concat(two) == outs[2] + outs[3];
    assert Runs.Concat(one) == outs[1] + (outs[2] + outs[3]);
    assert Runs.Concat(outs) == outs[0] + (outs[1] + (outs[2] + outs[3]));
  }

  lemma {:induction false} CutsInFour(msg: Bytes, outs: seq<Bytes>)
    requires 65503 <= |msg| <= 65508 && |outs| == 4
    requires |outs[0]| == |outs[1]| == |outs[2]| == 16389 && |outs[3]| == |msg| - 49147
    ensures Runs.Cuts(PLAIN, msg, outs)
  {
    var a, b, c := msg[16384..], msg[16384..][16384..], msg[16384..][16384..][16384..];
    assert Runs.Cuts(PLAIN, c, outs[1..][1..][1..]);
    assert Runs.Cuts(PLAIN, b, outs[1..][1..]);
    assert Runs.Cuts(PLAIN, a, outs[1..]);
  }

  lemma {:induction false} AlertAfter(q: Pipe, out: Bytes, place: Placement, flight: Bytes, k: nat)
    requires q.flight == Some(flight) && q.offset == 0 && q.buffer == [] && q.cap == 0 && !q.wpendPending && !q.shutdown
    requires 65523 <= |flight| <= 65528 && |out| == 7 && U16 - 7 <= k < |flight| + 7
    requires (place.address + |flight| + 12) % 8 == 0
    requires q.seals == [Some(out)] && q.mallocs == [Some(place)] && q.answers == [k, |flight| + 7 - k]
    ensures var (r, ret) := SendAlert(q, PLAIN, 2, 40);
            var due := flight + out;
            && ret == 1 && r.sealed == q.sealed + [Record(ALERT, [2, 40], out)]
            && r.sent == q.sent + due[..k] + Memory(place, 7)[k - (U16 - 7)..|due| - (U16 - 7)]
  {
    hide DoWrite, Memory;
    var t := q.(shutdown := true, alert := Some([2, 40]));
    assert FlightRest(t) == flight;
    Runs.UnsafeWrite(t, PLAIN, ALERT, ALERT_ADDRESS, [2, 40], place, out, k);
  }
}
