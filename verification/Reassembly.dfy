/** One incoming handshake message and the bitmask of the body bytes it has received.
    The bitmask is proved to be the plain set of received positions. */
module Reassembly {
  import opened Wire

  // ---- bits of one mask byte ----

  predicate TestBit(b: bv8, k: nat)
    requires k < 8
  {
    (b >> k) & 1 == 1
  }

  /** bit_range: bits `start`, inclusive, to `end`, exclusive. */
  function BitRange(start: nat, end: nat): bv8
    requires start <= 8 && end <= 8
  {
    var r: bv32 := !(((1 as bv32) << start) - 1) & (((1 as bv32) << end) - 1);
    (r & 0xff) as bv8
  }

  lemma {:induction false} BitRangeBits(start: nat, end: nat, k: nat)
    requires start <= 8 && end <= 8 && k < 8
    ensures TestBit(BitRange(start, end), k) <==> start <= k < end
  {
  }

  lemma {:induction false} OrBit(a: bv8, b: bv8, k: nat)
    requires k < 8
    ensures TestBit(a | b, k) <==> TestBit(a, k) || TestBit(b, k)
  {
    if k == 0 {} else if k == 1 {} else if k == 2 {} else if k == 3 {}
    else if k == 4 {} else if k == 5 {} else if k == 6 {} else {}
  }

  /** A mask byte is determined by its bits. */
  lemma {:induction false} SameBits(a: bv8, b: bv8)
    requires forall k: nat :: k < 8 ==> TestBit(a, k) == TestBit(b, k)
    ensures a == b
  {
    assert TestBit(a, 0) == TestBit(b, 0);
    assert TestBit(a, 1) == TestBit(b, 1);
    assert TestBit(a, 2) == TestBit(b, 2);
    assert TestBit(a, 3) == TestBit(b, 3);
    assert TestBit(a, 4) == TestBit(b, 4);
    assert TestBit(a, 5) == TestBit(b, 5);
    assert TestBit(a, 6) == TestBit(b, 6);
    assert TestBit(a, 7) == TestBit(b, 7);
  }

  // ---- the mask as a set ----

  predicate MaskHas(mask: seq<bv8>, i: nat)
    requires i < 8 * |mask|
  {
    TestBit(mask[i / 8], i % 8)
  }

  function MaskLength(msgLen: nat): nat { (msgLen + 7) / 8 }

  function Range(start: nat, end: nat): (r: set<nat>)
    ensures forall i :: i in r <==> start <= i < end
    decreases end
  {
    if end <= start then {} else Range(start, end - 1) + {end - 1}
  }

  function MaskSet(mask: seq<bv8>, msgLen: nat): (s: set<nat>)
    requires |mask| == MaskLength(msgLen)
    ensures forall i :: i in s <==> 0 <= i < msgLen && MaskHas(mask, i)
  {
    set i: nat | i < msgLen && MaskHas(mask, i)
  }

  /** No bit past the message is set. */
  predicate TailClear(mask: seq<bv8>, msgLen: nat)
    requires |mask| == MaskLength(msgLen)
  {
    forall i :: msgLen <= i < 8 * |mask| ==> !MaskHas(mask, i)
  }

  /** The completeness test of the mask: whole bytes 0xff, last byte exactly its low bits. */
  predicate MaskFull(mask: seq<bv8>, msgLen: nat)
    requires |mask| == MaskLength(msgLen)
  {
    && (forall j :: 0 <= j < msgLen / 8 ==> mask[j] == 0xff)
    && (msgLen % 8 != 0 ==> mask[msgLen / 8] == BitRange(0, msgLen % 8))
  }

  lemma {:induction false} FullByte(b: bv8)
    ensures b == 0xff <==> forall k: nat :: k < 8 ==> TestBit(b, k)
  {
    if forall k: nat :: k < 8 ==> TestBit(b, k) {
      SameBits(b, 0xff);
    }
  }

  lemma {:induction false} FullMaskIsWholeRange(mask: seq<bv8>, msgLen: nat)
    requires |mask| == MaskLength(msgLen) && TailClear(mask, msgLen)
    ensures MaskFull(mask, msgLen) <==> MaskSet(mask, msgLen) == Range(0, msgLen)
  {
    hide MaskFull, TailClear;
    if MaskFull(mask, msgLen) {
      FullMaskHasAll(mask, msgLen);
    }
    if MaskSet(mask, msgLen) == Range(0, msgLen) {
      assert forall i: nat :: i < msgLen ==> i in Range(0, msgLen);
      AllBitsFillMask(mask, msgLen);
    }
  }

  lemma {:induction false} FullMaskHasAll(mask: seq<bv8>, msgLen: nat)
    requires |mask| == MaskLength(msgLen) && MaskFull(mask, msgLen)
    ensures forall i: nat :: i < msgLen ==> MaskHas(mask, i)
  {
    hide TestBit, BitRange;
    forall i: nat | i < msgLen
      ensures MaskHas(mask, i)
    {
      if i / 8 < msgLen / 8 {
        FullByte(mask[i / 8]);
      } else {
        BitRangeBits(0, msgLen % 8, i % 8);
      }
    }
  }

  lemma {:induction false} AllBitsFillMask(mask: seq<bv8>, msgLen: nat)
    requires |mask| == MaskLength(msgLen) && TailClear(mask, msgLen)
    requires forall i: nat :: i < msgLen ==> MaskHas(mask, i)
    ensures MaskFull(mask, msgLen)
  {
    hide TestBit, BitRange;
    forall j | 0 <= j < msgLen / 8
      ensures mask[j] == 0xff
    {
      forall k: nat | k < 8
        ensures TestBit(mask[j], k)
      {
        assert MaskHas(mask, 8 * j + k);
      }
      FullByte(mask[j]);
    }
    if msgLen % 8 != 0 {
      var j, r := msgLen / 8, msgLen % 8;
      forall k: nat | k < 8
        ensures TestBit(mask[j], k) == TestBit(BitRange(0, r), k)
      {
        BitRangeBits(0, r, k);
        assert MaskHas(mask, 8 * j + k) == TestBit(mask[j], k);
      }
      SameBits(mask[j], BitRange(0, r));
    }
  }

  /** What marking `[start, end)` does to bit `i` of the mask. */
  predicate MarksUpTo(before: seq<bv8>, after: seq<bv8>, start: nat, end: nat)
    requires |before| == |after|
  {
    forall i :: 0 <= i < 8 * |after| ==> (MaskHas(after, i) <==> MaskHas(before, i) || start <= i < end)
  }

  lemma {:induction false} OrRangeMarks(before: seq<bv8>, j: nat, lo: nat, hi: nat)
    requires j < |before| && lo <= 8 && hi <= 8
    ensures MarksUpTo(before, before[j := before[j] | BitRange(lo, hi)], 8 * j + lo, 8 * j + hi)
  {
    hide TestBit, BitRange;
    var after := before[j := before[j] | BitRange(lo, hi)];
    forall i | 0 <= i < 8 * |after|
      ensures MaskHas(after, i) <==> MaskHas(before, i) || 8 * j + lo <= i < 8 * j + hi
    {
      if i / 8 == j {
        OrBit(before[j], BitRange(lo, hi), i % 8);
        BitRangeBits(lo, hi, i % 8);
      }
    }
  }

  lemma {:induction false} FullByteMarks(before: seq<bv8>, j: nat)
    requires j < |before|
    ensures MarksUpTo(before, before[j := 0xff], 8 * j, 8 * j + 8)
  {
    hide TestBit;
    var after := before[j := 0xff];
    FullByte(0xff);
    forall i | 0 <= i < 8 * |after|
      ensures MaskHas(after, i) <==> MaskHas(before, i) || 8 * j <= i < 8 * j + 8
    {
      assert i / 8 == j ==> TestBit(0xff, i % 8);
    }
  }

  lemma {:induction false} MarksChain(a: seq<bv8>, b: seq<bv8>, c: seq<bv8>, start: nat, mid: nat, end: nat)
    requires |a| == |b| == |c| && start <= mid <= end
    requires MarksUpTo(a, b, start, mid) && MarksUpTo(b, c, mid, end)
    ensures MarksUpTo(a, c, start, end)
  {
    hide MaskHas;
  }

  lemma {:induction false} MarkedSet(before: seq<bv8>, after: seq<bv8>, msgLen: nat, start: nat, end: nat)
    requires |before| == |after| == MaskLength(msgLen) && start <= end <= msgLen
    requires TailClear(before, msgLen) && MarksUpTo(before, after, start, end)
    ensures TailClear(after, msgLen)
    ensures MaskSet(after, msgLen) == MaskSet(before, msgLen) + Range(start, end)
  {
    hide MaskHas;
  }

  // ---- the message being reassembled ----

  function WholeHeader(msgType: nat, msgLen: nat, seqNum: nat): HmHeader {
    HmHeader(msgType, msgLen, seqNum, 0, msgLen)
  }

  /** An incoming message as a value. `eras` tells which read epochs, counted from the start of the
      connection, its bytes were received in; the program keeps no such field. */
  datatype Incoming = Incoming(msgType: nat, seqNum: nat, msgLen: nat, data: seq<byte>,
                               received: set<nat>, eras: set<nat>)
  {
    predicate Complete() { received == Range(0, msgLen) }
  }

  function NewIncoming(h: HmHeader): Incoming {
    var head := HeaderBytes(WholeHeader(h.msgType, h.msgLen, h.seqNum));
    Incoming(h.msgType, h.seqNum, h.msgLen, head + seq(h.msgLen, _ => 0), {}, {})
  }

  /** `data` with `part` written over it at `offset`. */
  function Overwrite(data: seq<byte>, offset: nat, part: seq<byte>): (r: seq<byte>)
    requires offset + |part| <= |data|
    ensures |r| == |data|
    ensures forall i :: 0 <= i < |data| ==> r[i] == if offset <= i < offset + |part| then part[i - offset] else data[i]
  {
    data[..offset] + part + data[offset + |part|..]
  }

  function AddBytes(m: Incoming, f: Fragment, era: nat): Incoming
    requires |m.data| == HM_HEADER_LENGTH + m.msgLen && f.header.fragOff + |f.body| <= m.msgLen
  {
    m.(data := Overwrite(m.data, HM_HEADER_LENGTH + f.header.fragOff, f.body),
       received := m.received + Range(f.header.fragOff, f.header.fragOff + |f.body|),
       eras := m.eras + {era})
  }

  /** A zeroed bit mask. */
  method NewMask(msgLen: nat) returns (mask: array<bv8>)
    ensures fresh(mask) && mask.Length == MaskLength(msgLen)
    ensures TailClear(mask[..], msgLen) && MaskSet(mask[..], msgLen) == {}
  {
    mask := new bv8[MaskLength(msgLen)](_ => 0);
    assert forall i :: 0 <= i < 8 * mask.Length ==> !MaskHas(mask[..], i);
  }

  /** OPENSSL_memcpy into the message buffer. */
  method CopyInto(data: array<byte>, offset: nat, body: seq<byte>)
    requires offset + |body| <= data.Length
    modifies data
    ensures data[..] == Overwrite(old(data[..]), offset, body)
  {
    forall i | 0 <= i < |body| {
      data[offset + i] := body[i];
    }
    assert data[..] == Overwrite(old(data[..]), offset, body);
  }

  /** hm_fragment: `reassembly` is null once every byte of the message has arrived. */
  class HmFragment {
    const msgType: nat
    const seqNum: nat
    const msgLen: nat
    const data: array<byte>
    var reassembly: array?<bv8>
    ghost var model: Incoming

    /** The objects this message is made of. */
    ghost function Parts(): (p: set<object>)
      reads this
    {
      {this, data} + (if reassembly == null then {} else {reassembly})
    }

    ghost predicate Valid()
      reads this, data, reassembly
    {
      && data.Length == HM_HEADER_LENGTH + msgLen
      && model == Incoming(msgType, seqNum, msgLen, data[..], model.received, model.eras)
      && model.received <= Range(0, msgLen)
      && (reassembly == null <==> model.Complete())
      && (reassembly != null ==>
            && reassembly.Length == MaskLength(msgLen)
            && TailClear(reassembly[..], msgLen)
            && MaskSet(reassembly[..], msgLen) == model.received)
    }

    /** dtls1_hm_fragment_new. */
    constructor (header: HmHeader)
      ensures Valid() && fresh(Parts())
      ensures model == NewIncoming(header)
    {
      msgType, seqNum, msgLen := header.msgType, header.seqNum, header.msgLen;
      var head := HeaderBytes(WholeHeader(header.msgType, header.msgLen, header.seqNum));
      data := new byte[HM_HEADER_LENGTH + header.msgLen](i => if 0 <= i < |head| then head[i] else 0);
      reassembly := null;
      model := NewIncoming(header);
      new;
      hide MaskSet, TailClear, MaskHas, HeaderBytes;
      assert data[..] == head + seq(msgLen, _ => 0);
      if msgLen > 0 {
        assert 0 in Range(0, msgLen);
        reassembly := NewMask(msgLen);
      }
    }

    /** dtls1_hm_fragment_mark: marks body bytes `start`, inclusive, to `end`, exclusive, and
        drops the mask when the message has become complete. */
    method Mark(start: nat, end: nat)
      requires Valid() && reassembly != null && start <= end <= msgLen
      modifies this`reassembly, this`model, reassembly
      ensures Valid() && (reassembly == null || reassembly == old(reassembly))
      ensures model == old(model).(received := old(model).received + Range(start, end))
    {
      hide MarksUpTo, MaskFull, MaskHas, MaskSet;
      model := model.(received := model.received + Range(start, end));
      if start == end {
        return;
      }
      ghost var before := reassembly[..];
      SetBits(reassembly, start, end);
      MarkedSet(before, reassembly[..], msgLen, start, end);
      var complete := IsFull(reassembly, msgLen);
      FullMaskIsWholeRange(reassembly[..], msgLen);
      if complete {
        reassembly := null;
      }
    }

    /** Copies a fragment's body into place and marks it. */
    method Receive(f: Fragment, ghost era: nat)
      requires Valid() && reassembly != null && f.header.fragOff + |f.body| <= msgLen
      modifies this`reassembly, this`model, data, reassembly
      ensures Valid() && (reassembly == null || reassembly == old(reassembly))
      ensures model == AddBytes(old(model), f, era)
    {
      hide MaskSet, TailClear;
      CopyInto(data, HM_HEADER_LENGTH + f.header.fragOff, f.body);
      model := model.(data := data[..], eras := model.eras + {era});
      assert reassembly[..] == old(reassembly[..]);
      assert TailClear(reassembly[..], msgLen);
      assert MaskSet(reassembly[..], msgLen) == model.received;
      Mark(f.header.fragOff, f.header.fragOff + |f.body|);
    }
  }

  /** `mask[j] |= bit_range(lo, hi)`. */
  method OrRange(mask: array<bv8>, j: nat, lo: nat, hi: nat)
    requires j < mask.Length && lo <= 8 && hi <= 8
    modifies mask
    ensures MarksUpTo(old(mask[..]), mask[..], 8 * j + lo, 8 * j + hi)
  {
    ghost var before := mask[..];
    mask[j] := mask[j] | BitRange(lo, hi);
    OrRangeMarks(before, j, lo, hi);
    assert mask[..] == before[j := before[j] | BitRange(lo, hi)];
  }

  method SetBits(mask: array<bv8>, start: nat, end: nat)
    requires start < end <= 8 * mask.Length
    modifies mask
    ensures MarksUpTo(old(mask[..]), mask[..], start, end)
  {
    hide MarksUpTo;
    ghost var before := mask[..];
    var first, last := start / 8, end / 8;
    if first == last {
      OrRange(mask, first, start % 8, end % 8);
    } else {
      OrRange(mask, first, start % 8, 8);
      var i := first + 1;
      while i < last
        invariant first < i <= last
        invariant MarksUpTo(before, mask[..], start, 8 * i)
      {
        ghost var current := mask[..];
        FullByteMarks(current, i);
        mask[i] := 0xff;
        assert mask[..] == current[i := 0xff];
        MarksChain(before, current, mask[..], start, 8 * i, 8 * i + 8);
        i := i + 1;
      }
      if end % 8 != 0 {
        ghost var current := mask[..];
        OrRange(mask, last, 0, end % 8);
        MarksChain(before, current, mask[..], start, 8 * last, end);
      }
    }
  }

  method IsFull(mask: array<bv8>, msgLen: nat) returns (full: bool)
    requires mask.Length == MaskLength(msgLen)
    ensures full <==> MaskFull(mask[..], msgLen)
  {
    for i := 0 to msgLen / 8
      invariant forall j :: 0 <= j < i ==> mask[j] == 0xff
    {
      if mask[i] != 0xff {
        return false;
      }
    }
    return msgLen % 8 == 0 || mask[msgLen / 8] == BitRange(0, msgLen % 8);
  }
}
