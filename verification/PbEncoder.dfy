/** The encoder as the C code runs it: an output stream that either writes into a buffer or only
    counts, with two passes for submessages and packed arrays. */
module PbEncoder {
  import opened Wire
  import opened PbWire
  import opened PbMessage
  import opened PbIterator

  /** What an output stream looks like between two calls. `sizing` is a stream without callback. */
  datatype Snap = Snap(sizing: bool, maxSize: nat, written: nat, at: nat, memory: Bytes)

  ghost predicate SnapOk(s: Snap) {
    !s.sizing ==> s.written <= s.maxSize && s.at + (s.maxSize - s.written) <= |s.memory|
  }

  /** The meaning of every encoding call. It succeeds exactly when the value has an encoding and
      the buffer has room for it; a sizing stream then has counted its length, and a buffer holds
      exactly these bytes at the old position. Bytes outside the stream's room never change. */
  ghost predicate Emitted(before: Snap, after: Snap, spec: Option<Bytes>, ok: bool) {
    && SnapOk(before) && SnapOk(after)
    && after.sizing == before.sizing && after.maxSize == before.maxSize && |after.memory| == |before.memory|
    && ok == (spec.Some? && (before.sizing || before.written + |spec.value| <= before.maxSize))
    && (ok ==> after.written == before.written + |spec.value|)
    && (before.sizing ==> after.memory == before.memory && after.at == before.at)
    && (!before.sizing ==>
          && after.written >= before.written && after.at - before.at == after.written - before.written
          && after.memory[..before.at] == before.memory[..before.at]
          && after.memory[before.at + (before.maxSize - before.written)..]
              == before.memory[before.at + (before.maxSize - before.written)..]
          && (ok ==> after.memory[before.at..after.at] == spec.value))
  }

  /** Two calls in a row emit the concatenation. */
  lemma {:induction false} EmittedThen(a: Snap, b: Snap, c: Snap, first: Option<Bytes>, second: Option<Bytes>, ok: bool)
    requires Emitted(a, b, first, true) && Emitted(b, c, second, ok)
    ensures Emitted(a, c, Cat(first, second), ok)
  {
    if !a.sizing {
      var room := a.at + (a.maxSize - a.written);
      assert room == b.at + (b.maxSize - b.written);
      assert c.memory[..a.at] == c.memory[..b.at][..a.at] == b.memory[..b.at][..a.at] == b.memory[..a.at];
      if ok {
        assert c.memory[a.at..b.at] == c.memory[..b.at][a.at..] == b.memory[..b.at][a.at..] == first.value;
        assert c.memory[a.at..c.at] == c.memory[a.at..b.at] + c.memory[b.at..c.at];
      }
    }
  }

  lemma {:induction false} EmittedFailed(a: Snap, b: Snap, first: Option<Bytes>, second: Option<Bytes>)
    requires Emitted(a, b, first, false)
    ensures Emitted(a, b, Cat(first, second), false)
  {
  }

  lemma {:induction false} EmittedOk(a: Snap, b: Snap, spec: Option<Bytes>, ok: bool)
    requires Emitted(a, b, spec, ok)
    ensures SnapOk(b)
  {
  }

  /** A call that fails at once. */
  lemma {:induction false} EmittedNothing(a: Snap)
    requires SnapOk(a)
    ensures Emitted(a, a, None, false)
  {
  }

  lemma {:induction false} EmptyArray(f: Field, arraySize: nat)
    ensures EncArray(f, arraySize, []) == Some([])
  {
  }

  function Spliced(memory: Bytes, at: nat, data: Bytes): (r: Bytes)
    requires at + |data| <= |memory|
    ensures |r| == |memory|
  {
    memory[..at] + data + memory[at + |data|..]
  }

  /** buf_write. */
  method BufWrite(dest: array<byte>, at: nat, data: Bytes)
    requires at + |data| <= dest.Length
    modifies dest
    ensures dest[..] == Spliced(old(dest[..]), at, data)
  {
    var i := 0;
    while i < |data|
      invariant 0 <= i <= |data|
      invariant forall k :: 0 <= k < i ==> dest[at + k] == data[k]
      invariant forall k :: 0 <= k < dest.Length && !(at <= k < at + i) ==> dest[k] == old(dest[k])
    {
      dest[at + i] := data[i];
      i := i + 1;
    }
    ghost var now, want := dest[..], Spliced(old(dest[..]), at, data);
    forall k | 0 <= k < |now|
      ensures now[k] == want[k]
    {
      if at <= k < at + |data| {
        assert now[at + (k - at)] == data[k - at];
      }
    }
  }

  lemma {:induction false} SplicedIsEmitted(a: Snap, data: Bytes)
    requires SnapOk(a) && !a.sizing && a.written + |data| <= a.maxSize
    ensures Emitted(a, a.(written := a.written + |data|, at := a.at + |data|,
        memory := Spliced(a.memory, a.at, data)), Some(data), true)
  {
    var m := Spliced(a.memory, a.at, data);
    var room := a.at + (a.maxSize - a.written);
    assert m[..a.at] == a.memory[..a.at];
    assert m[a.at..a.at + |data|] == data;
    assert m[room..] == a.memory[room..];
  }

  lemma {:induction false} VarintSplit(value: nat)
    requires value > 0
    ensures EncVarint(value) == if value / 128 == 0 then [value % 128] else [value % 128 + 128] + EncVarint(value / 128)
    ensures value / 128 < value
  {
  }

  /** What the loop of pb_encode_varint has written, `left` being what is still to be written. */
  ghost predicate VarintSoFar(value: nat, bytes: Bytes, left: nat) {
    if left > 0 then EncVarint(value) == bytes + EncVarint(left)
    else
      && |bytes| > 0 && bytes[|bytes| - 1] >= 128
      && EncVarint(value) == bytes[..|bytes| - 1] + [bytes[|bytes| - 1] - 128]
  }

  lemma {:induction false} VarintStep(value: nat, bytes: Bytes, left: nat)
    requires left > 0 && VarintSoFar(value, bytes, left)
    ensures VarintSoFar(value, bytes + [left % 128 + 128], left / 128) && left / 128 < left
  {
    VarintSplit(left);
    hide EncVarint;
    var more := bytes + [left % 128 + 128];
    assert more[..|more| - 1] == bytes;
    assert bytes + ([left % 128 + 128] + EncVarint(left / 128)) == more + EncVarint(left / 128);
  }

  /** The loop of pb_encode_varint: low groups first, and the top bit of the last byte unset at
      the end. */
  method VarintBytes(value: nat) returns (bytes: Bytes)
    ensures bytes == EncVarint(value)
  {
    if value <= 0x7f {
      return [value];
    }
    bytes := [];
    var left: nat := value;
    assert VarintSoFar(value, [], value) by { assert [] + EncVarint(value) == EncVarint(value); }
    hide EncVarint;
    while left != 0
      invariant VarintSoFar(value, bytes, left)
      decreases left
    {
      hide VarintSoFar;
      VarintStep(value, bytes, left);
      bytes := bytes + [left % 128 + 128];
      left := left / 128;
    }
    bytes := bytes[..|bytes| - 1] + [bytes[|bytes| - 1] - 128];
  }

  /** The C code collects the bytes in an array of ten, which is enough for 64 bits. */
  lemma {:induction false} VarintFitsTen(value: nat, n: nat)
    requires n > 0 && value < Pow2(7 * n)
    ensures |EncVarint(value)| <= n
    decreases n
  {
    if value >= 128 {
      PowAdd(7, 7 * (n - 1));
      PowValues();
      hide Pow2;
      assert value / 128 < Pow2(7 * (n - 1));
      VarintFitsTen(value / 128, n - 1);
    }
  }

  lemma {:induction false} VarintFitsBuffer(value: nat)
    requires value < TWO_64
    ensures |EncVarint(value)| <= 10
  {
    PowValues();
    PowMonotone(64, 70);
    VarintFitsTen(value, 10);
  }

  class OStream {
    const buffer: array?<byte>
    var maxSize: nat
    var bytesWritten: nat
    var at: nat

    function Now(): Snap
      reads this, buffer
    {
      Snap(buffer == null, maxSize, bytesWritten, at, if buffer == null then [] else buffer[..])
    }

    ghost predicate Valid()
      reads this, buffer
    {
      SnapOk(Now())
    }

    /** PB_OSTREAM_SIZING. */
    constructor Sizing()
      ensures Valid() && Now() == Snap(true, 0, 0, 0, []) && buffer == null
    {
      buffer := null;
      maxSize := 0;
      bytesWritten := 0;
      at := 0;
    }

    /** A stream over `size` bytes of a buffer, from `start` on. */
    constructor Into(buffer: array<byte>, start: nat, size: nat)
      requires start + size <= buffer.Length
      ensures Valid() && Now() == Snap(false, size, 0, start, buffer[..]) && this.buffer == buffer
    {
      this.buffer := buffer;
      maxSize := size;
      bytesWritten := 0;
      at := start;
    }

    /** pb_write, with buf_write as the callback. */
    method Write(data: Bytes) returns (ok: bool)
      requires Valid()
      modifies this, buffer
      ensures Emitted(old(Now()), Now(), Some(data), ok)
    {
      if buffer != null {
        if bytesWritten + |data| > maxSize {
          return false;
        }
        BufWrite(buffer, at, data);
        at := at + |data|;
      }
      bytesWritten := bytesWritten + |data|;
      ok := true;
      if buffer != null {
        SplicedIsEmitted(old(Now()), data);
      }
    }

    /** pb_write on a sizing stream, which is given no bytes, only their number. */
    method Count(size: nat, ghost data: Bytes)
      requires Valid() && buffer == null && size == |data|
      modifies this
      ensures Emitted(old(Now()), Now(), Some(data), true)
    {
      bytesWritten := bytesWritten + size;
    }

    /** pb_encode_varint. */
    method EncodeVarint(value: nat) returns (ok: bool)
      requires Valid()
      modifies this, buffer
      ensures Emitted(old(Now()), Now(), Some(EncVarint(value)), ok)
    {
      var bytes := VarintBytes(value);
      ok := Write(bytes);
    }

    /** pb_encode_tag. */
    method EncodeTag(wire: nat, tag: nat) returns (ok: bool)
      requires Valid()
      modifies this, buffer
      ensures Emitted(old(Now()), Now(), Some(TagBytes(tag, wire)), ok)
    {
      ok := EncodeVarint(8 * tag + wire);
    }

    /** pb_encode_string. */
    method EncodeString(data: Bytes) returns (ok: bool)
      requires Valid()
      modifies this, buffer
      ensures Emitted(old(Now()), Now(), Delimited(Some(data)), ok)
    {
      hide Emitted, SnapOk, EncVarint;
      ghost var a := Now();
      ok := EncodeVarint(|data|);
      ghost var b := Now();
      if !ok {
        EmittedFailed(a, b, Some(EncVarint(|data|)), Some(data));
        return;
      }
      EmittedOk(a, b, Some(EncVarint(|data|)), ok);
      ok := Write(data);
      EmittedThen(a, b, Now(), Some(EncVarint(|data|)), Some(data), ok);
    }

    /** The encoders of packable types. */
    method EncodeScalar(f: Field, v: Value) returns (ok: bool)
      requires Valid() && Packable(f.ltype)
      modifies this, buffer
      ensures Emitted(old(Now()), Now(), EncScalar(f, v), ok)
    {
      if f.ltype.Fixed32? {
        ok := Write(LittleEndian(NumberOf(v) % TWO_32, 4));
      } else if f.ltype.Fixed64? {
        ok := Write(LittleEndian(NumberOf(v) % TWO_64, 8));
      } else if !IntSize(f.dataSize) {
        ok := false;
      } else if f.ltype.SVarint? {
        ok := EncodeVarint(ZigZag(NumberOf(v)));
      } else {
        ok := EncodeVarint(Unsigned64(NumberOf(v)));
      }
    }

    /** PB_ENCODERS: one item of any type. */
    method EncodeValue(f: Field, v: Value) returns (ok: bool)
      requires Valid()
      modifies this, buffer
      ensures Emitted(old(Now()), Now(), EncValue(f, v), ok)
      decreases f, 0
    {
      hide Emitted, EncVarint, CString;
      assert SnapOk(Now());
      match f.ltype
      case ByteArray =>
        if !v.Octets? || |v.bytes| + BYTES_HEADER > f.dataSize {
          EmittedNothing(Now());
          return false;
        }
        ok := EncodeString(v.bytes);
      case Text =>
        if !v.Chars? {
          EmittedNothing(Now());
          return false;
        }
        ok := EncodeString(CString(v.bytes, f.dataSize));
      case FixedBytes =>
        if !v.Octets? || |v.bytes| != f.dataSize {
          EmittedNothing(Now());
          return false;
        }
        ok := EncodeString(v.bytes);
      case Submessage(d) =>
        if !v.Msg? {
          EmittedNothing(Now());
          return false;
        }
        ok := EncodeSubmessage(d, v.slots);
      case _ =>
        ok := EncodeScalar(f, v);
    }

    /** pb_encode_submessage: the first pass counts, the second writes. That the second pass
        writes another number of bytes cannot happen. */
    method EncodeSubmessage(d: Desc, slots: seq<Slot>) returns (ok: bool)
      requires Valid()
      modifies this, buffer
      ensures Emitted(old(Now()), Now(), Delimited(EncFrom(d, slots, 0)), ok)
      decreases d, |d.fields| + 3
    {
      hide EncFrom, EncVarint;
      ghost var a := Now();
      ghost var spec := EncFrom(d, slots, 0);
      var sizer := new OStream.Sizing();
      ok := sizer.EncodeMessage(d, slots);
      if !ok {
        return;
      }
      var size := sizer.bytesWritten;
      assert spec.Some? && size == |spec.value|;
      ok := EncodeVarint(size);
      ghost var b := Now();
      if !ok {
        EmittedFailed(a, b, Some(EncVarint(size)), spec);
        return;
      }
      if buffer == null {
        Count(size, spec.value);
        EmittedThen(a, b, Now(), Some(EncVarint(size)), spec, true);
        return true;
      }
      if bytesWritten + size > maxSize {
        EmittedThen(a, b, Now(), Some(EncVarint(size)), spec, false);
        return false;
      }
      var writer := new OStream.Into(buffer, at, size);
      ok := writer.EncodeMessage(d, slots);
      bytesWritten := bytesWritten + writer.bytesWritten;
      at := writer.at;
      if writer.bytesWritten != size {
        assert false;
      }
      NestedIsEmitted(b, writer.Now(), spec, size);
      EmittedThen(a, b, Now(), Some(EncVarint(size)), spec, ok);
    }

    /** encode_array. */
    method EncodeArrayField(f: Field, arraySize: nat, items: seq<Value>) returns (ok: bool)
      requires Valid()
      modifies this, buffer
      ensures Emitted(old(Now()), Now(), EncArray(f, arraySize, items), ok)
      decreases f, 2
    {
      if items == [] {
        return true;
      }
      if |items| > arraySize {
        return false;
      }
      if Packable(f.ltype) {
        ok := EncodePackedArray(f, items);
      } else {
        ok := EncodeUnpackedArray(f, items);
      }
    }

    /** The size of a packed array, by arithmetic or by a counting pass. */
    static method PackedSize(f: Field, items: seq<Value>) returns (ok: bool, size: nat)
      requires Packable(f.ltype)
      ensures ok == EncPacked(f, items).Some?
      ensures ok ==> size == |EncPacked(f, items).value|
    {
      ok := true;
      if f.ltype.Fixed32? {
        size := 4 * |items|;
        FixedSize(f, items, 4);
      } else if f.ltype.Fixed64? {
        size := 8 * |items|;
        FixedSize(f, items, 8);
      } else {
        hide EncPacked;
        var sizer := new OStream.Sizing();
        ok := sizer.EncodeItemsPacked(f, items);
        size := sizer.bytesWritten;
      }
    }

    /** The packed form: tag, size, items. */
    method EncodePackedArray(f: Field, items: seq<Value>) returns (ok: bool)
      requires Valid() && Packable(f.ltype) && items != []
      modifies this, buffer
      ensures Emitted(old(Now()), Now(), Cat(Some(TagBytes(f.tag, WT_STRING)), Delimited(EncPacked(f, items))), ok)
    {
      hide EncVarint, EncPacked, EncScalar;
      ghost var a := Now();
      ghost var spec := EncPacked(f, items);
      ghost var tag := Some(TagBytes(f.tag, WT_STRING));
      ok := EncodeTag(WT_STRING, f.tag);
      ghost var b := Now();
      if !ok {
        EmittedFailed(a, b, tag, Delimited(spec));
        return;
      }
      var size: nat;
      ok, size := PackedSize(f, items);
      if !ok {
        EmittedThen(a, b, Now(), tag, Delimited(spec), false);
        return;
      }
      assert spec.Some? && size == |spec.value|;
      ok := EncodeVarint(size);
      ghost var c := Now();
      if !ok {
        EmittedFailed(b, c, Some(EncVarint(size)), spec);
        EmittedThen(a, b, c, tag, Delimited(spec), false);
        return;
      }
      if buffer == null {
        Count(size, spec.value);
        ok := true;
      } else {
        ok := EncodeItemsPacked(f, items);
      }
      EmittedThen(b, c, Now(), Some(EncVarint(size)), spec, ok);
      EmittedThen(a, b, Now(), tag, Delimited(spec), ok);
    }

    method EncodeItemsPacked(f: Field, items: seq<Value>) returns (ok: bool)
      requires Valid() && Packable(f.ltype)
      modifies this, buffer
      ensures Emitted(old(Now()), Now(), EncPacked(f, items), ok)
    {
      hide EncScalar, EncPacked;
      ghost var a := Now();
      ghost var sofar: Option<Bytes> := Some([]);
      var i := 0;
      assert items[0..] == items;
      CatNothing(EncPacked(f, items));
      while i < |items|
        invariant 0 <= i <= |items| && Valid()
        invariant Emitted(a, Now(), sofar, true)
        invariant EncPacked(f, items) == Cat(sofar, EncPacked(f, items[i..]))
      {
        PackedSplit(f, items[i..]);
        assert items[i..][1..] == items[i + 1..];
        ghost var b := Now();
        ghost var one := EncScalar(f, items[i]);
        ok := EncodeScalar(f, items[i]);
        EmittedThen(a, b, Now(), sofar, one, ok);
        CatAssociates(sofar, one, EncPacked(f, items[i + 1..]));
        sofar := Cat(sofar, one);
        if !ok {
          EmittedFailed(a, Now(), sofar, EncPacked(f, items[i + 1..]));
          return;
        }
        i := i + 1;
      }
      PackedSplit(f, []);
      assert items[i..] == [];
      CatNothing(sofar);
      ok := true;
    }

    method EncodeUnpackedArray(f: Field, items: seq<Value>) returns (ok: bool)
      requires Valid()
      modifies this, buffer
      ensures Emitted(old(Now()), Now(), EncItems(f, items), ok)
      decreases f, 1, 1
    {
      hide EncValue, EncItems, EncTagged;
      ghost var a := Now();
      ghost var sofar: Option<Bytes> := Some([]);
      var i := 0;
      assert items[0..] == items;
      CatNothing(EncItems(f, items));
      while i < |items|
        invariant 0 <= i <= |items| && Valid()
        invariant Emitted(a, Now(), sofar, true)
        invariant EncItems(f, items) == Cat(sofar, EncItems(f, items[i..]))
      {
        ItemsByTag(f, items[i..]);
        assert items[i..][1..] == items[i + 1..];
        ghost var b := Now();
        ghost var one := EncTagged(f, items[i]);
        ok := EncodeTagged(f, items[i]);
        EmittedThen(a, b, Now(), sofar, one, ok);
        CatAssociates(sofar, one, EncItems(f, items[i + 1..]));
        sofar := Cat(sofar, one);
        if !ok {
          EmittedFailed(a, Now(), sofar, EncItems(f, items[i + 1..]));
          return;
        }
        i := i + 1;
      }
      ItemsByTag(f, []);
      assert items[i..] == [];
      CatNothing(sofar);
      ok := true;
    }

    method EncodeTagged(f: Field, v: Value) returns (ok: bool)
      requires Valid()
      modifies this, buffer
      ensures Emitted(old(Now()), Now(), EncTagged(f, v), ok)
      decreases f, 1, 0
    {
      hide EncValue, EncVarint;
      ghost var a := Now();
      ok := EncodeTag(WireType(f.ltype), f.tag);
      ghost var b := Now();
      if !ok {
        EmittedFailed(a, b, Some(FieldTag(f)), EncValue(f, v));
        return;
      }
      ok := EncodeValue(f, v);
      EmittedThen(a, b, Now(), Some(FieldTag(f)), EncValue(f, v), ok);
    }

    /** encode_basic_field. */
    method EncodeBasicField(f: Field, slot: Slot) returns (ok: bool)
      requires Valid()
      modifies this, buffer
      ensures Emitted(old(Now()), Now(), EncField(f, slot), ok)
      decreases f, 3
    {
      hide EncArray, EncTagged, ZeroSlot;
      if !SlotFits(f, slot) {
        return false;
      }
      match f.htype
      case Required =>
        ok := EncodeTagged(f, slot.value);
      case Optional =>
        ok := true;
        if slot.has {
          ok := EncodeTagged(f, slot.value);
        }
      case Singular =>
        ok := true;
        if !ZeroSlot(f, slot) {
          ok := EncodeTagged(f, slot.value);
        }
      case Repeated(arraySize) =>
        EmptyArray(f, arraySize);
        ok := EncodeArrayField(f, arraySize, slot.items);
      case Oneof =>
        ok := true;
        if slot.which == f.tag {
          ok := EncodeTagged(f, slot.value);
        }
    }

    /** pb_encode. */
    method EncodeMessage(d: Desc, slots: seq<Slot>) returns (ok: bool)
      requires Valid()
      modifies this, buffer
      ensures Emitted(old(Now()), Now(), EncFrom(d, slots, 0), ok)
      decreases d, |d.fields| + 2
    {
      hide EncField, EncFrom;
      ghost var a := Now();
      var iter := new FieldIter(d);
      if d.fields == [] {
        FromSplit(d, slots, 0);
        return true;
      }
      ghost var sofar: Option<Bytes> := Some([]);
      var more := true;
      ghost var i := 0;
      CatNothing(EncFrom(d, slots, 0));
      while more
        invariant iter.Valid() && iter.d == d && fresh(iter) && Valid()
        invariant more ==> i < |d.fields| && iter.pos == i
        invariant !more ==> i == |d.fields|
        invariant Emitted(a, Now(), sofar, true)
        invariant EncFrom(d, slots, 0) == Cat(sofar, EncFrom(d, slots, i))
        decreases |d.fields| - i
      {
        FromSplit(d, slots, i);
        ghost var b := Now();
        var f := d.fields[iter.pos];
        ghost var one := EncField(f, Loaded(slots, f.cell));
        ok := EncodeBasicField(f, Loaded(slots, f.cell));
        EmittedThen(a, b, Now(), sofar, one, ok);
        CatAssociates(sofar, one, EncFrom(d, slots, i + 1));
        sofar := Cat(sofar, one);
        if !ok {
          EmittedFailed(a, Now(), sofar, EncFrom(d, slots, i + 1));
          return;
        }
        more := iter.Next();
        i := i + 1;
      }
      FromSplit(d, slots, i);
      CatNothing(sofar);
      ok := true;
    }
  }

  /** pb_get_encoded_size. */
  method GetEncodedSize(d: Desc, slots: seq<Slot>) returns (ok: bool, size: nat)
    ensures ok == EncFrom(d, slots, 0).Some?
    ensures ok ==> size == |EncFrom(d, slots, 0).value|
  {
    hide EncFrom;
    var stream := new OStream.Sizing();
    ok := stream.EncodeMessage(d, slots);
    size := stream.bytesWritten;
  }

  /** The counting pass predicts the writing pass: with as much room as was counted, writing
      succeeds and writes exactly that many bytes; with less, or if counting failed, it fails. */
  lemma {:induction false} SizingPredictsWriting(a: Snap, b: Snap, c: Snap, e: Snap, spec: Option<Bytes>,
      counted: bool, wrote: bool)
    requires a.sizing && Emitted(a, b, spec, counted)
    requires !c.sizing && Emitted(c, e, spec, wrote)
    ensures wrote <==> counted && c.written + (b.written - a.written) <= c.maxSize
    ensures wrote ==> e.written - c.written == b.written - a.written
  {
    if counted && wrote {
      assert b.written == a.written + |spec.value|;
    }
  }

  lemma {:induction false} FixedSize(f: Field, items: seq<Value>, n: nat)
    requires (f.ltype.Fixed32? && n == 4) || (f.ltype.Fixed64? && n == 8)
    ensures EncPacked(f, items).Some? && |EncPacked(f, items).value| == n * |items|
  {
    if items != [] {
      FixedSize(f, items[1..], n);
    }
  }

  lemma {:induction false} PackedSplit(f: Field, items: seq<Value>)
    ensures EncPacked(f, items) == if items == [] then Some([])
        else Cat(EncScalar(f, items[0]), EncPacked(f, items[1..]))
  {
  }

  lemma {:induction false} ItemsByTag(f: Field, items: seq<Value>)
    ensures EncItems(f, items) == if items == [] then Some([]) else Cat(EncTagged(f, items[0]), EncItems(f, items[1..]))
  {
    if items != [] {
      CatAssociates(Some(FieldTag(f)), EncValue(f, items[0]), EncItems(f, items[1..]));
    }
  }

  lemma {:induction false} FromSplit(d: Desc, slots: seq<Slot>, i: nat)
    requires i <= |d.fields|
    ensures EncFrom(d, slots, i) == if i == |d.fields| then Some([])
                                    else Cat(EncField(d.fields[i], Loaded(slots, d.fields[i].cell)),
                                        EncFrom(d, slots, i + 1))
  {
  }

  lemma {:induction false} CatAssociates(a: Option<Bytes>, b: Option<Bytes>, c: Option<Bytes>)
    ensures Cat(Cat(a, b), c) == Cat(a, Cat(b, c))
  {
    if a.Some? && b.Some? && c.Some? {
      assert a.value + b.value + c.value == a.value + (b.value + c.value);
    }
  }

  lemma {:induction false} CatNothing(b: Option<Bytes>)
    ensures Cat(Some([]), b) == b && Cat(b, Some([])) == b
  {
    if b.Some? {
      assert [] + b.value == b.value && b.value + [] == b.value;
    }
  }

  /** The second pass of a submessage, seen from the outer stream. */
  lemma {:induction false} NestedIsEmitted(b: Snap, inner: Snap, spec: Option<Bytes>, size: nat)
    requires SnapOk(b) && !b.sizing && spec.Some? && size == |spec.value| && b.written + size <= b.maxSize
    requires Emitted(Snap(false, size, 0, b.at, b.memory), inner, spec, true)
    ensures Emitted(b, b.(written := b.written + inner.written, at := inner.at, memory := inner.memory), spec, true)
  {
    var room, far := b.at + size, b.at + (b.maxSize - b.written);
    assert inner.memory[far..] == inner.memory[room..][far - room..] == b.memory[room..][far - room..]
        == b.memory[far..];
  }
}
