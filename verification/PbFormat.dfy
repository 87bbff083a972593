/** The wire format of Protocol Buffers in absolute terms ("Encoding"): which bytes stand for which
    values, independently of the program that reads them back; and what the reader refuses. */
module PbFormat {
  import opened Wire
  import opened PbWire
  import opened PbMessage
  import opened PbRoundTrip
  import opened PbMerge

  // ---- varints ----

  /** The seven-bit groups, lowest first. */
  function Base128(s: Bytes): nat {
    if s == [] then 0 else s[0] as int % 128 + 128 * Base128(s[1..])
  }

  /** Every byte but the last has its high bit set, and the last is not an idle zero. */
  ghost predicate IsVarint(s: Bytes) {
    && s != [] && s[|s| - 1] < 128 && (|s| > 1 ==> s[|s| - 1] != 0)
    && forall i :: 0 <= i < |s| - 1 ==> s[i] >= 128
  }

  /** pb_encode_varint writes the one shortest base-128 form of the number. */
  lemma {:induction false} VarintIsTheForm(v: nat, s: Bytes)
    ensures IsVarint(s) && Base128(s) == v <==> s == EncVarint(v)
  {
    EncodedIsVarint(v);
    if IsVarint(s) && Base128(s) == v {
      FormIsUnique(s);
    }
  }

  lemma {:induction false} EncodedInGroups(b: byte, v: nat)
    requires b >= 128 && v > 0
    ensures EncVarint(b as int % 128 + 128 * v) == [b] + EncVarint(v)
  {
    var n := b as int % 128 + 128 * v;
    assert n / 128 == v && n % 128 == b as int - 128;
  }

  lemma {:induction false} OneGroup(b: byte)
    requires b < 128
    ensures EncVarint(b) == [b] && Base128([b]) == b as int && IsVarint([b])
  {
    assert [b][1..] == [];
  }

  lemma {:induction false} EncodedIsVarint(v: nat)
    ensures IsVarint(EncVarint(v)) && Base128(EncVarint(v)) == v
    ensures v > 0 ==> EncVarint(v)[|EncVarint(v)| - 1] != 0
  {
    hide EncVarint, IsVarint, Base128;
    if v < 128 {
      OneGroup(v);
    } else {
      EncodedIsVarint(v / 128);
      EncodedInGroups(v % 128 + 128, v / 128);
      OneGroupMore(v % 128 + 128, EncVarint(v / 128));
    }
  }

  lemma {:induction false} OneGroupMore(b: byte, rest: Bytes)
    requires IsVarint(rest) && b >= 128 && rest[|rest| - 1] != 0
    ensures IsVarint([b] + rest) && Base128([b] + rest) == b as int % 128 + 128 * Base128(rest)
    ensures ([b] + rest)[|[b] + rest| - 1] == rest[|rest| - 1]
  {
    var s := [b] + rest;
    assert s[1..] == rest;
    forall i | 0 <= i < |s| - 1
      ensures s[i] >= 128
    {
      if i > 0 {
        assert s[i] == rest[i - 1];
      }
    }
  }

  lemma {:induction false} RestOfVarint(s: Bytes)
    requires IsVarint(s) && |s| > 1
    ensures IsVarint(s[1..]) && s[1..][|s| - 2] == s[|s| - 1] && s[|s| - 1] != 0 && s[0] >= 128
    ensures Base128(s) == s[0] as int % 128 + 128 * Base128(s[1..])
  {
    forall i | 0 <= i < |s| - 2
      ensures s[1..][i] >= 128
    {
      assert s[1..][i] == s[i + 1];
    }
  }

  lemma {:induction false} FormIsUnique(s: Bytes)
    requires IsVarint(s)
    ensures s == EncVarint(Base128(s))
    ensures s[|s| - 1] != 0 ==> Base128(s) > 0
  {
    if |s| == 1 {
      OneGroup(s[0]);
      assert s == [s[0]];
    } else {
      RestOfVarint(s);
      hide EncVarint, IsVarint, Base128;
      FormIsUnique(s[1..]);
      EncodedInGroups(s[0], Base128(s[1..]));
      assert s == [s[0]] + s[1..];
    }
  }

  // ---- numbers of fixed width, and signs ----

  /** Four and eight bytes, lowest first. */
  lemma {:induction false} FixedWidthBytes(v: nat)
    ensures LittleEndian(v, 4) == [v % 256, v / 256 % 256, v / 256 / 256 % 256, v / 256 / 256 / 256 % 256]
    ensures LittleEndian(v, 8) == LittleEndian(v, 4) + LittleEndian(v / 256 / 256 / 256 / 256, 4)
  {
    var a, b, c, e := v / 256, v / 256 / 256, v / 256 / 256 / 256, v / 256 / 256 / 256 / 256;
    assert LittleEndian(e, 0) == [];
    assert LittleEndian(c, 1) == [c % 256] + LittleEndian(e, 0);
    assert LittleEndian(b, 2) == [b % 256] + LittleEndian(c, 1);
    assert LittleEndian(a, 3) == [a % 256] + LittleEndian(b, 2);
    assert LittleEndian(c, 5) == [c % 256] + LittleEndian(e, 4);
    assert LittleEndian(b, 6) == [b % 256] + LittleEndian(c, 5);
    assert LittleEndian(a, 7) == [a % 256] + LittleEndian(b, 6);
  }

  /** Zig-zag: 0, -1, 1, -2 are 0, 1, 2, 3. */
  lemma {:induction false} ZigZagOrder(n: int)
    requires -TWO_63 <= n < TWO_63
    ensures ZigZag(n) == if n >= 0 then 2 * n else -2 * n - 1
  {
  }

  // ---- tags ----

  /** The wire type of a field by its number: 0 for varints, 1 and 5 for eight and four bytes, 2 for
      whatever has a length in front. */
  function WireCode(l: LType): nat {
    if l.Fixed64? then 1
    else if l.Fixed32? then 5
    else if l.ByteArray? || l.Text? || l.Submessage? || l.FixedBytes? then 2
    else 0
  }

  /** A tag on the wire is the varint of eight times the field number plus the wire type; a packed
      array goes under wire type 2. */
  lemma {:induction false} TagOnTheWire(f: Field)
    ensures IsVarint(FieldTag(f)) && Base128(FieldTag(f)) == 8 * f.tag + WireCode(f.ltype)
    ensures IsVarint(TagBytes(f.tag, WT_STRING)) && Base128(TagBytes(f.tag, WT_STRING)) == 8 * f.tag + 2
  {
    VarintIsTheForm(8 * f.tag + WireCode(f.ltype), FieldTag(f));
    VarintIsTheForm(8 * f.tag + 2, TagBytes(f.tag, WT_STRING));
  }

  /** An input: the message with 150 in field 1, which is `08 96 01`, within field 3 of another one,
      as in the documentation of the format. */
  lemma {:induction false} KnownMessage()
    ensures var inner := Desc([Field(1, Required, Varint, 4, None, 0)], 1);
            var outer := Desc([Field(3, Required, Submessage(inner), 0, None, 0)], 1);
            EncFrom(outer, [Always(Msg([Always(Num(150))]))], 0) == Some([0x1a, 0x03, 0x08, 0x96, 0x01])
  {
    var f := Field(1, Required, Varint, 4, None, 0);
    var inner := Desc([f], 1);
    var g := Field(3, Required, Submessage(inner), 0, None, 0);
    var slots := [Always(Num(150))];
    assert EncVarint(150) == [150] + EncVarint(1) == [0x96, 0x01];
    assert FieldTag(f) == [0x08] && FieldTag(g) == [0x1a];
    assert EncTagged(f, Num(150)) == Some([0x08] + [0x96, 0x01]);
    assert [0x08] + [0x96, 0x01] == [0x08, 0x96, 0x01];
    assert EncField(f, slots[0]) == EncTagged(f, Num(150));
    assert EncFrom(inner, slots, 1) == Some([]);
    assert EncFrom(inner, slots, 0) == Some([0x08, 0x96, 0x01] + []);
    assert [0x08, 0x96, 0x01] + [] == [0x08, 0x96, 0x01];
    assert EncVarint(3) == [3];
    assert EncValue(g, Msg(slots)) == Some([3] + [0x08, 0x96, 0x01]);
    var outer, value := Desc([g], 1), [Always(Msg(slots))];
    assert EncTagged(g, Msg(slots)) == Some([0x1a] + ([3] + [0x08, 0x96, 0x01]));
    assert [0x1a] + ([3] + [0x08, 0x96, 0x01]) == [0x1a, 0x03, 0x08, 0x96, 0x01];
    assert EncField(g, value[0]) == EncTagged(g, Msg(slots));
    assert EncFrom(outer, value, 1) == Some([]);
    assert EncFrom(outer, value, 0) == Some([0x1a, 0x03, 0x08, 0x96, 0x01] + []);
    assert [0x1a, 0x03, 0x08, 0x96, 0x01] + [] == [0x1a, 0x03, 0x08, 0x96, 0x01];
  }

  /** An array of numbers is packed: one tag of wire type 2 and one length in front of all items. */
  lemma {:induction false} ArrayIsPacked(f: Field, arraySize: nat, items: seq<Value>)
    requires Packable(f.ltype) && items != [] && EncArray(f, arraySize, items).Some?
        && |EncPacked(f, items).value| < TWO_32
    ensures var s, n := EncArray(f, arraySize, items).value, |TagBytes(f.tag, 2)|;
            && n <= |s| && IsVarint(s[..n]) && Base128(s[..n]) == 8 * f.tag + 2
            && TakeDelimited(s[n..]) == Some((EncPacked(f, items).value, []))
  {
    hide EncVarint, EncPacked, TakeDelimited;
    var s, tag, body := EncArray(f, arraySize, items).value, TagBytes(f.tag, 2), EncPacked(f, items).value;
    VarintIsTheForm(8 * f.tag + 2, tag);
    DelimitedRoundTrip(body, []);
    assert s == tag + (EncVarint(|body|) + body);
    assert s[..|tag|] == tag && s[|tag|..] == EncVarint(|body|) + body + [];
  }

  lemma {:induction false} KnownVarints()
    ensures EncVarint(3) == [3] && EncVarint(6) == [6] && EncVarint(34) == [0x22]
    ensures EncVarint(270) == [0x8e, 0x02] && EncVarint(86942) == [0x9e, 0xa7, 0x05]
  {
    assert EncVarint(270) == [0x8e] + EncVarint(2) == [0x8e, 0x02];
    assert EncVarint(679) == [0xa7] + EncVarint(5) == [0xa7, 0x05];
    assert EncVarint(86942) == [0x9e] + EncVarint(679) == [0x9e, 0xa7, 0x05];
  }

  lemma {:induction false} PackedMore(f: Field, n: nat, items: seq<Value>, bytes: Bytes, rest: Bytes)
    requires f.ltype.Varint? && f.dataSize == 4 && n < 0x8000_0000
    requires EncVarint(n) == bytes && EncPacked(f, items) == Some(rest)
    ensures EncPacked(f, [Num(n)] + items) == Some(bytes + rest)
  {
    hide EncVarint;
    assert ([Num(n)] + items)[1..] == items;
    assert Unsigned64(n) == n;
  }

  /** An input: 3, 270 and 86942 in the array of field 4, as in the documentation of the format. */
  lemma {:induction false} KnownArray()
    ensures EncField(Field(4, Repeated(3), Varint, 4, None, 0), Rep([Num(3)] + ([Num(270)] + ([Num(86942)] + []))))
            == Some([0x22, 0x06, 0x03, 0x8e, 0x02, 0x9e, 0xa7, 0x05])
  {
    var f := Field(4, Repeated(3), Varint, 4, None, 0);
    KnownVarints();
    assert EncPacked(f, []) == Some([]);
    PackedMore(f, 86942, [], [0x9e, 0xa7, 0x05], []);
    PackedMore(f, 270, [Num(86942)] + [], [0x8e, 0x02], [0x9e, 0xa7, 0x05] + []);
    PackedMore(f, 3, [Num(270)] + ([Num(86942)] + []), [3], [0x8e, 0x02] + ([0x9e, 0xa7, 0x05] + []));
    hide EncVarint, EncPacked;
    assert [3] + ([0x8e, 0x02] + ([0x9e, 0xa7, 0x05] + [])) == [3, 0x8e, 0x02, 0x9e, 0xa7, 0x05];
    assert [6] + [3, 0x8e, 0x02, 0x9e, 0xa7, 0x05] == [6, 3, 0x8e, 0x02, 0x9e, 0xa7, 0x05];
    assert [0x22] + [6, 3, 0x8e, 0x02, 0x9e, 0xa7, 0x05] == [0x22, 6, 3, 0x8e, 0x02, 0x9e, 0xa7, 0x05];
  }

  /** The wire type of a known tag is only looked at to tell a packed array from one item. */
  lemma {:induction false} WireTypeIgnored(d: Desc, i: nat, w: nat, x: nat, t: Bytes, slots: seq<Slot>,
      seen: set<nat>)
    requires WFDesc(d) && i < |d.fields| && w < 8 && x < 8
    requires d.fields[i].htype.Repeated? && Packable(d.fields[i].ltype) ==> (w == 2 <==> x == 2)
    ensures DecFields(d, TagBytes(d.fields[i].tag, w) + t, slots, seen)
            == DecFields(d, TagBytes(d.fields[i].tag, x) + t, slots, seen)
  {
    hide DecFields, WFDesc, DecValue, DecPacked, TagBytes;
    TagStep(d, i, w, t, slots, seen);
    TagStep(d, i, x, t, slots, seen);
  }

  // ---- fields of someone else ----

  lemma {:induction false} SkipsVarint(v: nat, t: Bytes)
    ensures SkipVarint(EncVarint(v) + t) == Some(t)
  {
    EncVarintHead(v, t);
    if v >= 128 {
      SkipsVarint(v / 128, t);
    }
  }

  /** Skipping by wire type steps over exactly what was written for one value of any type. */
  lemma {:induction false} SkipsWritten(f: Field, v: Value, t: Bytes)
    requires EncValue(f, v).Some? && |EncValue(f, v).value| < TWO_32
    ensures SkipField(WireType(f.ltype), EncValue(f, v).value + t) == Some(t)
  {
    hide EncFrom, EncVarint, SkipVarint, TakeDelimited, CString;
    var s := EncValue(f, v).value;
    match f.ltype
    case Varint => SkipsVarint(Unsigned64(NumberOf(v)), t);
    case UVarint => SkipsVarint(Unsigned64(NumberOf(v)), t);
    case SVarint => SkipsVarint(ZigZag(NumberOf(v)), t);
    case Fixed32 => assert (s + t)[4..] == t;
    case Fixed64 => assert (s + t)[8..] == t;
    case ByteArray => DelimitedRoundTrip(v.bytes, t);
    case Text => DelimitedRoundTrip(CString(v.bytes, f.dataSize), t);
    case FixedBytes => DelimitedRoundTrip(v.bytes, t);
    case Submessage(d) => DelimitedRoundTrip(EncFrom(d, v.slots, 0).value, t);
  }

  /** So what a writer puts out for a field the reader's descriptor does not have is a whole unknown
      field, and as such invisible. */
  lemma {:induction false} ForeignFieldIsUnknown(d: Desc, f: Field, v: Value)
    requires 0 < f.tag < TAG_LIMIT && forall i :: 0 <= i < |d.fields| ==> d.fields[i].tag != f.tag
    requires EncTagged(f, v).Some? && |EncTagged(f, v).value| < TWO_32
    ensures UnknownField(d, EncTagged(f, v).value)
  {
    hide EncValue, SkipField, EncVarint;
    var s := EncValue(f, v).value;
    var word := 8 * f.tag + WireType(f.ltype);
    Varint32RoundTrip(word, s);
    assert word / 8 == f.tag && word % 8 == WireType(f.ltype);
    assert s + [] == s;
    SkipsWritten(f, v, []);
  }

  // ---- what is refused ----

  /** A bytes, string or fixed-length field accepts a body exactly if its buffer can hold it: with
      the length in front, with the terminator behind, or all of it (or nothing, which is zeros). */
  lemma {:induction false} BodyAcceptedIff(f: Field, body: Bytes, t: Bytes, dest: Value)
    requires (f.ltype.ByteArray? || f.ltype.Text? || f.ltype.FixedBytes?) && |body| < TWO_32 && f.dataSize < TWO_32
    ensures var got := DecValue(f, EncVarint(|body|) + body + t, dest);
            && (got.Some? <==> if f.ltype.ByteArray? then 4 + |body| <= f.dataSize
                               else if f.ltype.Text? then |body| + 1 <= f.dataSize
                               else body == [] || |body| == f.dataSize)
            && (got.Some? ==> got.value.1 == t)
            && (got.Some? ==>
                  got.value.0 == if f.ltype.Text? then Chars(body)
                                 else if f.ltype.FixedBytes? && body == [] then Octets(Zeros(f.dataSize))
                                 else Octets(body))
  {
    hide TakeDelimited, EncVarint;
    DelimitedRoundTrip(body, t);
  }

  /** An array that is full refuses another item, packed or not. */
  lemma {:induction false} FullArrayRefuses(f: Field, wire: nat, s: Bytes, items: seq<Value>)
    requires f.htype.Repeated? && |items| >= f.htype.arraySize
    ensures !(wire == WT_STRING && Packable(f.ltype)) ==> DecSlot(f, wire, s, Rep(items)) == None
    ensures wire == WT_STRING && Packable(f.ltype) && DecSlot(f, wire, s, Rep(items)).Some? ==>
              TakeDelimited(s).value.0 == [] && DecSlot(f, wire, s, Rep(items)).value.0 == Rep(items)
  {
    hide DecValue, DecScalar, TakeDelimited;
  }

  /** A packed array is accepted if and only if its items fit behind those that are there. */
  lemma {:induction false} PackedAcceptedIff(f: Field, arraySize: nat, items: seq<Value>, done: seq<Value>)
    requires Packable(f.ltype) && |done| <= arraySize && EncPacked(f, items).Some?
    requires forall k :: 0 <= k < |items| ==> Storable(f, items[k])
    ensures DecPacked(f, arraySize, EncPacked(f, items).value, done)
            == if |done| + |items| <= arraySize then Some(done + items) else None
    decreases |items|
  {
    hide DecScalar, EncScalar, Storable;
    if items == [] {
      assert done + items == done;
    } else {
      var t := EncPacked(f, items[1..]).value;
      ScalarRoundTrip(f, items[0], t);
      if |done| < arraySize {
        PackedAcceptedIff(f, arraySize, items[1..], done + [items[0]]);
        assert done + [items[0]] + items[1..] == done + items;
      }
    }
  }

  /** Wire types 3, 4, 6 and 7 cannot be skipped, and nothing is when the input ends first. */
  lemma {:induction false} SkipRefuses(wire: nat, s: Bytes)
    requires wire < 8
    ensures wire !in {0, 1, 2, 5} ==> SkipField(wire, s) == None
    ensures wire == 1 ==> (SkipField(wire, s).Some? <==> |s| >= 8)
    ensures wire == 5 ==> (SkipField(wire, s).Some? <==> |s| >= 4)
    ensures wire == 0 ==> (SkipField(wire, s).Some? <==> exists i :: 0 <= i < |s| && s[i] < 128)
  {
    if wire == 0 {
      SkipsToEnd(s);
    }
  }

  lemma {:induction false} SkipsToEnd(s: Bytes)
    ensures SkipVarint(s).Some? <==> exists i :: 0 <= i < |s| && s[i] < 128
  {
    if s != [] && s[0] >= 128 {
      SkipsToEnd(s[1..]);
      if i :| 0 <= i < |s| && s[i] < 128 {
        assert s[1..][i - 1] == s[i];
      }
    }
  }

  /** A zero tag ends a message, whatever follows. */
  lemma {:induction false} ZeroTagEnds(d: Desc, slots: seq<Slot>, seen: set<nat>, t: Bytes)
    ensures DecFields(d, [0] + t, slots, seen) == Some(Decoded(slots, seen, t, true))
  {
    assert ([0] + t)[1..] == t;
    assert DecVarint32([0] + t) == Some((0, t));
  }

  /** When a field leaves no bytes: an optional one without its flag, an empty array, a union's
      member that is not chosen, and a proto3 scalar, string or bytes field that is zero or empty. A
      required field always leaves some. */
  lemma {:induction false} OmittedIff(f: Field, slot: Slot)
    requires SlotFits(f, slot) && EncField(f, slot).Some? && (f.htype.Singular? ==> !f.ltype.Submessage?)
    ensures EncField(f, slot) == Some([]) <==>
            match f.htype
            case Required => false
            case Optional => !slot.has
            case Repeated(_) => slot.items == []
            case Oneof => slot.which != f.tag
            case Singular =>
              if Packable(f.ltype) then slot.value.Num? && slot.value.n == 0
              else if f.ltype.FixedBytes? then f.dataSize == 0
              else if f.ltype.Text? then slot.value.Chars? && (slot.value.bytes == [] || slot.value.bytes[0] == 0)
              else slot.value == Octets([])
  {
    hide EncFrom, EncScalar, EncPacked, EncValue, EncVarint;
    assert |FieldTag(f)| >= 1 && |TagBytes(f.tag, WT_STRING)| >= 1;
    if f.htype.Singular? {
      assert ZeroSlot(f, slot) == ZeroValue(f, slot.value);
    }
    if Present(f, slot) {
      if slot.Rep? {
        assert |EncArray(f, f.htype.arraySize, slot.items).value| >= 1;
      } else {
        assert |EncTagged(f, slot.value).value| >= 1;
      }
    }
  }
}
