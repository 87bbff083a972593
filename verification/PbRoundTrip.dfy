/** Decoding what was encoded gives the message back. */
module PbRoundTrip {
  import opened Wire
  import opened PbWire
  import opened PbMessage

  // ---- which messages a C program can hold and decode again ----

  predicate InRange(f: Field, n: int) {
    match f.ltype
    case UVarint => 0 <= n < Pow2(8 * f.dataSize)
    case Fixed32 => 0 <= n < TWO_32
    case Fixed64 => 0 <= n < TWO_64
    case _ => f.dataSize > 0 && 0 <= n + Pow2(8 * f.dataSize - 1) && n < Pow2(8 * f.dataSize - 1)
  }

  /** A value of the field's C type whose strings end inside their buffer and whose
      length prefixes are 32-bit. */
  predicate Storable(f: Field, v: Value)
    decreases f, 0
  {
    match f.ltype
    case ByteArray => v.Octets?
    case Text => v.Chars? && |CString(v.bytes, f.dataSize)| < f.dataSize
    case FixedBytes => v.Octets? && |v.bytes| == f.dataSize
    case Submessage(d) =>
      && v.Msg?
      && StorableMessage(d, v.slots)
      && (EncFrom(d, v.slots, 0).Some? ==> |EncFrom(d, v.slots, 0).value| < TWO_32)
    case _ => v.Num? && InRange(f, v.n)
  }

  predicate StorableSlot(f: Field, slot: Slot)
    decreases f, 1
  {
    && SlotFits(f, slot)
    && match f.htype
       case Required => Storable(f, slot.value)
       case Singular => Storable(f, slot.value)
       case Optional => slot.has ==> Storable(f, slot.value)
       case Repeated(_) =>
         && (forall k :: 0 <= k < |slot.items| ==> Storable(f, slot.items[k]))
         && (Packable(f.ltype) && EncPacked(f, slot.items).Some? ==> |EncPacked(f, slot.items).value| < TWO_32)
       case Oneof => slot.which == f.tag ==> Storable(f, slot.value)
  }

  predicate StorableMessage(d: Desc, slots: seq<Slot>)
    decreases d
  {
    && |slots| == d.cells
    && (forall i {:trigger d.fields[i]} :: 0 <= i < |d.fields| && d.fields[i].cell < |slots| ==>
        StorableSlot(d.fields[i], slots[d.fields[i].cell]))
    && (forall i {:trigger d.fields[i]} :: 0 <= i < |d.fields| && d.fields[i].cell < |slots| && d.fields[i].htype.Oneof?
          ==> WhichIsKnown(d, slots[d.fields[i].cell], d.fields[i].cell))
  }

  /** A union's tag is 0 or one of its members'. */
  predicate WhichIsKnown(d: Desc, slot: Slot, cell: nat) {
    && slot.OneOf?
    && (slot.which == 0
        || exists j :: 0 <= j < |d.fields| && d.fields[j].cell == cell && d.fields[j].tag == slot.which)
  }

  // ---- equality up to what the wire does not carry ----

  /** Equal, except inside absent optional fields, unset unions and behind string terminators. */
  predicate Alike(f: Field, a: Value, b: Value)
    decreases f, 0
  {
    match f.ltype
    case Text => a.Chars? && b.Chars? && CString(a.bytes, f.dataSize) == CString(b.bytes, f.dataSize)
    case Submessage(d) => a.Msg? && b.Msg? && AlikeMessages(d, a.slots, b.slots)
    case _ => a == b
  }

  predicate AlikeSlots(f: Field, a: Slot, b: Slot)
    decreases f, 1
  {
    match f.htype
    case Required => a.Always? && b.Always? && Alike(f, a.value, b.value)
    case Singular => a.Always? && b.Always? && Alike(f, a.value, b.value)
    case Optional => a.Opt? && b.Opt? && a.has == b.has && (a.has ==> Alike(f, a.value, b.value))
    case Repeated(_) =>
      a.Rep? && b.Rep? && |a.items| == |b.items| && forall k :: 0 <= k < |a.items| ==> Alike(f, a.items[k], b.items[k])
    case Oneof => a.OneOf? && b.OneOf? && a.which == b.which && (a.which == f.tag ==> Alike(f, a.value, b.value))
  }

  predicate AlikeMessages(d: Desc, a: seq<Slot>, b: seq<Slot>)
    decreases d
  {
    && |a| == |b| == d.cells
    && forall i {:trigger d.fields[i]} :: 0 <= i < |d.fields| && d.fields[i].cell < d.cells
         ==> AlikeSlots(d.fields[i], a[d.fields[i].cell], b[d.fields[i].cell])
  }

  // ---- the message the decoder builds ----

  function NormalValue(f: Field, v: Value): Value
    decreases f, 0
  {
    match f.ltype
    case Text => if v.Chars? then Chars(CString(v.bytes, f.dataSize)) else v
    case Submessage(d) => if v.Msg? then Msg(NormalUpTo(d, v.slots, |d.fields|)) else v
    case _ => v
  }

  function NormalItems(f: Field, items: seq<Value>): (r: seq<Value>)
    ensures |r| == |items|
    ensures forall k :: 0 <= k < |r| ==> r[k] == NormalValue(f, items[k])
    decreases f, 1, |items|
  {
    if items == [] then [] else [NormalValue(f, items[0])] + NormalItems(f, items[1..])
  }

  function NormalSlot(f: Field, slot: Slot): Slot
    decreases f, 2
  {
    match slot
    case Always(v) => Always(NormalValue(f, v))
    case Opt(has, v) => Opt(has, NormalValue(f, v))
    case Rep(items) => Rep(NormalItems(f, items))
    case OneOf(which, v) => OneOf(which, NormalValue(f, v))
  }

  /** After the first `i` fields have been decoded; the rest still hold their defaults. */
  function NormalUpTo(d: Desc, slots: seq<Slot>, i: nat): (r: seq<Slot>)
    requires i <= |d.fields|
    ensures |r| == d.cells
    decreases d, i
  {
    if i == 0 then Defaults(d)
    else
      var f := d.fields[i - 1];
      var before := NormalUpTo(d, slots, i - 1);
      if Present(f, Loaded(slots, f.cell)) then Stored(before, f.cell, NormalSlot(f, Loaded(slots, f.cell))) else before
  }

  function SeenUpTo(d: Desc, i: nat): set<nat>
    requires i <= |d.fields|
  {
    if i == 0 then {} else Marked(d, i - 1, SeenUpTo(d, i - 1))
  }

  // ---- scalars ----

  lemma {:induction false} ScalarRoundTrip(f: Field, v: Value, t: Bytes)
    requires Packable(f.ltype) && Storable(f, v) && EncScalar(f, v).Some?
    ensures DecScalar(f, EncScalar(f, v).value + t) == Some((v, t)) && EncScalar(f, v).value != []
  {
    hide DecVarint, EncVarint, FromLittleEndian, LittleEndian, Pow2, Signed, Unsigned64, ZigZag, UnZigZag;
    var e := EncScalar(f, v).value;
    var bits := 8 * f.dataSize;
    match f.ltype
    case Fixed32 =>
      LittleEndianRoundTrip(v.n, 4);
      assert (e + t)[..4] == e && (e + t)[4..] == t;
    case Fixed64 =>
      LittleEndianRoundTrip(v.n, 8);
      assert (e + t)[..8] == e && (e + t)[8..] == t;
    case UVarint =>
      UnsignedFits(v.n, bits);
      VarintRoundTrip(Unsigned64(v.n), t);
    case SVarint =>
      SignedFits(v.n, bits);
      ZigZagRoundTrip(v.n);
      VarintRoundTrip(ZigZag(v.n), t);
      SignedRoundTrip(v.n, bits);
    case Varint =>
      SignedFits(v.n, bits);
      UnsignedBound(v.n);
      VarintRoundTrip(Unsigned64(v.n), t);
      SignedRoundTrip(v.n, bits);
      if bits < 64 {
        SignedFits32(v.n, bits);
      }
  }

  lemma {:induction false} UnsignedBound(n: int)
    ensures Unsigned64(n) < TWO_64
  {
  }

  /** The number the 64-bit varint `u` stands for in this field, before it is cast to the field. */
  function Wide(f: Field, u: nat): int {
    if f.ltype.UVarint? then u
    else if f.ltype.SVarint? then UnZigZag(u)
    else if f.dataSize == 8 then Signed(u, 64) else Signed(u, 32)
  }

  lemma {:induction false} SignedRange(u: nat, bits: nat)
    requires bits > 0
    ensures 0 <= Signed(u, bits) + Pow2(bits - 1) && Signed(u, bits) < Pow2(bits - 1)
  {
    assert Pow2(bits) == 2 * Pow2(bits - 1);
    hide Pow2;
  }

  /** A varint field accepts exactly the numbers it has room for, and stores them unchanged. */
  lemma {:induction false} ScalarAcceptedIff(f: Field, s: Bytes)
    requires (f.ltype.Varint? || f.ltype.UVarint? || f.ltype.SVarint?) && IntSize(f.dataSize)
    ensures match DecVarint(s)
            case None => DecScalar(f, s).None?
            case Some((u, rest)) =>
              DecScalar(f, s) == if InRange(f, Wide(f, u)) then Some((Num(Wide(f, u)), rest)) else None
  {
    hide DecVarint, Pow2, Signed, Unsigned64, UnZigZag;
    if DecVarint(s).Some? {
      var u := DecVarint(s).value.0;
      var bits := 8 * f.dataSize;
      if f.ltype.UVarint? {
        ModIsSame(u, Pow2(bits));
      } else {
        SignedRange(Unsigned64(Wide(f, u)), bits);
        if InRange(f, Wide(f, u)) {
          SignedRoundTrip(Wide(f, u), bits);
        }
      }
    }
  }

  lemma {:induction false} ModIsSame(u: nat, p: nat)
    requires p > 0
    ensures u % p == u <==> u < p
  {
  }

  lemma {:induction false} UnsignedFits(n: nat, bits: nat)
    requires bits <= 64 && n < Pow2(bits)
    ensures Unsigned64(n) == n && n < TWO_64 && n % Pow2(bits) == n
  {
    hide Pow2;
    PowValues();
    PowMonotone(bits, 64);
    SmallMod(n, Pow2(bits));
    SmallMod(n, TWO_64);
  }

  lemma {:induction false} SignedFits(n: int, bits: nat)
    requires 0 < bits <= 64 && 0 <= n + Pow2(bits - 1) && n < Pow2(bits - 1)
    ensures -TWO_63 <= n < TWO_63
  {
    PowValues();
    PowMonotone(bits - 1, 63);
  }

  /** Fields of up to 32 bits are read through int32_t. */
  lemma {:induction false} SignedFits32(n: int, bits: nat)
    requires 0 < bits <= 32 && 0 <= n + Pow2(bits - 1) && n < Pow2(bits - 1)
    ensures Signed(Unsigned64(n), 32) == n
  {
    PowMonotone(bits - 1, 31);
    SignedRoundTrip(n, 32);
  }

  lemma {:induction false} PackedRoundTrip(f: Field, arraySize: nat, items: seq<Value>, done: seq<Value>)
    requires Packable(f.ltype) && |done| + |items| <= arraySize
    requires forall k :: 0 <= k < |items| ==> Storable(f, items[k])
    requires EncPacked(f, items).Some?
    ensures DecPacked(f, arraySize, EncPacked(f, items).value, done) == Some(done + items)
    decreases |items|
  {
    hide DecScalar, EncScalar, Storable;
    if items == [] {
      assert done + items == done;
    } else {
      var t := EncPacked(f, items[1..]).value;
      ScalarRoundTrip(f, items[0], t);
      PackedRoundTrip(f, arraySize, items[1..], done + [items[0]]);
      assert done + [items[0]] + items[1..] == done + items;
    }
  }

  // ---- one field at a time ----

  lemma {:induction false} FindByTag(d: Desc, i: nat, k: nat)
    requires WFDesc(d) && k <= i < |d.fields|
    ensures FindFrom(d, d.fields[i].tag, k) == i
  {
    hide WFField;
  }

  /** A known tag hands the rest of the input to that field's decoder, wherever the iterator is. */
  lemma {:induction false} TagStep(d: Desc, i: nat, wire: nat, t: Bytes, slots: seq<Slot>, seen: set<nat>)
    requires WFDesc(d) && i < |d.fields| && wire < 8
    ensures var f := d.fields[i];
            DecFields(d, TagBytes(f.tag, wire) + t, slots, seen)
            == match DecSlot(f, wire, t, Loaded(slots, f.cell))
               case None => None
               case Some((slot, rest)) => DecFields(d, rest, Stored(slots, f.cell, slot), Marked(d, i, seen))
  {
    hide DecVarint32, EncVarint, DecSlot, Marked, Stored, Loaded;
    var f := d.fields[i];
    assert WFField(f);
    FindByTag(d, i, 0);
    hide WFDesc, WFField;
    var word := 8 * f.tag + wire;
    Varint32RoundTrip(word, t);
    assert EncVarint(word) + t != [];
    assert word / 8 == f.tag && word % 8 == wire;
    assert FindFrom(d, f.tag, 0) == i;
  }

  lemma {:induction false} DefaultAt(d: Desc, i: nat, n: nat)
    requires WFDesc(d) && i < n <= |d.fields|
    ensures DefaultsUpTo(d, n)[d.fields[i].cell] == DefaultSlot(d.fields[i])
  {
    assert d.fields[i].cell == d.fields[n - 1].cell ==> DefaultSlot(d.fields[i]) == DefaultSlot(d.fields[n - 1]);
    hide DefaultSlot, WFField;
    if i < n - 1 {
      DefaultAt(d, i, n - 1);
    }
  }

  /** A cell keeps its default until a present field of it has been decoded. */
  lemma {:induction false} StillDefault(d: Desc, m: seq<Slot>, k: nat, i: nat)
    requires WFDesc(d) && i <= |d.fields| && k < |d.fields| && |m| == d.cells
    requires forall j :: 0 <= j < i && d.fields[j].cell == d.fields[k].cell ==>
        !Present(d.fields[j], m[d.fields[k].cell])
    ensures NormalUpTo(d, m, i)[d.fields[k].cell] == DefaultSlot(d.fields[k])
  {
    hide DefaultSlot, NormalSlot, Present;
    if i == 0 {
      DefaultAt(d, k, |d.fields|);
    } else {
      StillDefault(d, m, k, i - 1);
    }
  }

  lemma {:induction false} OthersAbsent(d: Desc, m: seq<Slot>, k: nat)
    requires WFDesc(d) && k < |d.fields| && |m| == d.cells
    requires Present(d.fields[k], m[d.fields[k].cell])
    ensures forall j :: 0 <= j < |d.fields| && j != k && d.fields[j].cell == d.fields[k].cell
              ==> !Present(d.fields[j], m[d.fields[k].cell])
  {
    forall j | 0 <= j < |d.fields| && j != k && d.fields[j].cell == d.fields[k].cell
      ensures !Present(d.fields[j], m[d.fields[k].cell])
    {
      if j < k {
        assert d.fields[j].tag != d.fields[k].tag;
      } else {
        assert d.fields[k].tag != d.fields[j].tag;
      }
    }
  }

  /** The wire form of one item, decoded into a destination that holds the default. */
  lemma {:induction false} ValueRoundTrip(f: Field, v: Value, t: Bytes)
    requires WFField(f) && Storable(f, v) && EncValue(f, v).Some?
    ensures DecValue(f, EncValue(f, v).value + t, DefaultValue(f)) == Some((NormalValue(f, v), t))
    decreases f, 0
  {
    hide DecScalar, EncScalar, TakeDelimited, EncVarint, DecMessage, NormalUpTo, Defaults;
    if Packable(f.ltype) {
      ScalarRoundTrip(f, v, t);
    } else {
      match f.ltype
      case ByteArray =>
        DelimitedRoundTrip(v.bytes, t);
      case Text =>
        DelimitedRoundTrip(CString(v.bytes, f.dataSize), t);
      case FixedBytes =>
        DelimitedRoundTrip(v.bytes, t);
        if v.bytes == [] {
          assert Zeros(f.dataSize) == v.bytes;
        }
      case Submessage(d) =>
        var body := EncFrom(d, v.slots, 0).value;
        DelimitedRoundTrip(body, t);
        MessageRoundTrip(d, v.slots);
    }
  }

  lemma {:induction false} ItemRoundTrip(d: Desc, i: nat, v: Value, t: Bytes, slots: seq<Slot>, seen: set<nat>)
    requires WFDesc(d) && i < |d.fields| && d.fields[i].htype.Repeated? && !Packable(d.fields[i].ltype)
    requires |slots| == d.cells && d.fields[i].cell < d.cells
    requires slots[d.fields[i].cell].Rep? && |slots[d.fields[i].cell].items| < d.fields[i].htype.arraySize
    requires Storable(d.fields[i], v) && EncValue(d.fields[i], v).Some?
    ensures var f := d.fields[i];
            DecFields(d, FieldTag(f) + (EncValue(f, v).value + t), slots, seen)
            == DecFields(d, t, slots[f.cell := Rep(slots[f.cell].items + [NormalValue(f, v)])], seen)
    decreases d, 0
  {
    var f := d.fields[i];
    assert WFField(f);
    hide DecFields, DecValue, EncValue, Storable, NormalValue, DefaultValue, TagBytes, WFDesc, WFField;
    TagStep(d, i, WireType(f.ltype), EncValue(f, v).value + t, slots, seen);
    ValueRoundTrip(f, v, t);
  }

  lemma {:induction false} ItemsSplit(f: Field, items: seq<Value>, t: Bytes)
    requires items != [] && EncItems(f, items).Some?
    ensures EncValue(f, items[0]).Some? && EncItems(f, items[1..]).Some?
    ensures EncItems(f, items).value + t == FieldTag(f)
        + (EncValue(f, items[0]).value + (EncItems(f, items[1..]).value + t))
    ensures NormalItems(f, items) == [NormalValue(f, items[0])] + NormalItems(f, items[1..])
  {
    hide EncValue, NormalValue, FieldTag;
  }

  lemma {:induction false} ItemsRoundTrip(d: Desc, i: nat, items: seq<Value>, done: seq<Value>, t: Bytes,
      slots: seq<Slot>, seen: set<nat>)
    requires WFDesc(d) && i < |d.fields| && d.fields[i].htype.Repeated? && !Packable(d.fields[i].ltype)
    requires |slots| == d.cells && d.fields[i].cell < d.cells && slots[d.fields[i].cell] == Rep(done)
    requires |done| + |items| <= d.fields[i].htype.arraySize
    requires forall k :: 0 <= k < |items| ==> Storable(d.fields[i], items[k])
    requires EncItems(d.fields[i], items).Some?
    ensures var f := d.fields[i];
            DecFields(d, EncItems(f, items).value + t, slots, seen)
            == DecFields(d, t, slots[f.cell := Rep(done + NormalItems(f, items))], seen)
    decreases d, 1, |items|
  {
    hide DecFields, EncValue, Storable, NormalValue, TagBytes, WFDesc, WFField, FieldTag;
    var f := d.fields[i];
    if items == [] {
      assert done + NormalItems(f, items) == done;
      assert slots[f.cell := Rep(done)] == slots;
      assert EncItems(f, items).value + t == t;
    } else {
      hide EncItems, NormalItems;
      ItemsSplit(f, items, t);
      var more := EncItems(f, items[1..]).value;
      var v := NormalValue(f, items[0]);
      ItemRoundTrip(d, i, items[0], more + t, slots, seen);
      var next := slots[f.cell := Rep(done + [v])];
      ItemsRoundTrip(d, i, items[1..], done + [v], t, next, seen);
      assert done + [v] + NormalItems(f, items[1..]) == done + NormalItems(f, items);
      assert next[f.cell := Rep(done + NormalItems(f, items))] == slots[f.cell := Rep(done + NormalItems(f, items))];
    }
  }

  /** Decoding what one field wrote moves the decoder from the state after `i` fields to the
      state after `i + 1`. */
  lemma {:induction false} FieldRoundTrip(d: Desc, m: seq<Slot>, i: nat, t: Bytes)
    requires WFDesc(d) && StorableMessage(d, m) && i < |d.fields|
    requires EncField(d.fields[i], m[d.fields[i].cell]).Some?
    ensures DecFields(d, EncField(d.fields[i], m[d.fields[i].cell]).value + t, NormalUpTo(d, m, i), SeenUpTo(d, i))
            == DecFields(d, t, NormalUpTo(d, m, i + 1), SeenUpTo(d, i + 1))
    decreases d, 2
  {
    assert WFField(d.fields[i]) && d.fields[i].cell < d.cells;
    hide DecFields, DecValue, EncValue, Storable, NormalValue, DefaultValue, TagBytes, EncPacked, DecPacked, ZeroSlot,
        WFDesc, EncVarint, TakeDelimited;
    var f, slots, seen := d.fields[i], NormalUpTo(d, m, i), SeenUpTo(d, i);
    var slot := m[f.cell];
    var e := EncField(f, slot).value;
    assert StorableSlot(f, slot);
    if !Present(f, slot) {
      assert e + t == t;
    } else {
      OthersAbsent(d, m, i);
      StillDefault(d, m, i, i);
      assert slots[f.cell] == DefaultSlot(f);
      if slot.Rep? && Packable(f.ltype) {
        var body := EncPacked(f, slot.items).value;
        assert e + t == TagBytes(f.tag, WT_STRING) + (EncVarint(|body|) + body + t);
        TagStep(d, i, WT_STRING, EncVarint(|body|) + body + t, slots, seen);
        DelimitedRoundTrip(body, t);
        PackedRoundTrip(f, f.htype.arraySize, slot.items, []);
        PackedIsNormal(f, slot.items);
        assert [] + slot.items == slot.items;
      } else if slot.Rep? {
        ItemsRoundTrip(d, i, slot.items, [], t, slots, seen);
        assert [] + NormalItems(f, slot.items) == NormalItems(f, slot.items);
      } else {
        var one := EncValue(f, slot.value).value;
        assert e + t == FieldTag(f) + (one + t);
        TagStep(d, i, WireType(f.ltype), one + t, slots, seen);
        ValueRoundTrip(f, slot.value, t);
      }
    }
  }

  lemma {:induction false} PackedIsNormal(f: Field, items: seq<Value>)
    requires Packable(f.ltype)
    ensures NormalItems(f, items) == items
  {
    if items != [] {
      PackedIsNormal(f, items[1..]);
    }
  }

  lemma {:induction false} FieldsRoundTrip(d: Desc, m: seq<Slot>, i: nat)
    requires WFDesc(d) && StorableMessage(d, m) && i <= |d.fields|
    requires EncFrom(d, m, i).Some?
    ensures DecFields(d, EncFrom(d, m, i).value, NormalUpTo(d, m, i), SeenUpTo(d, i))
            == Some(Decoded(NormalUpTo(d, m, |d.fields|), SeenUpTo(d, |d.fields|), [], false))
    decreases d, 3, |d.fields| - i
  {
    assert |m| == d.cells && (i < |d.fields| ==> d.fields[i].cell < d.cells);
    hide EncField, NormalUpTo, SeenUpTo, StorableMessage, WFDesc;
    if i == |d.fields| {
    } else {
      hide DecFields;
      FieldRoundTrip(d, m, i, EncFrom(d, m, i + 1).value);
      FieldsRoundTrip(d, m, i + 1);
    }
  }

  lemma {:induction false} AllRequiredSeen(d: Desc, i: nat)
    requires i <= |d.fields|
    ensures forall k: nat :: k < RequiredIndex(d, i) && k < PB_MAX_REQUIRED_FIELDS ==> k in SeenUpTo(d, i)
  {
    if i > 0 {
      AllRequiredSeen(d, i - 1);
    }
  }

  lemma {:induction false} MessageRoundTrip(d: Desc, m: seq<Slot>)
    requires WFDesc(d) && StorableMessage(d, m) && EncFrom(d, m, 0).Some?
    ensures Decode(d, EncFrom(d, m, 0).value) == Some((NormalUpTo(d, m, |d.fields|), []))
    decreases d, 4
  {
    hide DecFields, EncFrom, WFDesc, StorableMessage;
    FieldsRoundTrip(d, m, 0);
    AllRequiredSeen(d, |d.fields|);
  }

  // ---- what the decoder built is the message ----

  lemma {:induction false} CStringAgain(s: Bytes, n: nat)
    ensures CString(CString(s, n), n) == CString(s, n)
  {
    if s != [] && n > 0 && s[0] != 0 {
      var c := CString(s[1..], n - 1);
      CStringAgain(s[1..], n - 1);
      assert ([s[0]] + c)[1..] == c;
    }
  }

  /** After all fields, a cell holds the normal form of its present field, or the default. */
  lemma {:induction false} CellAfter(d: Desc, m: seq<Slot>, k: nat, i: nat)
    requires WFDesc(d) && k < i <= |d.fields| && |m| == d.cells
    requires Present(d.fields[k], m[d.fields[k].cell])
    ensures NormalUpTo(d, m, i)[d.fields[k].cell] == NormalSlot(d.fields[k], m[d.fields[k].cell])
  {
    hide NormalSlot, Present, Defaults;
    OthersAbsent(d, m, k);
    if k < i - 1 {
      CellAfter(d, m, k, i - 1);
    }
  }

  /** An absent proto3 field is equal to its default. */
  lemma {:induction false} ZeroIsDefault(f: Field, v: Value)
    requires WFField(f) && f.initial.None? && Storable(f, v) && ZeroValue(f, v)
    ensures Alike(f, v, DefaultValue(f))
    decreases f, 0
  {
    match f.ltype
    case Submessage(d) =>
      forall i {:trigger d.fields[i]} | 0 <= i < |d.fields| && d.fields[i].cell < d.cells
        ensures AlikeSlots(d.fields[i], v.slots[d.fields[i].cell], Defaults(d)[d.fields[i].cell])
      {
        var g := d.fields[i];
        DefaultAt(d, i, |d.fields|);
        assert ZeroSlot(g, Loaded(v.slots, g.cell));
        assert StorableSlot(g, v.slots[g.cell]);
        if g.htype.Singular? {
          ZeroIsDefault(g, v.slots[g.cell].value);
        }
      }
    case FixedBytes =>
      assert v.bytes == Zeros(0);
    case _ =>
  }

  lemma {:induction false} NormalIsAlike(f: Field, v: Value)
    requires WFField(f) && Storable(f, v)
    ensures Alike(f, v, NormalValue(f, v))
    decreases f, 1
  {
    match f.ltype
    case Text => CStringAgain(v.bytes, f.dataSize);
    case Submessage(d) => NormalMessageIsAlike(d, v.slots);
    case _ =>
  }

  lemma {:induction false} NormalSlotIsAlike(d: Desc, m: seq<Slot>, i: nat)
    requires WFDesc(d) && StorableMessage(d, m) && i < |d.fields|
    ensures AlikeSlots(d.fields[i], m[d.fields[i].cell], NormalUpTo(d, m, |d.fields|)[d.fields[i].cell])
    decreases d, 0
  {
    hide ZeroValue, Alike, Storable, NormalValue, DefaultValue;
    var f := d.fields[i];
    assert WFField(f);
    var slot := m[f.cell];
    assert StorableSlot(f, slot);
    assert f.htype.Singular? ==> f.initial.None?;
    hide WFDesc, WFField;
    if Present(f, slot) {
      CellAfter(d, m, i, |d.fields|);
      if slot.Rep? {
        forall k | 0 <= k < |slot.items|
          ensures Alike(f, slot.items[k], NormalValue(f, slot.items[k]))
        {
          NormalIsAlike(f, slot.items[k]);
        }
      } else {
        NormalIsAlike(f, slot.value);
      }
    } else if f.htype.Oneof? {
      UnionIsAlike(d, m, i);
    } else {
      SoleOwner(d, i);
      StillDefault(d, m, i, |d.fields|);
      if f.htype.Singular? {
        ZeroIsDefault(f, slot.value);
      }
    }
  }

  lemma {:induction false} SoleOwner(d: Desc, i: nat)
    requires WFDesc(d) && i < |d.fields| && !d.fields[i].htype.Oneof?
    ensures forall j :: 0 <= j < |d.fields| && d.fields[j].cell == d.fields[i].cell ==> j == i
  {
    hide WFField;
  }

  /** A member of a union that is not the current one. */
  lemma {:induction false} UnionIsAlike(d: Desc, m: seq<Slot>, i: nat)
    requires WFDesc(d) && StorableMessage(d, m) && i < |d.fields|
    requires d.fields[i].htype.Oneof? && m[d.fields[i].cell].OneOf? && m[d.fields[i].cell].which != d.fields[i].tag
    ensures var after := NormalUpTo(d, m, |d.fields|)[d.fields[i].cell];
            after.OneOf? && after.which == m[d.fields[i].cell].which
  {
    hide NormalUpTo, StorableSlot, DefaultValue, NormalValue, WFField;
    var f := d.fields[i];
    var slot := m[f.cell];
    assert WhichIsKnown(d, slot, f.cell);
    if slot.which == 0 {
      forall j | 0 <= j < |d.fields| && d.fields[j].cell == f.cell
        ensures !Present(d.fields[j], slot)
      {
        UnionMember(d, i, j);
      }
      StillDefault(d, m, i, |d.fields|);
    } else {
      var j :| 0 <= j < |d.fields| && d.fields[j].cell == f.cell && d.fields[j].tag == slot.which;
      UnionMember(d, i, j);
      CellAfter(d, m, j, |d.fields|);
    }
  }

  lemma {:induction false} UnionMember(d: Desc, i: nat, j: nat)
    requires WFDesc(d) && i < |d.fields| && j < |d.fields|
    requires d.fields[i].htype.Oneof? && d.fields[i].cell == d.fields[j].cell
    ensures d.fields[j].htype.Oneof? && d.fields[j].tag > 0
  {
    assert WFField(d.fields[j]);
  }

  lemma {:induction false} NormalMessageIsAlike(d: Desc, m: seq<Slot>)
    requires WFDesc(d) && StorableMessage(d, m)
    ensures AlikeMessages(d, m, NormalUpTo(d, m, |d.fields|))
    decreases d, 1
  {
    forall i | 0 <= i < |d.fields|
      ensures AlikeSlots(d.fields[i], m[d.fields[i].cell], NormalUpTo(d, m, |d.fields|)[d.fields[i].cell])
    {
      NormalSlotIsAlike(d, m, i);
    }
  }

  /** pb_decode undoes pb_encode: for every descriptor without cycles and every message a C
      program can hold whose strings are terminated, decoding the encoded bytes succeeds, uses all
      of them, and yields the message, up to what absent optional fields and unions contain. */
  lemma {:induction false} RoundTrip(d: Desc, m: seq<Slot>)
    requires WFDesc(d) && StorableMessage(d, m) && EncFrom(d, m, 0).Some?
    ensures match Decode(d, EncFrom(d, m, 0).value)
            case None => false
            case Some((got, rest)) => rest == [] && AlikeMessages(d, m, got)
  {
    hide WFDesc, StorableMessage, Decode, EncFrom, AlikeMessages, NormalUpTo;
    MessageRoundTrip(d, m);
    NormalMessageIsAlike(d, m);
  }

  /** A string that fills its buffer is encoded, but its own bytes are refused: a string decodes
      again exactly when its terminator lies inside the buffer. */
  lemma {:induction false} StringNeedsTerminator(f: Field, v: Value, t: Bytes)
    requires f.ltype.Text? && WFField(f) && v.Chars?
    ensures EncValue(f, v).Some?
    ensures DecValue(f, EncValue(f, v).value + t, DefaultValue(f)).Some? <==>
        |CString(v.bytes, f.dataSize)| < f.dataSize
  {
    hide TakeDelimited, EncVarint;
    DelimitedRoundTrip(CString(v.bytes, f.dataSize), t);
  }

  /** "ABCD" in a buffer of four bytes: it is encoded, and the encoding is refused. */
  lemma {:induction false} FullStringIsRefused()
    ensures var f, v := Field(1, Required, Text, 4, None, 0), Chars([65, 66, 67, 68]);
            && WFField(f) && EncValue(f, v) == Some([4, 65, 66, 67, 68])
            && DecValue(f, [4, 65, 66, 67, 68], DefaultValue(f)) == None
  {
    var f, v := Field(1, Required, Text, 4, None, 0), Chars([65, 66, 67, 68]);
    FourCharacters();
    assert EncVarint(4) == [4];
    assert EncValue(f, v) == Some([4] + [65, 66, 67, 68]);
    assert [4] + [65, 66, 67, 68] == [4, 65, 66, 67, 68];
    assert EncValue(f, v).value + [] == EncValue(f, v).value;
    StringNeedsTerminator(f, v, []);
  }

  lemma {:induction false} FourCharacters()
    ensures CString([65, 66, 67, 68], 4) == [65, 66, 67, 68]
  {
    assert CString([68], 1) == [68];
    assert [67, 68][1..] == [68] && CString([67, 68], 2) == [67, 68];
    assert [66, 67, 68][1..] == [67, 68] && CString([66, 67, 68], 3) == [66, 67, 68];
    assert [65, 66, 67, 68][1..] == [66, 67, 68];
  }

  // ---- when there is an encoding ----

  /** Every bytes value that goes on the wire fits its buffer, and every array its room. */
  predicate HasRoom(f: Field, v: Value)
    decreases f, 0
  {
    match f.ltype
    case ByteArray => v.Octets? && |v.bytes| + BYTES_HEADER <= f.dataSize
    case Submessage(d) => v.Msg? && MessageHasRoom(d, v.slots)
    case _ => true
  }

  predicate SlotHasRoom(f: Field, slot: Slot)
    decreases f, 1
  {
    Present(f, slot) ==>
      match slot
      case Always(v) => HasRoom(f, v)
      case Opt(_, v) => HasRoom(f, v)
      case OneOf(_, v) => HasRoom(f, v)
      case Rep(items) =>
        && f.htype.Repeated? && |items| <= f.htype.arraySize
        && forall k :: 0 <= k < |items| ==> HasRoom(f, items[k])
  }

  predicate MessageHasRoom(d: Desc, slots: seq<Slot>)
    decreases d
  {
    forall i {:trigger d.fields[i]} :: 0 <= i < |d.fields| ==> SlotHasRoom(d.fields[i], Loaded(slots, d.fields[i].cell))
  }

  lemma {:induction false} ScalarEncodes(f: Field, v: Value)
    requires WFField(f) && Packable(f.ltype)
    ensures EncScalar(f, v).Some?
  {
  }

  lemma {:induction false} PackedEncodes(f: Field, items: seq<Value>)
    requires WFField(f) && Packable(f.ltype)
    ensures EncPacked(f, items).Some?
  {
    hide EncScalar;
    if items != [] {
      ScalarEncodes(f, items[0]);
      PackedEncodes(f, items[1..]);
    }
  }

  lemma {:induction false} ValueEncodesIffRoom(f: Field, v: Value)
    requires WFField(f) && Storable(f, v)
    ensures EncValue(f, v).Some? <==> HasRoom(f, v)
    decreases f, 0
  {
    hide EncScalar;
    match f.ltype
    case Submessage(d) => FieldsEncodeIffRoom(d, v.slots, 0);
    case ByteArray =>
    case Text =>
    case FixedBytes =>
    case _ => ScalarEncodes(f, v);
  }

  lemma {:induction false} ItemsEncodeIffRoom(f: Field, items: seq<Value>)
    requires WFField(f) && forall k :: 0 <= k < |items| ==> Storable(f, items[k])
    ensures EncItems(f, items).Some? <==> forall k :: 0 <= k < |items| ==> HasRoom(f, items[k])
    decreases f, 1, |items|
  {
    hide EncValue, Storable, HasRoom;
    if items != [] {
      ValueEncodesIffRoom(f, items[0]);
      ItemsEncodeIffRoom(f, items[1..]);
      assert forall k :: 1 <= k < |items| ==> items[k] == items[1..][k - 1];
    }
  }

  lemma {:induction false} FieldEncodesIffRoom(f: Field, slot: Slot)
    requires WFField(f) && StorableSlot(f, slot)
    ensures EncField(f, slot).Some? <==> SlotHasRoom(f, slot)
    decreases f, 2
  {
    hide EncValue, Storable, ZeroSlot, EncItems, EncPacked;
    if Present(f, slot) {
      if slot.Rep? {
        if Packable(f.ltype) {
          PackedEncodes(f, slot.items);
          assert forall k :: 0 <= k < |slot.items| ==> HasRoom(f, slot.items[k]);
        } else {
          hide HasRoom;
          ItemsEncodeIffRoom(f, slot.items);
        }
      } else {
        hide HasRoom;
        ValueEncodesIffRoom(f, slot.value);
      }
    }
  }

  lemma {:induction false} FieldsEncodeIffRoom(d: Desc, m: seq<Slot>, i: nat)
    requires WFDesc(d) && StorableMessage(d, m) && i <= |d.fields|
    ensures EncFrom(d, m, i).Some?
            <==> forall j {:trigger d.fields[j]} :: i <= j < |d.fields| ==>
                SlotHasRoom(d.fields[j], Loaded(m, d.fields[j].cell))
    decreases d, |d.fields| - i
  {
    hide EncField, SlotHasRoom, WFField, StorableSlot;
    if i < |d.fields| {
      assert WFField(d.fields[i]) && StorableSlot(d.fields[i], m[d.fields[i].cell]);
      FieldEncodesIffRoom(d.fields[i], m[d.fields[i].cell]);
      FieldsEncodeIffRoom(d, m, i + 1);
    }
  }

  /** Encoding fails exactly when an array that would be sent has more entries than its room, or a
      bytes field that would be sent is larger than its buffer, at any depth. */
  lemma {:induction false} EncodesIffRoom(d: Desc, m: seq<Slot>)
    requires WFDesc(d) && StorableMessage(d, m)
    ensures EncFrom(d, m, 0).Some? <==> MessageHasRoom(d, m)
  {
    hide EncFrom, SlotHasRoom, WFDesc, StorableMessage;
    FieldsEncodeIffRoom(d, m, 0);
  }
}
