/** What a decoded message holds where the input says nothing: the declared default or zero, or
    what was there before. */
module PbDefaults {
  import opened Wire
  import opened PbWire
  import opened PbMessage
  import opened PbMerge

  // ---- what a default is ----

  predicate AllZero(s: Bytes) {
    forall i :: 0 <= i < |s| ==> s[i] == 0
  }

  predicate IsZero(f: Field, v: Value) {
    match f.ltype
    case ByteArray => v == Octets([])
    case Text => v == Chars([])
    case FixedBytes => v.Octets? && |v.bytes| == f.dataSize && AllZero(v.bytes)
    case _ => v == Num(0)
  }

  /** A value as it is before anything was decoded: the declared default if there is one, and
      otherwise zero, empty, or a message of such fields. */
  ghost predicate IsDefault(f: Field, v: Value)
    decreases f, 0
  {
    if f.ltype.Submessage? then v.Msg? && |v.slots| == f.ltype.desc.cells && AllUnset(f.ltype.desc, v.slots)
    else if f.initial != None then Some(v) == f.initial
    else IsZero(f, v)
  }

  /** A field that was not set: no flag, no items, no member of the union chosen. */
  ghost predicate IsUnset(f: Field, slot: Slot)
    decreases f, 1
  {
    match f.htype
    case Required => slot.Always? && IsDefault(f, slot.value)
    case Singular => slot.Always? && IsDefault(f, slot.value)
    case Optional => slot.Opt? && !slot.has && IsDefault(f, slot.value)
    case Repeated(_) => slot == Rep([])
    case Oneof => slot.OneOf? && slot.which == 0
  }

  ghost predicate AllUnset(d: Desc, slots: seq<Slot>)
    decreases d, |d.fields| + 1
  {
    forall i {:trigger d.fields[i]} :: 0 <= i < |d.fields| ==>
      d.fields[i].cell < |slots| && IsUnset(d.fields[i], slots[d.fields[i].cell])
  }

  lemma {:induction false} DefaultSlotIsUnset(f: Field)
    requires WFField(f)
    ensures IsUnset(f, DefaultSlot(f))
    decreases f, 1
  {
    if f.ltype.Submessage? {
      DefaultsAreUnset(f.ltype.desc);
    }
  }

  lemma {:induction false} DefaultsUpToAreUnset(d: Desc, n: nat, i: nat)
    requires WFDesc(d) && n <= |d.fields| && i < n
    ensures d.fields[i].cell < d.cells && IsUnset(d.fields[i], DefaultsUpTo(d, n)[d.fields[i].cell])
    decreases d, n
  {
    hide IsUnset, DefaultSlot;
    var f, last := d.fields[i], d.fields[n - 1];
    DefaultSlotIsUnset(last);
    if i < n - 1 {
      DefaultsUpToAreUnset(d, n - 1, i);
      if f.cell == last.cell {
        UnionUnset(f, last);
      }
    }
  }

  lemma {:induction false} UnionUnset(f: Field, g: Field)
    requires f.htype.Oneof? && g.htype.Oneof?
    ensures IsUnset(f, DefaultSlot(g))
  {
  }

  /** pb_message_set_to_defaults leaves every field unset. */
  lemma {:induction false} DefaultsAreUnset(d: Desc)
    requires WFDesc(d)
    ensures AllUnset(d, Defaults(d))
    decreases d, |d.fields| + 1
  {
    forall i | 0 <= i < |d.fields|
      ensures d.fields[i].cell < |Defaults(d)| && IsUnset(d.fields[i], Defaults(d)[d.fields[i].cell])
    {
      DefaultsUpToAreUnset(d, |d.fields|, i);
    }
  }

  // ---- what is not met stays ----

  /** No field that uses this cell is met. */
  ghost predicate CellIsFree(d: Desc, s: Bytes, slots: seq<Slot>, cell: nat) {
    forall j {:trigger d.fields[j]} :: 0 <= j < |d.fields| && d.fields[j].cell == cell ==> !Meets(d, s, slots, j)
  }

  /** Whatever message is decoded into: a cell none of whose fields is met keeps its contents. */
  lemma {:induction false} UnmetIsKept(d: Desc, s: Bytes, slots: seq<Slot>, seen: set<nat>, cell: nat)
    requires DecFields(d, s, slots, seen).Some? && CellIsFree(d, s, slots, cell) && cell < |slots|
    ensures var p := DecFields(d, s, slots, seen).value;
            |p.slots| == |slots| && p.slots[cell] == slots[cell]
    decreases |s|
  {
    hide DecVarint32, DecSlot, SkipField, FindFrom, RequiredIndex;
    if s != [] {
      var (word, s1) := DecVarint32(s).value;
      var i := FindFrom(d, word / 8, 0);
      if word == 0 {
      } else if i < |d.fields| {
        var f := d.fields[i];
        assert f.cell == cell ==> !Meets(d, s, slots, i);
        var (slot, rest) := DecSlot(f, word % 8, s1, Loaded(slots, f.cell)).value;
        UnmetIsKept(d, rest, Stored(slots, f.cell, slot), Marked(d, i, seen), cell);
      } else {
        UnmetIsKept(d, SkipField(word % 8, s1).value, slots, seen, cell);
      }
    }
  }

  /** The same for a field that shares its cell with no other. */
  lemma {:induction false} UnmetFieldIsKept(d: Desc, s: Bytes, slots: seq<Slot>, i: nat)
    requires WFDesc(d) && |slots| == d.cells && i < |d.fields| && !d.fields[i].htype.Oneof?
    requires DecMessage(d, s, slots).Some? && !Meets(d, s, slots, i)
    ensures var (got, _) := DecMessage(d, s, slots).value;
            |got| == |slots| && got[d.fields[i].cell] == slots[d.fields[i].cell]
  {
    hide DecFields, Meets, WFField;
    UnmetIsKept(d, s, slots, {}, d.fields[i].cell);
  }

  /** In a decoded message, a field the input does not meet is unset: its flag is clear, and it has
      its declared default or else zero, at every depth. A union is unset if no member is met. */
  lemma {:induction false} UnmetIsDefault(d: Desc, s: Bytes, i: nat)
    requires WFDesc(d) && Decode(d, s).Some? && i < |d.fields| && CellIsFree(d, s, Defaults(d), d.fields[i].cell)
    ensures var (got, _) := Decode(d, s).value;
            |got| == d.cells && d.fields[i].cell < d.cells && IsUnset(d.fields[i], got[d.fields[i].cell])
  {
    hide DecFields, CellIsFree, Defaults, IsUnset, WFField;
    DefaultsAreUnset(d);
    UnmetIsKept(d, s, Defaults(d), {}, d.fields[i].cell);
  }

  /** Inside a submessage that begins there, too: the first occurrence of a submessage field, every
      item of an array of them, and every occurrence of a union's submessage, whatever the union
      held before. */
  lemma {:induction false} UnmetInSubmessage(f: Field, wire: nat, s: Bytes, slot: Slot, j: nat)
    requires WFField(f) && f.ltype.Submessage? && j < |f.ltype.desc.fields|
    requires f.htype.Oneof? || f.htype.Repeated? || slot == DefaultSlot(f)
    requires DecSlot(f, wire, s, slot).Some? && TakeDelimited(s).Some?
    requires var sub := f.ltype.desc; CellIsFree(sub, TakeDelimited(s).value.0, Defaults(sub), sub.fields[j].cell)
    ensures var sub, got := f.ltype.desc, Newest(DecSlot(f, wire, s, slot).value.0);
            got.Msg? && |got.slots| == sub.cells && sub.fields[j].cell < sub.cells
            && IsUnset(sub.fields[j], got.slots[sub.fields[j].cell])
  {
    hide DecMessage, Defaults, CellIsFree, IsUnset, TakeDelimited;
    var sub := f.ltype.desc;
    UnmetIsDefault(sub, TakeDelimited(s).value.0, j);
    assert DecValue(f, s, DefaultValue(f)) == match DecMessage(sub, TakeDelimited(s).value.0, Defaults(sub))
                                              case None => None
                                              case Some((got, _)) => Some((Msg(got), TakeDelimited(s).value.1));
  }

  /** What a slot was last given. */
  function Newest(slot: Slot): Value {
    match slot
    case Always(v) => v
    case Opt(_, v) => v
    case Rep(items) => if items == [] then Num(0) else items[|items| - 1]
    case OneOf(_, v) => v
  }

  /** A union's new value does not depend on what it held. */
  lemma {:induction false} UnionStartsOver(f: Field, wire: nat, s: Bytes, slot: Slot, other: Slot)
    requires f.htype.Oneof?
    ensures DecSlot(f, wire, s, slot) == DecSlot(f, wire, s, other)
    ensures DecSlot(f, wire, s, slot).Some? ==>
              DecSlot(f, wire, s, slot).value.0.OneOf? && DecSlot(f, wire, s, slot).value.0.which == f.tag
  {
    hide DecValue;
  }

  /** An input: an optional field with default 5 and no bytes at all. */
  lemma {:induction false} DeclaredDefault()
    ensures Decode(Desc([Field(1, Optional, Varint, 4, Some(Num(5)), 0)], 1), []) == Some(([Opt(false, Num(5))], []))
  {
    var f := Field(1, Optional, Varint, 4, Some(Num(5)), 0);
    var d := Desc([f], 1);
    assert WFField(f);
    DefaultsAreUnset(d);
    assert d.fields[0] == f;
    assert Defaults(d) == [Opt(false, Num(5))];
  }
}
