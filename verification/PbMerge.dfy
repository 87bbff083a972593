/** Decoding field sequences one after the other: concatenation merges, later fields win, and
    unknown fields are invisible ("Last One Wins" in the Protocol Buffers encoding guide). */
module PbMerge {
  import opened Wire
  import opened PbWire
  import opened PbMessage
  import opened PbRoundTrip

  // ---- more input behind a decoded item changes nothing ----

  lemma {:induction false} ScalarExtends(f: Field, s: Bytes, t: Bytes)
    requires DecScalar(f, s).Some?
    ensures DecScalar(f, s + t) == Some((DecScalar(f, s).value.0, DecScalar(f, s).value.1 + t))
  {
    hide DecVarint, Narrowed, FromLittleEndian;
    if f.ltype.Fixed32? {
      assert (s + t)[..4] == s[..4] && (s + t)[4..] == s[4..] + t;
    } else if f.ltype.Fixed64? {
      assert (s + t)[..8] == s[..8] && (s + t)[8..] == s[8..] + t;
    } else {
      VarintExtends(s, t);
    }
  }

  lemma {:induction false} ValueExtends(f: Field, s: Bytes, dest: Value, t: Bytes)
    requires DecValue(f, s, dest).Some?
    ensures DecValue(f, s + t, dest) == Some((DecValue(f, s, dest).value.0, DecValue(f, s, dest).value.1 + t))
  {
    hide DecScalar, TakeDelimited, DecMessage;
    if Packable(f.ltype) {
      ScalarExtends(f, s, t);
    } else {
      DelimitedExtends(s, t);
    }
  }

  lemma {:induction false} SlotExtends(f: Field, wire: nat, s: Bytes, slot: Slot, t: Bytes)
    requires DecSlot(f, wire, s, slot).Some?
    ensures DecSlot(f, wire, s + t, slot) == Some((DecSlot(f, wire, s, slot).value.0,
        DecSlot(f, wire, s, slot).value.1 + t))
  {
    hide DecValue, TakeDelimited, DecPacked, DefaultValue;
    if f.htype.Repeated? && wire == WT_STRING && Packable(f.ltype) {
      DelimitedExtends(s, t);
    } else {
      ValueExtends(f, s, if f.htype.Repeated? || f.htype.Oneof? then DefaultValue(f) else Current(f, slot), t);
    }
  }

  /** Decoding `a` and then `b` into the same message is decoding `a + b`; a zero tag in `a` ends
      the message there. */
  lemma {:induction false} Concatenation(d: Desc, a: Bytes, b: Bytes, slots: seq<Slot>, seen: set<nat>)
    requires DecFields(d, a, slots, seen).Some?
    ensures var p := DecFields(d, a, slots, seen).value;
            DecFields(d, a + b, slots, seen)
            == if p.stopped then Some(Decoded(p.slots, p.seen, p.rest + b, true)) else DecFields(d, b, p.slots, p.seen)
    decreases |a|
  {
    hide DecVarint32, DecSlot, SkipField, FindFrom, Marked, Stored, Loaded;
    if a == [] {
      assert a + b == b;
    } else {
      Varint32Extends(a, b);
      var (word, s1) := DecVarint32(a).value;
      var i := FindFrom(d, word / 8, 0);
      if word == 0 {
      } else if i < |d.fields| {
        var f := d.fields[i];
        SlotExtends(f, word % 8, s1, Loaded(slots, f.cell), b);
        var (slot, rest) := DecSlot(f, word % 8, s1, Loaded(slots, f.cell)).value;
        Concatenation(d, rest, b, Stored(slots, f.cell, slot), Marked(d, i, seen));
      } else {
        SkipExtends(word % 8, s1, b);
        Concatenation(d, SkipField(word % 8, s1).value, b, slots, seen);
      }
    }
  }

  /** Which required fields were seen before has no influence on the rest of the decoding. */
  lemma {:induction false} SeenIsAdditive(d: Desc, s: Bytes, slots: seq<Slot>, seen: set<nat>, more: set<nat>)
    ensures match DecFields(d, s, slots, seen)
            case None => DecFields(d, s, slots, seen + more).None?
            case Some(p) =>
              DecFields(d, s, slots, seen + more) == Some(Decoded(p.slots, p.seen + more, p.rest, p.stopped))
    decreases |s|
  {
    hide DecVarint32, DecSlot, SkipField, FindFrom, RequiredIndex, Stored, Loaded;
    if s != [] && DecVarint32(s).Some? {
      var (word, s1) := DecVarint32(s).value;
      var i := FindFrom(d, word / 8, 0);
      if word == 0 {
      } else if i < |d.fields| {
        var f := d.fields[i];
        if DecSlot(f, word % 8, s1, Loaded(slots, f.cell)).Some? {
          var (slot, rest) := DecSlot(f, word % 8, s1, Loaded(slots, f.cell)).value;
          SeenIsAdditive(d, rest, Stored(slots, f.cell, slot), Marked(d, i, seen), more);
          assert Marked(d, i, seen) + more == Marked(d, i, seen + more);
        }
      } else if SkipField(word % 8, s1).Some? {
        SeenIsAdditive(d, SkipField(word % 8, s1).value, slots, seen, more);
      }
    }
  }

  /** The required-field check of a concatenation covers both halves together, and neither half
      alone needs to pass it. */
  lemma {:induction false} MergeOfConcatenation(d: Desc, a: Bytes, b: Bytes, slots: seq<Slot>)
    requires DecFields(d, a, slots, {}).Some? && !DecFields(d, a, slots, {}).value.stopped
    ensures var first := DecFields(d, a, slots, {}).value;
            DecMessage(d, a + b, slots)
            == match DecFields(d, b, first.slots, {})
               case None => None
               case Some(second) =>
                 if RequiredMet(d, first.seen + second.seen) then Some((second.slots, second.rest)) else None
  {
    hide DecFields, RequiredMet;
    var first := DecFields(d, a, slots, {}).value;
    Concatenation(d, a, b, slots, {});
    SeenIsAdditive(d, b, first.slots, {}, first.seen);
    assert {} + first.seen == first.seen;
    if DecFields(d, b, first.slots, {}).Some? {
      var second := DecFields(d, b, first.slots, {}).value;
      assert second.seen + first.seen == first.seen + second.seen;
    }
  }

  // ---- unknown fields ----

  /** One whole field whose tag the descriptor does not know. */
  predicate UnknownField(d: Desc, u: Bytes) {
    match DecVarint32(u)
    case None => false
    case Some((word, body)) =>
      && word >= 8
      && FindFrom(d, word / 8, 0) == |d.fields|
      && SkipField(word % 8, body) == Some([])
  }

  /** A field with an unknown tag between two field sequences is as if it were not there. */
  lemma {:induction false} UnknownFieldIsInvisible(d: Desc, a: Bytes, u: Bytes, b: Bytes, slots: seq<Slot>,
      seen: set<nat>)
    requires DecFields(d, a, slots, seen).Some? && UnknownField(d, u)
    requires !DecFields(d, a, slots, seen).value.stopped
    ensures DecFields(d, a + u + b, slots, seen) == DecFields(d, a + b, slots, seen)
  {
    hide DecVarint32, DecSlot, SkipField, FindFrom;
    var p := DecFields(d, a, slots, seen).value;
    assert DecFields(d, u, p.slots, p.seen) == Some(Decoded(p.slots, p.seen, [], false));
    hide DecFields;
    Concatenation(d, a, b, slots, seen);
    Concatenation(d, a, u + b, slots, seen);
    assert a + u + b == a + (u + b);
    Concatenation(d, u, b, p.slots, p.seen);
  }

  // ---- the same field twice ----

  /** Of two occurrences of a non-repeated scalar, string or bytes field, the later one counts. */
  lemma {:induction false} LastOneWins(d: Desc, i: nat, wire: nat, first: Bytes, second: Bytes, slots: seq<Slot>,
      seen: set<nat>)
    requires WFDesc(d) && i < |d.fields| && wire < 8
    requires !d.fields[i].htype.Repeated? && !d.fields[i].ltype.Submessage?
    requires DecValue(d.fields[i], first, DefaultValue(d.fields[i])).Some?
    requires DecValue(d.fields[i], first, DefaultValue(d.fields[i])).value.1 == []
    ensures var tag := TagBytes(d.fields[i].tag, wire);
            DecFields(d, tag + first + (tag + second), slots, seen) == DecFields(d, tag + second, slots, seen)
  {
    hide DecFields, DecValue, DefaultValue, TagBytes, WFDesc, DecSlot, Stored;
    var f := d.fields[i];
    var tag := TagBytes(f.tag, wire);
    var t := tag + second;
    assert tag + first + t == tag + (first + t);
    TagStep(d, i, wire, first + t, slots, seen);
    ValueExtends(f, first, DefaultValue(f), t);
    assert [] + t == t;
    var old1 := Loaded(slots, f.cell);
    OldSlotIsIgnored(f, wire, first + t, old1);
    var slot := DecSlot(f, wire, first + t, old1).value.0;
    var next := Stored(slots, f.cell, slot);
    TagStep(d, i, wire, second, next, Marked(d, i, seen));
    TagStep(d, i, wire, second, slots, seen);
    OldSlotIsIgnored(f, wire, second, Loaded(next, f.cell));
    OldSlotIsIgnored(f, wire, second, old1);
    assert Marked(d, i, Marked(d, i, seen)) == Marked(d, i, seen);
    forall other: Slot
      ensures Stored(next, f.cell, other) == Stored(slots, f.cell, other)
    {
      StoredTwice(slots, f.cell, slot, other);
    }
  }

  lemma {:induction false} StoredTwice(slots: seq<Slot>, cell: nat, slot: Slot, other: Slot)
    ensures Stored(Stored(slots, cell, slot), cell, other) == Stored(slots, cell, other)
  {
  }

  lemma {:induction false} OldSlotIsIgnored(f: Field, wire: nat, s: Bytes, slot: Slot)
    requires !f.htype.Repeated? && !f.ltype.Submessage?
    ensures match DecValue(f, s, DefaultValue(f))
            case None => DecSlot(f, wire, s, slot).None?
            case Some((v, rest)) => DecSlot(f, wire, s, slot).Some? && DecSlot(f, wire, s, slot).value.1 == rest
    ensures DecSlot(f, wire, s, slot) == DecSlot(f, wire, s, DefaultSlot(f))
  {
    hide DecScalar, TakeDelimited, DefaultValue;
    assert DecValue(f, s, Current(f, slot)) == DecValue(f, s, DefaultValue(f));
    assert DecValue(f, s, Current(f, DefaultSlot(f))) == DecValue(f, s, DefaultValue(f));
  }

  predicate Plain(f: Field) {
    f.htype.Required? || f.htype.Singular? || f.htype.Optional?
  }

  function Holding(f: Field, v: Value): Slot {
    if f.htype.Optional? then Opt(true, v) else Always(v)
  }

  lemma {:induction false} CellInStruct(d: Desc, i: nat)
    requires WFDesc(d) && i < |d.fields|
    ensures d.fields[i].cell < d.cells
  {
  }

  lemma {:induction false} SubmessageSlot(f: Field, wire: nat, s: Bytes, body: Bytes, t: Bytes, slot: Slot,
      dest: seq<Slot>)
    requires f.ltype.Submessage? && Plain(f) && Current(f, slot) == Msg(dest) && TakeDelimited(s) == Some((body, t))
    ensures DecSlot(f, wire, s, slot)
            == match DecMessage(f.ltype.desc, body, dest)
               case None => None
               case Some((got, _)) => Some((Holding(f, Msg(got)), t))
  {
    hide DecMessage, TakeDelimited, DefaultValue;
  }

  lemma {:induction false} SubmessageStep(d: Desc, i: nat, body: Bytes, t: Bytes, slots: seq<Slot>, seen: set<nat>,
      dest: seq<Slot>)
    requires WFDesc(d) && i < |d.fields| && |slots| == d.cells && |body| < TWO_32
    requires d.fields[i].ltype.Submessage? && Plain(d.fields[i])
    requires Current(d.fields[i], slots[d.fields[i].cell]) == Msg(dest)
    ensures var f := d.fields[i];
            DecFields(d, FieldTag(f) + (EncVarint(|body|) + body + t), slots, seen)
            == match DecMessage(f.ltype.desc, body, dest)
               case None => None
               case Some((got, _)) => DecFields(d, t, slots[f.cell := Holding(f, Msg(got))], Marked(d, i, seen))
  {
    hide DecFields, TagBytes, EncVarint, TakeDelimited, DecMessage, DecSlot, Current, Holding, WFDesc, Marked;
    CellInStruct(d, i);
    var f := d.fields[i];
    TagStep(d, i, WT_STRING, EncVarint(|body|) + body + t, slots, seen);
    DelimitedRoundTrip(body, t);
    SubmessageSlot(f, WT_STRING, EncVarint(|body|) + body + t, body, t, slots[f.cell], dest);
  }

  /** Two occurrences of a submessage field are one occurrence of the concatenated bodies. */
  lemma {:induction false} SubmessagesMerge(d: Desc, i: nat, a: Bytes, b: Bytes, t: Bytes, slots: seq<Slot>,
      seen: set<nat>, dest: seq<Slot>)
    requires WFDesc(d) && i < |d.fields| && |slots| == d.cells && |a| + |b| < TWO_32
    requires d.fields[i].ltype.Submessage? && Plain(d.fields[i])
    requires Current(d.fields[i], slots[d.fields[i].cell]) == Msg(dest)
    requires var sub := d.fields[i].ltype.desc;
             match DecFields(sub, a, dest, {})
             case None => false
             case Some(p) =>
               && !p.stopped && RequiredMet(sub, p.seen)
               && match DecFields(sub, b, p.slots, {})
                  case None => false
                  case Some(q) => RequiredMet(sub, q.seen)
    ensures var tag := FieldTag(d.fields[i]);
            DecFields(d, tag + (EncVarint(|a|) + a + (tag + (EncVarint(|b|) + b + t))), slots, seen)
            == DecFields(d, tag + (EncVarint(|a + b|) + (a + b) + t), slots, seen)
  {
    CellInStruct(d, i);
    hide DecFields, TagBytes, EncVarint, WFDesc, FieldTag;
    var f := d.fields[i];
    var sub := f.ltype.desc;
    var p := DecFields(sub, a, dest, {}).value;
    var q := DecFields(sub, b, p.slots, {}).value;
    MergeOfConcatenation(sub, a, b, dest);
    assert RequiredMet(sub, p.seen + q.seen);
    SubmessageStep(d, i, a, FieldTag(f) + (EncVarint(|b|) + b + t), slots, seen, dest);
    var next := slots[f.cell := Holding(f, Msg(p.slots))];
    SubmessageStep(d, i, b, t, next, Marked(d, i, seen), p.slots);
    SubmessageStep(d, i, a + b, t, slots, seen, dest);
    assert next[f.cell := Holding(f, Msg(q.slots))] == slots[f.cell := Holding(f, Msg(q.slots))];
    assert Marked(d, i, Marked(d, i, seen)) == Marked(d, i, seen);
  }

  // ---- packed and unpacked arrays ----

  function Unpacked(f: Field, items: seq<Value>): Option<Bytes> {
    if items == [] then Some([])
    else Cat(Some(FieldTag(f)), Cat(EncScalar(f, items[0]), Unpacked(f, items[1..])))
  }

  /** A packable array sent one item per tag is read like the packed form the encoder writes. */
  lemma {:induction false} UnpackedIsAccepted(d: Desc, i: nat, items: seq<Value>, done: seq<Value>, t: Bytes,
      slots: seq<Slot>, seen: set<nat>)
    requires WFDesc(d) && i < |d.fields| && d.fields[i].htype.Repeated? && Packable(d.fields[i].ltype)
    requires |slots| == d.cells && slots[d.fields[i].cell] == Rep(done)
    requires |done| + |items| <= d.fields[i].htype.arraySize
    requires forall k :: 0 <= k < |items| ==> Storable(d.fields[i], items[k])
    requires Unpacked(d.fields[i], items).Some?
    ensures DecFields(d, Unpacked(d.fields[i], items).value + t, slots, seen)
            == DecFields(d, t, slots[d.fields[i].cell := Rep(done + items)], seen)
    decreases |items|
  {
    hide DecFields, EncScalar, DecScalar, Storable, TagBytes, WFDesc, FieldTag;
    CellInStruct(d, i);
    var f := d.fields[i];
    if items == [] {
      assert slots[f.cell := Rep(done + items)] == slots by { assert done + items == done; }
      assert Unpacked(f, items).value + t == t;
    } else {
      var one, more := EncScalar(f, items[0]).value, Unpacked(f, items[1..]).value;
      assert Unpacked(f, items).value + t == FieldTag(f) + (one + (more + t));
      ScalarRoundTrip(f, items[0], more + t);
      UnpackedStep(d, i, items[0], one, more + t, slots, seen);
      var next := slots[f.cell := Rep(done + [items[0]])];
      UnpackedIsAccepted(d, i, items[1..], done + [items[0]], t, next, seen);
      assert done + [items[0]] + items[1..] == done + items;
      assert next[f.cell := Rep(done + items)] == slots[f.cell := Rep(done + items)];
    }
  }

  lemma {:induction false} UnpackedStep(d: Desc, i: nat, v: Value, one: Bytes, t: Bytes, slots: seq<Slot>,
      seen: set<nat>)
    requires WFDesc(d) && i < |d.fields| && d.fields[i].htype.Repeated? && Packable(d.fields[i].ltype)
    requires |slots| == d.cells && d.fields[i].cell < d.cells && slots[d.fields[i].cell].Rep?
    requires |slots[d.fields[i].cell].items| < d.fields[i].htype.arraySize
    requires DecScalar(d.fields[i], one + t) == Some((v, t))
    ensures var f := d.fields[i];
            DecFields(d, FieldTag(f) + (one + t), slots, seen)
            == DecFields(d, t, slots[f.cell := Rep(slots[f.cell].items + [v])], seen)
  {
    hide DecFields, DecScalar, TagBytes, WFDesc;
    TagStep(d, i, WireType(d.fields[i].ltype), one + t, slots, seen);
  }

  // ---- required fields ----

  /** Decoding `s` meets field number `i`. */
  ghost predicate Meets(d: Desc, s: Bytes, slots: seq<Slot>, i: nat)
    decreases |s|
  {
    s != [] &&
    match DecVarint32(s)
    case None => false
    case Some((word, s1)) =>
      word != 0 &&
      var j := FindFrom(d, word / 8, 0);
      if j < |d.fields| then
        i == j ||
        match DecSlot(d.fields[j], word % 8, s1, Loaded(slots, d.fields[j].cell))
        case None => false
        case Some((slot, rest)) => Meets(d, rest, Stored(slots, d.fields[j].cell, slot), i)
      else
        match SkipField(word % 8, s1)
        case None => false
        case Some(rest) => Meets(d, rest, slots, i)
  }

  lemma {:induction false} IndexNamesField(d: Desc, i: nat, j: nat)
    requires i < |d.fields| && j < |d.fields| && d.fields[i].htype.Required? && d.fields[j].htype.Required?
    ensures RequiredIndex(d, i) == RequiredIndex(d, j) <==> i == j
  {
    if i < j {
      IndexGrows(d, i, j);
    } else if j < i {
      IndexGrows(d, j, i);
    }
  }

  lemma {:induction false} IndexGrows(d: Desc, i: nat, j: nat)
    requires i < j <= |d.fields| && d.fields[i].htype.Required?
    ensures RequiredIndex(d, i) < RequiredIndex(d, j)
    decreases j
  {
    if i < j - 1 {
      IndexGrows(d, i, j - 1);
    }
  }

  /** A required field counts as seen exactly when its tag was met. */
  lemma {:induction false} SeenIffMet(d: Desc, s: Bytes, slots: seq<Slot>, seen: set<nat>, i: nat)
    requires i < |d.fields| && d.fields[i].htype.Required? && RequiredIndex(d, i) < PB_MAX_REQUIRED_FIELDS
    requires DecFields(d, s, slots, seen).Some?
    ensures RequiredIndex(d, i) in DecFields(d, s, slots, seen).value.seen
            <==> RequiredIndex(d, i) in seen || Meets(d, s, slots, i)
    decreases |s|
  {
    hide DecVarint32, DecSlot, SkipField, FindFrom, RequiredIndex, Stored, Loaded;
    if s != [] {
      var (word, s1) := DecVarint32(s).value;
      var j := FindFrom(d, word / 8, 0);
      if word == 0 {
      } else if j < |d.fields| {
        var f := d.fields[j];
        var (slot, rest) := DecSlot(f, word % 8, s1, Loaded(slots, f.cell)).value;
        if f.htype.Required? {
          IndexNamesField(d, i, j);
        }
        SeenIffMet(d, rest, Stored(slots, f.cell, slot), Marked(d, j, seen), i);
      } else {
        SeenIffMet(d, SkipField(word % 8, s1).value, slots, seen, i);
      }
    }
  }

  /** How the index of a required field is found again. */
  lemma {:induction false} FieldOfIndex(d: Desc, k: nat, n: nat) returns (i: nat)
    requires n <= |d.fields| && k < RequiredIndex(d, n)
    ensures i < n && d.fields[i].htype.Required? && RequiredIndex(d, i) == k
    decreases n
  {
    if d.fields[n - 1].htype.Required? && RequiredIndex(d, n - 1) == k {
      i := n - 1;
    } else {
      i := FieldOfIndex(d, k, n - 1);
    }
  }

  /** One of the first 64 required fields. */
  predicate MustOccur(d: Desc, i: nat)
    requires i < |d.fields|
  {
    d.fields[i].htype.Required? && RequiredIndex(d, i) < 64
  }

  /** A message whose fields all decode is accepted exactly when each of the first 64 required
      fields occurs in it. */
  lemma {:induction false} RequiredFieldsMustOccur(d: Desc, s: Bytes, slots: seq<Slot>)
    requires DecFields(d, s, slots, {}).Some?
    ensures DecMessage(d, s, slots).Some?
            <==> forall i :: 0 <= i < |d.fields| && MustOccur(d, i) ==> Meets(d, s, slots, i)
  {
    hide DecFields, Meets;
    var seen := DecFields(d, s, slots, {}).value.seen;
    forall i | 0 <= i < |d.fields| && MustOccur(d, i)
      ensures RequiredIndex(d, i) in seen <==> Meets(d, s, slots, i)
      ensures RequiredIndex(d, i) < RequiredIndex(d, |d.fields|)
    {
      SeenIffMet(d, s, slots, {}, i);
      IndexGrows(d, i, |d.fields|);
    }
    hide RequiredIndex;
    if forall i :: 0 <= i < |d.fields| && MustOccur(d, i) ==> Meets(d, s, slots, i) {
      forall k: nat | k < RequiredIndex(d, |d.fields|) && k < PB_MAX_REQUIRED_FIELDS
        ensures k in seen
      {
        var i := FieldOfIndex(d, k, |d.fields|);
      }
    }
  }
}
