/** The decoder as the C code runs it: input streams and substreams, loops over bytes, items and
    fields, and the bit set of required fields. */
module PbDecoder {
  import opened Wire
  import opened PbWire
  import opened PbMessage
  import opened PbIterator

  class IStream {
    const data: Bytes
    var at: nat
    var left: nat

    ghost predicate Valid()
      reads this
    {
      at + left <= |data|
    }

    /** The bytes still to be read. */
    ghost function Rest(): (s: Bytes)
      requires Valid()
      reads this
      ensures |s| == left
    {
      data[at..at + left]
    }

    /** pb_istream_from_buffer. */
    constructor (data: Bytes)
      ensures Valid() && Rest() == data && this.data == data
    {
      this.data := data;
      at := 0;
      left := |data|;
    }

    constructor At(data: Bytes, at: nat, left: nat)
      requires at + left <= |data|
      ensures Valid() && Rest() == data[at..at + left]
      ensures this.data == data && this.at == at && this.left == left
    {
      this.data := data;
      this.at := at;
      this.left := left;
    }

    /** pb_read. */
    method Read(count: nat) returns (ok: bool, bytes: Bytes)
      requires Valid()
      modifies this
      ensures Valid() && at + left == old(at + left)
      ensures ok == Take(old(Rest()), count).Some?
      ensures ok ==> Take(old(Rest()), count) == Some((bytes, Rest()))
      ensures !ok ==> unchanged(this)
    {
      if left < count {
        return false, [];
      }
      bytes := data[at..at + count];
      assert Rest()[..count] == bytes && Rest()[count..] == data[at + count..at + left];
      at := at + count;
      left := left - count;
      ok := true;
    }

    /** pb_readbyte. */
    method ReadByte() returns (ok: bool, b: byte)
      requires Valid()
      modifies this
      ensures Valid() && at + left == old(at + left)
      ensures ok == (old(left) > 0)
      ensures ok ==> old(Rest()) == [b] + Rest() && Rest() == old(Rest())[1..]
      ensures !ok ==> unchanged(this)
    {
      if left == 0 {
        return false, 0;
      }
      b := data[at];
      at := at + 1;
      left := left - 1;
      ok := true;
    }

    /** pb_decode_varint32_eof. */
    method DecodeVarint32Eof() returns (ok: bool, value: nat, eof: bool)
      requires Valid()
      modifies this
      ensures Valid() && left <= old(left) && at + left <= old(at + left)
      ensures ok ==> at + left == old(at + left)
      ensures ok == DecVarint32(old(Rest())).Some?
      ensures ok ==> DecVarint32(old(Rest())) == Some((value, Rest()))
      ensures eof == (old(left) == 0)
    {
      hide OrBits, Shifted, Rest;
      eof := false;
      value := 0;
      var b: byte;
      ok, b := ReadByte();
      if !ok {
        eof := true;
        return;
      }
      if b < 128 {
        value := b;
        return;
      }
      var bitpos: nat := 7;
      var result: nat := b % 128;
      ghost var goal := DecVarint32(old(Rest()));
      while true
        invariant Valid() && left <= old(left) && at + left == old(at + left)
        invariant goal == Varint32From(Rest(), bitpos, result)
        decreases left
      {
        ok, b := ReadByte();
        if !ok {
          return;
        }
        if bitpos >= 32 {
          var signExtension := if bitpos < 63 then 0xff else 0x01;
          if b % 128 != 0 && (result / 0x8000_0000 == 0 || b != signExtension) {
            return false, 0, false;
          }
        } else {
          result := OrBits(result, Shifted(b % 128, bitpos, 32), 32);
        }
        bitpos := (bitpos + 7) % 256;
        if b < 128 {
          break;
        }
      }
      if bitpos == 35 && b / 16 % 8 != 0 {
        return false, 0, false;
      }
      value := result;
      ok := true;
    }

    /** pb_decode_varint. */
    method DecodeVarint() returns (ok: bool, value: nat)
      requires Valid()
      modifies this
      ensures Valid() && left <= old(left) && at + left <= old(at + left)
      ensures ok ==> at + left == old(at + left)
      ensures ok == DecVarint(old(Rest())).Some?
      ensures ok ==> DecVarint(old(Rest())) == Some((value, Rest()))
    {
      hide OrBits, Shifted;
      var bitpos: nat := 0;
      value := 0;
      ghost var goal := DecVarint(old(Rest()));
      var more := true;
      while more
        invariant Valid() && left <= old(left) && at + left == old(at + left)
        invariant more ==> goal == Varint64From(Rest(), bitpos, value)
        invariant !more ==> goal == Some((value, Rest()))
        decreases more, left
      {
        if bitpos >= 64 {
          return false, 0;
        }
        var b: byte;
        ok, b := ReadByte();
        if !ok {
          return;
        }
        value := OrBits(value, Shifted(b % 128, bitpos, 64), 64);
        bitpos := bitpos + 7;
        more := b >= 128;
      }
      ok := true;
    }

    /** pb_skip_varint. */
    method SkipVarintBytes() returns (ok: bool)
      requires Valid()
      modifies this
      ensures Valid() && left <= old(left) && at + left <= old(at + left)
      ensures ok ==> at + left == old(at + left)
      ensures ok == SkipVarint(old(Rest())).Some?
      ensures ok ==> SkipVarint(old(Rest())) == Some(Rest())
    {
      ghost var goal := SkipVarint(old(Rest()));
      var more := true;
      while more
        invariant Valid() && left <= old(left) && at + left == old(at + left)
        invariant more ==> goal == SkipVarint(Rest())
        invariant !more ==> goal == Some(Rest())
        decreases more, left
      {
        var b: byte;
        ok, b := ReadByte();
        if !ok {
          return;
        }
        more := b >= 128;
      }
      ok := true;
    }

    /** pb_skip_field, with pb_skip_string. */
    method Skip(wire: nat) returns (ok: bool)
      requires Valid()
      modifies this
      ensures Valid() && left <= old(left) && at + left <= old(at + left)
      ensures ok ==> at + left == old(at + left)
      ensures ok == SkipField(wire, old(Rest())).Some?
      ensures ok ==> SkipField(wire, old(Rest())) == Some(Rest())
    {
      hide DecVarint32, SkipVarint;
      var bytes: Bytes;
      if wire == WT_VARINT {
        ok := SkipVarintBytes();
      } else if wire == WT_64BIT {
        ok, bytes := Read(8);
      } else if wire == WT_STRING {
        var length: nat;
        var eof: bool;
        ok, length, eof := DecodeVarint32Eof();
        if ok {
          ok, bytes := Read(length);
        }
      } else if wire == WT_32BIT {
        ok, bytes := Read(4);
      } else {
        ok := false;
      }
    }

    /** pb_make_string_substream: both streams now start at the same byte, until the substream
        is closed. */
    method MakeSubstream() returns (ok: bool, sub: IStream)
      requires Valid()
      modifies this
      ensures Valid() && sub.Valid() && fresh(sub) && left <= old(left) && at + left <= old(at + left)
      ensures ok == TakeDelimited(old(Rest())).Some?
      ensures ok ==> var (body, rest) := TakeDelimited(old(Rest())).value;
                     && sub.data == data && sub.at == at && sub.left == |body| && sub.Rest() == body
                     && left == |rest| && at + |body| + left == old(at + left)
                     && data[at + |body|..at + |body| + left] == rest
    {
      hide DecVarint32;
      var size: nat;
      var eof: bool;
      ok, size, eof := DecodeVarint32Eof();
      if !ok || left < size {
        sub := new IStream.At(data, at, 0);
        return false, sub;
      }
      ghost var rest := Rest();
      sub := new IStream.At(data, at, size);
      left := left - size;
      assert rest[..size] == data[at..at + size];
      assert rest[size..] == data[at + size..at + size + left];
    }

    /** pb_close_string_substream. */
    method CloseSubstream(sub: IStream)
      requires sub != this && sub.Valid() && sub.data == data && sub.at + sub.left + left <= |data|
      modifies this, sub
      ensures Valid() && left == old(left) && at == old(sub.at + sub.left)
      ensures Rest() == data[old(sub.at + sub.left)..old(sub.at + sub.left) + left]
    {
      if sub.left != 0 {
        var ok, bytes := sub.Read(sub.left);
        assert ok;
      }
      at := sub.at;
    }

    /** A length and that many bytes, as the string and bytes decoders read them. */
    method ReadDelimited(limit: nat) returns (ok: bool, bytes: Bytes)
      requires Valid()
      modifies this
      ensures Valid() && left <= old(left) && at + left <= old(at + left)
      ensures ok ==> at + left == old(at + left)
      ensures ok == (TakeDelimited(old(Rest())).Some? && |TakeDelimited(old(Rest())).value.0| <= limit)
      ensures ok ==> TakeDelimited(old(Rest())) == Some((bytes, Rest()))
    {
      hide DecVarint32;
      var size: nat;
      var eof: bool;
      bytes := [];
      ok, size, eof := DecodeVarint32Eof();
      if ok {
        if size > limit {
          return false, [];
        }
        ok, bytes := Read(size);
      }
    }

    /** The decoders of packable types. */
    method DecodeScalar(f: Field) returns (ok: bool, v: Value)
      requires Valid() && Packable(f.ltype)
      modifies this
      ensures Valid() && left <= old(left) && at + left <= old(at + left)
      ensures ok ==> at + left == old(at + left)
      ensures ok == DecScalar(f, old(Rest())).Some?
      ensures ok ==> DecScalar(f, old(Rest())) == Some((v, Rest())) && left < old(left)
    {
      hide DecVarint, Narrowed, FromLittleEndian;
      v := Num(0);
      if f.ltype.Fixed32? || f.ltype.Fixed64? {
        var bytes: Bytes;
        ok, bytes := Read(if f.ltype.Fixed32? then 4 else 8);
        if ok {
          v := Num(FromLittleEndian(bytes));
        }
      } else {
        var u: nat;
        ok, u := DecodeVarint();
        if ok {
          var n := Narrowed(f, u);
          ok := n.Some?;
          if ok {
            v := Num(n.value);
          }
        }
      }
    }

    /** PB_DECODERS: one item of any type; a submessage is merged into `dest`. */
    method DecodeValue(f: Field, dest: Value) returns (ok: bool, v: Value)
      requires Valid() && WFField(f)
      modifies this
      ensures Valid() && left <= old(left) && at + left <= old(at + left)
      ensures ok ==> at + left == old(at + left)
      ensures ok == DecValue(f, old(Rest()), dest).Some?
      ensures ok ==> DecValue(f, old(Rest()), dest) == Some((v, Rest())) && left < old(left)
      decreases left, 0
    {
      hide DecScalar, TakeDelimited, DecMessage;
      v := dest;
      if Packable(f.ltype) {
        ok, v := DecodeScalar(f);
      } else if f.ltype.Submessage? {
        ok, v := DecodeSubmessage(f, dest);
      } else {
        var bytes: Bytes;
        if f.ltype.ByteArray? {
          if f.dataSize < BYTES_HEADER {
            return false, dest;
          }
          ok, bytes := ReadDelimited(f.dataSize - BYTES_HEADER);
          v := Octets(bytes);
        } else if f.ltype.Text? {
          if f.dataSize == 0 {
            return false, dest;
          }
          ok, bytes := ReadDelimited(f.dataSize - 1);
          v := Chars(bytes);
        } else {
          ok, bytes := ReadDelimited(f.dataSize);
          if bytes == [] {
            bytes := Zeros(f.dataSize);
          } else if |bytes| != f.dataSize {
            ok := false;
          }
          v := Octets(bytes);
        }
      }
    }

    /** pb_dec_submessage, given an initialized destination. */
    method DecodeSubmessage(f: Field, dest: Value) returns (ok: bool, v: Value)
      requires Valid() && WFField(f) && f.ltype.Submessage?
      modifies this
      ensures Valid() && left <= old(left) && at + left <= old(at + left)
      ensures ok ==> at + left == old(at + left)
      ensures ok == DecValue(f, old(Rest()), dest).Some?
      ensures ok ==> DecValue(f, old(Rest()), dest) == Some((v, Rest())) && left < old(left)
      decreases left, 0, 0
    {
      hide TakeDelimited, DecMessage;
      v := dest;
      var sub: IStream;
      ok, sub := MakeSubstream();
      if !ok {
        return;
      }
      ghost var body := sub.Rest();
      ghost var end := sub.at + sub.left;
      var slots := if dest.Msg? then dest.slots else [];
      ok, slots := sub.DecodeMessage(f.ltype.desc, slots);
      CloseSubstream(sub);
      v := Msg(slots);
    }

    /** The items of a packed array, until its substream or the array is used up. */
    method DecodePackedItems(f: Field, arraySize: nat, items: seq<Value>) returns (ok: bool, result: seq<Value>)
      requires Valid() && Packable(f.ltype)
      modifies this
      ensures Valid() && left <= old(left) && at + left <= old(at + left)
      ensures (ok && left == 0) == DecPacked(f, arraySize, old(Rest()), items).Some?
      ensures ok && left == 0 ==> DecPacked(f, arraySize, old(Rest()), items) == Some(result) && at == old(at + left)
    {
      hide DecScalar;
      ghost var goal := DecPacked(f, arraySize, Rest(), items);
      result := items;
      ok := true;
      while left > 0 && |result| < arraySize
        invariant Valid() && left <= old(left) && at + left == old(at + left)
        invariant goal == DecPacked(f, arraySize, Rest(), result)
        decreases left
      {
        var v: Value;
        ok, v := DecodeScalar(f);
        if !ok {
          return false, items;
        }
        result := result + [v];
      }
      ok := true;
    }

    /** decode_static_field. */
    method DecodeStaticField(f: Field, wire: nat, slot: Slot) returns (ok: bool, result: Slot)
      requires Valid() && WFField(f)
      modifies this
      ensures Valid() && left <= old(left) && at + left <= old(at + left)
      ensures ok ==> at + left == old(at + left)
      ensures ok == DecSlot(f, wire, old(Rest()), slot).Some?
      ensures ok ==> DecSlot(f, wire, old(Rest()), slot) == Some((result, Rest())) && left < old(left)
      decreases left, 1
    {
      hide DecValue, TakeDelimited, DecPacked, DefaultValue, WFField;
      var v: Value;
      result := slot;
      match f.htype
      case Repeated(arraySize) =>
        if wire == WT_STRING && Packable(f.ltype) {
          ok, result := DecodePackedField(f, arraySize, slot);
        } else {
          if |Items(slot)| >= arraySize {
            return false, slot;
          }
          ok, v := DecodeValue(f, DefaultValue(f));
          result := Rep(Items(slot) + [v]);
        }
      case Oneof =>
        ok, v := DecodeValue(f, DefaultValue(f));
        result := OneOf(f.tag, v);
      case Optional =>
        ok, v := DecodeValue(f, Current(f, slot));
        result := Opt(true, v);
      case _ =>
        ok, v := DecodeValue(f, Current(f, slot));
        result := Always(v);
    }

    method DecodePackedField(f: Field, arraySize: nat, slot: Slot) returns (ok: bool, result: Slot)
      requires Valid() && Packable(f.ltype) && f.htype == Repeated(arraySize)
      modifies this
      ensures Valid() && left <= old(left) && at + left <= old(at + left)
      ensures ok ==> at + left == old(at + left)
      ensures ok == DecSlot(f, WT_STRING, old(Rest()), slot).Some?
      ensures ok ==> DecSlot(f, WT_STRING, old(Rest()), slot) == Some((result, Rest())) && left < old(left)
    {
      hide TakeDelimited, DecPacked;
      result := slot;
      var sub: IStream;
      ok, sub := MakeSubstream();
      if !ok {
        return;
      }
      var items: seq<Value>;
      ok, items := sub.DecodePackedItems(f, arraySize, Items(slot));
      if sub.left != 0 {
        return false, slot;
      }
      CloseSubstream(sub);
      result := Rep(items);
    }

    /** pb_decode_tag. */
    method DecodeTag() returns (ok: bool, wire: nat, tag: nat, eof: bool)
      requires Valid() && left > 0
      modifies this
      ensures Valid() && left <= old(left) && at + left <= old(at + left)
      ensures ok || eof ==> at + left == old(at + left) && left < old(left)
      ensures match DecVarint32(old(Rest()))
              case None => !ok && !eof
              case Some((word, rest)) =>
                Rest() == rest && ok == (word != 0) && eof == (word == 0)
                    && (ok ==> wire == word % 8 && tag == word / 8)
    {
      hide DecVarint32;
      wire, tag := 0, 0;
      var word: nat;
      ok, word, eof := DecodeVarint32Eof();
      if !ok {
        return;
      }
      if word == 0 {
        return false, 0, 0, true;
      }
      tag := word / 8;
      wire := word % 8;
    }

    /** One field behind its tag: decode it into its place, or skip it if the tag is unknown. */
    method DecodeFieldOrSkip(iter: FieldIter, fieldsSeen: SeenFields, wire: nat, tag: nat, slots: seq<Slot>,
        ghost seen: set<nat>)
        returns (ok: bool, result: seq<Slot>, ghost nowSeen: set<nat>)
      requires Valid() && iter.Valid() && WFDesc(iter.d) && fieldsSeen.Valid() && fieldsSeen.Seen(seen)
      requires {iter as object, this} !! {fieldsSeen as object, fieldsSeen.words}
      modifies this, iter, fieldsSeen.words
      ensures Valid() && iter.Valid() && left <= old(left) && at + left <= old(at + left)
      ensures ok ==> at + left == old(at + left)
      ensures fieldsSeen.Valid() && (ok ==> fieldsSeen.Seen(nowSeen))
      ensures ok == AfterTag(iter.d, wire, tag, old(Rest()), slots, seen).Some?
      ensures ok ==> AfterTag(iter.d, wire, tag, old(Rest()), slots, seen) == Some((result, nowSeen, Rest()))
      decreases left, 2
    {
      hide DecSlot, SkipField, Stored, Loaded, WFDesc, FindFrom, RequiredIndex;
      var d := iter.d;
      result, nowSeen := slots, seen;
      var found := iter.Find(tag);
      FoundOrNot(d, tag, found, iter.pos);
      if !found {
        ok := Skip(wire);
        return;
      }
      if d.fields == [] {
        // The end marker has data size 0, which no integer decoder accepts.
        return false, slots, seen;
      }
      var f := d.fields[iter.pos];
      FieldIsWF(d, iter.pos);
      if f.htype.Required? && iter.requiredIndex < PB_MAX_REQUIRED_FIELDS {
        fieldsSeen.Mark(iter.requiredIndex, seen);
      }
      nowSeen := Marked(d, iter.pos, seen);
      var slot: Slot;
      ok, slot := DecodeStaticField(f, wire, Loaded(slots, f.cell));
      if ok {
        result := Stored(slots, f.cell, slot);
      }
    }

    /** pb_decode_noinit: fields until the stream or a zero tag ends, then the required fields. */
    method DecodeMessage(d: Desc, slots: seq<Slot>) returns (ok: bool, result: seq<Slot>)
      requires Valid() && WFDesc(d)
      modifies this
      ensures Valid() && left <= old(left) && at + left <= old(at + left)
      ensures ok ==> at + left == old(at + left)
      ensures ok == DecMessage(d, old(Rest()), slots).Some?
      ensures ok ==> DecMessage(d, old(Rest()), slots) == Some((result, Rest()))
      decreases left, 3
    {
      hide DecFields, WFDesc, AfterTag, DecVarint32;
      var iter := new FieldIter(d);
      var fieldsSeen := new SeenFields();
      result := slots;
      ghost var seen: set<nat> := {};
      ghost var goal := DecFields(d, Rest(), slots, {});
      var stopped := false;
      while left > 0 && !stopped
        invariant Valid() && left <= old(left) && at + left == old(at + left)
        invariant iter.Valid() && iter.d == d && fresh(iter)
        invariant fieldsSeen.Valid() && fieldsSeen.Seen(seen) && fresh(fieldsSeen) && fresh(fieldsSeen.words)
        invariant SeenInRange(d, seen)
        invariant !stopped ==> goal == DecFields(d, Rest(), result, seen)
        invariant stopped ==> goal == Some(Decoded(result, seen, Rest(), true))
        decreases left
      {
        var wire, tag: nat, eof;
        TagUnfold(d, Rest(), result, seen);
        ok, wire, tag, eof := DecodeTag();
        if eof {
          stopped := true;
        } else if !ok {
          return;
        } else {
          AfterTagInRange(d, wire, tag, Rest(), result, seen);
          ok, result, seen := DecodeFieldOrSkip(iter, fieldsSeen, wire, tag, result, seen);
          if !ok {
            return;
          }
        }
      }
      if !stopped {
        FieldsEnd(d, result, seen);
        assert Rest() == [];
      }
      var required := CountRequired(iter);
      ok := fieldsSeen.Check(required, seen);
    }

    /** pb_decode. */
    method DecodeFresh(d: Desc) returns (ok: bool, result: seq<Slot>)
      requires Valid() && WFDesc(d)
      modifies this
      ensures Valid()
      ensures ok == Decode(d, old(Rest())).Some?
      ensures ok ==> Decode(d, old(Rest())) == Some((result, Rest()))
    {
      var slots := SetToDefaults(d);
      ok, result := DecodeMessage(d, slots);
    }
  }

  /** pb_message_set_to_defaults. */
  method SetToDefaults(d: Desc) returns (slots: seq<Slot>)
    ensures slots == Defaults(d)
    decreases d, 1
  {
    slots := seq(d.cells, _ => OneOf(0, Num(0)));
    var i := 0;
    while i < |d.fields|
      invariant 0 <= i <= |d.fields|
      invariant slots == DefaultsUpTo(d, i)
    {
      var slot := FieldDefault(d.fields[i]);
      slots := Stored(slots, d.fields[i].cell, slot);
      i := i + 1;
    }
  }

  /** pb_field_set_to_default. */
  method FieldDefault(f: Field) returns (slot: Slot)
    ensures slot == DefaultSlot(f)
    decreases f
  {
    hide Defaults;
    if f.htype.Repeated? {
      return Rep([]);
    }
    if f.htype.Oneof? {
      return OneOf(0, Num(0));
    }
    var v: Value;
    if f.ltype.Submessage? {
      var slots := SetToDefaults(f.ltype.desc);
      v := Msg(slots);
    } else if f.initial.Some? {
      v := f.initial.value;
    } else {
      v := ZeroOf(f);
    }
    slot := if f.htype.Optional? then Opt(false, v) else Always(v);
  }

  /** What one known or unknown field does to the message, the seen set and the input. */
  ghost function AfterTag(d: Desc, wire: nat, tag: nat, s: Bytes, slots: seq<Slot>,
      seen: set<nat>): Option<(seq<Slot>, set<nat>, Bytes)> {
    var i := FindFrom(d, tag, 0);
    if i < |d.fields| then
      var f := d.fields[i];
      match DecSlot(f, wire, s, Loaded(slots, f.cell))
      case None => None
      case Some((slot, rest)) => Some((Stored(slots, f.cell, slot), Marked(d, i, seen), rest))
    else if d.fields == [] && tag == 0 then None
    else
      match SkipField(wire, s)
      case None => None
      case Some(rest) => Some((slots, seen, rest))
  }

  lemma {:induction false} FieldsEnd(d: Desc, slots: seq<Slot>, seen: set<nat>)
    ensures DecFields(d, [], slots, seen) == Some(Decoded(slots, seen, [], false))
  {
  }

  lemma {:induction false} TagUnfold(d: Desc, s: Bytes, slots: seq<Slot>, seen: set<nat>)
    requires s != []
    ensures DecFields(d, s, slots, seen)
            == match DecVarint32(s)
               case None => None
               case Some((word, s1)) =>
                 if word == 0 then Some(Decoded(slots, seen, s1, true))
                 else
                   match AfterTag(d, word % 8, word / 8, s1, slots, seen)
                   case None => None
                   case Some((slots1, seen1, rest)) => DecFields(d, rest, slots1, seen1)
  {
    hide DecVarint32, DecSlot, SkipField;
  }

  lemma {:induction false} FoundOrNot(d: Desc, tag: nat, found: bool, pos: nat)
    requires WFDesc(d)
    requires found <==> (exists i :: 0 <= i < |d.fields| && d.fields[i].tag == tag) || (d.fields == [] && tag == 0)
    requires found && d.fields != [] ==> pos < |d.fields| && d.fields[pos].tag == tag
    ensures FindFrom(d, tag, 0) == if found && d.fields != [] then pos else |d.fields|
  {
    hide WFDesc;
    if found && d.fields != [] {
      FoundIsFirst(d, pos, tag);
    }
  }

  lemma {:induction false} FieldIsWF(d: Desc, i: nat)
    requires WFDesc(d) && i < |d.fields|
    ensures WFField(d.fields[i])
  {
  }

  // ---- the set of required fields seen ----

  predicate Bit(w: nat, k: nat) {
    if k == 0 then w % 2 == 1 else Bit(w / 2, k - 1)
  }

  lemma {:induction false} BitOfOr(a: nat, b: nat, n: nat, k: nat)
    requires k < n
    ensures Bit(OrBits(a, b, n), k) <==> Bit(a, k) || Bit(b, k)
  {
    if k > 0 {
      BitOfOr(a / 2, b / 2, n - 1, k - 1);
    }
  }

  lemma {:induction false} BitOfPower(j: nat, k: nat)
    ensures Bit(Pow2(j), k) <==> j == k
  {
    if j == 0 {
      if k > 0 {
        BitOfZero(k - 1);
      }
    } else if k > 0 {
      BitOfPower(j - 1, k - 1);
    }
  }

  lemma {:induction false} BitOfZero(k: nat)
    ensures !Bit(0, k)
  {
    if k > 0 {
      BitOfZero(k - 1);
    }
  }

  lemma {:induction false} BitOfOnes(r: nat, k: nat)
    ensures Bit(Pow2(r) - 1, k) <==> k < r
  {
    if r == 0 {
      BitOfZero(k);
    } else {
      assert (Pow2(r) - 1) / 2 == Pow2(r - 1) - 1;
      if k > 0 {
        BitOfOnes(r - 1, k - 1);
      }
    }
  }

  lemma {:induction false} BitsDetermine(a: nat, b: nat, n: nat)
    requires a < Pow2(n) && b < Pow2(n)
    requires forall k: nat :: k < n ==> (Bit(a, k) <==> Bit(b, k))
    ensures a == b
  {
    if n > 0 {
      assert Bit(a, 0) <==> Bit(b, 0);
      forall k: nat | k < n - 1
        ensures Bit(a / 2, k) <==> Bit(b / 2, k)
      {
        assert Bit(a, k + 1) <==> Bit(b, k + 1);
      }
      BitsDetermine(a / 2, b / 2, n - 1);
    }
  }

  ghost predicate Ones(w: nat, r: nat, n: nat) {
    forall k: nat :: k < n ==> (Bit(w, k) <==> k < r)
  }

  /** A word is 2^r - 1 exactly when its bits below `r` are set and no others. */
  lemma {:induction false} OnesIff(w: nat, r: nat, n: nat)
    requires r <= n && w < Pow2(n)
    ensures w == Pow2(r) - 1 <==> Ones(w, r, n)
  {
    hide Bit, Pow2;
    var ones: nat := Pow2(r) - 1;
    forall k: nat
      ensures Bit(ones, k) <==> k < r
    {
      BitOfOnes(r, k);
    }
    assert Ones(ones, r, n);
    if Ones(w, r, n) {
      PowMonotone(r, n);
      BitsDetermine(w, ones, n);
    }
  }

  /** fields_seen: two 32-bit words. */
  class SeenFields {
    const words: array<nat>

    ghost predicate Valid()
      reads this, words
    {
      words.Length == 2 && words[0] < TWO_32 && words[1] < TWO_32
    }

    ghost predicate Seen(seen: set<nat>)
      requires Valid()
      reads this, words
    {
      && (forall k: nat :: k < 32 ==> (Bit(words[0], k) <==> k in seen))
      && (forall k: nat :: k < 32 ==> (Bit(words[1], k) <==> k + 32 in seen))
    }

    constructor ()
      ensures Valid() && Seen({}) && fresh(words)
    {
      words := new nat[2](_ => 0);
      new;
      forall k: nat
        ensures !Bit(0, k)
      {
        BitOfZero(k);
      }
    }

    method Mark(index: nat, ghost seen: set<nat>)
      requires Valid() && Seen(seen) && index < PB_MAX_REQUIRED_FIELDS
      modifies words
      ensures Valid() && Seen(seen + {index})
    {
      hide OrBits, Bit, Pow2;
      PowValues();
      ghost var w := words[index / 32];
      words[index / 32] := OrBits(words[index / 32], Pow2(index % 32), 32);
      forall k: nat | k < 32
        ensures Bit(words[index / 32], k) <==> Bit(w, k) || k == index % 32
      {
        BitOfOr(w, Pow2(index % 32), 32, k);
        BitOfPower(index % 32, k);
      }
    }

    /** Whether the first `required` fields, at most 64, have all been seen. */
    method Check(required: nat, ghost seen: set<nat>) returns (ok: bool)
      requires Valid() && Seen(seen) && forall k :: k in seen ==> k < required
      ensures ok <==> forall k: nat :: k < required && k < PB_MAX_REQUIRED_FIELDS ==> k in seen
    {
      hide Bit, Pow2;
      PowValues();
      var count := if required > PB_MAX_REQUIRED_FIELDS then PB_MAX_REQUIRED_FIELDS else required;
      var i := 0;
      while i < count / 32
        invariant 0 <= i <= count / 32
        invariant forall k: nat :: k < 32 * i ==> k in seen
      {
        OnesIff(words[i], 32, 32);
        if words[i] != TWO_32 - 1 {
          ghost var k: nat :| k < 32 && !Bit(words[i], k);
          assert k + 32 * i !in seen;
          return false;
        }
        forall k: nat | 32 * i <= k < 32 * i + 32
          ensures k in seen
        {
          assert Bit(words[i], k - 32 * i);
        }
        i := i + 1;
      }
      if count % 32 != 0 {
        OnesIff(words[count / 32], count % 32, 32);
        if words[count / 32] != Pow2(count % 32) - 1 {
          ghost var k: nat :| k < 32 && (Bit(words[count / 32], k) <==> k >= count % 32);
          assert Bit(words[count / 32], k) <==> k + 32 * (count / 32) in seen;
          return false;
        }
        forall k: nat | 32 * (count / 32) <= k < count
          ensures k in seen
        {
          assert Bit(words[count / 32], k - 32 * (count / 32));
        }
      }
      ok := true;
    }
  }

  ghost predicate SeenInRange(d: Desc, seen: set<nat>) {
    forall k :: k in seen ==> k < RequiredIndex(d, |d.fields|)
  }

  lemma {:induction false} RequiredIndexGrows(d: Desc, i: nat, j: nat)
    requires i < j <= |d.fields|
    ensures RequiredIndex(d, i) + (if d.fields[i].htype.Required? then 1 else 0) <= RequiredIndex(d, j)
    decreases j
  {
    if i < j - 1 {
      RequiredIndexGrows(d, i, j - 1);
    }
  }

  lemma {:induction false} MarkedInRange(d: Desc, i: nat, seen: set<nat>)
    requires i < |d.fields| && SeenInRange(d, seen)
    ensures SeenInRange(d, Marked(d, i, seen))
  {
    RequiredIndexGrows(d, i, |d.fields|);
  }

  lemma {:induction false} AfterTagInRange(d: Desc, wire: nat, tag: nat, s: Bytes, slots: seq<Slot>, seen: set<nat>)
    requires SeenInRange(d, seen)
    ensures AfterTag(d, wire, tag, s, slots, seen).Some? ==>
        SeenInRange(d, AfterTag(d, wire, tag, s, slots, seen).value.1)
  {
    hide DecSlot, SkipField, Marked, SeenInRange;
    var i := FindFrom(d, tag, 0);
    if i < |d.fields| {
      MarkedInRange(d, i, seen);
    }
  }

  /** Seeks to the end of the descriptor to learn the number of required fields. */
  method CountRequired(iter: FieldIter) returns (count: nat)
    requires iter.Valid()
    modifies iter
    ensures iter.Valid()
    ensures count == RequiredIndex(iter.d, |iter.d.fields|)
  {
    if iter.d.fields == [] {
      return 0;
    }
    var lastRequired := false;
    var more := true;
    ghost var last := iter.pos;
    count := 0;
    while more
      invariant iter.Valid() && iter.d.fields != []
      invariant more ==> iter.pos >= last
      invariant !more ==> last == |iter.d.fields| - 1 && count == RequiredIndex(iter.d, last)
                          && lastRequired == iter.d.fields[last].htype.Required?
      decreases more, |iter.d.fields| - iter.pos
    {
      count := iter.requiredIndex;
      lastRequired := iter.d.fields[iter.pos].htype.Required?;
      last := iter.pos;
      more := iter.Next();
    }
    if lastRequired {
      count := count + 1;
    }
  }
}
