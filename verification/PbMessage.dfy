/** Message descriptors, messages, and the meaning of nanopb's encoder and decoder as functions
    on byte strings. The stream machinery that computes them is in PbEncoder and PbDecoder. */
module PbMessage {
  import opened Wire
  import opened PbWire

  const PB_MAX_REQUIRED_FIELDS: nat := 64
  const TAG_LIMIT: nat := 0x2000_0000
  /** offsetof(pb_bytes_array_t, bytes) when sizes are 32-bit. */
  const BYTES_HEADER: nat := 4

  /** PB_LTYPE: what one item is. `desc` is the descriptor a submessage field points to. */
  datatype LType = Varint | UVarint | SVarint | Fixed32 | Fixed64
                 | ByteArray | Text | Submessage(desc: Desc) | FixedBytes

  /** PB_HTYPE. `Singular` is a proto3 field: optional, but without a `has_` flag. */
  datatype HType = Required | Optional | Singular | Repeated(arraySize: nat) | Oneof

  /** One entry of a descriptor. `cell` stands for the memory the entry's offsets lead to: members
      of one union share a cell, all other fields have their own. */
  datatype Field = Field(tag: nat, htype: HType, ltype: LType, dataSize: nat, initial: Option<Value>, cell: nat)

  datatype Desc = Desc(fields: seq<Field>, cells: nat)

  datatype Value = Num(n: int) | Octets(bytes: Bytes) | Chars(bytes: Bytes) | Msg(slots: seq<Slot>)

  /** A field's data with the flag, count or `which_` tag next to it. */
  datatype Slot = Always(value: Value) | Opt(has: bool, value: Value)
                | Rep(items: seq<Value>) | OneOf(which: nat, value: Value)

  predicate Packable(l: LType) {
    l.Varint? || l.UVarint? || l.SVarint? || l.Fixed32? || l.Fixed64?
  }

  predicate IntSize(n: nat) {
    n == 1 || n == 2 || n == 4 || n == 8
  }

  /** The C string in a buffer: up to the first NUL or the end of the buffer. */
  function CString(s: Bytes, size: nat): (c: Bytes)
    ensures c <= s && |c| <= size && 0 !in c
    ensures |c| == |s| || |c| == size || s[|c|] == 0
  {
    if s == [] || size == 0 || s[0] == 0 then [] else [s[0]] + CString(s[1..], size - 1)
  }

  // ---- default values ----

  function Zeros(n: nat): Bytes {
    seq(n, _ => 0)
  }

  function ZeroOf(f: Field): Value {
    match f.ltype
    case ByteArray => Octets([])
    case Text => Chars([])
    case FixedBytes => Octets(Zeros(f.dataSize))
    case _ => Num(0)
  }

  function DefaultValue(f: Field): Value
    decreases f, 0
  {
    if f.ltype.Submessage? then Msg(Defaults(f.ltype.desc))
    else if f.initial.Some? then f.initial.value
    else ZeroOf(f)
  }

  /** pb_field_set_to_default. What a count of 0 or an unset union hides is not represented. */
  function DefaultSlot(f: Field): Slot
    decreases f, 1
  {
    match f.htype
    case Required => Always(DefaultValue(f))
    case Singular => Always(DefaultValue(f))
    case Optional => Opt(false, DefaultValue(f))
    case Repeated(_) => Rep([])
    case Oneof => OneOf(0, Num(0))
  }

  /** pb_message_set_to_defaults, after `i` fields. */
  function DefaultsUpTo(d: Desc, i: nat): (slots: seq<Slot>)
    requires i <= |d.fields|
    ensures |slots| == d.cells
    decreases d, i
  {
    if i == 0 then seq(d.cells, _ => OneOf(0, Num(0)))
    else Stored(DefaultsUpTo(d, i - 1), d.fields[i - 1].cell, DefaultSlot(d.fields[i - 1]))
  }

  function Stored(slots: seq<Slot>, cell: nat, slot: Slot): (r: seq<Slot>)
    ensures |r| == |slots|
  {
    if cell < |slots| then slots[cell := slot] else slots
  }

  function Loaded(slots: seq<Slot>, cell: nat): Slot {
    if cell < |slots| then slots[cell] else OneOf(0, Num(0))
  }

  function Defaults(d: Desc): (slots: seq<Slot>)
    ensures |slots| == d.cells
    decreases d, |d.fields| + 1
  {
    DefaultsUpTo(d, |d.fields|)
  }

  /** pb_check_proto3_default_value on a whole slot. */
  predicate ZeroSlot(f: Field, slot: Slot)
    decreases f, 1
  {
    match f.htype
    case Required => false
    case Repeated(_) => slot.Rep? && slot.items == []
    case Oneof => slot.OneOf? && slot.which == 0
    case Optional => slot.Opt? && !slot.has
    case Singular => slot.Always? && ZeroValue(f, slot.value)
  }

  predicate ZeroValue(f: Field, v: Value)
    decreases f, 0
  {
    match f.ltype
    case ByteArray => v.Octets? && v.bytes == []
    case Text => v.Chars? && (v.bytes == [] || v.bytes[0] == 0)
    case FixedBytes => f.dataSize == 0
    case Submessage(d) =>
      v.Msg? && forall i {:trigger d.fields[i]} :: 0 <= i < |d.fields| ==>
          ZeroSlot(d.fields[i], Loaded(v.slots, d.fields[i].cell))
    case _ => v.Num? && v.n == 0
  }

  // ---- encoding ----

  function Cat(a: Option<Bytes>, b: Option<Bytes>): Option<Bytes> {
    if a.Some? && b.Some? then Some(a.value + b.value) else None
  }

  function Delimited(body: Option<Bytes>): Option<Bytes> {
    if body.Some? then Some(EncVarint(|body.value|) + body.value) else None
  }

  function WireType(l: LType): nat {
    match l
    case Varint => WT_VARINT
    case UVarint => WT_VARINT
    case SVarint => WT_VARINT
    case Fixed32 => WT_32BIT
    case Fixed64 => WT_64BIT
    case _ => WT_STRING
  }

  function TagBytes(tag: nat, wire: nat): Bytes {
    EncVarint(8 * tag + wire)
  }

  function FieldTag(f: Field): Bytes {
    TagBytes(f.tag, WireType(f.ltype))
  }

  function NumberOf(v: Value): int {
    if v.Num? then v.n else 0
  }

  /** The encoders of packable types. */
  function EncScalar(f: Field, v: Value): Option<Bytes> {
    match f.ltype
    case Varint => if IntSize(f.dataSize) then Some(EncVarint(Unsigned64(NumberOf(v)))) else None
    case UVarint => if IntSize(f.dataSize) then Some(EncVarint(Unsigned64(NumberOf(v)))) else None
    case SVarint => if IntSize(f.dataSize) then Some(EncVarint(ZigZag(NumberOf(v)))) else None
    case Fixed32 => Some(LittleEndian(NumberOf(v) % TWO_32, 4))
    case Fixed64 => Some(LittleEndian(NumberOf(v) % TWO_64, 8))
    case _ => None
  }

  function EncValue(f: Field, v: Value): Option<Bytes>
    decreases f, 0
  {
    match f.ltype
    case ByteArray =>
      if v.Octets? && |v.bytes| + BYTES_HEADER <= f.dataSize then Delimited(Some(v.bytes)) else None
    case Text => if v.Chars? then Delimited(Some(CString(v.bytes, f.dataSize))) else None
    case FixedBytes => if v.Octets? && |v.bytes| == f.dataSize then Delimited(Some(v.bytes)) else None
    case Submessage(d) => if v.Msg? then Delimited(EncFrom(d, v.slots, 0)) else None
    case _ => EncScalar(f, v)
  }

  function EncPacked(f: Field, items: seq<Value>): Option<Bytes> {
    if items == [] then Some([]) else Cat(EncScalar(f, items[0]), EncPacked(f, items[1..]))
  }

  function EncItems(f: Field, items: seq<Value>): Option<Bytes>
    decreases f, 1, |items|
  {
    if items == [] then Some([])
    else Cat(Some(FieldTag(f)), Cat(EncValue(f, items[0]), EncItems(f, items[1..])))
  }

  function EncArray(f: Field, arraySize: nat, items: seq<Value>): Option<Bytes>
    decreases f, 2
  {
    if items == [] then Some([])
    else if |items| > arraySize then None
    else if Packable(f.ltype) then Cat(Some(TagBytes(f.tag, WT_STRING)), Delimited(EncPacked(f, items)))
    else EncItems(f, items)
  }

  function EncTagged(f: Field, v: Value): Option<Bytes>
    decreases f, 1, 0
  {
    Cat(Some(FieldTag(f)), EncValue(f, v))
  }

  /** Whether a field puts anything on the wire. */
  predicate Present(f: Field, slot: Slot) {
    match f.htype
    case Required => true
    case Singular => !ZeroSlot(f, slot)
    case Optional => slot.Opt? && slot.has
    case Repeated(_) => slot.Rep? && slot.items != []
    case Oneof => slot.OneOf? && slot.which == f.tag
  }

  predicate SlotFits(f: Field, slot: Slot) {
    match f.htype
    case Required => slot.Always?
    case Singular => slot.Always?
    case Optional => slot.Opt?
    case Repeated(_) => slot.Rep?
    case Oneof => slot.OneOf?
  }

  /** encode_basic_field. */
  function EncField(f: Field, slot: Slot): Option<Bytes>
    decreases f, 3
  {
    if !SlotFits(f, slot) then None
    else if !Present(f, slot) then Some([])
    else if slot.Rep? then EncArray(f, f.htype.arraySize, slot.items)
    else EncTagged(f, slot.value)
  }

  /** The fields from number `i` on; EncFrom(d, m, 0) is the whole message. */
  function EncFrom(d: Desc, slots: seq<Slot>, i: nat): Option<Bytes>
    requires i <= |d.fields|
    decreases d, |d.fields| - i
  {
    if i == |d.fields| then Some([])
    else Cat(EncField(d.fields[i], Loaded(slots, d.fields[i].cell)), EncFrom(d, slots, i + 1))
  }

  // ---- decoding ----

  /** The decoders of packable types: each cast must give back what was read. */
  function DecScalar(f: Field, s: Bytes): (r: Option<(Value, Bytes)>)
    ensures r.Some? ==> |r.value.1| < |s|
  {
    if f.ltype.Fixed32? then
      if |s| < 4 then None else Some((Num(FromLittleEndian(s[..4])), s[4..]))
    else if f.ltype.Fixed64? then
      if |s| < 8 then None else Some((Num(FromLittleEndian(s[..8])), s[8..]))
    else if Packable(f.ltype) then
      match DecVarint(s)
      case None => None
      case Some((u, rest)) =>
        match Narrowed(f, u)
        case None => None
        case Some(n) => Some((Num(n), rest))
    else None
  }

  /** The integer a 64-bit varint gives in a field of `f.dataSize` bytes, if it fits. */
  function Narrowed(f: Field, u: nat): Option<int> {
    if !IntSize(f.dataSize) then None else
    var bits := 8 * f.dataSize;
    if f.ltype.UVarint? then
      if u % Pow2(bits) == u then Some(u) else None
    else
      var wide := if f.ltype.SVarint? then UnZigZag(u) else if bits == 64 then Signed(u, 64) else Signed(u, 32);
      if Signed(Unsigned64(wide), bits) == wide then Some(wide) else None
  }

  datatype Decoded = Decoded(slots: seq<Slot>, seen: set<nat>, rest: Bytes, stopped: bool)

  function Current(f: Field, slot: Slot): Value {
    if slot.Always? || slot.Opt? then slot.value else DefaultValue(f)
  }

  function Items(slot: Slot): seq<Value> {
    if slot.Rep? then slot.items else []
  }

  /** One item. A submessage is merged into `dest`. */
  function DecValue(f: Field, s: Bytes, dest: Value): (r: Option<(Value, Bytes)>)
    ensures r.Some? ==> |r.value.1| < |s|
    decreases |s|, 0
  {
    if Packable(f.ltype) then DecScalar(f, s)
    else
      match TakeDelimited(s)
      case None => None
      case Some((body, rest)) =>
        match f.ltype
        case ByteArray => if |body| + BYTES_HEADER > f.dataSize then None else Some((Octets(body), rest))
        case Text =>
          if |body| + 1 >= TWO_32 || |body| + 1 > f.dataSize then None else Some((Chars(body), rest))
        case FixedBytes =>
          if body == [] then Some((Octets(Zeros(f.dataSize)), rest))
          else if |body| != f.dataSize then None
          else Some((Octets(body), rest))
        case Submessage(d) =>
          (match DecMessage(d, body, if dest.Msg? then dest.slots else [])
           case None => None
           case Some((slots, _)) => Some((Msg(slots), rest)))
        case _ => None
  }

  function DecPacked(f: Field, arraySize: nat, s: Bytes, items: seq<Value>): Option<seq<Value>>
    decreases |s|
  {
    if s == [] then Some(items)
    else if |items| >= arraySize then None
    else
      match DecScalar(f, s)
      case None => None
      case Some((v, rest)) => DecPacked(f, arraySize, rest, items + [v])
  }

  /** decode_static_field. The wire type matters only for telling a packed array. */
  function DecSlot(f: Field, wire: nat, s: Bytes, slot: Slot): (r: Option<(Slot, Bytes)>)
    ensures r.Some? ==> |r.value.1| < |s|
    decreases |s|, 1
  {
    match f.htype
    case Repeated(arraySize) =>
      if wire == WT_STRING && Packable(f.ltype) then
        match TakeDelimited(s)
        case None => None
        case Some((body, rest)) =>
          (match DecPacked(f, arraySize, body, Items(slot))
           case None => None
           case Some(items) => Some((Rep(items), rest)))
      else if |Items(slot)| >= arraySize then None
      else
        (match DecValue(f, s, DefaultValue(f))
         case None => None
         case Some((v, rest)) => Some((Rep(Items(slot) + [v]), rest)))
    case Oneof =>
      (match DecValue(f, s, DefaultValue(f))
       case None => None
       case Some((v, rest)) => Some((OneOf(f.tag, v), rest)))
    case Optional =>
      (match DecValue(f, s, Current(f, slot))
       case None => None
       case Some((v, rest)) => Some((Opt(true, v), rest)))
    case _ =>
      (match DecValue(f, s, Current(f, slot))
       case None => None
       case Some((v, rest)) => Some((Always(v), rest)))
  }

  /** The first field with this tag, or the number of fields. */
  function FindFrom(d: Desc, tag: nat, i: nat): (j: nat)
    requires i <= |d.fields|
    ensures i <= j <= |d.fields|
    ensures j < |d.fields| ==> d.fields[j].tag == tag
    ensures forall k :: i <= k < j ==> d.fields[k].tag != tag
    decreases |d.fields| - i
  {
    if i == |d.fields| || d.fields[i].tag == tag then i else FindFrom(d, tag, i + 1)
  }

  /** How many of the first `i` fields are required. */
  function RequiredIndex(d: Desc, i: nat): (k: nat)
    requires i <= |d.fields|
    ensures k <= i
  {
    if i == 0 then 0 else RequiredIndex(d, i - 1) + (if d.fields[i - 1].htype.Required? then 1 else 0)
  }

  function Marked(d: Desc, i: nat, seen: set<nat>): set<nat>
    requires i < |d.fields|
  {
    if d.fields[i].htype.Required? && RequiredIndex(d, i) < PB_MAX_REQUIRED_FIELDS
    then seen + {RequiredIndex(d, i)} else seen
  }

  /** The loop of pb_decode_noinit. In a descriptor without fields the end marker itself answers
      to tag 0, and decoding into it is an error. */
  function DecFields(d: Desc, s: Bytes, slots: seq<Slot>, seen: set<nat>): (r: Option<Decoded>)
    ensures r.Some? ==> |r.value.rest| <= |s|
    ensures r.Some? && !r.value.stopped ==> r.value.rest == []
    decreases |s|, 2
  {
    if s == [] then Some(Decoded(slots, seen, [], false))
    else
      match DecVarint32(s)
      case None => None
      case Some((word, s1)) =>
        if word == 0 then Some(Decoded(slots, seen, s1, true))
        else
          var i := FindFrom(d, word / 8, 0);
          if i < |d.fields| then
            var f := d.fields[i];
            match DecSlot(f, word % 8, s1, Loaded(slots, f.cell))
            case None => None
            case Some((slot, rest)) => DecFields(d, rest, Stored(slots, f.cell, slot), Marked(d, i, seen))
          else if d.fields == [] && word / 8 == 0 then None
          else
            match SkipField(word % 8, s1)
            case None => None
            case Some(rest) => DecFields(d, rest, slots, seen)
  }

  predicate RequiredMet(d: Desc, seen: set<nat>) {
    forall k: nat :: k < RequiredIndex(d, |d.fields|) && k < PB_MAX_REQUIRED_FIELDS ==> k in seen
  }

  /** pb_decode_noinit: merge into `slots`; what is left after a zero tag comes back. */
  function DecMessage(d: Desc, s: Bytes, slots: seq<Slot>): (r: Option<(seq<Slot>, Bytes)>)
    decreases |s|, 3
  {
    match DecFields(d, s, slots, {})
    case None => None
    case Some(p) => if RequiredMet(d, p.seen) then Some((p.slots, p.rest)) else None
  }

  /** pb_decode. */
  function Decode(d: Desc, s: Bytes): Option<(seq<Slot>, Bytes)> {
    DecMessage(d, s, Defaults(d))
  }

  // ---- descriptors the generator writes ----

  predicate WFField(f: Field)
    decreases f
  {
    && 0 < f.tag < TAG_LIMIT
    && f.dataSize < TWO_32
    && (f.htype.Singular? ==> f.initial.None?)
    && (f.ltype.Varint? || f.ltype.UVarint? || f.ltype.SVarint? ==> IntSize(f.dataSize))
    && (f.ltype.Submessage? ==> WFDesc(f.ltype.desc))
  }

  /** Tags differ, and only members of a union share a cell. */
  predicate WFDesc(d: Desc)
    decreases d
  {
    && (forall i {:trigger d.fields[i]} :: 0 <= i < |d.fields| ==> WFField(d.fields[i]) && d.fields[i].cell < d.cells)
    && (forall i, j :: 0 <= i < j < |d.fields| ==>
          && d.fields[i].tag != d.fields[j].tag
          && (d.fields[i].cell == d.fields[j].cell ==> d.fields[i].htype.Oneof? && d.fields[j].htype.Oneof?))
  }
}
