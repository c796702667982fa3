// Field descriptor tables and the messages they describe (pb.h).
//
// A message is what its C struct lets a reader of the struct see: one slot per field, with the
// members of a oneof sharing the slot of the union's first member.  Array entries past the
// count and string bytes past the terminator are not part of it.
module Descriptor {
  import opened Options
  import opened Wire

  // The configured width of pb_size_t in bytes (PB_FIELD_16BIT, PB_FIELD_32BIT or neither).
  // Left open: everything holds for all three.
  type SizeWidth = w: nat | w == 1 || w == 2 || w == 4 witness 1
  const SIZE_WIDTH: SizeWidth

  // PB_SIZE_MAX.
  function SizeMax(): nat
  {
    if SIZE_WIDTH == 1 then 0xFF else if SIZE_WIDTH == 2 then 0xFFFF else 0xFFFF_FFFF
  }

  datatype LType =
    | Bool | Varint | Uvarint | Svarint | Fixed32 | Fixed64
    | Bytes | String | Submessage | Extension | FixedLengthBytes

  datatype HType = Required | Optional | Repeated | Oneof

  datatype AType = Static | Pointer | Callback

  // One pb_field_t.  An OPTIONAL field without a has_ member is a proto3 singular field, a
  // REPEATED field without a _count member has a fixed number of entries; either shows as a zero
  // size_offset.  `sub` is the submessage's table and `initial` the default value, both behind
  // `ptr` in C.  `slot` is the field's place in the model of the struct.
  datatype Field = Field(
    tag: nat, ltype: LType, htype: HType, atype: AType,
    dataOffset: nat, sizeOffset: int, dataSize: nat, arraySize: nat,
    slot: nat, sub: Desc, initial: Option<Value>)
  {
    const counted := sizeOffset != 0
  }

  datatype Desc = Desc(fields: seq<Field>)

  // A field's content: a number (bool, integer or the bits of a float), a run of bytes, or a
  // nested struct.
  datatype Value = Num(n: int) | Blob(data: bytes) | Struct(m: Message)

  datatype Slot =
    | Single(v: Value)                  // required and proto3 singular
    | Maybe(has: bool, v: Value)        // has_ member and value
    | Items(items: seq<Value>)          // the entries below the count, or the whole fixed array
    | Union(which: nat, v: Value)       // which_ member and union
    | Elsewhere                         // oneof member that shares an earlier slot

  type Message = seq<Slot>

  // PB_LTYPE_LAST_PACKABLE.
  predicate Packable(t: LType)
  {
    t.Bool? || t.Varint? || t.Uvarint? || t.Svarint? || t.Fixed32? || t.Fixed64?
  }

  // ----- Reading a slot through a descriptor -----

  function Zero(f: Field): Value
  {
    if Packable(f.ltype) then Num(0)
    else if f.ltype.FixedLengthBytes? then Blob(Zeros(f.dataSize))
    else Blob([])
  }

  function Zeros(n: nat): (bs: bytes)
    ensures |bs| == n && forall i :: 0 <= i < n ==> bs[i] == 0
  {
    seq(n, i => 0)
  }

  function ValueOf(f: Field, s: Slot): Value
  {
    match s
    case Single(v) => v
    case Maybe(_, v) => v
    case Union(_, v) => v
    case _ => Zero(f)
  }

  function EntriesOf(s: Slot): seq<Value>
  {
    if s.Items? then s.items else []
  }

  function WhichOf(s: Slot): nat
  {
    if s.Union? then s.which else 0
  }

  // A nested struct seen as a message of d.
  function AsMessage(d: Desc, v: Value): (m: Message)
    ensures |m| == |d.fields|
    decreases d, 1
  {
    if v.Struct? && |v.m| == |d.fields| then v.m else Defaults(d)
  }

  // ----- Default values -----

  // pb_message_set_to_defaults.
  function Defaults(d: Desc): (m: Message)
    ensures |m| == |d.fields|
    decreases d, 0
  {
    seq(|d.fields|, i requires 0 <= i < |d.fields| =>
      if d.fields[i].slot == i then DefaultSlot(d.fields[i]) else Elsewhere)
  }

  // pb_field_set_to_default.
  function DefaultSlot(f: Field): Slot
    decreases f, 1
  {
    match f.htype
    case Required => Single(DefaultValue(f))
    case Optional => if f.counted then Maybe(false, DefaultValue(f)) else Single(DefaultValue(f))
    case Repeated => if f.counted then Items([]) else Items(seq(f.arraySize, i => ZeroEntry(f)))
    case Oneof => Union(0, Zero(f))
  }

  function DefaultValue(f: Field): Value
    decreases f, 0
  {
    if f.ltype.Submessage? then Struct(Defaults(f.sub))
    else if f.initial.Some? then f.initial.value
    else Zero(f)
  }

  function ZeroEntry(f: Field): Value
    decreases f, 0
  {
    if f.ltype.Submessage? then Struct(Defaults(f.sub)) else Zero(f)
  }

  // ----- Well-formed tables of statically allocated fields -----

  predicate WellFormed(d: Desc)
  {
    && (forall i :: 0 <= i < |d.fields| ==> WellFormedField(d.fields[i]))
    && (forall i :: 0 <= i < |d.fields| ==> SlotInside(d, i))
    && (forall i, j :: 0 <= i < j < |d.fields| ==> Apart(d.fields[i], d.fields[j]))
  }

  // A slot is the field's own, or that of an earlier member of the same oneof.
  predicate SlotInside(d: Desc, i: nat)
    requires i < |d.fields|
  {
    var f := d.fields[i];
    f.slot <= i && d.fields[f.slot].slot == f.slot && (f.slot != i ==> f.htype.Oneof?)
  }

  // Two fields of a message have different tags, and share a slot only inside a oneof.
  predicate Apart(f: Field, g: Field)
  {
    f.tag != g.tag && (f.slot == g.slot ==> f.htype.Oneof? && g.htype.Oneof?)
  }

  predicate WellFormedField(f: Field)
  {
    && 0 < f.tag < 0x2000_0000 && f.tag <= SizeMax()
    && f.atype.Static? && !f.ltype.Extension?
    && f.dataSize <= SizeMax() && f.arraySize <= SizeMax()
    && (f.ltype.Varint? || f.ltype.Uvarint? || f.ltype.Svarint? ==>
          f.dataSize == 1 || f.dataSize == 2 || f.dataSize == 4 || f.dataSize == 8)
    && (f.ltype.Bytes? ==> f.dataSize >= SIZE_WIDTH)
    && (f.ltype.String? ==> f.dataSize >= 1)
    && (f.ltype.Submessage? ==> WellFormed(f.sub))
    && (f.initial.Some? ==> !f.ltype.Submessage? && ValidValue(f, f.initial.value))
    && (Singular(f) ==> f.initial.None?)
  }

  predicate Singular(f: Field) { f.htype.Optional? && !f.counted }
  predicate FixedCount(f: Field) { f.htype.Repeated? && !f.counted }

  // ----- Messages that fit their struct -----

  // The number fits the member: bool, signed or unsigned of dataSize bytes, 32 or 64 bits.
  predicate InWidth(f: Field, n: int)
  {
    match f.ltype
    case Bool => n == 0 || n == 1
    case Varint => SignedFits(f.dataSize, n)
    case Svarint => SignedFits(f.dataSize, n)
    case Uvarint => UnsignedFits(f.dataSize, n)
    case Fixed32 => 0 <= n < TWO32
    case _ => 0 <= n < TWO64
  }

  predicate SignedFits(width: nat, n: int)
  {
    if width == 1 then -0x80 <= n < 0x80
    else if width == 2 then -0x8000 <= n < 0x8000
    else if width == 4 then -TWO31 <= n < TWO31
    else -TWO63 <= n < TWO63
  }

  predicate UnsignedFits(width: nat, n: int)
  {
    0 <= n < (if width == 1 then 0x100 else if width == 2 then 0x1_0000 else if width == 4 then TWO32 else TWO64)
  }

  // Strings hold no zero byte and leave room for their terminator.
  predicate ValidValue(f: Field, v: Value)
    decreases f, 0
  {
    if Packable(f.ltype) then v.Num? && InWidth(f, v.n)
    else if f.ltype.Submessage? then v.Struct? && Valid(f.sub, v.m)
    else
      v.Blob? &&
      match f.ltype
      case Bytes => |v.data| + SIZE_WIDTH <= f.dataSize
      case String => |v.data| + 1 <= f.dataSize && 0 !in v.data
      case _ => |v.data| == f.dataSize
  }

  predicate ValidSlot(f: Field, s: Slot)
    decreases f, 1
  {
    match f.htype
    case Required => s.Single? && ValidValue(f, s.v)
    case Optional =>
      if f.counted then s.Maybe? && ValidValue(f, s.v) else s.Single? && ValidValue(f, s.v)
    case Repeated =>
      && s.Items? && (if f.counted then |s.items| <= f.arraySize else |s.items| == f.arraySize)
      && forall k :: 0 <= k < |s.items| ==> ValidValue(f, s.items[k])
    case Oneof => s.Union? && (s.which == f.tag ==> ValidValue(f, s.v))
  }

  predicate Valid(d: Desc, m: Message)
    decreases d, 0
  {
    && |m| == |d.fields|
    && forall i :: 0 <= i < |d.fields| ==> d.fields[i].slot < |m| && ValidSlot(d.fields[i], m[d.fields[i].slot])
  }

  // ----- What a user of the struct can tell apart -----

  // Values under a false has_, and unions whose which_ names no member, are not looked at.
  predicate SameValue(f: Field, v: Value, w: Value)
    decreases f, 0
  {
    if f.ltype.Submessage? then Same(f.sub, AsMessage(f.sub, v), AsMessage(f.sub, w)) else v == w
  }

  predicate SameSlot(f: Field, s: Slot, t: Slot)
    decreases f, 1
  {
    match f.htype
    case Required => SameValue(f, ValueOf(f, s), ValueOf(f, t))
    case Optional =>
      if f.counted then
        && (s.Maybe? && s.has <==> t.Maybe? && t.has)
        && (s.Maybe? && s.has ==> SameValue(f, ValueOf(f, s), ValueOf(f, t)))
      else SameValue(f, ValueOf(f, s), ValueOf(f, t))
    case Repeated =>
      && |EntriesOf(s)| == |EntriesOf(t)|
      && forall k :: 0 <= k < |EntriesOf(s)| ==> SameValue(f, EntriesOf(s)[k], EntriesOf(t)[k])
    case Oneof =>
      && (WhichOf(s) == f.tag <==> WhichOf(t) == f.tag)
      && (WhichOf(s) == f.tag ==> SameValue(f, ValueOf(f, s), ValueOf(f, t)))
  }

  predicate Same(d: Desc, m: Message, n: Message)
    requires |m| == |d.fields| == |n|
    decreases d, 0
  {
    forall i :: 0 <= i < |d.fields| && d.fields[i].slot < |m| ==>
      SameSlot(d.fields[i], m[d.fields[i].slot], n[d.fields[i].slot])
  }
}
