// What pb_encode.c writes: the bytes of a message, as a function of the table and the struct.
// None stands for an encoder that returns false however much room it is given.
module Encoding {
  import opened Options
  import opened Wire
  import opened Descriptor

  function Join(a: Option<bytes>, b: Option<bytes>): Option<bytes>
  {
    if a.Some? && b.Some? then Some(a.value + b.value) else None
  }

  function SlotAt(m: Message, f: Field): Slot
  {
    if f.slot < |m| then m[f.slot] else Elsewhere
  }

  // The bytes before the first zero.
  function CString(bs: bytes): bytes
  {
    if bs == [] || bs[0] == 0 then [] else [bs[0]] + CString(bs[1..])
  }

  // The bytes that pb_enc_string finds in a buffer of `size` bytes.
  function StringBytes(data: bytes, size: nat): bytes
  {
    var s := CString(data);
    if |s| <= size then s else s[..size]
  }

  // The `size` bytes of an inline buffer.
  function Exactly(data: bytes, size: nat): (bs: bytes)
    ensures |bs| == size
    ensures |data| == size ==> bs == data
  {
    if |data| >= size then data[..size] else data + Zeros(size - |data|)
  }

  // pb_encode_tag_for_field.
  function WireTypeOf(t: LType): WireType
  {
    match t
    case Fixed32 => WT_32BIT
    case Fixed64 => WT_64BIT
    case Bytes => WT_STRING
    case String => WT_STRING
    case Submessage => WT_STRING
    case FixedLengthBytes => WT_STRING
    case _ => WT_VARINT
  }

  function NumberOf(v: Value): int { if v.Num? then v.n else 0 }
  function DataOf(v: Value): bytes { if v.Blob? then v.data else [] }

  predicate VarintSize(size: nat) { size == 1 || size == 2 || size == 4 || size == 8 }

  // The bytes of a fixed-width number.
  function FixedWidth(t: LType): nat { if t.Fixed32? then 4 else 8 }

  // pb_enc_bool, pb_enc_varint, pb_enc_uvarint, pb_enc_svarint, pb_enc_fixed32, pb_enc_fixed64.
  function EncodeScalar(f: Field, n: int): Option<bytes>
  {
    match f.ltype
    case Bool => Some(EncodeVarint(if n != 0 then 1 else 0))
    case Fixed32 => Some(EncodeFixed(n, FixedWidth(f.ltype)))
    case Fixed64 => Some(EncodeFixed(n, FixedWidth(f.ltype)))
    case Svarint => if VarintSize(f.dataSize) then Some(EncodeVarint(ZigZag(n) % TWO64)) else None
    case _ => if VarintSize(f.dataSize) then Some(EncodeVarint(n % TWO64)) else None
  }

  // The PB_ENCODERS table.
  function EncodeValue(f: Field, v: Value): Option<bytes>
    decreases f, 0
  {
    match f.ltype
    case Bytes => if |DataOf(v)| > f.dataSize - SIZE_WIDTH then None else Some(EncodeDelimited(DataOf(v)))
    case String => Some(EncodeDelimited(StringBytes(DataOf(v), f.dataSize)))
    case FixedLengthBytes => Some(EncodeDelimited(Exactly(DataOf(v), f.dataSize)))
    case Submessage =>
      (match EncodeMessage(f.sub, AsMessage(f.sub, v))
       case None => None
       case Some(payload) => Some(EncodeDelimited(payload)))
    case _ => EncodeScalar(f, NumberOf(v))
  }

  // A tag and its value.
  function EncodeTagged(f: Field, v: Value): Option<bytes>
    decreases f, 1
  {
    Join(Some(EncodeTag(f.tag, WireTypeOf(f.ltype))), EncodeValue(f, v))
  }

  // The payload of a packed array.
  function EncodePacked(f: Field, entries: seq<Value>): Option<bytes>
  {
    if entries == [] then Some([]) else Join(EncodeScalar(f, NumberOf(entries[0])), EncodePacked(f, entries[1..]))
  }

  // The records of an array that is not packed.
  function EncodeEntries(f: Field, entries: seq<Value>): Option<bytes>
    decreases f, 2, |entries|
  {
    if entries == [] then Some([]) else Join(EncodeTagged(f, entries[0]), EncodeEntries(f, entries[1..]))
  }

  // encode_array.
  function EncodeArray(f: Field, entries: seq<Value>): Option<bytes>
    decreases f, 3
  {
    if entries == [] then Some([])
    else if |entries| > f.arraySize then None
    else if Packable(f.ltype) then
      match EncodePacked(f, entries)
      case None => None
      case Some(payload) => Some(EncodeTag(f.tag, WT_STRING) + EncodeDelimited(payload))
    else EncodeEntries(f, entries)
  }

  // pb_check_proto3_default_value.
  predicate IsDefault(f: Field, s: Slot)
    decreases f, 0
  {
    match f.htype
    case Required => false
    case Repeated => f.counted && EntriesOf(s) == []
    case Oneof => WhichOf(s) == 0
    case Optional =>
      if f.counted then !(s.Maybe? && s.has)
      else
        match f.ltype
        case Bytes => DataOf(ValueOf(f, s)) == []
        case String => CString(DataOf(ValueOf(f, s))) == []
        case FixedLengthBytes => f.dataSize == 0
        case Submessage => AllDefault(f.sub, AsMessage(f.sub, ValueOf(f, s)))
        case _ => NumberOf(ValueOf(f, s)) == 0
  }

  predicate AllDefault(d: Desc, m: Message)
    decreases d, 0
  {
    forall i :: 0 <= i < |d.fields| ==> IsDefault(d.fields[i], SlotAt(m, d.fields[i]))
  }

  // encode_basic_field for statically allocated fields.
  function EncodeField(f: Field, s: Slot): Option<bytes>
    decreases f, 4
  {
    match f.htype
    case Required => EncodeTagged(f, ValueOf(f, s))
    case Optional =>
      if (if f.counted then s.Maybe? && s.has else !IsDefault(f, s)) then EncodeTagged(f, ValueOf(f, s)) else Some([])
    case Repeated => EncodeArray(f, EntriesOf(s))
    case Oneof => if WhichOf(s) == f.tag then EncodeTagged(f, ValueOf(f, s)) else Some([])
  }

  // The fields from the i-th on.
  function EncodeFields(d: Desc, m: Message, i: nat): Option<bytes>
    requires i <= |d.fields|
    decreases d, 0, |d.fields| - i
  {
    if i == |d.fields| then Some([])
    else Join(EncodeField(d.fields[i], SlotAt(m, d.fields[i])), EncodeFields(d, m, i + 1))
  }

  // pb_encode.
  function EncodeMessage(d: Desc, m: Message): Option<bytes>
    decreases d, 1
  {
    EncodeFields(d, m, 0)
  }

  // pb_encode_submessage and pb_encode_delimited.
  function EncodeDelimitedMessage(d: Desc, m: Message): Option<bytes>
    decreases d, 2
  {
    match EncodeMessage(d, m) case None => None case Some(payload) => Some(EncodeDelimited(payload))
  }
}
