// What pb_decode.c makes of its input: the outcome of the decoder as a function of the table,
// the struct it starts from and the bytes that are left in the stream.
module Decoding {
  import opened Options
  import opened Wire
  import opened Descriptor
  import opened Encoding

  // PB_MAX_REQUIRED_FIELDS.
  const MAX_REQUIRED := 64

  // pb_dec_bool, pb_dec_varint, pb_dec_uvarint, pb_dec_svarint, pb_dec_fixed32, pb_dec_fixed64.
  function DecodeScalar(f: Field, bs: bytes): (r: Read<Value>)
    ensures r.Read? ==> |r.rest| < |bs|
  {
    match f.ltype
    case Bool =>
      (match DecodeVarint32(bs) case Fail => Fail case Read(v, rest) => Read(Num(if v != 0 then 1 else 0), rest))
    case Fixed32 =>
      (match Take(bs, FixedWidth(f.ltype)) case Fail => Fail case Read(v, rest) => Read(Num(FixedValue(v)), rest))
    case Fixed64 =>
      (match Take(bs, FixedWidth(f.ltype)) case Fail => Fail case Read(v, rest) => Read(Num(FixedValue(v)), rest))
    case _ =>
      match DecodeVarint(bs)
      case Fail => Fail
      case Read(v, rest) =>
        var n := Narrow(f, v);
        if VarintSize(f.dataSize) && Fits(f, n) then Read(Num(n), rest) else Fail
  }

  // The number that a 64-bit varint stands for in the field.  Narrow signed fields look at the
  // low 32 bits only.
  function Narrow(f: Field, v: nat): int
  {
    match f.ltype
    case Uvarint => v
    case Svarint => UnZigZag(v)
    case _ => if f.dataSize == 8 then Signed64(v) else Signed32(v)
  }

  predicate Fits(f: Field, n: int)
  {
    if f.ltype.Uvarint? then UnsignedFits(f.dataSize, n) else SignedFits(f.dataSize, n)
  }

  // pb_dec_bytes, pb_dec_string and pb_dec_fixed_length_bytes for statically allocated fields.
  function DecodeBlob(f: Field, bs: bytes): (r: Read<Value>)
    ensures r.Read? ==> |r.rest| < |bs|
  {
    match DecodeVarint32(bs)
    case Fail => Fail
    case Read(size, rest) =>
      if f.ltype.String? then
        if size + 1 > f.dataSize then Fail
        else match Take(rest, size) case Fail => Fail case Read(v, rest') => Read(Blob(CString(v)), rest')
      else if size > SizeMax() then Fail
      else if f.ltype.Bytes? then
        if size + SIZE_WIDTH > f.dataSize then Fail
        else match Take(rest, size) case Fail => Fail case Read(v, rest') => Read(Blob(v), rest')
      else if size == 0 then Read(Blob(Zeros(f.dataSize)), rest)
      else if size != f.dataSize then Fail
      else match Take(rest, size) case Fail => Fail case Read(v, rest') => Read(Blob(v), rest')
  }

  // The PB_DECODERS table; `was` is what the destination holds.
  function DecodeValue(f: Field, was: Value, bs: bytes): (r: Read<Value>)
    ensures r.Read? ==> |r.rest| < |bs|
    decreases |bs|, 0
  {
    if Packable(f.ltype) then DecodeScalar(f, bs)
    else if f.ltype.Submessage? then
      match LengthDelimited(bs)
      case Fail => Fail
      case Read(payload, rest) =>
        var m := if f.htype.Repeated? then Defaults(f.sub) else AsMessage(f.sub, was);
        match DecodeMessage(f.sub, m, payload)
        case Fail => Fail
        case Read(m', _) => Read(Struct(m'), rest)
    else DecodeBlob(f, bs)
  }

  // Entry `count` of an array: the next one of a counted array, or one of a fixed array.
  function PutEntry(entries: seq<Value>, count: nat, v: Value): seq<Value>
  {
    if count < |entries| then entries[count := v] else entries + [v]
  }

  datatype Array = Array(entries: seq<Value>, count: nat)

  // The loop over a packed array.  It has to use up all of its bytes.
  function DecodePacked(f: Field, a: Array, bs: bytes): Option<Array>
    decreases |bs|
  {
    if bs == [] then Some(a)
    else if a.count >= f.arraySize then None
    else
      match DecodeScalar(f, bs)
      case Fail => None
      case Read(v, rest) => DecodePacked(f, Array(PutEntry(a.entries, a.count, v), a.count + 1), rest)
  }

  // The local state of pb_decode_noinit: the struct, the required fields seen so far (the first
  // MAX_REQUIRED of them are tracked), the fixed count field that is being received, and
  // whether a zero tag has ended the message.
  datatype State = State(m: Message, seen: set<nat>, fixedField: int, fixedCount: nat, stopped: bool)

  function Start(m: Message): State { State(m, {}, -1, 0, false) }

  // The number of required fields before the i-th field: required_field_index.
  function RequiredIndex(d: Desc, i: nat): nat
    requires i <= |d.fields|
  {
    if i == 0 then 0
    else RequiredIndex(d, i - 1) + (if d.fields[i - 1].htype.Required? then 1 else 0)
  }

  predicate Tracked(d: Desc, i: nat)
    requires i < |d.fields|
  {
    d.fields[i].htype.Required? && RequiredIndex(d, i) < MAX_REQUIRED
  }

  // The field with the given tag, or |d.fields|.
  function Find(d: Desc, tag: nat): (i: nat)
    ensures i <= |d.fields|
    ensures i < |d.fields| ==> d.fields[i].tag == tag
    ensures forall j :: 0 <= j < i ==> d.fields[j].tag != tag
  {
    FindFrom(d, tag, 0)
  }

  function FindFrom(d: Desc, tag: nat, i: nat): (k: nat)
    requires i <= |d.fields|
    ensures i <= k <= |d.fields|
    ensures k < |d.fields| ==> d.fields[k].tag == tag
    ensures forall j :: i <= j < k ==> d.fields[j].tag != tag
    decreases |d.fields| - i
  {
    if i == |d.fields| || d.fields[i].tag == tag then i else FindFrom(d, tag, i + 1)
  }

  // Tags are distinct, so a field is found by its tag.
  lemma FoundAt(d: Desc, i: nat)
    requires WellFormed(d) && i < |d.fields|
    ensures Find(d, d.fields[i].tag) == i
  {
    forall j | 0 <= j < |d.fields| && j != i
      ensures d.fields[j].tag != d.fields[i].tag
    {
      assert if j < i then Apart(d.fields[j], d.fields[i]) else Apart(d.fields[i], d.fields[j]);
    }
  }

  function Put(m: Message, f: Field, s: Slot): (m': Message)
    ensures |m'| == |m|
  {
    if f.slot < |m| then m[f.slot := s] else m
  }

  // decode_static_field for the i-th field.
  function DecodeField(d: Desc, st: State, i: nat, wireType: WireType, bs: bytes): (r: Read<State>)
    requires i < |d.fields|
    ensures r.Read? ==> |r.rest| < |bs| && |r.value.m| == |st.m|
    decreases |bs|, 2
  {
    var f := d.fields[i];
    var s := SlotAt(st.m, f);
    match f.htype
    case Required =>
      (match DecodeValue(f, ValueOf(f, s), bs)
       case Fail => Fail
       case Read(v, rest) => Read(st.(m := Put(st.m, f, Single(v))), rest))
    case Optional =>
      (match DecodeValue(f, ValueOf(f, s), bs)
       case Fail => Fail
       case Read(v, rest) =>
         Read(st.(m := Put(st.m, f, if f.counted then Maybe(true, v) else Single(v))), rest))
    case Oneof =>
      (var was := if f.ltype.Submessage? && WhichOf(s) != f.tag then Struct(Defaults(f.sub)) else ValueOf(f, s);
       match DecodeValue(f, was, bs)
       case Fail => Fail
       case Read(v, rest) => Read(st.(m := Put(st.m, f, Union(f.tag, v))), rest))
    case Repeated =>
      match DecodeEntries(f, Current(st, f), wireType, bs)
      case Fail => Fail
      case Read(a, rest) => Read(StoreArray(st, f, a), rest)
  }

  // The array that the decoder adds to: its entries, and what *pSize holds.
  function Current(st: State, f: Field): Array
  {
    var entries := EntriesOf(SlotAt(st.m, f));
    Array(entries, if f.counted then |entries| else st.fixedCount)
  }

  // The array branch of decode_static_field: a packed run, or one more entry.
  function DecodeEntries(f: Field, a: Array, wireType: WireType, bs: bytes): (r: Read<Array>)
    ensures r.Read? ==> |r.rest| < |bs|
    decreases |bs|, 1
  {
    if wireType == WT_STRING && Packable(f.ltype) then
      match LengthDelimited(bs)
      case Fail => Fail
      case Read(payload, rest) =>
        match DecodePacked(f, a, payload) case None => Fail case Some(a') => Read(a', rest)
    else if a.count >= f.arraySize then Fail
    else
      match DecodeValue(f, Zero(f), bs)
      case Fail => Fail
      case Read(v, rest) => Read(Array(PutEntry(a.entries, a.count, v), a.count + 1), rest)
  }

  function StoreArray(st: State, f: Field, a: Array): State
  {
    st.(m := Put(st.m, f, Items(a.entries)), fixedCount := if f.counted then st.fixedCount else a.count)
  }

  // The fixed count array that is being received has all its entries.
  predicate FixedComplete(d: Desc, st: State)
  {
    0 <= st.fixedField < |d.fields| ==> st.fixedCount == d.fields[st.fixedField].arraySize
  }

  // The bookkeeping before a field is decoded; None when another fixed count array is unfinished.
  function Enter(d: Desc, st: State, i: nat): Option<State>
    requires i < |d.fields|
  {
    var st' := if Tracked(d, i) then st.(seen := st.seen + {i}) else st;
    if FixedCount(d.fields[i]) && st.fixedField != i then
      if FixedComplete(d, st) then Some(st'.(fixedField := i, fixedCount := 0)) else None
    else Some(st')
  }

  // One turn of the loop in pb_decode_noinit, after the tag.  A table without fields ends at
  // once, and its terminator matches tag 0 as if it were a bool field.
  function DecodeRecord(d: Desc, st: State, tag: nat, wireType: WireType, bs: bytes): (r: Read<State>)
    ensures r.Read? ==> |r.rest| <= |bs| && |r.value.m| == |st.m|
    decreases |bs|, 3
  {
    var i := Find(d, tag);
    if i < |d.fields| then
      match Enter(d, st, i)
      case None => Fail
      case Some(st') => DecodeField(d, st', i, wireType, bs)
    else if d.fields == [] && tag == 0 then
      match DecodeVarint32(bs) case Fail => Fail case Read(_, rest) => Read(st, rest)
    else
      match SkipField(wireType, bs) case Fail => Fail case Read(_, rest) => Read(st, rest)
  }

  // The loop of pb_decode_noinit.
  function DecodeRecords(d: Desc, st: State, bs: bytes): (r: Read<State>)
    ensures r.Read? ==> |r.rest| <= |bs| && |r.value.m| == |st.m|
    decreases |bs|, 4
  {
    if bs == [] then Read(st, [])
    else
      match DecodeTag(bs)
      case TagFail => Fail
      case TagZero(rest) => Read(st.(stopped := true), rest)
      case Tag(tag, wireType, rest) =>
        match DecodeRecord(d, st, tag, wireType, rest)
        case Fail => Fail
        case Read(st', rest') => DecodeRecords(d, st', rest')
  }

  // Every tracked required field has been seen.
  predicate RequiredSeen(d: Desc, st: State)
  {
    forall i :: 0 <= i < |d.fields| && Tracked(d, i) ==> i in st.seen
  }

  // pb_decode_noinit.
  function DecodeMessage(d: Desc, m: Message, bs: bytes): (r: Read<Message>)
    ensures r.Read? ==> |r.rest| <= |bs| && |r.value| == |m|
    decreases |bs|, 5
  {
    match DecodeRecords(d, Start(m), bs)
    case Fail => Fail
    case Read(st, rest) => if FixedComplete(d, st) && RequiredSeen(d, st) then Read(st.m, rest) else Fail
  }

  // pb_decode.
  function Decode(d: Desc, bs: bytes): Read<Message>
  {
    DecodeMessage(d, Defaults(d), bs)
  }
}
