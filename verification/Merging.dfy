// Merging one message into another, as the Protocol Buffers encoding guide has it under "Last
// One Wins": scalars are replaced, arrays appended, embedded messages merged in their turn, and
// the members of a oneof replace each other.  Defined on structs, without bytes.
//
// None means that the result has no room, or that an embedded message or a packed array is too
// long for the 32-bit length the decoder reads.
module Merging {
  import opened Options
  import opened Wire
  import opened Descriptor
  import opened Encoding
  import opened Decoding

  predicate ShortPayload(payload: Option<bytes>)
  {
    payload.Some? && |payload.value| < TWO32
  }

  function MergeValue(f: Field, was: Value, v: Value): Option<Value>
    decreases f, 0
  {
    if !f.ltype.Submessage? then Some(v)
    else if !ShortPayload(EncodeMessage(f.sub, AsMessage(f.sub, v))) then None
    else
      var m := if f.htype.Repeated? then Defaults(f.sub) else AsMessage(f.sub, was);
      match Merge(f.sub, m, AsMessage(f.sub, v))
      case None => None
      case Some(m') => Some(Struct(m'))
  }

  // The entries, put in from position `count` on.
  function MergeEntries(f: Field, entries: seq<Value>, count: nat, vs: seq<Value>): Option<seq<Value>>
    decreases f, 1, |vs|
  {
    if vs == [] then Some(entries)
    else
      match MergeValue(f, Zero(f), vs[0])
      case None => None
      case Some(v) => MergeEntries(f, PutEntry(entries, count, v), count + 1, vs[1..])
  }

  predicate Present(f: Field, t: Slot)
  {
    match f.htype
    case Required => true
    case Optional => if f.counted then t.Maybe? && t.has else !IsDefault(f, t)
    case Repeated => EntriesOf(t) != []
    case Oneof => WhichOf(t) == f.tag
  }

  function MergeSlot(f: Field, s: Slot, t: Slot): Option<Slot>
    decreases f, 2
  {
    if !Present(f, t) then Some(s)
    else if f.htype.Repeated? then
      var count := if f.counted then |EntriesOf(s)| else 0;
      if count + |EntriesOf(t)| > f.arraySize then None
      else if Packable(f.ltype) && !ShortPayload(EncodePacked(f, EntriesOf(t))) then None
      else
        match MergeEntries(f, EntriesOf(s), count, EntriesOf(t))
        case None => None
        case Some(entries) => Some(Items(entries))
    else
      match MergeValue(f, Base(f, s), ValueOf(f, t))
      case None => None
      case Some(v) => Some(Filled(f, v))
  }

  // What is merged into: a fresh struct when the union held another member.
  function Base(f: Field, s: Slot): Value
  {
    if f.htype.Oneof? && f.ltype.Submessage? && WhichOf(s) != f.tag then Struct(Defaults(f.sub)) else ValueOf(f, s)
  }

  // The slot that holds v.
  function Filled(f: Field, v: Value): Slot
  {
    match f.htype
    case Optional => if f.counted then Maybe(true, v) else Single(v)
    case Oneof => Union(f.tag, v)
    case _ => Single(v)
  }

  // n merged into m, from the i-th field on.
  function MergeFields(d: Desc, m: Message, n: Message, i: nat): (r: Option<Message>)
    requires i <= |d.fields|
    ensures r.Some? ==> |r.value| == |m|
    decreases d, 0, |d.fields| - i
  {
    if i == |d.fields| then Some(m)
    else
      var f := d.fields[i];
      match MergeSlot(f, SlotAt(m, f), SlotAt(n, f))
      case None => None
      case Some(s) => MergeFields(d, Put(m, f, s), n, i + 1)
  }

  function Merge(d: Desc, m: Message, n: Message): (r: Option<Message>)
    ensures r.Some? ==> |r.value| == |m|
    decreases d, 1
  {
    MergeFields(d, m, n, 0)
  }
}
