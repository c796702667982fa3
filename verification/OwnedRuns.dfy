// The decoder of the malloc build (pb_decode.c) as a function of what it meets: the records and
// their values, whether they can be read, and the answers of the allocator.  The numbers and bytes
// that are decoded do not matter here.
module OwnedRuns {
  import opened Options
  import opened Wire
  import opened Descriptor
  import opened Ownership
  import opened OwnedRelease

  // ----- What the decoder meets -----

  // The records up to the end of the input or the first error in a tag or in a record that is
  // skipped, and whether everything was in order at the end.
  datatype Input = Input(records: seq<Found>, complete: bool)

  datatype Found = Skipped | Hit(i: nat, body: Body)

  // The value of a field, and what the allocator answers to it: whether a length could be read, and
  // how long a text is; the payload of a submessage, or the entries of a packed array; whether a value
  // could be read and a payload be closed.
  datatype Body = Body(
    packed: bool, begun: bool, size: nat, grant: Grant, textGrant: Grant,
    inner: Input, turns: seq<Turn>, read: bool, closed: bool)

  // An entry of a packed array takes so many bytes, or cannot be read.
  datatype Turn = Turn(grant: Grant, used: nat)

  // The outcome of a decoder for a part of the struct.
  datatype Did<T> = Did(ok: bool, r: T, st: Store)

  // ----- Initial structs -----

  // A struct of zeros.
  function Zeroed(d: Desc): Record
    decreases d, 0
  {
    Record(seq(|d.fields|, i requires 0 <= i < |d.fields| => if d.fields[i].slot == i then ZeroedMember(d.fields[i]) else Beside))
  }

  function ZeroedMember(f: Field): Member
    decreases f, 1
  {
    match f.htype
    case Oneof => Choice(0, Inline)
    case Repeated =>
      if f.atype.Pointer? then OwnArray(0, Null)
      else if f.ltype.Submessage? then SubArray(0, seq(f.arraySize, _ => Zeroed(f.sub)))
      else Inline
    case _ => if f.atype.Pointer? then Own(Null) else if f.ltype.Submessage? then Sub(Zeroed(f.sub)) else Inline
  }

  // pb_message_set_to_defaults.  The entries of static arrays are left as they are.
  function SetToDefaults(d: Desc, m: Record): Record
    decreases d, 0
  {
    Record(seq(|m.members|, i requires 0 <= i < |m.members| =>
      if i < |d.fields| && d.fields[i].slot == i then DefaultsMember(d.fields[i], m.members[i]) else m.members[i]))
  }

  function DefaultsMember(f: Field, s: Member): Member
    decreases f, 1
  {
    match s
    case Inline => Inline
    case Sub(m) => Sub(SetToDefaults(f.sub, m))
    case SubArray(_, entries) => SubArray(0, entries)
    case Own(_) => Own(Null)
    case OwnArray(_, _) => OwnArray(0, Null)
    case Choice(_, _) => Choice(0, Inline)
    case Beside => Beside
  }

  // ----- Allocation -----

  const SIZE_MAX := 0xFFFF_FFFF_FFFF_FFFF
  const CHECK_LIMIT := 0x1_0000_0000

  // allocate_field: sizes of zero and products that overflow are refused.
  function AllocateField(st: Store, p: Pointer, dataSize: nat, arraySize: nat, g: Grant): (Option<nat>, Store) {
    if dataSize == 0 || arraySize == 0 then (None, st)
    else if (dataSize >= CHECK_LIMIT || arraySize >= CHECK_LIMIT) && SIZE_MAX / arraySize < dataSize then (None, st)
    else Reallocated(st, p, g)
  }

  function ItemsOf(p: Pointer): seq<Item> {
    if p.Null? then [] else p.items
  }

  // pb_dec_string and pb_dec_bytes for a pointer: the block for the text is allocated or grows, and
  // then the bytes are read.
  function DecodeText(st: Store, p: Pointer, b: Body, g: Grant): Did<Pointer> {
    if !b.begun then Did(false, p, st)
    else
      match AllocateField(st, p, b.size, 1, g)
      case (None, st') => Did(false, p, st')
      case (Some(id), st') => Did(b.read, Block(id, 1, []), st')
  }

  // ----- Submessages -----

  // pb_dec_submessage: entries of arrays are set to their defaults first.
  function DecSubmessage(st: Store, f: Field, m: Record, b: Body): Did<Record>
    decreases b, 0
  {
    if !b.begun then Did(false, m, st)
    else
      var x := if f.htype.Repeated? then Decode(st, f.sub, m, b.inner) else DecodeNoinit(st, f.sub, m, b.inner);
      Did(x.ok && b.closed, x.r, x.st)
  }

  // pb_decode: on failure everything is released again.
  function Decode(st: Store, d: Desc, m: Record, input: Input): Did<Record>
    decreases input, 2
  {
    var x := DecodeNoinit(st, d, SetToDefaults(d, m), input);
    if x.ok then x
    else
      var y := Release(x.st, d, x.r);
      Did(false, y.r, y.st)
  }

  // pb_decode_noinit.
  function DecodeNoinit(st: Store, d: Desc, m: Record, input: Input): Did<Record>
    decreases input, 1
  {
    var x := DecodeRecords(st, d, m, input.records);
    Did(x.ok && input.complete, x.r, x.st)
  }

  function DecodeRecords(st: Store, d: Desc, m: Record, records: seq<Found>): Did<Record>
    decreases records
  {
    if records == [] then Did(true, m, st)
    else
      var x := DecodeRecord(st, d, m, records[0]);
      if x.ok then DecodeRecords(x.st, d, x.r, records[1..]) else x
  }

  function DecodeRecord(st: Store, d: Desc, m: Record, record: Found): Did<Record>
    decreases record
  {
    match record
    case Skipped => Did(true, m, st)
    case Hit(i, b) => if i < |d.fields| then DecodeField(st, d, m, i, b) else Did(true, m, st)
  }

  // decode_field.  Another member of the union is released before this one is set.
  function DecodeField(st: Store, d: Desc, m: Record, i: nat, b: Body): Did<Record>
    requires i < |d.fields|
    decreases b, 4
  {
    var f := d.fields[i];
    if f.slot >= |m.members| then Did(false, m, st)
    else
      var u := if f.htype.Oneof? then ReleaseUnionField(st, d, f, m.members[f.slot]) else After(m.members[f.slot], st);
      var x := if f.atype.Static? then DecodeStaticField(u.st, f, u.r, b) else DecodePointerField(u.st, f, u.r, b);
      Did(x.ok, Record(m.members[f.slot := x.r]), x.st)
  }

  // The first field with a tag, or |d.fields|.
  function TagIndex(d: Desc, tag: nat, j: nat): (k: nat)
    requires j <= |d.fields|
    ensures j <= k <= |d.fields| && (k < |d.fields| ==> d.fields[k].tag == tag)
    ensures forall i :: j <= i < k ==> d.fields[i].tag != tag
    decreases |d.fields| - j
  {
    if j == |d.fields| || d.fields[j].tag == tag then j else TagIndex(d, tag, j + 1)
  }

  // pb_release_union_field.
  function ReleaseUnionField(st: Store, d: Desc, f: Field, s: Member): After<Member> {
    if !s.Choice? || s.which == 0 || s.which == f.tag then After(s, st)
    else
      var j := TagIndex(d, s.which, 0);
      if j < |d.fields| then ReleaseField(st, d.fields[j], s) else After(s, st)
  }

  // decode_static_field.  A union that gets another member is zeroed first.
  function DecodeStaticField(st: Store, f: Field, s: Member, b: Body): Did<Member>
    decreases b, 3
  {
    if !f.ltype.Submessage? then Did(b.read, if f.htype.Oneof? then Choice(f.tag, Inline) else s, st)
    else if f.htype.Repeated? then DecodeEntry(st, f, s, b)
    else
      var x := DecSubmessage(st, f, Destination(f, s), b);
      Did(x.ok, if f.htype.Oneof? then Choice(f.tag, Sub(x.r)) else Sub(x.r), x.st)
  }

  // What a submessage is decoded onto.
  function Destination(f: Field, s: Member): Record {
    if s.Sub? then s.m
    else if s.Choice? && s.which == f.tag && s.content.Sub? then s.content.m
    else SetToDefaults(f.sub, Zeroed(f.sub))
  }

  // The count of a static array, one higher.  It is of type pb_size_t, and wraps around.
  function NextCount(count: nat): (n: nat)
    ensures n <= SizeMax()
  {
    (count + 1) % (SizeMax() + 1)
  }

  // The next entry of a static array of submessages.  It is counted before it is decoded, and even
  // when there is no room for it.
  function DecodeEntry(st: Store, f: Field, s: Member, b: Body): Did<Member>
    decreases b, 2
  {
    if !s.SubArray? then Did(false, s, st)
    else if s.count >= f.arraySize || s.count >= |s.entries| then Did(false, SubArray(NextCount(s.count), s.entries), st)
    else
      var x := DecSubmessage(st, f, s.entries[s.count], b);
      Did(x.ok, SubArray(NextCount(s.count), s.entries[s.count := x.r]), x.st)
  }

  // ----- Pointer fields -----

  function DecodePointerField(st: Store, f: Field, s: Member, b: Body): Did<Member>
    decreases b, 3
  {
    if f.htype.Repeated? then
      if !s.OwnArray? then Did(false, s, st)
      else if Packable(f.ltype) && b.packed then DecodePackedArray(st, f, s, b)
      else AppendItem(st, f, s, b)
    else
      var x := DecodePointer(st, f, Current(f, s), b);
      Did(x.ok, if f.htype.Oneof? then Choice(f.tag, Own(x.r)) else Own(x.r), x.st)
  }

  // The pointer of a single field.
  function Current(f: Field, s: Member): Pointer {
    if s.Own? then s.p else if s.Choice? && s.which == f.tag && s.content.Own? then s.content.p else Null
  }

  // A single pointer.  A submessage that is there already is released first.
  function DecodePointer(st: Store, f: Field, p: Pointer, b: Body): Did<Pointer>
    decreases b, 2
  {
    if IsText(f) then DecodeText(st, p, b, b.grant)
    else if f.ltype.Submessage? then DecodeNewSubmessage(ReleaseBlock(st, f, p), f, b)
    else
      match AllocateField(st, p, f.dataSize, 1, b.grant)
      case (None, st') => Did(false, p, st')
      case (Some(id), st') => Did(b.read, Block(id, 1, ItemsOf(p)), st')
  }

  // A submessage in a new block.
  function DecodeNewSubmessage(st: Store, f: Field, b: Body): Did<Pointer>
    decreases b, 1
  {
    match AllocateField(st, Null, f.dataSize, 1, b.grant)
    case (None, st') => Did(false, Null, st')
    case (Some(id), st') =>
      var x := DecSubmessage(st', f, SetToDefaults(f.sub, Zeroed(f.sub)), b);
      Did(x.ok, Block(id, 1, [Nested(x.r)]), x.st)
  }

  // The number of entries to make room for: those there are, and a guess of how many remain.
  function Enlarged(capacity: nat, bytesLeft: nat, dataSize: nat): (r: nat)
    requires capacity < SizeMax() && bytesLeft > 0 && dataSize > 0
    ensures capacity < r <= SizeMax()
  {
    var remain := (bytesLeft - 1) / dataSize + 1;
    capacity + (if remain < SizeMax() - capacity then remain else 1)
  }

  // The loop over a packed array: the block grows when it is full.
  function PackedTurns(st: Store, f: Field, p: Pointer, size: nat, capacity: nat, bytesLeft: nat, turns: seq<Turn>): Did<(Pointer, nat)>
    decreases |turns|
  {
    if bytesLeft == 0 then Did(true, (p, size), st)
    else if turns == [] || size >= SizeMax() then Did(false, (p, size), st)
    else if size + 1 > capacity then
      if capacity >= SizeMax() || f.dataSize == 0 then Did(false, (p, size), st)
      else
        var room := Enlarged(capacity, bytesLeft, f.dataSize);
        match AllocateField(st, p, f.dataSize, room, turns[0].grant)
        case (None, st') => Did(false, (p, size), st')
        case (Some(id), st') => TakeTurn(st', f, Block(id, room, ItemsOf(p)), size, room, bytesLeft, turns)
    else TakeTurn(st, f, p, size, capacity, bytesLeft, turns)
  }

  function TakeTurn(st: Store, f: Field, p: Pointer, size: nat, capacity: nat, bytesLeft: nat, turns: seq<Turn>): Did<(Pointer, nat)>
    requires turns != []
    decreases |turns|, 0
  {
    var used := turns[0].used;
    if 0 < used <= bytesLeft then PackedTurns(st, f, p, size + 1, capacity, bytesLeft - used, turns[1..])
    else Did(false, (p, size), st)
  }

  function DecodePackedArray(st: Store, f: Field, s: Member, b: Body): Did<Member>
    requires s.OwnArray?
  {
    if !b.begun then Did(false, s, st)
    else
      var x := PackedTurns(st, f, s.p, s.count, s.count, b.size, b.turns);
      Did(x.ok && b.closed, OwnArray(x.r.1, x.r.0), x.st)
  }

  // One more entry of an array.  It is counted before it is decoded.
  function AppendItem(st: Store, f: Field, s: Member, b: Body): Did<Member>
    requires s.OwnArray?
    decreases b, 2
  {
    if s.count >= SizeMax() then Did(false, s, st)
    else
      match AllocateField(st, s.p, f.dataSize, s.count + 1, b.grant)
      case (None, st') => Did(false, s, st')
      case (Some(id), st') =>
        if !f.ltype.Submessage? && !IsText(f) then Did(b.read, OwnArray(s.count + 1, Block(id, s.count + 1, ItemsOf(s.p))), st')
        else
          var x := DecodeItem(st', f, b);
          Did(x.ok, OwnArray(s.count + 1, Block(id, s.count + 1, ItemsOf(s.p) + [x.r])), x.st)
  }

  // The content of a new entry: a submessage, or the pointer to a text.
  function DecodeItem(st: Store, f: Field, b: Body): Did<Item>
    decreases b, 1
  {
    if f.ltype.Submessage? then
      var x := DecSubmessage(st, f, SetToDefaults(f.sub, Zeroed(f.sub)), b);
      Did(x.ok, Nested(x.r), x.st)
    else
      var x := DecodeText(st, Null, b, b.textGrant);
      Did(x.ok, Entry(x.r), x.st)
  }

  // ----- The whole life of a struct -----

  // pb_decode into a zeroed struct, and pb_release if it has succeeded.
  function DecodeAndRelease(st: Store, d: Desc, input: Input): Did<Record> {
    var x := Decode(st, d, Zeroed(d), input);
    if !x.ok then x
    else
      var y := Release(x.st, d, x.r);
      Did(true, y.r, y.st)
  }
}
