// The decoder of the malloc build and pb_release at work on the heap.  Each method does what its
// function in OwnedRuns or OwnedRelease says, and calls free and realloc only for blocks that the
// struct owns, so that no block is freed twice.
module OwnedDecoding {
  import opened Options
  import opened Wire
  import opened Descriptor
  import opened Ownership
  import opened OwnedRelease
  import opened OwnedRuns
  import opened OwnedSafety

  // ----- Release -----

  // pb_release.
  method Release(heap: Heap, d: Desc, m: Record) returns (r: Record)
    requires heap.State().Valid() && Table(d) && Shaped(d, m) && Ids(m) <= heap.State().Live()
    modifies heap
    ensures After(r, heap.State()) == OwnedRelease.Release(old(heap.State()), d, m)
    decreases d
  {
    hide Shaped, Table, TableField, MemberShaped, Ids, MemberIds, ReleaseField;
    r := m;
    var i := 0;
    while i < |d.fields|
      invariant i <= |d.fields| && heap.State().Valid() && Shaped(d, r) && Ids(r) <= heap.State().Live()
      invariant ReleaseFields(heap.State(), d, r, i) == ReleaseFields(old(heap.State()), d, m, 0)
    {
      var f := d.fields[i];
      FieldShaped(d, r, i);
      FieldReleased(heap.State(), d, r, i);
      Smaller(d, i);
      var s := ReleaseSingleField(heap, f, r.members[f.slot]);
      r := Record(r.members[f.slot := s]);
      i := i + 1;
    }
  }

  lemma Smaller(d: Desc, i: nat)
    requires i < |d.fields|
    ensures d.fields[i] < d
  {
  }

  lemma FieldReleased(st: Store, d: Desc, m: Record, i: nat)
    requires st.Valid() && Table(d) && Shaped(d, m) && Ids(m) <= st.Live() && i < |d.fields|
    ensures var f := d.fields[i];
            && f.slot < |m.members| && MemberIds(m.members[f.slot]) <= st.Live()
            && var x := ReleaseField(st, f, m.members[f.slot]);
            var r := Record(m.members[f.slot := x.r]);
            x.st.Valid() && Shaped(d, r) && Ids(r) <= x.st.Live()
  {
    hide Shaped, Table, TableField, MemberShaped, MemberIds, MembersIds, Kept, ReleaseField;
    var f := d.fields[i];
    FieldShaped(d, m, i);
    MemberUpdate(m.members, f.slot, m.members[f.slot]);
    ReleaseFieldKept(false, st, f, m.members[f.slot], 0);
    var x := ReleaseField(st, f, m.members[f.slot]);
    MemberKept(false, st.Live(), x.st.Live(), m.members, f.slot, x.r);
    ReleasedUpdate(false, d, m, i, x.r);
    KeptAlive(false, st.Live(), Ids(m), x.st.Live(), Ids(Record(m.members[f.slot := x.r])));
  }

  // pb_release_single_field.
  method ReleaseSingleField(heap: Heap, f: Field, s: Member) returns (r: Member)
    requires heap.State().Valid() && TableField(f) && MemberShaped(f, s) && MemberIds(s) <= heap.State().Live()
    modifies heap
    ensures After(r, heap.State()) == ReleaseField(old(heap.State()), f, s)
    decreases f, 1
  {
    hide Shaped, Table, Ids, ItemIds, EntryIds, OwnedRelease.ReleaseContent, OwnedRelease.ReleaseBlock, OwnedRelease.ReleaseEntries;
    if f.htype.Oneof? {
      if s.which != f.tag {
        return s;  // not the current field in the union
      }
      var c := ReleaseContent(heap, f, s.content);
      r := Choice(s.which, c);
    } else if !f.htype.Repeated? {
      r := ReleaseContent(heap, f, s);
    } else if f.atype.Pointer? {
      ReleaseBlock(heap, f, s.p, s.count);
      r := OwnArray(0, Null);
    } else if f.ltype.Submessage? {
      var entries := ReleaseEntries(heap, f, s);
      r := SubArray(s.count, entries);
    } else {
      ReleaseContentStays(false, heap.State(), f, s);
      r := s;
    }
  }

  // The submessage or the block of a single field.
  method ReleaseContent(heap: Heap, f: Field, c: Member) returns (r: Member)
    requires heap.State().Valid() && TableField(f) && !f.htype.Repeated? && Content(f, c) && MemberIds(c) <= heap.State().Live()
    modifies heap
    ensures After(r, heap.State()) == OwnedRelease.ReleaseContent(old(heap.State()), f, c)
    decreases f, 0, 3
  {
    hide Shaped, Table, ItemIds, EntryIds, Ids, OwnedRelease.Release, OwnedRelease.ReleaseBlock;
    if f.atype.Pointer? {
      ReleaseBlock(heap, f, c.p, 1);
      r := Own(Null);
    } else if f.ltype.Submessage? {
      var m := Release(heap, f.sub, c.m);
      r := Sub(m);
    } else {
      r := c;
    }
  }

  // What lies in a block, and then the block itself.
  method ReleaseBlock(heap: Heap, f: Field, p: Pointer, count: nat)
    requires heap.State().Valid() && TableField(f) && Points(f, p, count) && PointerIds(p) <= heap.State().Live()
    modifies heap
    ensures heap.State() == OwnedRelease.ReleaseBlock(old(heap.State()), f, p)
    decreases f, 0, 2
  {
    hide Shaped, Table, ItemIds, EntryIds, Ids, Kept, OwnedRelease.ReleaseItems;
    if p.Block? {
      ghost var st := heap.State();
      BlockParts(p, st.Live());
      assert forall k :: 0 <= k < |p.items| ==> ItemShaped(f, p.items[k]);
      ReleaseItemsKept(false, st, f, p.items, 0);
      ReleaseItems(heap, f, p.items);
      KeptInside(false, st.Live(), ItemIds(p.items), heap.State().Live(), multiset{}, PointerIds(p), multiset{p.id});
      KeptAlive(false, st.Live(), PointerIds(p), heap.State().Live(), multiset{p.id});
      heap.Free(p);
    }
  }

  // The submessages in a block, and the blocks that the entries of an array of strings point to.
  method ReleaseItems(heap: Heap, f: Field, items: seq<Item>)
    requires heap.State().Valid() && TableField(f) && ItemIds(items) <= heap.State().Live()
    requires forall k :: 0 <= k < |items| ==> ItemShaped(f, items[k])
    modifies heap
    ensures heap.State() == OwnedRelease.ReleaseItems(old(heap.State()), f, items)
    decreases f, 0, 1
  {
    hide Shaped, Table, EntryIds, Ids, Kept, MemberIds, ItemIds, PointerIds, OwnedRelease.Release, ItemShaped;
    var k := 0;
    assert items[0..] == items;
    while k < |items|
      invariant k <= |items| && heap.State().Valid() && ItemIds(items[k..]) <= heap.State().Live()
      invariant OwnedRelease.ReleaseItems(heap.State(), f, items[k..]) == OwnedRelease.ReleaseItems(old(heap.State()), f, items)
    {
      ghost var st := heap.State();
      assert items[k..][1..] == items[k + 1..];
      FirstItem(items[k..], st.Live());
      ReleaseItemKept(false, st, f, items[k], 0);
      ReleaseItem(heap, f, items[k]);
      KeptInside(false, st.Live(), ItemIdsOf(items[k]), heap.State().Live(), multiset{}, ItemIds(items[k..]), ItemIds(items[k + 1..]));
      KeptAlive(false, st.Live(), ItemIds(items[k..]), heap.State().Live(), ItemIds(items[k + 1..]));
      k := k + 1;
    }
    assert items[k..] == [];
  }

  method ReleaseItem(heap: Heap, f: Field, item: Item)
    requires heap.State().Valid() && TableField(f) && ItemShaped(f, item) && ItemIdsOf(item) <= heap.State().Live()
    modifies heap
    ensures heap.State() == OwnedRelease.ReleaseItem(old(heap.State()), f, item)
    decreases f, 0, 0
  {
    hide Shaped, Table, Ids, PointerIds, OwnedRelease.Release;
    if f.ltype.Submessage? {
      var _ := Release(heap, f.sub, item.m);
    } else {
      EntryItem(item);
      heap.Free(item.p);
    }
  }

  // The entries of a static array below its count; a count beyond the capacity is cut down to it.
  method ReleaseEntries(heap: Heap, f: Field, s: Member) returns (entries: seq<Record>)
    requires heap.State().Valid() && TableField(f) && MemberShaped(f, s) && MemberIds(s) <= heap.State().Live()
    requires f.htype.Repeated? && f.atype.Static? && f.ltype.Submessage?
    modifies heap
    ensures After(entries, heap.State())
         == OwnedRelease.ReleaseEntries(old(heap.State()), f, s.entries, 0, Reachable(s.count, s.entries))
    decreases f, 0, 0
  {
    hide Shaped, Table, Ids, Kept, EntryIds, OwnedRelease.Release;
    var n := if s.count > f.arraySize then f.arraySize else s.count;
    entries := s.entries;
    var k := 0;
    while k < n
      invariant k <= n <= |entries| && heap.State().Valid() && EntryIds(entries) <= heap.State().Live()
      invariant forall j :: 0 <= j < |entries| ==> Shaped(f.sub, entries[j])
      invariant OwnedRelease.ReleaseEntries(heap.State(), f, entries, k, n)
             == OwnedRelease.ReleaseEntries(old(heap.State()), f, s.entries, 0, n)
    {
      ghost var st := heap.State();
      EntryUpdate(entries, k, entries[k]);
      ReleaseKept(false, st, f.sub, entries[k], 0);
      var m := Release(heap, f.sub, entries[k]);
      EntryKept(false, st.Live(), heap.State().Live(), entries, k, m);
      KeptAlive(false, st.Live(), EntryIds(entries), heap.State().Live(), EntryIds(entries[k := m]));
      entries := entries[k := m];
      k := k + 1;
    }
  }

  // ----- Allocation -----

  // allocate_field: sizes of zero and products that overflow are refused.
  method AllocateField(heap: Heap, p: Pointer, dataSize: nat, arraySize: nat, g: Grant) returns (id: Option<nat>)
    requires heap.State().Valid() && IdOf(p) <= heap.State().Live()
    modifies heap
    ensures (id, heap.State()) == OwnedRuns.AllocateField(old(heap.State()), p, dataSize, arraySize, g)
    ensures id.Some? ==> 0 < dataSize * arraySize <= SIZE_MAX
  {
    AllocateKept(heap.State(), p, dataSize, arraySize, g);
    if dataSize == 0 || arraySize == 0 {
      return None;
    }
    if (dataSize >= CHECK_LIMIT || arraySize >= CHECK_LIMIT) && SIZE_MAX / arraySize < dataSize {
      return None;
    }
    id := heap.Realloc(p, g);
  }

  // pb_dec_string and pb_dec_bytes for a pointer.
  method DecodeText(heap: Heap, p: Pointer, b: Body, g: Grant) returns (ok: bool, q: Pointer)
    requires heap.State().Valid() && PointerIds(p) <= heap.State().Live()
    modifies heap
    ensures Did(ok, q, heap.State()) == OwnedRuns.DecodeText(old(heap.State()), p, b, g)
  {
    hide PointerIds, OwnedRuns.AllocateField;
    if !b.begun {
      return false, p;
    }
    OwnId(p);
    var id := AllocateField(heap, p, b.size, 1, g);
    if id.None? {
      return false, p;
    }
    return b.read, Block(id.value, 1, []);
  }

  // ----- Submessages -----

  // pb_dec_submessage.
  method DecSubmessage(heap: Heap, f: Field, m: Record, b: Body) returns (ok: bool, r: Record)
    requires heap.State().Valid() && Table(f.sub) && Shaped(f.sub, m) && Ids(m) <= heap.State().Live()
    modifies heap
    ensures Did(ok, r, heap.State()) == OwnedRuns.DecSubmessage(old(heap.State()), f, m, b)
    decreases b, 0
  {
    hide Shaped, Table, Ids, OwnedRuns.Decode, OwnedRuns.DecodeNoinit;
    if !b.begun {
      return false, m;
    }
    if f.htype.Repeated? {
      ok, r := Decode(heap, f.sub, m, b.inner);
    } else {
      ok, r := DecodeNoinit(heap, f.sub, m, b.inner);
    }
    ok := ok && b.closed;
  }

  // pb_decode: on failure everything is released again.
  method Decode(heap: Heap, d: Desc, m: Record, input: Input) returns (ok: bool, r: Record)
    requires heap.State().Valid() && Table(d) && Shaped(d, m) && Ids(m) <= heap.State().Live()
    modifies heap
    ensures Did(ok, r, heap.State()) == OwnedRuns.Decode(old(heap.State()), d, m, input)
    decreases input, 2
  {
    hide Shaped, Table, Ids, Kept, Counted, SetToDefaults, OwnedRuns.DecodeNoinit, OwnedRelease.Release;
    DefaultsShape(d, m);
    r := SetToDefaults(d, m);
    DecodeNoinitKept(false, heap.State(), d, r, input);
    ghost var st, was := heap.State(), r;
    ok, r := DecodeNoinit(heap, d, r, input);
    if !ok {
      KeptAlive(false, st.Live(), Ids(was), heap.State().Live(), Ids(r));
      r := Release(heap, d, r);
    }
  }

  // pb_decode_noinit.
  method DecodeNoinit(heap: Heap, d: Desc, m: Record, input: Input) returns (ok: bool, r: Record)
    requires heap.State().Valid() && Table(d) && Shaped(d, m) && Ids(m) <= heap.State().Live()
    modifies heap
    ensures Did(ok, r, heap.State()) == OwnedRuns.DecodeNoinit(old(heap.State()), d, m, input)
    decreases input, 1
  {
    hide Shaped, Table, Ids, Kept, Counted, OwnedRuns.DecodeField;
    ghost var st := heap.State();
    var records := input.records;
    var k := 0;
    r := m;
    assert records[0..] == records;
    while k < |records|
      invariant k <= |records| && heap.State().Valid() && Shaped(d, r) && Ids(r) <= heap.State().Live()
      invariant DecodeRecords(heap.State(), d, r, records[k..]) == DecodeRecords(st, d, m, records)
    {
      assert records[k..][1..] == records[k + 1..];
      if records[k].Hit? && records[k].i < |d.fields| {
        ghost var u, was := heap.State(), r;
        DecodeFieldKept(false, u, d, r, records[k].i, records[k].body);
        ok, r := DecodeField(heap, d, r, records[k].i, records[k].body);
        KeptAlive(false, u.Live(), Ids(was), heap.State().Live(), Ids(r));
        if !ok {
          return;
        }
      }
      k := k + 1;
    }
    assert records[k..] == [];
    ok := input.complete;
  }

  // ----- Fields -----

  // decode_field.
  method DecodeField(heap: Heap, d: Desc, m: Record, i: nat, b: Body) returns (ok: bool, r: Record)
    requires heap.State().Valid() && Table(d) && Shaped(d, m) && Ids(m) <= heap.State().Live() && i < |d.fields|
    modifies heap
    ensures Did(ok, r, heap.State()) == OwnedRuns.DecodeField(old(heap.State()), d, m, i, b)
    decreases b, 4
  {
    hide Table, Shaped, TableField, Kept, MemberShaped, MemberIds, MembersIds, MemberCounted, Ready,
      OwnedRuns.ReleaseUnionField, OwnedRuns.DecodeStaticField, OwnedRuns.DecodePointerField;
    var f := d.fields[i];
    FieldShaped(d, m, i);
    NoCallback(f);
    MemberUpdate(m.members, f.slot, m.members[f.slot]);
    var s := m.members[f.slot];
    ghost var st, was := heap.State(), s;
    UnionKept(false, st, d, m, i);
    if f.htype.Oneof? {
      s := ReleaseUnionField(heap, d, m, i);
    }
    KeptAlive(false, st.Live(), MemberIds(was), heap.State().Live(), MemberIds(s));
    if f.atype.Static? {
      ok, s := DecodeStaticField(heap, f, s, b);
    } else {
      ok, s := DecodePointerField(heap, f, s, b);
    }
    r := Record(m.members[f.slot := s]);
  }

  // pb_release_union_field: another member of the union is released before this one is set.
  method ReleaseUnionField(heap: Heap, d: Desc, m: Record, i: nat) returns (s: Member)
    requires heap.State().Valid() && Table(d) && Shaped(d, m) && i < |d.fields| && d.fields[i].htype.Oneof?
    requires d.fields[i].slot < |m.members| && MemberIds(m.members[d.fields[i].slot]) <= heap.State().Live()
    modifies heap
    ensures After(s, heap.State()) == OwnedRuns.ReleaseUnionField(old(heap.State()), d, d.fields[i], m.members[d.fields[i].slot])
  {
    hide Table, Shaped, MemberShaped, MemberIds, ReleaseField, Content;
    var f := d.fields[i];
    s := m.members[f.slot];
    UnionShape(d, m, i);
    if s.which != 0 && s.which != f.tag {
      var j := 0;
      while d.fields[j].tag != s.which
        invariant j < |d.fields| && TagIndex(d, s.which, j) == TagIndex(d, s.which, 0)
        decreases |d.fields| - j
      {
        j := j + 1;
      }
      TagIsUnique(d, m, f.slot, j);
      s := ReleaseSingleField(heap, d.fields[j], s);
    }
  }

  // decode_static_field.
  method DecodeStaticField(heap: Heap, f: Field, s: Member, b: Body) returns (ok: bool, r: Member)
    requires heap.State().Valid() && TableField(f) && f.atype.Static? && Ready(false, f, s) && MemberIds(s) <= heap.State().Live()
    modifies heap
    ensures Did(ok, r, heap.State()) == OwnedRuns.DecodeStaticField(old(heap.State()), f, s, b)
    decreases b, 3
  {
    hide Shaped, Table, Ids, EntryIds, PointerIds, Kept, SetToDefaults, Zeroed, OwnedRuns.DecSubmessage, OwnedRuns.DecodeEntry;
    if !f.ltype.Submessage? {
      return b.read, if f.htype.Oneof? then Choice(f.tag, Inline) else s;
    }
    if f.htype.Repeated? {
      ok, r := DecodeEntry(heap, f, s, b);
    } else {
      var m := Destination(f, s);
      DestinationKept(false, heap.State(), f, s);
      ok, m := DecSubmessage(heap, f, m, b);
      r := if f.htype.Oneof? then Choice(f.tag, Sub(m)) else Sub(m);
    }
  }

  // The next entry of a static array of submessages.
  method DecodeEntry(heap: Heap, f: Field, s: Member, b: Body) returns (ok: bool, r: Member)
    requires heap.State().Valid() && TableField(f) && f.atype.Static? && MemberShaped(f, s) && MemberIds(s) <= heap.State().Live()
    requires f.htype.Repeated? && f.ltype.Submessage?
    modifies heap
    ensures Did(ok, r, heap.State()) == OwnedRuns.DecodeEntry(old(heap.State()), f, s, b)
    decreases b, 2
  {
    hide Shaped, Table, Ids, EntryIds, OwnedRuns.DecSubmessage;
    var k := s.count;
    var count := NextCount(k);
    if k >= f.arraySize {
      return false, SubArray(count, s.entries);
    }
    EntryUpdate(s.entries, k, s.entries[k]);
    var m;
    ok, m := DecSubmessage(heap, f, s.entries[k], b);
    r := SubArray(count, s.entries[k := m]);
  }

  // ----- Pointer fields -----

  // decode_pointer_field.
  method DecodePointerField(heap: Heap, f: Field, s: Member, b: Body) returns (ok: bool, r: Member)
    requires heap.State().Valid() && TableField(f) && f.atype.Pointer? && Ready(false, f, s) && MemberIds(s) <= heap.State().Live()
    modifies heap
    ensures Did(ok, r, heap.State()) == OwnedRuns.DecodePointerField(old(heap.State()), f, s, b)
    decreases b, 3
  {
    hide Shaped, Table, PointerIds, Points, Kept, OwnedRuns.DecodePackedArray, OwnedRuns.AppendItem, OwnedRuns.DecodePointer;
    if f.htype.Repeated? {
      if Packable(f.ltype) && b.packed {
        ok, r := DecodePackedArray(heap, f, s, b);
      } else {
        ok, r := AppendItem(heap, f, s, b);
      }
    } else {
      CurrentKept(false, heap.State(), f, s);
      var p;
      ok, p := DecodePointer(heap, f, Current(f, s), b);
      r := if f.htype.Oneof? then Choice(f.tag, Own(p)) else Own(p);
    }
  }

  // A single pointer.  A submessage that is there already is released first.
  method DecodePointer(heap: Heap, f: Field, p: Pointer, b: Body) returns (ok: bool, q: Pointer)
    requires heap.State().Valid() && TableField(f) && f.atype.Pointer? && !f.htype.Repeated? && Points(f, p, 1)
    requires PointerIds(p) <= heap.State().Live()
    modifies heap
    ensures Did(ok, q, heap.State()) == OwnedRuns.DecodePointer(old(heap.State()), f, p, b)
    decreases b, 2
  {
    hide Shaped, Table, PointerIds, Points, Kept, OwnedRuns.DecodeText, OwnedRuns.DecodeNewSubmessage, OwnedRuns.AllocateField,
      OwnedRelease.ReleaseBlock;
    if IsText(f) {
      ok, q := DecodeText(heap, p, b, b.grant);
    } else if f.ltype.Submessage? {
      ReleaseBlockKept(false, heap.State(), f, p, 1, 0);
      ReleaseBlock(heap, f, p, 1);
      ok, q := DecodeNewSubmessage(heap, f, b);
    } else {
      OwnId(p);
      var id := AllocateField(heap, p, f.dataSize, 1, b.grant);
      if id.None? {
        return false, p;
      }
      return b.read, Block(id.value, 1, ItemsOf(p));
    }
  }

  // A submessage in a new block.
  method DecodeNewSubmessage(heap: Heap, f: Field, b: Body) returns (ok: bool, q: Pointer)
    requires heap.State().Valid() && TableField(f) && f.atype.Pointer? && !f.htype.Repeated? && f.ltype.Submessage?
    modifies heap
    ensures Did(ok, q, heap.State()) == OwnedRuns.DecodeNewSubmessage(old(heap.State()), f, b)
    decreases b, 1
  {
    hide Shaped, Table, Ids, Kept, SetToDefaults, Zeroed, OwnedRuns.DecSubmessage, OwnedRuns.AllocateField;
    NothingBelow(heap.State().Live());
    AllocateKept(heap.State(), Null, f.dataSize, 1, b.grant);
    var id := AllocateField(heap, Null, f.dataSize, 1, b.grant);
    if id.None? {
      return false, Null;
    }
    FreshShape(f);
    NothingBelow(heap.State().Live());
    var m;
    ok, m := DecSubmessage(heap, f, SetToDefaults(f.sub, Zeroed(f.sub)), b);
    q := Block(id.value, 1, [Nested(m)]);
  }

  // A packed array: the block grows when it is full, by a guess of what is still to come.
  method DecodePackedArray(heap: Heap, f: Field, s: Member, b: Body) returns (ok: bool, r: Member)
    requires heap.State().Valid() && TableField(f) && f.atype.Pointer? && f.htype.Repeated? && Packable(f.ltype)
    requires MemberShaped(f, s) && MemberIds(s) <= heap.State().Live()
    modifies heap
    ensures Did(ok, r, heap.State()) == OwnedRuns.DecodePackedArray(old(heap.State()), f, s, b)
  {
    hide PointerIds, Kept, Shaped, Table, Ids, ItemIds, Points, Enlarged, OwnedRuns.AllocateField;
    if !b.begun {
      return false, s;
    }
    FullRun(f, s);
    ghost var st := heap.State();
    var size: nat, p, capacity := s.count, s.p, s.count;
    var bytesLeft: nat, k := b.size, 0;
    assert b.turns[0..] == b.turns;
    ok := true;
    while ok && bytesLeft > 0
      invariant k <= |b.turns| && heap.State().Valid() && PointerIds(p) <= heap.State().Live() && size <= capacity <= SizeMax()
      invariant PackedTurns(st, f, s.p, s.count, s.count, b.size, b.turns)
             == if ok then PackedTurns(heap.State(), f, p, size, capacity, bytesLeft, b.turns[k..]) else Did(false, (p, size), heap.State())
      decreases bytesLeft, ok
    {
      ok := k < |b.turns| && size != SizeMax();
      if ok {
        var turn := b.turns[k];
        if size + 1 > capacity {
          var room := Enlarged(capacity, bytesLeft, f.dataSize);
          GrownBlock(heap.State(), p, f.dataSize, room, turn.grant);
          var id := AllocateField(heap, p, f.dataSize, room, turn.grant);
          ok := id.Some?;
          if ok { p, capacity := Block(id.value, room, ItemsOf(p)), room; }
        }
        if ok {
          assert b.turns[k..][1..] == b.turns[k + 1..];
          ok := 0 < turn.used <= bytesLeft;
          if ok {
            bytesLeft, size, k := bytesLeft - turn.used, size + 1, k + 1;
          }
        }
      }
    }
    r := OwnArray(size, p);
    ok := ok && b.closed;
  }

  lemma FullRun(f: Field, s: Member)
    requires TableField(f) && f.atype.Pointer? && f.htype.Repeated? && Packable(f.ltype) && MemberShaped(f, s)
    ensures s.OwnArray? && s.count <= SizeMax() && f.dataSize > 0 && MemberIds(s) == PointerIds(s.p)
  {
  }

  // A block that grows is still owned.
  lemma GrownBlock(st: Store, p: Pointer, dataSize: nat, arraySize: nat, g: Grant)
    requires st.Valid() && PointerIds(p) <= st.Live()
    ensures IdOf(p) <= st.Live()
    ensures var (id, u) := OwnedRuns.AllocateField(st, p, dataSize, arraySize, g);
            u.Valid() && if id.None? then u == st else PointerIds(Block(id.value, arraySize, ItemsOf(p))) <= u.Live()
  {
    hide PointerIds, Kept, OwnedRuns.AllocateField;
    OwnId(p);
    AllocateKept(st, p, dataSize, arraySize, g);
    var (id, u) := OwnedRuns.AllocateField(st, p, dataSize, arraySize, g);
    if id.Some? {
      MovedBlock(false, st.Live(), u.Live(), p, id.value, arraySize);
      KeptAlive(false, st.Live(), PointerIds(p), u.Live(), PointerIds(Block(id.value, arraySize, ItemsOf(p))));
    }
  }

  // One more entry of an array.  It is counted before it is decoded.
  method AppendItem(heap: Heap, f: Field, s: Member, b: Body) returns (ok: bool, r: Member)
    requires heap.State().Valid() && TableField(f) && f.atype.Pointer? && f.htype.Repeated?
    requires MemberShaped(f, s) && MemberIds(s) <= heap.State().Live()
    modifies heap
    ensures Did(ok, r, heap.State()) == OwnedRuns.AppendItem(old(heap.State()), f, s, b)
    decreases b, 2
  {
    hide Shaped, Table, PointerIds, Kept, OwnedRuns.AllocateField, OwnedRuns.DecodeItem;
    if s.count == SizeMax() {
      return false, s;
    }
    OwnId(s.p);
    AllocateKept(heap.State(), s.p, f.dataSize, s.count + 1, b.grant);
    var id := AllocateField(heap, s.p, f.dataSize, s.count + 1, b.grant);
    if id.None? {
      return false, s;
    }
    if !f.ltype.Submessage? && !IsText(f) {
      return b.read, OwnArray(s.count + 1, Block(id.value, s.count + 1, ItemsOf(s.p)));
    }
    var item;
    ok, item := DecodeItem(heap, f, b);
    r := OwnArray(s.count + 1, Block(id.value, s.count + 1, ItemsOf(s.p) + [item]));
  }

  // The content of a new entry: a submessage, or the pointer to a text.
  method DecodeItem(heap: Heap, f: Field, b: Body) returns (ok: bool, item: Item)
    requires heap.State().Valid() && TableField(f) && f.htype.Repeated? && (f.ltype.Submessage? || IsText(f))
    modifies heap
    ensures Did(ok, item, heap.State()) == OwnedRuns.DecodeItem(old(heap.State()), f, b)
    decreases b, 1
  {
    hide Shaped, Table, Ids, SetToDefaults, Zeroed, OwnedRuns.DecSubmessage, OwnedRuns.DecodeText;
    NullOwnsNothing();
    NothingBelow(heap.State().Live());
    if f.ltype.Submessage? {
      FreshShape(f);
      var m;
      ok, m := DecSubmessage(heap, f, SetToDefaults(f.sub, Zeroed(f.sub)), b);
      item := Nested(m);
    } else {
      var q;
      ok, q := DecodeText(heap, Null, b, b.textGrant);
      item := Entry(q);
    }
  }

  // ----- The whole life of a struct -----

  // Decoding into a zeroed struct.  Afterwards each new block is owned by one pointer, and after a
  // failure there is none, unless the table can leak.
  method DecodeIntoZeroed(heap: Heap, d: Desc, input: Input) returns (ok: bool, m: Record)
    requires heap.State().Valid() && Table(d)
    modifies heap
    ensures heap.State().Valid() && Shaped(d, m) && Ids(m) <= heap.State().Live()
    ensures ok || !Leaky(d) ==> old(heap.live) <= heap.live
    ensures ok || !Leaky(d) ==> forall x :: Ids(m)[x] == if x in heap.live && x !in old(heap.live) then 1 else 0
    ensures !ok && !Leaky(d) ==> heap.live == old(heap.live) && AllNull(m)
  {
    hide Shaped, Table, Ids, Leaky, Zeroed, OwnedRuns.Decode;
    ZeroedShape(d);
    NothingBelow(heap.State().Live());
    DecodeOwnsNew(heap.State(), d, input);
    ok, m := Decode(heap, d, Zeroed(d), input);
  }

  // Releasing what has been decoded gives the heap back as it was, with all pointers null, unless
  // decoding has failed with a table that can leak.
  method DecodeAndRelease(heap: Heap, d: Desc, input: Input) returns (ok: bool, m: Record)
    requires heap.State().Valid() && Table(d)
    modifies heap
    ensures ok || !Leaky(d) ==> heap.live == old(heap.live) && AllNull(m)
    ensures Did(ok, m, heap.State()) == OwnedRuns.DecodeAndRelease(old(heap.State()), d, input)
  {
    hide Shaped, Table, Ids, Leaky, Zeroed, OwnedRuns.Decode, OwnedRelease.Release;
    ZeroedShape(d);
    NothingBelow(heap.State().Live());
    DecodeOwnsNew(heap.State(), d, input);
    NothingIsLost(heap.State(), d, input);
    ok, m := Decode(heap, d, Zeroed(d), input);
    if ok {
      m := Release(heap, d, m);
    }
  }
}
