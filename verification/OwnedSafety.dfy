// What the decoder of the malloc build does to the heap: for every table no block is freed that is
// not owned, and nothing is lost if decoding succeeds, or if the table cannot leak.
module OwnedSafety {
  import opened Options
  import opened Wire
  import opened Descriptor
  import opened Ownership
  import opened OwnedRelease
  import opened OwnedRuns

  // ----- Tables that can leak -----

  // A struct of the table may come to own a block.
  predicate CanOwn(d: Desc)
    decreases d, 0
  {
    exists i :: 0 <= i < |d.fields| && FieldCanOwn(d.fields[i])
  }

  predicate FieldCanOwn(f: Field)
    decreases f, 0
  {
    if f.atype.Pointer? then Allocatable(f)
    else f.ltype.Submessage? && (f.htype.Repeated? ==> f.arraySize > 0) && CanOwn(f.sub)
  }

  // A submessage of the field may be decoded.
  predicate Enterable(f: Field) {
    f.ltype.Submessage? && if f.atype.Pointer? then f.dataSize > 0 else f.htype.Repeated? ==> f.arraySize > 0
  }

  // A static array of submessages with as many entries as its count can hold, and pointers below it.
  predicate CountWraps(f: Field) {
    f.ltype.Submessage? && f.atype.Static? && f.htype.Repeated? && f.arraySize == SizeMax() && CanOwn(f.sub)
  }

  predicate Leaky(d: Desc)
    decreases d, 0
  {
    exists i :: 0 <= i < |d.fields| && LeakyField(d.fields[i])
  }

  predicate LeakyField(f: Field)
    decreases f, 0
  {
    CountWraps(f) || (Enterable(f) && Leaky(f.sub))
  }

  // A struct of a table without pointers owns nothing.
  lemma {:induction false} CannotOwn(d: Desc, m: Record)
    requires Table(d) && Shaped(d, m) && !CanOwn(d)
    ensures Ids(m) == multiset{}
    decreases d, 0
  {
    hide MemberIds, MemberShaped;
    forall k | 0 <= k < |m.members| ensures MemberIds(m.members[k]) == multiset{} {
      var f := d.fields[k];
      FieldShaped(d, m, k);
      if f.slot == k {
        MemberCannotOwn(f, m.members[k]);
        if m.members[k].Choice? && m.members[k].which != 0 && m.members[k].which != f.tag { OtherCannotOwn(d, m, k); }
      } else {
        BesideOwnsNothing();
      }
    }
    MembersEmpty(m.members);
  }

  lemma BesideOwnsNothing()
    ensures MemberIds(Beside) == multiset{}
  {
  }

  lemma {:induction false} OtherCannotOwn(d: Desc, m: Record, k: nat)
    requires Table(d) && Shaped(d, m) && !CanOwn(d) && k < |m.members| && m.members[k].Choice? && m.members[k].which != 0
    ensures MemberIds(m.members[k]) == multiset{}
    decreases d, -1
  {
    assert Chosen(d, k, m.members[k].which);
    var j :| 0 <= j < |d.fields| && d.fields[j].slot == k && d.fields[j].tag == m.members[k].which;
    FieldShaped(d, m, j);
    MemberCannotOwn(d.fields[j], m.members[k]);
  }

  lemma {:induction false} MemberCannotOwn(f: Field, s: Member)
    requires TableField(f) && MemberShaped(f, s) && !FieldCanOwn(f)
    ensures s.Choice? ==> (s.which == f.tag || s.which == 0 ==> MemberIds(s) == multiset{})
    ensures !s.Choice? ==> MemberIds(s) == multiset{}
    decreases f, 1
  {
    hide Shaped, Table, PointerIds;
    NullOwnsNothing();
    if f.htype.Repeated? {
      if f.atype.Static? && f.ltype.Submessage? {
        forall k | 0 <= k < |s.entries| ensures Ids(s.entries[k]) == multiset{} { CannotOwn(f.sub, s.entries[k]); }
        EntriesEmpty(s.entries);
      }
    } else if f.htype.Oneof? {
      if s.which == f.tag { ContentCannotOwn(f, s.content); }
    } else {
      ContentCannotOwn(f, s);
    }
  }

  lemma {:induction false} ContentCannotOwn(f: Field, c: Member)
    requires TableField(f) && !f.htype.Repeated? && Content(f, c) && !FieldCanOwn(f)
    ensures MemberIds(c) == multiset{}
    decreases f, 0
  {
    hide Shaped, Table, PointerIds;
    NullOwnsNothing();
    if f.atype.Static? && f.ltype.Submessage? { CannotOwn(f.sub, c.m); }
  }

  // ----- Initial structs -----

  lemma {:induction false} ZeroedShape(d: Desc)
    requires Table(d)
    ensures Shaped(d, Zeroed(d)) && Ids(Zeroed(d)) == multiset{}
    decreases d, 0
  {
    hide MemberIds, MemberShaped, ZeroedMember;
    var m := Zeroed(d);
    forall i | 0 <= i < |d.fields| ensures d.fields[i].slot <= i && d.fields[d.fields[i].slot].slot == d.fields[i].slot {
      assert SlotInside(d, i);
    }
    forall i | 0 <= i < |d.fields|
      ensures MemberShaped(d.fields[i], m.members[d.fields[i].slot]) && MemberIds(m.members[i]) == multiset{}
      ensures m.members[i].Choice? ==> m.members[i].which == 0
    {
      var f := d.fields[i];
      assert SlotInside(d, i) && TableField(f) && TableField(d.fields[f.slot]);
      ZeroedMemberShape(f);
      ZeroedMemberShape(d.fields[f.slot]);
      ZeroedChoice(f);
      ZeroedChoice(d.fields[f.slot]);
      if f.slot != i {
        assert Apart(d.fields[f.slot], f);
        BesideOwnsNothing();
      }
    }
    MembersEmpty(m.members);
  }

  lemma ZeroedChoice(f: Field)
    ensures f.htype.Oneof? ==> ZeroedMember(f) == Choice(0, Inline)
    ensures !f.htype.Oneof? ==> !ZeroedMember(f).Choice?
  {
  }

  lemma {:induction false} ZeroedMemberShape(f: Field)
    requires TableField(f)
    ensures MemberShaped(f, ZeroedMember(f)) && MemberIds(ZeroedMember(f)) == multiset{}
    decreases f, 1
  {
    if f.ltype.Submessage? {
      ZeroedShape(f.sub);
      EntriesEmpty(seq(f.arraySize, _ => Zeroed(f.sub)));
    }
  }

  // A zeroed struct has its defaults already.
  lemma {:induction false} ZeroedIsDefault(d: Desc)
    ensures SetToDefaults(d, Zeroed(d)) == Zeroed(d)
    decreases d, 0
  {
    forall i | 0 <= i < |d.fields| && d.fields[i].slot == i
      ensures DefaultsMember(d.fields[i], ZeroedMember(d.fields[i])) == ZeroedMember(d.fields[i])
    {
      if d.fields[i].ltype.Submessage? { ZeroedIsDefault(d.fields[i].sub); }
    }
  }

  // Setting to defaults may drop pointers, and brings none.
  lemma {:induction false} DefaultsShape(d: Desc, m: Record)
    requires Table(d) && Shaped(d, m)
    ensures Shaped(d, SetToDefaults(d, m)) && Ids(SetToDefaults(d, m)) <= Ids(m)
    decreases d, 0
  {
    hide MemberIds, MemberShaped, DefaultsMember, TableField;
    var r := SetToDefaults(d, m);
    forall i | 0 <= i < |d.fields|
      ensures d.fields[i].slot < |r.members| && MemberShaped(d.fields[i], r.members[d.fields[i].slot])
      ensures MemberIds(r.members[i]) <= MemberIds(m.members[i]) && (r.members[i].Choice? ==> r.members[i].which == 0)
    {
      var f := d.fields[i];
      FieldShaped(d, m, i);
      FieldShaped(d, m, f.slot);
      DefaultsMemberShape(f, m.members[f.slot]);
      DefaultsChoice(f, m.members[f.slot]);
      if f.slot != i {
        assert SlotInside(d, i) && Apart(d.fields[f.slot], f);
        DefaultsChoice(d.fields[f.slot], m.members[f.slot]);
      }
    }
    MembersBelow(r.members, m.members);
  }

  lemma {:induction false} MembersBelow(a: seq<Member>, b: seq<Member>)
    requires |a| == |b| && forall k :: 0 <= k < |a| ==> MemberIds(a[k]) <= MemberIds(b[k])
    ensures MembersIds(a) <= MembersIds(b)
    decreases a
  {
    hide MemberIds;
    if a != [] { MembersBelow(a[1..], b[1..]); }
  }

  lemma DefaultsChoice(f: Field, s: Member)
    requires MemberShaped(f, s)
    ensures f.htype.Oneof? ==> DefaultsMember(f, s) == Choice(0, Inline)
    ensures DefaultsMember(f, s).Choice? ==> DefaultsMember(f, s).which == 0
  {
  }

  lemma {:induction false} DefaultsMemberShape(f: Field, s: Member)
    requires TableField(f) && MemberShaped(f, s)
    ensures MemberShaped(f, DefaultsMember(f, s)) && MemberIds(DefaultsMember(f, s)) <= MemberIds(s)
    decreases f, 1
  {
    NothingBelow(MemberIds(s));
    match s
    case Sub(m) => DefaultsShape(f.sub, m);
    case _ =>
  }

  // The struct that new submessages begin with.
  lemma FreshShape(f: Field)
    requires TableField(f) && f.ltype.Submessage?
    ensures var m := SetToDefaults(f.sub, Zeroed(f.sub));
            Shaped(f.sub, m) && Ids(m) == multiset{} && forall over: nat :: Counted(m, over)
  {
    hide Counted, Shaped;
    ZeroedShape(f.sub);
    DefaultsShape(f.sub, Zeroed(f.sub));
    var m := SetToDefaults(f.sub, Zeroed(f.sub));
    BelowNothing(Ids(m));
    forall over: nat ensures Counted(m, over) { NothingIsCounted(m, over); }
  }

  lemma BelowNothing(a: multiset<nat>)
    requires a <= multiset{}
    ensures a == multiset{}
  {
    forall x ensures a[x] == 0 { assert a[x] <= multiset{}[x]; }
  }

  // ----- Allocation -----

  lemma AllocateKept(st: Store, p: Pointer, dataSize: nat, arraySize: nat, g: Grant)
    requires st.Valid() && IdOf(p) <= st.Live()
    ensures var (id, u) := AllocateField(st, p, dataSize, arraySize, g);
            && u.Valid() && (id.None? ==> u == st)
            && (id.Some? ==> Kept(true, st.Live(), IdOf(p), u.Live(), multiset{id.value}) && 0 < dataSize * arraySize <= SIZE_MAX)
  {
    hide Kept, Reallocated;
    if dataSize != 0 && arraySize != 0 && !((dataSize >= CHECK_LIMIT || arraySize >= CHECK_LIMIT) && SIZE_MAX / arraySize < dataSize) {
      NoOverflow(dataSize, arraySize);
      ReallocKept(st, p, g);
    }
  }

  lemma NoOverflow(a: nat, b: nat)
    requires a > 0 && b > 0
    requires (a < 0x1_0000_0000 && b < 0x1_0000_0000) || a <= 0xFFFF_FFFF_FFFF_FFFF / b
    ensures 0 < a * b < 0x1_0000_0000_0000_0000
  {
    if a < 0x1_0000_0000 && b < 0x1_0000_0000 {
      assert a * b <= 0xFFFF_FFFF * b;
    } else {
      var q := 0xFFFF_FFFF_FFFF_FFFF / b;
      assert a * b <= q * b;
    }
  }

  // A block keeps what lies in it when it grows or moves.
  lemma MovedBlock(exact: bool, l: multiset<nat>, live: multiset<nat>, p: Pointer, id: nat, room: nat)
    requires Kept(true, l, IdOf(p), live, multiset{id})
    ensures Kept(exact, l, PointerIds(p), live, PointerIds(Block(id, room, ItemsOf(p))))
  {
    var q := Block(id, room, ItemsOf(p));
    NoItems([]);
    assert PointerIds(p) == IdOf(p) + ItemIds(ItemsOf(p));
    forall v ensures (PointerIds(q) + IdOf(p))[v] == (PointerIds(p) + multiset{id})[v] {
    }
    KeptInside(true, l, IdOf(p), live, multiset{id}, PointerIds(p), PointerIds(q));
    KeptWeaker(exact, l, PointerIds(p), live, PointerIds(q));
  }

  lemma OwnId(p: Pointer)
    ensures IdOf(p) <= PointerIds(p)
  {
  }

  lemma KeptSame(exact: bool, l: multiset<nat>, a: multiset<nat>)
    ensures Kept(exact, l, a, l, a)
  {
  }

  // There is room for so many entries behind the pointer.
  predicate HasRoom(p: Pointer, n: nat) {
    p.Block? ==> n <= p.room
  }

  lemma DecodeTextKept(exact: bool, st: Store, p: Pointer, b: Body, g: Grant)
    requires st.Valid() && PointerIds(p) <= st.Live() && ItemsOf(p) == [] && HasRoom(p, 1)
    ensures var x := DecodeText(st, p, b, g);
            && x.st.Valid() && ItemsOf(x.r) == [] && HasRoom(x.r, 1) && Kept(exact, st.Live(), PointerIds(p), x.st.Live(), PointerIds(x.r))
  {
    hide Kept, PointerIds, AllocateField;
    KeptSame(exact, st.Live(), PointerIds(p));
    OwnId(p);
    AllocateKept(st, p, b.size, 1, g);
    var (id, u) := AllocateField(st, p, b.size, 1, g);
    if id.Some? { MovedBlock(exact, st.Live(), u.Live(), p, id.value, 1); }
  }

  // ----- Messages -----

  function Over(ok: bool): nat { if ok then 0 else 1 }

  // A struct of the table before and after.
  ghost predicate RecordKept(exact: bool, d: Desc, st: Store, m: Record, x: Did<Record>) {
    && x.st.Valid() && Shaped(d, x.r) && Kept(exact, st.Live(), Ids(m), x.st.Live(), Ids(x.r))
    && (exact ==> Counted(x.r, Over(x.ok)))
  }

  // An exact account is given of what succeeds, and of all that tables do that cannot leak.
  lemma {:induction false} DecSubmessageKept(exact: bool, st: Store, f: Field, m: Record, b: Body)
    requires st.Valid() && Table(f.sub) && Shaped(f.sub, m) && Ids(m) <= st.Live()
    requires exact ==> Counted(m, 0) && (f.htype.Repeated? ==> Ids(m) == multiset{})
    requires exact ==> DecSubmessage(st, f, m, b).ok || !Leaky(f.sub)
    ensures RecordKept(exact, f.sub, st, m, DecSubmessage(st, f, m, b))
    decreases b, 0
  {
    hide Kept, Shaped, Table, Ids, Counted, Decode, DecodeNoinit, Leaky;
    if !b.begun {
      KeptSame(exact, st.Live(), Ids(m));
      if exact { CountedMore(m, 0, 1); }
    } else {
      if f.htype.Repeated? { DecodeKept(exact, st, f.sub, m, b.inner); } else { DecodeNoinitKept(exact, st, f.sub, m, b.inner); }
      var x := if f.htype.Repeated? then Decode(st, f.sub, m, b.inner) else DecodeNoinit(st, f.sub, m, b.inner);
      if exact { CountedMore(x.r, Over(x.ok), 1); }
    }
  }

  lemma {:induction false} DecodeKept(exact: bool, st: Store, d: Desc, m: Record, input: Input)
    requires st.Valid() && Table(d) && Shaped(d, m) && Ids(m) <= st.Live()
    requires exact ==> Ids(m) == multiset{} && (Decode(st, d, m, input).ok || !Leaky(d))
    ensures var x := Decode(st, d, m, input);
            RecordKept(exact, d, st, m, x) && (exact && !x.ok ==> Ids(x.r) == multiset{})
    decreases input, 2
  {
    hide Kept, Shaped, Table, Ids, Counted, DecodeNoinit, Leaky, Release, SetToDefaults;
    DefaultsShape(d, m);
    var m0 := SetToDefaults(d, m);
    if exact { BelowNothing(Ids(m0)); NothingIsCounted(m0, 0); }
    KeptSame(exact, st.Live(), Ids(m));
    KeptDropped(exact, st.Live(), Ids(m), st.Live(), Ids(m), Ids(m0));
    KeptAlive(exact, st.Live(), Ids(m), st.Live(), Ids(m0));
    DecodeNoinitKept(exact, st, d, m0, input);
    var x := DecodeNoinit(st, d, m0, input);
    KeptTwice(exact, st.Live(), Ids(m), st.Live(), Ids(m0), x.st.Live(), Ids(x.r));
    if !x.ok {
      KeptAlive(exact, st.Live(), Ids(m), x.st.Live(), Ids(x.r));
      ReleaseKept(exact, x.st, d, x.r, 1);
      var y := Release(x.st, d, x.r);
      KeptTwice(exact, st.Live(), Ids(m), x.st.Live(), Ids(x.r), y.st.Live(), Ids(y.r));
      if exact { NothingIsCounted(y.r, 1); }
    }
  }

  lemma {:induction false} DecodeNoinitKept(exact: bool, st: Store, d: Desc, m: Record, input: Input)
    requires st.Valid() && Table(d) && Shaped(d, m) && Ids(m) <= st.Live()
    requires exact ==> Counted(m, 0) && (DecodeNoinit(st, d, m, input).ok || !Leaky(d))
    ensures RecordKept(exact, d, st, m, DecodeNoinit(st, d, m, input))
    decreases input, 1
  {
    hide Kept, Shaped, Table, Ids, Counted, DecodeRecords, Leaky;
    DecodeRecordsKept(exact, st, d, m, input.records);
    var x := DecodeRecords(st, d, m, input.records);
    if exact { CountedMore(x.r, Over(x.ok), 1); }
  }

  lemma {:induction false} DecodeRecordsKept(exact: bool, st: Store, d: Desc, m: Record, records: seq<Found>)
    requires st.Valid() && Table(d) && Shaped(d, m) && Ids(m) <= st.Live()
    requires exact ==> Counted(m, 0) && (DecodeRecords(st, d, m, records).ok || !Leaky(d))
    ensures RecordKept(exact, d, st, m, DecodeRecords(st, d, m, records))
    decreases records
  {
    hide Kept, Shaped, Table, Ids, Counted, DecodeRecord, Leaky;
    if records == [] {
      KeptSame(exact, st.Live(), Ids(m));
    } else {
      DecodeRecordKept(exact, st, d, m, records[0]);
      var x := DecodeRecord(st, d, m, records[0]);
      if x.ok {
        KeptAlive(exact, st.Live(), Ids(m), x.st.Live(), Ids(x.r));
        DecodeRecordsKept(exact, x.st, d, x.r, records[1..]);
        var y := DecodeRecords(x.st, d, x.r, records[1..]);
        KeptTwice(exact, st.Live(), Ids(m), x.st.Live(), Ids(x.r), y.st.Live(), Ids(y.r));
      }
    }
  }

  lemma {:induction false} DecodeRecordKept(exact: bool, st: Store, d: Desc, m: Record, record: Found)
    requires st.Valid() && Table(d) && Shaped(d, m) && Ids(m) <= st.Live()
    requires exact ==> Counted(m, 0) && (DecodeRecord(st, d, m, record).ok || !Leaky(d))
    ensures RecordKept(exact, d, st, m, DecodeRecord(st, d, m, record))
    decreases record
  {
    hide Kept, Shaped, Table, Ids, Counted, DecodeField, Leaky;
    if record.Hit? && record.i < |d.fields| {
      DecodeFieldKept(exact, st, d, m, record.i, record.body);
    } else {
      KeptSame(exact, st.Live(), Ids(m));
    }
  }

  // ----- Fields -----

  // A union that is about to be set: what another member owned has been released.
  predicate Ready(exact: bool, f: Field, s: Member) {
    if f.htype.Oneof? then
      s.Choice? && (if s.which == f.tag then Content(f, s.content) else exact ==> MemberIds(s.content) == multiset{})
    else MemberShaped(f, s)
  }

  // A field before and after.
  ghost predicate FieldKept(exact: bool, f: Field, st: Store, s: Member, x: Did<Member>) {
    && x.st.Valid() && MemberShaped(f, x.r) && Kept(exact, st.Live(), MemberIds(s), x.st.Live(), MemberIds(x.r))
    && (exact ==> MemberCounted(x.r, Over(x.ok)))
    && (if f.htype.Oneof? then x.r.Choice? && x.r.which == f.tag else !x.r.Choice?)
  }

  lemma {:induction false} DecodeFieldKept(exact: bool, st: Store, d: Desc, m: Record, i: nat, b: Body)
    requires i < |d.fields| && st.Valid() && Table(d) && Shaped(d, m) && Ids(m) <= st.Live()
    requires exact ==> Counted(m, 0) && (DecodeField(st, d, m, i, b).ok || !Leaky(d))
    ensures RecordKept(exact, d, st, m, DecodeField(st, d, m, i, b))
    decreases b, 4
  {
    hide Table, Shaped, Kept, MemberShaped, MemberIds, MembersIds, MemberCounted, Ready, TableField, ReleaseUnionField, DecodeStaticField,
      DecodePointerField, LeakyField;
    var f := d.fields[i];
    FieldShaped(d, m, i);
    NoCallback(f);
    MemberUpdate(m.members, f.slot, m.members[f.slot]);
    var s := m.members[f.slot];
    var u := if f.htype.Oneof? then ReleaseUnionField(st, d, f, s) else After(s, st);
    UnionKept(exact, st, d, m, i);
    KeptAlive(exact, st.Live(), MemberIds(s), u.st.Live(), MemberIds(u.r));
    if f.atype.Static? { DecodeStaticFieldKept(exact, u.st, f, u.r, b); } else { DecodePointerFieldKept(exact, u.st, f, u.r, b); }
    var x := if f.atype.Static? then DecodeStaticField(u.st, f, u.r, b) else DecodePointerField(u.st, f, u.r, b);
    KeptTwice(exact, st.Live(), MemberIds(s), u.st.Live(), MemberIds(u.r), x.st.Live(), MemberIds(x.r));
    MemberKept(exact, st.Live(), x.st.Live(), m.members, f.slot, x.r);
    ShapedUpdate(d, m, i, x.r);
    if exact {
      CountedMore(m, 0, Over(x.ok));
      CountedUpdate(m, f.slot, x.r, Over(x.ok));
    }
  }

  lemma NoCallback(f: Field)
    requires TableField(f)
    ensures !f.atype.Callback?
  {
  }

  // What decode_field does to a union before it is set, and nothing to the other fields.
  lemma {:induction false} UnionKept(exact: bool, st: Store, d: Desc, m: Record, i: nat)
    requires i < |d.fields| && st.Valid() && Table(d) && Shaped(d, m) && d.fields[i].slot < |m.members|
    requires MemberIds(m.members[d.fields[i].slot]) <= st.Live() && (exact ==> Counted(m, 0))
    ensures var f := d.fields[i];
            var s := m.members[f.slot];
            var u := if f.htype.Oneof? then ReleaseUnionField(st, d, f, s) else After(s, st);
            && u.st.Valid() && Ready(exact, f, u.r) && Kept(exact, st.Live(), MemberIds(s), u.st.Live(), MemberIds(u.r))
            && (exact ==> MemberCounted(u.r, 0))
  {
    hide Table, Shaped, Kept, MemberShaped, Content, ReleaseField, MemberIds, MemberCounted, TagIndex, TableField;
    var f := d.fields[i];
    var s := m.members[f.slot];
    FieldShaped(d, m, i);
    if exact { assert MemberCounted(m.members[f.slot], 0); }
    KeptSame(exact, st.Live(), MemberIds(s));
    if f.htype.Oneof? {
      UnionShape(d, m, i);
      if s.which == 0 {
        InlineOwnsNothing();
      } else if s.which != f.tag {
        var j := TagIndex(d, s.which, 0);
        TagIsUnique(d, m, f.slot, j);
        ReleaseFieldKept(exact, st, d.fields[j], s, 0);
        OtherReleased(d.fields[j], ReleaseField(st, d.fields[j], s).r);
      }
    }
  }

  lemma InlineOwnsNothing()
    ensures MemberIds(Inline) == multiset{}
  {
  }

  lemma OtherReleased(f: Field, s: Member)
    requires f.htype.Oneof? && MemberShaped(f, s)
    ensures s.Choice?
    ensures Released(f, s) && s.which == f.tag ==> MemberIds(s.content) == multiset{}
  {
  }

  lemma UnionShape(d: Desc, m: Record, i: nat)
    requires Table(d) && Shaped(d, m) && i < |d.fields| && d.fields[i].htype.Oneof? && d.fields[i].slot < |m.members|
    ensures var f, s := d.fields[i], m.members[d.fields[i].slot];
            && s.Choice? && (s.which == f.tag ==> Content(f, s.content)) && (s.which == 0 ==> s.content.Inline?)
    ensures var f, s := d.fields[i], m.members[d.fields[i].slot];
            s.which != 0 ==> (
              && TagIndex(d, s.which, 0) < |d.fields|
              && exists j :: 0 <= j < |d.fields| && d.fields[j].slot == f.slot && d.fields[j].tag == d.fields[TagIndex(d, s.which, 0)].tag)
  {
    assert MemberShaped(d.fields[i], m.members[d.fields[i].slot]);
    assert Chosen(d, d.fields[i].slot, m.members[d.fields[i].slot].which);
  }

  // The field found by the tag in a union is a member of it.
  lemma TagIsUnique(d: Desc, m: Record, k: nat, j: nat)
    requires Table(d) && Shaped(d, m) && j < |d.fields|
    requires exists i :: 0 <= i < |d.fields| && d.fields[i].slot == k && d.fields[i].tag == d.fields[j].tag
    requires k < |m.members| && m.members[k].Choice?
    ensures d.fields[j].slot == k && TableField(d.fields[j]) && MemberShaped(d.fields[j], m.members[k]) && d.fields[j].htype.Oneof?
  {
    var i :| 0 <= i < |d.fields| && d.fields[i].slot == k && d.fields[i].tag == d.fields[j].tag;
    forall a, b | 0 <= a < b < |d.fields| ensures d.fields[a].tag != d.fields[b].tag {
      assert Apart(d.fields[a], d.fields[b]);
    }
    assert MemberShaped(d.fields[j], m.members[d.fields[j].slot]);
  }

  // A field that holds a submessage, a pointer, an array or nothing of its own.
  function Holding(f: Field, c: Member): Member {
    if f.htype.Oneof? then Choice(f.tag, c) else c
  }

  lemma HoldingSub(f: Field, m: Record)
    requires TableField(f) && f.atype.Static? && f.ltype.Submessage? && !f.htype.Repeated? && Shaped(f.sub, m)
    ensures MemberShaped(f, Holding(f, Sub(m))) && MemberIds(Holding(f, Sub(m))) == Ids(m)
    ensures forall over: nat :: Counted(m, over) ==> MemberCounted(Holding(f, Sub(m)), over)
  {
    if !f.htype.Oneof? { SingleContent(f, Sub(m)); }
  }

  lemma HoldingPointer(f: Field, p: Pointer)
    requires TableField(f) && f.atype.Pointer? && !f.htype.Repeated? && Points(f, p, 1)
    ensures MemberShaped(f, Holding(f, Own(p))) && MemberIds(Holding(f, Own(p))) == PointerIds(p)
    ensures forall over: nat :: PointerCounted(p, over) ==> MemberCounted(Holding(f, Own(p)), over)
  {
    if !f.htype.Oneof? { SingleContent(f, Own(p)); }
  }

  lemma HoldingArray(f: Field, count: nat, p: Pointer)
    requires f.atype.Pointer? && f.htype.Repeated? && count <= SizeMax() && Points(f, p, count)
    ensures MemberShaped(f, OwnArray(count, p)) && MemberIds(OwnArray(count, p)) == PointerIds(p)
    ensures forall over: nat :: PointerCounted(p, over) ==> MemberCounted(OwnArray(count, p), over)
  {
  }

  lemma HoldingInline(f: Field)
    requires TableField(f) && f.atype.Static? && !f.ltype.Submessage?
    ensures MemberShaped(f, Holding(f, Inline)) && MemberIds(Holding(f, Inline)) == multiset{}
    ensures forall over: nat :: MemberCounted(Holding(f, Inline), over)
  {
    if !f.htype.Oneof? && !f.htype.Repeated? { SingleContent(f, Inline); }
  }

  lemma SingleContent(f: Field, s: Member)
    requires !f.htype.Oneof? && !f.htype.Repeated?
    ensures MemberShaped(f, s) <==> Content(f, s)
  {
    assert f.htype.Required? || f.htype.Optional?;
  }

  lemma {:induction false} DecodeStaticFieldKept(exact: bool, st: Store, f: Field, s: Member, b: Body)
    requires st.Valid() && TableField(f) && f.atype.Static? && Ready(exact, f, s) && MemberIds(s) <= st.Live()
    requires exact ==> MemberCounted(s, 0) && (DecodeStaticField(st, f, s, b).ok || !LeakyField(f))
    ensures FieldKept(exact, f, st, s, DecodeStaticField(st, f, s, b))
    decreases b, 3
  {
    hide Shaped, Table, Ids, EntryIds, Kept, DecSubmessage, DecodeEntry, Counted, Leaky, PointerIds, PointerCounted;
    KeptSame(exact, st.Live(), MemberIds(s));
    if !f.ltype.Submessage? {
      HoldingInline(f);
      if !f.htype.Oneof? && !f.htype.Repeated? { SingleContent(f, s); }
      if f.htype.Oneof? {
        InlineOwnsNothing();
        NothingBelow(MemberIds(s));
        KeptDropped(exact, st.Live(), MemberIds(s), st.Live(), MemberIds(s), multiset{});
      }
    } else if f.htype.Repeated? {
      DecodeEntryKept(exact, st, f, s, b);
    } else {
      StaticSubmessageKept(exact, st, f, s, b);
    }
  }

  lemma {:induction false} StaticSubmessageKept(exact: bool, st: Store, f: Field, s: Member, b: Body)
    requires st.Valid() && TableField(f) && f.atype.Static? && Ready(exact, f, s) && MemberIds(s) <= st.Live()
    requires f.ltype.Submessage? && !f.htype.Repeated?
    requires exact ==> MemberCounted(s, 0) && (DecodeStaticField(st, f, s, b).ok || !LeakyField(f))
    ensures FieldKept(exact, f, st, s, DecodeStaticField(st, f, s, b))
    decreases b, 2
  {
    hide Shaped, Table, Ids, Kept, DecSubmessage, Counted, Leaky, SetToDefaults, Zeroed;
    var m := Destination(f, s);
    DestinationKept(exact, st, f, s);
    DecSubmessageKept(exact, st, f, m, b);
    var x := DecSubmessage(st, f, m, b);
    KeptTwice(exact, st.Live(), MemberIds(s), st.Live(), Ids(m), x.st.Live(), Ids(x.r));
    HoldingSub(f, x.r);
  }

  lemma DestinationKept(exact: bool, st: Store, f: Field, s: Member)
    requires TableField(f) && f.atype.Static? && Ready(exact, f, s) && MemberIds(s) <= st.Live() && (exact ==> MemberCounted(s, 0))
    requires f.ltype.Submessage? && !f.htype.Repeated?
    ensures var m := Destination(f, s);
            && Shaped(f.sub, m) && Ids(m) <= st.Live() && Kept(exact, st.Live(), MemberIds(s), st.Live(), Ids(m))
            && (exact ==> Counted(m, 0))
  {
    hide Shaped, Table, Ids, Kept, Counted, SetToDefaults, Zeroed;
    FreshShape(f);
    var m := Destination(f, s);
    KeptSame(exact, st.Live(), MemberIds(s));
    if !f.htype.Oneof? { SingleContent(f, s); }
    if f.htype.Oneof? && s.which != f.tag {
      NothingBelow(MemberIds(s));
      KeptDropped(exact, st.Live(), MemberIds(s), st.Live(), MemberIds(s), multiset{});
    }
  }

  // An entry that is counted beyond the capacity is an error.  If the count wraps around, the entries
  // are out of reach, and only a table that can leak has blocks below them.
  lemma {:induction false} DecodeEntryKept(exact: bool, st: Store, f: Field, s: Member, b: Body)
    requires st.Valid() && TableField(f) && f.atype.Static? && MemberShaped(f, s) && MemberIds(s) <= st.Live()
    requires f.htype.Repeated? && f.ltype.Submessage?
    requires exact ==> MemberCounted(s, 0) && (DecodeEntry(st, f, s, b).ok || !LeakyField(f))
    ensures FieldKept(exact, f, st, s, DecodeEntry(st, f, s, b))
    decreases b, 2
  {
    hide Shaped, Table, Ids, Kept, EntryIds, DecSubmessage, Counted, Leaky, CanOwn, NextCount;
    var k := s.count;
    if k >= f.arraySize {
      KeptSame(exact, st.Live(), EntryIds(s.entries));
      if exact { OverflowCounted(f, s); }
    } else {
      CountFits(k, f.arraySize);
      EntryUpdate(s.entries, k, s.entries[k]);
      DecSubmessageKept(exact, st, f, s.entries[k], b);
      var x := DecSubmessage(st, f, s.entries[k], b);
      EntryKept(exact, st.Live(), x.st.Live(), s.entries, k, x.r);
      if exact { EntryCounted(s, k, x.r, Over(x.ok)); }
    }
  }

  lemma CountFits(k: nat, n: nat)
    requires k < n <= SizeMax()
    ensures NextCount(k) == k + 1
  {
  }

  lemma EntryCounted(s: Member, k: nat, m: Record, over: nat)
    requires s.SubArray? && k == s.count < |s.entries| && MemberCounted(s, 0) && Counted(m, over)
    ensures MemberCounted(SubArray(k + 1, s.entries[k := m]), over)
  {
    hide Counted, Ids, EntryIds;
    var entries := s.entries[k := m];
    forall j | 0 <= j < |entries| ensures Counted(entries[j], over) {
      if j != k { CountedMore(s.entries[j], 0, over); }
    }
  }

  lemma OverflowCounted(f: Field, s: Member)
    requires TableField(f) && f.atype.Static? && MemberShaped(f, s) && f.htype.Repeated? && f.ltype.Submessage? && !LeakyField(f)
    requires MemberCounted(s, 0) && s.count >= f.arraySize
    ensures MemberCounted(SubArray(NextCount(s.count), s.entries), 1)
  {
    hide Shaped, Table, Ids, Counted, Leaky, CanOwn;
    var next := SubArray(NextCount(s.count), s.entries);
    forall j | 0 <= j < |s.entries| ensures Counted(s.entries[j], 1) { CountedMore(s.entries[j], 0, 1); }
    if s.count == SizeMax() && EntryIds(s.entries) != multiset{} {
      assert f.arraySize == SizeMax() && !CanOwn(f.sub);
      forall j | 0 <= j < |s.entries| ensures Ids(s.entries[j]) == multiset{} { CannotOwn(f.sub, s.entries[j]); }
      EntriesEmpty(s.entries);
    }
    if EntryIds(s.entries) == multiset{} {
      EntriesOwnNothing(s.entries);
    } else {
      CountFits(s.count, SizeMax());
    }
  }

  // ----- Pointer fields -----

  lemma {:induction false} DecodePointerFieldKept(exact: bool, st: Store, f: Field, s: Member, b: Body)
    requires st.Valid() && TableField(f) && f.atype.Pointer? && Ready(exact, f, s) && MemberIds(s) <= st.Live()
    requires exact ==> MemberCounted(s, 0) && (DecodePointerField(st, f, s, b).ok || !LeakyField(f))
    ensures FieldKept(exact, f, st, s, DecodePointerField(st, f, s, b))
    decreases b, 3
  {
    hide Shaped, Table, PointerIds, Kept, DecodePackedArray, AppendItem, DecodePointer, Points, PointerCounted, LeakyField;
    if f.htype.Repeated? {
      if Packable(f.ltype) && b.packed {
        DecodePackedArrayKept(exact, st, f, s, b);
      } else {
        AppendItemKept(exact, st, f, s, b);
      }
    } else {
      var p := Current(f, s);
      CurrentKept(exact, st, f, s);
      DecodePointerKept(exact, st, f, p, b);
      var x := DecodePointer(st, f, p, b);
      KeptTwice(exact, st.Live(), MemberIds(s), st.Live(), PointerIds(p), x.st.Live(), PointerIds(x.r));
      HoldingPointer(f, x.r);
    }
  }

  lemma CurrentKept(exact: bool, st: Store, f: Field, s: Member)
    requires TableField(f) && f.atype.Pointer? && Ready(exact, f, s) && MemberIds(s) <= st.Live() && (exact ==> MemberCounted(s, 0))
    requires !f.htype.Repeated?
    ensures var p := Current(f, s);
            && Points(f, p, 1) && PointerIds(p) <= st.Live() && Kept(exact, st.Live(), MemberIds(s), st.Live(), PointerIds(p))
            && (exact ==> PointerCounted(p, 0))
  {
    hide Shaped, Table, Kept, PointerIds;
    NullOwnsNothing();
    NothingBelow(st.Live());
    KeptSame(exact, st.Live(), MemberIds(s));
    if !f.htype.Oneof? { SingleContent(f, s); }
    if f.htype.Oneof? && s.which != f.tag {
      NothingBelow(MemberIds(s));
      KeptDropped(exact, st.Live(), MemberIds(s), st.Live(), MemberIds(s), multiset{});
    }
  }

  // A pointer before and after.
  ghost predicate PointerKept(exact: bool, f: Field, st: Store, p: Pointer, x: Did<Pointer>) {
    && x.st.Valid() && Points(f, x.r, 1) && Kept(exact, st.Live(), PointerIds(p), x.st.Live(), PointerIds(x.r))
    && (exact ==> PointerCounted(x.r, Over(x.ok)))
  }

  lemma {:induction false} DecodePointerKept(exact: bool, st: Store, f: Field, p: Pointer, b: Body)
    requires st.Valid() && TableField(f) && f.atype.Pointer? && !f.htype.Repeated? && Points(f, p, 1) && PointerIds(p) <= st.Live()
    requires exact ==> PointerCounted(p, 0) && (DecodePointer(st, f, p, b).ok || !LeakyField(f))
    ensures PointerKept(exact, f, st, p, DecodePointer(st, f, p, b))
    decreases b, 2
  {
    hide Shaped, Table, PointerIds, Kept, Ids, DecodeText, DecodeNewSubmessage, AllocateField, ReleaseBlock, LeakyField, Points, PointerCounted;
    if IsText(f) {
      NoItemsOf(f, p);
      DecodeTextKept(exact, st, p, b, b.grant);
      BareBlock(f, DecodeText(st, p, b, b.grant).r);
    } else if f.ltype.Submessage? {
      ReleaseBlockKept(exact, st, f, p, 1, 0);
      var u := ReleaseBlock(st, f, p);
      DecodeNewSubmessageKept(exact, u, f, b);
      var x := DecodeNewSubmessage(u, f, b);
      KeptTwice(exact, st.Live(), PointerIds(p), u.Live(), multiset{}, x.st.Live(), PointerIds(x.r));
    } else {
      NoItemsOf(f, p);
      BareBlock(f, p);
      OwnId(p);
      KeptSame(exact, st.Live(), PointerIds(p));
      AllocateKept(st, p, f.dataSize, 1, b.grant);
      var (id, u) := AllocateField(st, p, f.dataSize, 1, b.grant);
      if id.Some? {
        MovedBlock(exact, st.Live(), u.Live(), p, id.value, 1);
        AllocationNeedsSize(st, p, f.dataSize, 1, b.grant);
        BareBlock(f, Block(id.value, 1, ItemsOf(p)));
      }
    }
  }

  lemma NoItemsOf(f: Field, p: Pointer)
    requires Points(f, p, 1) && !f.htype.Repeated? && !f.ltype.Submessage?
    ensures ItemsOf(p) == [] && HasRoom(p, 1) && (p.Block? ==> Allocatable(f))
  {
  }

  // A block without pointers in it.
  lemma BareBlock(f: Field, p: Pointer)
    requires !f.htype.Repeated? && !f.ltype.Submessage? && ItemsOf(p) == [] && HasRoom(p, 1) && (p.Block? ==> Allocatable(f))
    ensures Points(f, p, 1) && forall over: nat :: PointerCounted(p, over)
  {
  }

  lemma AllocationNeedsSize(st: Store, p: Pointer, dataSize: nat, arraySize: nat, g: Grant)
    ensures AllocateField(st, p, dataSize, arraySize, g).0.Some? ==> dataSize > 0
  {
  }

  lemma {:induction false} DecodeNewSubmessageKept(exact: bool, st: Store, f: Field, b: Body)
    requires st.Valid() && TableField(f) && f.atype.Pointer? && !f.htype.Repeated? && f.ltype.Submessage?
    requires exact ==> DecodeNewSubmessage(st, f, b).ok || !LeakyField(f)
    ensures var x := DecodeNewSubmessage(st, f, b);
            && x.st.Valid() && Points(f, x.r, 1) && Kept(exact, st.Live(), multiset{}, x.st.Live(), PointerIds(x.r))
            && (exact ==> PointerCounted(x.r, Over(x.ok)))
    decreases b, 1
  {
    hide Shaped, Table, PointerIds, Kept, Ids, Counted, DecSubmessage, AllocateField, Leaky, SetToDefaults, Zeroed;
    NullOwnsNothing();
    KeptSame(exact, st.Live(), multiset{});
    NothingBelow(st.Live());
    AllocateKept(st, Null, f.dataSize, 1, b.grant);
    var (id, u) := AllocateField(st, Null, f.dataSize, 1, b.grant);
    if id.Some? {
      FreshShape(f);
      var m := SetToDefaults(f.sub, Zeroed(f.sub));
      NothingBelow(u.Live());
      DecSubmessageKept(exact, u, f, m, b);
      var x := DecSubmessage(u, f, m, b);
      var q := Block(id.value, 1, [Nested(x.r)]);
      BlockOfOne(id.value, x.r);
      KeptWeaker(exact, st.Live(), multiset{}, u.Live(), multiset{id.value});
      KeptInside(exact, u.Live(), multiset{}, x.st.Live(), Ids(x.r), multiset{id.value}, PointerIds(q));
      KeptTwice(exact, st.Live(), multiset{}, u.Live(), multiset{id.value}, x.st.Live(), PointerIds(q));
    }
  }

  lemma BlockOfOne(id: nat, m: Record)
    ensures PointerIds(Block(id, 1, [Nested(m)])) + multiset{} == multiset{id} + Ids(m)
  {
    assert [Nested(m)][1..] == [];
    assert ItemIds([Nested(m)]) == Ids(m) + ItemIds([]);
    NoItems([]);
  }

  // A packed array owns its one block, and has room for what it counts.
  ghost predicate RunKept(exact: bool, st: Store, p: Pointer, x: Did<(Pointer, nat)>) {
    && x.st.Valid() && ItemsOf(x.r.0) == [] && x.r.1 <= SizeMax() && (x.r.0.Null? ==> x.r.1 == 0) && HasRoom(x.r.0, x.r.1)
    && Kept(exact, st.Live(), PointerIds(p), x.st.Live(), PointerIds(x.r.0))
  }

  lemma {:induction false} PackedTurnsKept(exact: bool, st: Store, f: Field, p: Pointer, size: nat, capacity: nat, bytesLeft: nat, turns: seq<Turn>)
    requires st.Valid() && PointerIds(p) <= st.Live() && ItemsOf(p) == [] && size <= capacity <= SizeMax()
    requires HasRoom(p, capacity) && (p.Null? ==> capacity == 0)
    ensures RunKept(exact, st, p, PackedTurns(st, f, p, size, capacity, bytesLeft, turns))
    decreases |turns|
  {
    hide PointerIds, Kept, AllocateField, Enlarged, TakeTurn;
    KeptSame(exact, st.Live(), PointerIds(p));
    if bytesLeft > 0 && turns != [] && size < SizeMax() {
      if size + 1 <= capacity {
        TakeTurnKept(exact, st, f, p, size, capacity, bytesLeft, turns);
      } else if f.dataSize != 0 {
        var room := Enlarged(capacity, bytesLeft, f.dataSize);
        OwnId(p);
        AllocateKept(st, p, f.dataSize, room, turns[0].grant);
        var (id, u) := AllocateField(st, p, f.dataSize, room, turns[0].grant);
        if id.Some? {
          var q := Block(id.value, room, ItemsOf(p));
          MovedBlock(exact, st.Live(), u.Live(), p, id.value, room);
          KeptAlive(exact, st.Live(), PointerIds(p), u.Live(), PointerIds(q));
          TakeTurnKept(exact, u, f, q, size, room, bytesLeft, turns);
          var x := TakeTurn(u, f, q, size, room, bytesLeft, turns);
          KeptTwice(exact, st.Live(), PointerIds(p), u.Live(), PointerIds(q), x.st.Live(), PointerIds(x.r.0));
        }
      }
    }
  }

  lemma {:induction false} TakeTurnKept(exact: bool, st: Store, f: Field, p: Pointer, size: nat, capacity: nat, bytesLeft: nat, turns: seq<Turn>)
    requires st.Valid() && PointerIds(p) <= st.Live() && ItemsOf(p) == [] && size < capacity <= SizeMax() && turns != []
    requires p.Block? && HasRoom(p, capacity)
    ensures RunKept(exact, st, p, TakeTurn(st, f, p, size, capacity, bytesLeft, turns))
    decreases |turns|, 0
  {
    hide PointerIds, Kept, PackedTurns;
    var used := turns[0].used;
    if 0 < used <= bytesLeft {
      PackedTurnsKept(exact, st, f, p, size + 1, capacity, bytesLeft - used, turns[1..]);
    } else {
      KeptSame(exact, st.Live(), PointerIds(p));
    }
  }

  lemma RunShaped(f: Field, count: nat, p: Pointer)
    requires TableField(f) && f.atype.Pointer? && f.htype.Repeated? && Packable(f.ltype) && count <= SizeMax()
    requires ItemsOf(p) == [] && (p.Null? ==> count == 0) && HasRoom(p, count)
    ensures MemberShaped(f, OwnArray(count, p)) && MemberIds(OwnArray(count, p)) == PointerIds(p)
    ensures forall over: nat :: MemberCounted(OwnArray(count, p), over)
  {
    HoldingArray(f, count, p);
  }

  lemma DecodePackedArrayKept(exact: bool, st: Store, f: Field, s: Member, b: Body)
    requires st.Valid() && TableField(f) && f.atype.Pointer? && f.htype.Repeated? && Packable(f.ltype)
    requires MemberShaped(f, s) && MemberIds(s) <= st.Live()
    ensures FieldKept(exact, f, st, s, DecodePackedArray(st, f, s, b))
  {
    hide PointerIds, Kept, ItemIds, Shaped, Table, Ids, EntryIds, PackedTurns;
    KeptSame(exact, st.Live(), PointerIds(s.p));
    RunShaped(f, s.count, s.p);
    if b.begun {
      PackedTurnsKept(exact, st, f, s.p, s.count, s.count, b.size, b.turns);
      var x := PackedTurns(st, f, s.p, s.count, s.count, b.size, b.turns);
      RunShaped(f, x.r.1, x.r.0);
    }
  }

  lemma {:induction false} AppendItemKept(exact: bool, st: Store, f: Field, s: Member, b: Body)
    requires st.Valid() && TableField(f) && f.atype.Pointer? && f.htype.Repeated?
    requires MemberShaped(f, s) && MemberIds(s) <= st.Live()
    requires exact ==> MemberCounted(s, 0) && (AppendItem(st, f, s, b).ok || !LeakyField(f))
    ensures FieldKept(exact, f, st, s, AppendItem(st, f, s, b))
    decreases b, 2
  {
    hide Shaped, Table, PointerIds, Kept, Ids, ItemIds, AllocateField, DecodeItem, LeakyField, ItemCounted;
    KeptSame(exact, st.Live(), PointerIds(s.p));
    HoldingArray(f, s.count, s.p);
    if exact { MemberCountedMore(s, 0, 1); }
    OwnId(s.p);
    AllocateKept(st, s.p, f.dataSize, s.count + 1, b.grant);
    var (id, u) := AllocateField(st, s.p, f.dataSize, s.count + 1, b.grant);
    if s.count < SizeMax() && id.Some? {
      var items := ItemsOf(s.p);
      var p := Block(id.value, s.count + 1, items);
      MovedBlock(exact, st.Live(), u.Live(), s.p, id.value, s.count + 1);
      KeptAlive(exact, st.Live(), PointerIds(s.p), u.Live(), PointerIds(p));
      if f.ltype.Submessage? || IsText(f) {
        DecodeItemKept(exact, u, f, b);
        var x := DecodeItem(u, f, b);
        AppendedItem(exact, u.Live(), x.st.Live(), id.value, s.count + 1, items, x.r);
        KeptTwice(exact, st.Live(), PointerIds(s.p), u.Live(), PointerIds(p), x.st.Live(), PointerIds(Block(id.value, s.count + 1, items + [x.r])));
        LongerShaped(exact, f, s, id.value, x.r, Over(x.ok));
      } else {
        NumbersShaped(f, s, id.value);
      }
    }
  }

  lemma NumbersShaped(f: Field, s: Member, id: nat)
    requires TableField(f) && f.atype.Pointer? && f.htype.Repeated? && !f.ltype.Submessage? && !IsText(f) && f.dataSize > 0
    requires MemberShaped(f, s) && s.count < SizeMax()
    ensures var r := OwnArray(s.count + 1, Block(id, s.count + 1, ItemsOf(s.p)));
            MemberShaped(f, r) && MemberIds(r) == PointerIds(r.p) && forall over: nat :: MemberCounted(r, over)
  {
    HoldingArray(f, s.count + 1, Block(id, s.count + 1, ItemsOf(s.p)));
  }

  lemma LongerShaped(exact: bool, f: Field, s: Member, id: nat, item: Item, over: nat)
    requires TableField(f) && f.atype.Pointer? && f.htype.Repeated? && (f.ltype.Submessage? || IsText(f)) && f.dataSize > 0
    requires MemberShaped(f, s) && s.count < SizeMax() && ItemShaped(f, item)
    requires exact ==> MemberCounted(s, 0) && ItemCounted(item, over)
    ensures var r := OwnArray(s.count + 1, Block(id, s.count + 1, ItemsOf(s.p) + [item]));
            MemberShaped(f, r) && MemberIds(r) == PointerIds(r.p) && (exact ==> MemberCounted(r, over))
  {
    hide Shaped, Table, ItemCounted;
    var items := ItemsOf(s.p) + [item];
    var p := Block(id, s.count + 1, items);
    assert forall k :: 0 <= k < |items| - 1 ==> items[k] == s.p.items[k];
    HoldingArray(f, s.count + 1, p);
    if exact {
      PointerCountedMore(s.p, 0, over);
      assert PointerCounted(p, over);
    }
  }

  lemma AppendedItem(exact: bool, l: multiset<nat>, live: multiset<nat>, id: nat, room: nat, items: seq<Item>, item: Item)
    requires Kept(exact, l, multiset{}, live, ItemIdsOf(item))
    ensures Kept(exact, l, PointerIds(Block(id, room, items)), live, PointerIds(Block(id, room, items + [item])))
  {
    ItemAppend(items, item);
    var v, w := PointerIds(Block(id, room, items)), PointerIds(Block(id, room, items + [item]));
    assert w + multiset{} == v + ItemIdsOf(item);
    KeptInside(exact, l, multiset{}, live, ItemIdsOf(item), v, w);
  }

  lemma {:induction false} DecodeItemKept(exact: bool, st: Store, f: Field, b: Body)
    requires st.Valid() && TableField(f) && f.atype.Pointer? && f.htype.Repeated? && (f.ltype.Submessage? || IsText(f)) && f.dataSize > 0
    requires exact ==> DecodeItem(st, f, b).ok || !LeakyField(f)
    ensures var x := DecodeItem(st, f, b);
            && x.st.Valid() && ItemShaped(f, x.r) && Kept(exact, st.Live(), multiset{}, x.st.Live(), ItemIdsOf(x.r))
            && (exact ==> ItemCounted(x.r, Over(x.ok)))
    decreases b, 1
  {
    hide Shaped, Table, PointerIds, Kept, Ids, Counted, DecSubmessage, DecodeText, Leaky, SetToDefaults, Zeroed;
    NullOwnsNothing();
    NothingBelow(st.Live());
    if f.ltype.Submessage? {
      FreshShape(f);
      DecSubmessageKept(exact, st, f, SetToDefaults(f.sub, Zeroed(f.sub)), b);
    } else {
      DecodeTextKept(exact, st, Null, b, b.textGrant);
    }
  }

  // ----- The whole life of a struct -----

  // What is owned after decoding is new, each block owned by one pointer, and nothing else has gone.
  lemma OwnedOnce(before: set<nat>, after: set<nat>, ids: multiset<nat>)
    requires Kept(true, multiset(before), multiset{}, multiset(after), ids)
    ensures before <= after && forall x :: ids[x] == if x in after && x !in before then 1 else 0
    ensures ids == multiset{} ==> after == before
  {
    forall x ensures multiset(after)[x] == multiset(before)[x] + ids[x] {
      assert (multiset(after) + multiset{})[x] == (multiset(before) + ids)[x];
    }
    assert forall x :: x in after <==> multiset(after)[x] == 1;
    assert forall x :: x in before <==> multiset(before)[x] == 1;
  }

  // pb_decode into a zeroed struct.
  lemma DecodeOwnsNew(st: Store, d: Desc, input: Input)
    requires st.Valid() && Table(d)
    ensures var x := Decode(st, d, Zeroed(d), input);
            && x.st.Valid() && Shaped(d, x.r) && Ids(x.r) <= x.st.Live()
            && (x.ok || !Leaky(d) ==>
                  && st.live <= x.st.live
                  && (forall id :: Ids(x.r)[id] == if id in x.st.live && id !in st.live then 1 else 0)
                  && Counted(x.r, 1)
                  && (!x.ok ==> x.st.live == st.live && AllNull(x.r)))
  {
    hide Shaped, Table, Kept, Ids, Counted, Leaky, Decode;
    var x := Decode(st, d, Zeroed(d), input);
    var exact := x.ok || !Leaky(d);
    ZeroedShape(d);
    NothingBelow(st.Live());
    DecodeKept(exact, st, d, Zeroed(d), input);
    KeptAlive(exact, st.Live(), multiset{}, x.st.Live(), Ids(x.r));
    if exact {
      OwnedOnce(st.live, x.st.live, Ids(x.r));
      OwnsNothing(x.r);
      CountedMore(x.r, Over(x.ok), 1);
    }
  }

  // Afterwards pb_release gives the heap back as it was, with all pointers null.
  lemma NothingIsLost(st: Store, d: Desc, input: Input)
    requires st.Valid() && Table(d)
    ensures var x := DecodeAndRelease(st, d, input);
            x.ok || !Leaky(d) ==> x.st.live == st.live && AllNull(x.r)
  {
    hide Shaped, Table, Kept, Ids, Counted, Leaky, Decode, Release;
    var x := Decode(st, d, Zeroed(d), input);
    DecodeOwnsNew(st, d, input);
    if x.ok {
      ZeroedShape(d);
      NothingBelow(st.Live());
      DecodeKept(true, st, d, Zeroed(d), input);
      ReleaseKept(true, x.st, d, x.r, 1);
      var y := Release(x.st, d, x.r);
      KeptTwice(true, st.Live(), multiset{}, x.st.Live(), Ids(x.r), y.st.Live(), multiset{});
      OwnedOnce(st.live, y.st.live, multiset{});
      OwnsNothing(y.r);
    }
  }
}
