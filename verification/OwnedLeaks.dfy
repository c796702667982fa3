// Which tables can leak: exactly those with a static array of submessages that own blocks and that
// has as many entries as its count can hold.  One record too many wraps the count around to zero, and
// pb_release no longer sees the entries.
module OwnedLeaks {
  import opened Options
  import opened Wire
  import opened Descriptor
  import opened Ownership
  import opened OwnedRelease
  import opened OwnedRuns
  import opened OwnedSafety

  // ----- What pb_release does not see -----

  // The block `x` is not among those that the struct leads to, as far as its counts go.
  predicate Beyond(m: Record, x: nat)
    decreases m
  {
    forall k :: 0 <= k < |m.members| ==> MemberBeyond(m.members[k], x)
  }

  predicate MemberBeyond(s: Member, x: nat)
    decreases s
  {
    match s
    case Sub(m) => Beyond(m, x)
    case SubArray(count, entries) => forall k :: 0 <= k < |entries| && k < count ==> Beyond(entries[k], x)
    case Own(p) => PointerBeyond(p, x)
    case OwnArray(_, p) => PointerBeyond(p, x)
    case Choice(_, content) => MemberBeyond(content, x)
    case _ => true
  }

  predicate PointerBeyond(p: Pointer, x: nat)
    decreases p
  {
    p.Block? ==> p.id != x && forall k :: 0 <= k < |p.items| ==> ItemBeyond(p.items[k], x)
  }

  predicate ItemBeyond(item: Item, x: nat)
    decreases item
  {
    match item
    case Nested(m) => Beyond(m, x)
    case Entry(p) => PointerBeyond(p, x)
  }

  // Such a block outlives the release, and stays out of sight.
  lemma {:induction false} ReleaseSpares(st: Store, d: Desc, m: Record, x: nat)
    requires x in st.live && Beyond(m, x)
    ensures var y := Release(st, d, m);
            x in y.st.live && Beyond(y.r, x)
    decreases d, 0
  {
    ReleaseFieldsSpares(st, d, m, 0, x);
  }

  lemma {:induction false} ReleaseFieldsSpares(st: Store, d: Desc, m: Record, i: nat, x: nat)
    requires i <= |d.fields| && x in st.live && Beyond(m, x)
    ensures var y := ReleaseFields(st, d, m, i);
            x in y.st.live && Beyond(y.r, x)
    decreases d, 0, |d.fields| - i
  {
    hide ReleaseField, MemberBeyond;
    if i < |d.fields| {
      var f := d.fields[i];
      if f.slot >= |m.members| {
        ReleaseFieldsSpares(st, d, m, i + 1, x);
      } else {
        ReleaseFieldSpares(st, f, m.members[f.slot], x);
        var y := ReleaseField(st, f, m.members[f.slot]);
        ReleaseFieldsSpares(y.st, d, Record(m.members[f.slot := y.r]), i + 1, x);
      }
    }
  }

  lemma {:induction false} ReleaseFieldSpares(st: Store, f: Field, s: Member, x: nat)
    requires x in st.live && MemberBeyond(s, x)
    ensures var y := ReleaseField(st, f, s);
            x in y.st.live && MemberBeyond(y.r, x)
    decreases f, 4
  {
    hide ReleaseContent, ReleaseBlock, ReleaseEntries, Beyond;
    match s
    case Choice(which, content) => if which == f.tag { ReleaseContentSpares(st, f, content, x); }
    case OwnArray(_, p) => ReleaseBlockSpares(st, f, p, x);
    case SubArray(count, entries) => ReleaseEntriesSpares(st, f, entries, 0, Reachable(count, entries), x);
    case _ => ReleaseContentSpares(st, f, s, x);
  }

  lemma {:induction false} ReleaseContentSpares(st: Store, f: Field, c: Member, x: nat)
    requires x in st.live && MemberBeyond(c, x)
    ensures var y := ReleaseContent(st, f, c);
            x in y.st.live && MemberBeyond(y.r, x)
    decreases f, 3
  {
    hide Release, ReleaseBlock;
    match c
    case Own(p) => ReleaseBlockSpares(st, f, p, x);
    case Sub(m) => ReleaseSpares(st, f.sub, m, x);
    case _ =>
  }

  lemma {:induction false} ReleaseBlockSpares(st: Store, f: Field, p: Pointer, x: nat)
    requires x in st.live && PointerBeyond(p, x)
    ensures x in ReleaseBlock(st, f, p).live
    decreases f, 2
  {
    hide ReleaseItems, ItemBeyond;
    if p.Block? { ReleaseItemsSpare(st, f, p.items, x); }
  }

  lemma {:induction false} ReleaseItemsSpare(st: Store, f: Field, items: seq<Item>, x: nat)
    requires x in st.live && forall k :: 0 <= k < |items| ==> ItemBeyond(items[k], x)
    ensures x in ReleaseItems(st, f, items).live
    decreases f, 1, |items|
  {
    hide ReleaseItem, ItemBeyond;
    if items != [] {
      ReleaseItemSpares(st, f, items[0], x);
      assert forall k :: 0 <= k < |items[1..]| ==> items[1..][k] == items[k + 1];
      ReleaseItemsSpare(ReleaseItem(st, f, items[0]), f, items[1..], x);
    }
  }

  lemma {:induction false} ReleaseItemSpares(st: Store, f: Field, item: Item, x: nat)
    requires x in st.live && ItemBeyond(item, x)
    ensures x in ReleaseItem(st, f, item).live
    decreases f, 0
  {
    match item
    case Nested(m) => ReleaseSpares(st, f.sub, m, x);
    case Entry(p) => assert PointerBeyond(p, x);
  }

  lemma {:induction false} ReleaseEntriesSpares(st: Store, f: Field, entries: seq<Record>, k: nat, n: nat, x: nat)
    requires k <= n <= |entries| && x in st.live && forall j :: 0 <= j < n ==> Beyond(entries[j], x)
    ensures var y := ReleaseEntries(st, f, entries, k, n);
            x in y.st.live && forall j :: 0 <= j < n ==> Beyond(y.r[j], x)
    decreases f, 0, n - k
  {
    hide Release, Beyond;
    if k < n {
      ReleaseSpares(st, f.sub, entries[k], x);
      var y := Release(st, f.sub, entries[k]);
      ReleaseEntriesSpares(y.st, f, entries[k := y.r], k + 1, n, x);
    }
  }

  // ----- Zeroed structs -----

  lemma {:induction false} ZeroedBeyond(d: Desc, x: nat)
    ensures Beyond(Zeroed(d), x)
    decreases d, 0
  {
    forall i | 0 <= i < |d.fields| ensures MemberBeyond(Zeroed(d).members[i], x) {
      if d.fields[i].ltype.Submessage? { ZeroedBeyond(d.fields[i].sub, x); }
    }
  }

  // ----- Runs -----

  const NOTHING := Input([], true)

  // A value that can be read, for which the allocator has room somewhere else.
  function Plain(inner: Input): Body {
    Body(false, true, 1, Moved, Moved, inner, [], true, true)
  }

  lemma {:induction false} RecordsConcatenate(st: Store, d: Desc, m: Record, a: seq<Found>, b: seq<Found>)
    ensures var x := DecodeRecords(st, d, m, a);
            DecodeRecords(st, d, m, a + b) == if x.ok then DecodeRecords(x.st, d, x.r, b) else x
    decreases |a|
  {
    hide DecodeRecord;
    if a == [] {
      assert a + b == b;
    } else {
      assert (a + b)[1..] == a[1..] + b;
      var x := DecodeRecord(st, d, m, a[0]);
      if x.ok { RecordsConcatenate(x.st, d, x.r, a[1..], b); }
    }
  }

  lemma OneRecord(st: Store, d: Desc, m: Record, i: nat, b: Body)
    requires i < |d.fields|
    ensures DecodeRecords(st, d, m, [Hit(i, b)]) == DecodeField(st, d, m, i, b)
  {
    hide DecodeField;
    var records := [Hit(i, b)];
    assert records[1..] == [];
  }

  // The i-th field of a zeroed struct.
  lemma ZeroedField(st: Store, d: Desc, i: nat, b: Body)
    requires Table(d) && i < |d.fields|
    ensures var f := d.fields[i];
            var s := ZeroedMember(f);
            var x := if f.atype.Static? then DecodeStaticField(st, f, s, b) else DecodePointerField(st, f, s, b);
            && f.slot < |d.fields| && TableField(f)
            && DecodeField(st, d, Zeroed(d), i, b) == Did(x.ok, Record(Zeroed(d).members[f.slot := x.r]), x.st)
  {
    hide DecodeStaticField, DecodePointerField;
    var f := d.fields[i];
    assert SlotInside(d, i) && TableField(f);
    if f.slot != i { assert Apart(d.fields[f.slot], f); }
    assert Zeroed(d).members[f.slot] == ZeroedMember(f);
  }

  // The field that a zeroed struct has for a submessage, and what becomes of it.
  lemma ZeroedSubmessage(st: Store, f: Field, b: Body)
    requires TableField(f) && f.atype.Static? && f.ltype.Submessage? && !f.htype.Repeated? && b.begun && b.closed
    ensures var x := DecodeNoinit(st, f.sub, Zeroed(f.sub), b.inner);
            DecodeStaticField(st, f, ZeroedMember(f), b) == Did(x.ok, Holding(f, Sub(x.r)), x.st)
  {
    hide DecodeNoinit, Zeroed, SetToDefaults;
    ZeroedIsDefault(f.sub);
  }

  lemma ZeroedArray(st: Store, f: Field, count: nat, entries: seq<Record>, b: Body)
    requires f.ltype.Submessage? && f.htype.Repeated? && count < f.arraySize == |entries| && f.arraySize <= SizeMax()
    requires entries[count] == Zeroed(f.sub) && b.begun && b.closed
    ensures var x := Decode(st, f.sub, Zeroed(f.sub), b.inner);
            DecodeEntry(st, f, SubArray(count, entries), b) == Did(x.ok, SubArray(count + 1, entries[count := x.r]), x.st)
  {
    hide Decode, Zeroed;
    CountFits(count, f.arraySize);
  }

  // pb_decode from a zeroed struct.
  lemma DecodeZeroed(st: Store, d: Desc, input: Input)
    ensures var x := DecodeNoinit(st, d, Zeroed(d), input);
            var y := Release(x.st, d, x.r);
            Decode(st, d, Zeroed(d), input) == if x.ok then x else Did(false, y.r, y.st)
  {
    hide DecodeNoinit, Release, Zeroed, SetToDefaults;
    ZeroedIsDefault(d);
  }

  // What lived still lives after decoding has succeeded in a zeroed struct.
  lemma LivesOn(st: Store, d: Desc, input: Input)
    requires st.Valid() && Table(d)
    ensures var x := DecodeNoinit(st, d, Zeroed(d), input);
            x.st.Valid() && (x.ok ==> st.live <= x.st.live)
  {
    hide Shaped, Table, Kept, Ids, Counted, Leaky, DecodeNoinit;
    var x := DecodeNoinit(st, d, Zeroed(d), input);
    ZeroedShape(d);
    NothingBelow(st.Live());
    NothingIsCounted(Zeroed(d), 0);
    DecodeNoinitKept(x.ok, st, d, Zeroed(d), input);
    if x.ok { OwnedOnce(st.live, x.st.live, Ids(x.r)); }
  }

  // A struct that can own a block does so after some run.
  lemma {:induction false} OwningRun(st: Store, d: Desc) returns (input: Input, x: nat)
    requires st.Valid() && Table(d) && CanOwn(d)
    ensures var y := DecodeNoinit(st, d, Zeroed(d), input);
            y.ok && y.st.Valid() && st.live <= y.st.live && x in y.st.live && x !in st.live
    decreases d
  {
    hide DecodeField, DecodeStaticField, DecodePointerField, Zeroed;
    var i :| 0 <= i < |d.fields| && FieldCanOwn(d.fields[i]);
    var f := d.fields[i];
    assert TableField(f);
    var inner := NOTHING;
    x := st.next;
    if f.atype.Static? { inner, x := OwningRun(st, f.sub); }
    input := Input([Hit(i, Plain(inner))], true);
    OneRecord(st, d, Zeroed(d), i, Plain(inner));
    ZeroedField(st, d, i, Plain(inner));
    if f.atype.Static? { StaticOwns(st, f, inner); } else { PointerOwns(st, f); }
    LivesOn(st, d, input);
  }

  lemma StaticOwns(st: Store, f: Field, inner: Input)
    requires TableField(f) && f.atype.Static? && FieldCanOwn(f)
    ensures var x := DecodeNoinit(st, f.sub, Zeroed(f.sub), inner);
            x.ok ==> DecodeStaticField(st, f, ZeroedMember(f), Plain(inner)).ok
                     && DecodeStaticField(st, f, ZeroedMember(f), Plain(inner)).st == x.st
  {
    hide DecodeNoinit, DecSubmessage, Decode, Zeroed, Release;
    if f.htype.Repeated? {
      DecodeZeroed(st, f.sub, inner);
      ZeroedArray(st, f, 0, seq(f.arraySize, _ => Zeroed(f.sub)), Plain(inner));
    } else {
      ZeroedSubmessage(st, f, Plain(inner));
    }
  }

  // A pointer field of a zeroed struct gets a new block.
  lemma PointerOwns(st: Store, f: Field)
    requires st.Valid() && TableField(f) && f.atype.Pointer? && FieldCanOwn(f)
    ensures var x := DecodePointerField(st, f, ZeroedMember(f), Plain(NOTHING));
            x.ok && st.next in x.st.live
  {
    hide Zeroed, SetToDefaults, Reallocated;
    Granted(st);
    Granted(Reallocated(st, Null, Moved).1);
  }

  lemma Granted(st: Store)
    ensures Reallocated(st, Null, Moved) == (Some(st.next), Store(st.live + {st.next}, st.next + 1))
  {
  }

  // ----- Full arrays -----

  // A zeroed struct whose i-th field has been given `entries`, of which `count` are in use.
  function WithEntries(d: Desc, i: nat, count: nat, entries: seq<Record>): Record
    requires i < |d.fields|
  {
    var f := d.fields[i];
    if f.slot < |d.fields| then Record(Zeroed(d).members[f.slot := SubArray(count, entries)]) else Zeroed(d)
  }

  lemma EntryOf(st: Store, d: Desc, i: nat, count: nat, entries: seq<Record>, b: Body)
    requires Table(d) && i < |d.fields| && d.fields[i].ltype.Submessage? && d.fields[i].htype.Repeated? && d.fields[i].atype.Static?
    ensures d.fields[i].slot < |d.fields| == |WithEntries(d, i, count, entries).members| && TableField(d.fields[i])
    ensures var x := DecodeEntry(st, d.fields[i], SubArray(count, entries), b);
            DecodeField(st, d, WithEntries(d, i, count, entries), i, b)
            == Did(x.ok, Record(WithEntries(d, i, count, entries).members[d.fields[i].slot := x.r]), x.st)
  {
    hide DecodeEntry;
    assert SlotInside(d, i) && TableField(d.fields[i]);
  }

  // The first n entries of a static array receive structs that own blocks.
  lemma {:induction false} FillingRun(st: Store, d: Desc, i: nat, n: nat) returns (records: seq<Found>, entries: seq<Record>, x: nat)
    requires st.Valid() && Table(d) && i < |d.fields| && n <= d.fields[i].arraySize
    requires d.fields[i].ltype.Submessage? && d.fields[i].htype.Repeated? && d.fields[i].atype.Static? && CanOwn(d.fields[i].sub)
    ensures var y := DecodeRecords(st, d, Zeroed(d), records);
            && y.ok && y.r == WithEntries(d, i, n, entries) && y.st.Valid() && st.live <= y.st.live
            && |entries| == d.fields[i].arraySize && (forall j :: n <= j < |entries| ==> entries[j] == Zeroed(d.fields[i].sub))
            && (n > 0 ==> x in y.st.live && x !in st.live)
    decreases n
  {
    hide DecodeField, DecodeEntry, Zeroed, DecodeNoinit, Release, Table;
    var f := d.fields[i];
    if n == 0 {
      records, entries, x := [], seq(f.arraySize, _ => Zeroed(f.sub)), 0;
      NothingFilled(d, i);
    } else {
      records, entries, x := FillingRun(st, d, i, n - 1);
      var y := DecodeRecords(st, d, Zeroed(d), records);
      SubTable(d, i);
      var inner, x' := OwningRun(y.st, f.sub);
      var b := Plain(inner);
      DecodeZeroed(y.st, f.sub, inner);
      EntryOf(y.st, d, i, n - 1, entries, b);
      ZeroedArray(y.st, f, n - 1, entries, b);
      OneRecord(y.st, d, y.r, i, b);
      RecordsConcatenate(st, d, Zeroed(d), records, [Hit(i, b)]);
      records, x := records + [Hit(i, b)], x';
      entries := entries[n - 1 := DecodeNoinit(y.st, f.sub, Zeroed(f.sub), inner).r];
      FilledAgain(d, i, n - 1, n, entries);
    }
  }

  lemma SubTable(d: Desc, i: nat)
    requires Table(d) && i < |d.fields| && d.fields[i].ltype.Submessage?
    ensures Table(d.fields[i].sub) && TableField(d.fields[i])
  {
  }

  lemma NothingFilled(d: Desc, i: nat)
    requires Table(d) && i < |d.fields|
    requires d.fields[i].ltype.Submessage? && d.fields[i].htype.Repeated? && d.fields[i].atype.Static?
    ensures WithEntries(d, i, 0, seq(d.fields[i].arraySize, _ => Zeroed(d.fields[i].sub))) == Zeroed(d)
  {
    var f := d.fields[i];
    assert SlotInside(d, i) && f.slot == i;
    assert Zeroed(d).members[i] == SubArray(0, seq(f.arraySize, _ => Zeroed(f.sub)));
  }

  lemma FilledAgain(d: Desc, i: nat, a: nat, b: nat, entries: seq<Record>)
    requires i < |d.fields| && d.fields[i].slot < |d.fields|
    ensures forall was :: |WithEntries(d, i, a, was).members| == |d.fields|
                          && Record(WithEntries(d, i, a, was).members[d.fields[i].slot := SubArray(b, entries)]) == WithEntries(d, i, b, entries)
  {
    forall was
      ensures |WithEntries(d, i, a, was).members| == |d.fields|
      ensures Record(WithEntries(d, i, a, was).members[d.fields[i].slot := SubArray(b, entries)]) == WithEntries(d, i, b, entries)
    {
      var k := d.fields[i].slot;
      assert Zeroed(d).members[k := SubArray(a, was)][k := SubArray(b, entries)] == Zeroed(d).members[k := SubArray(b, entries)];
    }
  }

  // One record too many: the count is zero, the entries are there, and nothing leads to them.
  lemma WrappingRun(st: Store, d: Desc, i: nat) returns (input: Input, x: nat)
    requires st.Valid() && Table(d) && i < |d.fields| && CountWraps(d.fields[i])
    ensures var y := DecodeNoinit(st, d, Zeroed(d), input);
            !y.ok && x in y.st.live && x !in st.live && Beyond(y.r, x)
  {
    hide DecodeField, DecodeEntry, Zeroed, Table, Beyond, CanOwn, SizeMax;
    var f := d.fields[i];
    SubTable(d, i);
    SomeEntries();
    var records, entries, z := FillingRun(st, d, i, f.arraySize);
    var y := DecodeRecords(st, d, Zeroed(d), records);
    var b := Plain(NOTHING);
    EntryOf(y.st, d, i, f.arraySize, entries, b);
    Overflow(y.st, f, entries, b);
    OneRecord(y.st, d, y.r, i, b);
    RecordsConcatenate(st, d, Zeroed(d), records, [Hit(i, b)]);
    input, x := Input(records + [Hit(i, b)], true), z;
    FilledAgain(d, i, f.arraySize, 0, entries);
    OutOfReach(d, i, entries, x);
  }

  lemma SomeEntries()
    ensures SizeMax() > 0
  {
  }

  lemma Overflow(st: Store, f: Field, entries: seq<Record>, b: Body)
    requires f.arraySize == SizeMax()
    ensures DecodeEntry(st, f, SubArray(f.arraySize, entries), b) == Did(false, SubArray(0, entries), st)
  {
  }

  lemma OutOfReach(d: Desc, i: nat, entries: seq<Record>, x: nat)
    requires i < |d.fields| && d.fields[i].slot < |d.fields|
    ensures Beyond(WithEntries(d, i, 0, entries), x)
  {
    ZeroedBeyond(d, x);
  }

  // ----- Leaks -----

  // A run of a table that can leak: decoding fails, and a new block is out of reach.
  lemma {:induction false} LeakingRun(st: Store, d: Desc) returns (input: Input, x: nat)
    requires st.Valid() && Table(d) && Leaky(d)
    ensures var y := DecodeNoinit(st, d, Zeroed(d), input);
            !y.ok && x in y.st.live && x !in st.live && Beyond(y.r, x)
    decreases d
  {
    hide DecodeField, DecodeStaticField, DecodePointerField, Zeroed, Beyond, CountWraps;
    var i :| 0 <= i < |d.fields| && LeakyField(d.fields[i]);
    var f := d.fields[i];
    if CountWraps(f) {
      input, x := WrappingRun(st, d, i);
    } else {
      SubTable(d, i);
      var inner;
      if f.atype.Static? {
        inner, x := LeakingRun(st, f.sub);
        StaticLeaks(st, f, inner, x);
      } else {
        inner, x := LeakingRun(Store(st.live + {st.next}, st.next + 1), f.sub);
        PointerLeaks(st, f, inner, x);
      }
      input := Input([Hit(i, Plain(inner))], true);
      OneRecord(st, d, Zeroed(d), i, Plain(inner));
      ZeroedField(st, d, i, Plain(inner));
      var y := if f.atype.Static? then DecodeStaticField(st, f, ZeroedMember(f), Plain(inner))
               else DecodePointerField(st, f, ZeroedMember(f), Plain(inner));
      BeyondUpdate(d, f.slot, y.r, x);
    }
  }

  lemma BeyondUpdate(d: Desc, k: nat, s: Member, x: nat)
    requires k < |d.fields| && MemberBeyond(s, x)
    ensures Beyond(Record(Zeroed(d).members[k := s]), x)
  {
    ZeroedBeyond(d, x);
  }

  lemma StaticLeaks(st: Store, f: Field, inner: Input, x: nat)
    requires TableField(f) && f.atype.Static? && Enterable(f)
    requires var y := DecodeNoinit(st, f.sub, Zeroed(f.sub), inner);
             !y.ok && x in y.st.live && Beyond(y.r, x)
    ensures var y := DecodeStaticField(st, f, ZeroedMember(f), Plain(inner));
            !y.ok && x in y.st.live && MemberBeyond(y.r, x)
  {
    hide DecodeNoinit, DecSubmessage, Decode, Zeroed, Release, Beyond;
    var y := DecodeNoinit(st, f.sub, Zeroed(f.sub), inner);
    if f.htype.Repeated? {
      DecodeZeroed(st, f.sub, inner);
      ReleaseSpares(y.st, f.sub, y.r, x);
      ZeroedArray(st, f, 0, seq(f.arraySize, _ => Zeroed(f.sub)), Plain(inner));
    } else {
      ZeroedSubmessage(st, f, Plain(inner));
      BeyondHolding(f, y.r, x);
    }
  }

  lemma BeyondHolding(f: Field, m: Record, x: nat)
    requires Beyond(m, x)
    ensures MemberBeyond(Holding(f, Sub(m)), x)
  {
  }

  lemma PointerLeaks(st: Store, f: Field, inner: Input, x: nat)
    requires TableField(f) && f.atype.Pointer? && Enterable(f)
    requires var y := DecodeNoinit(Store(st.live + {st.next}, st.next + 1), f.sub, Zeroed(f.sub), inner);
             !y.ok && x in y.st.live && Beyond(y.r, x)
    requires x !in st.live + {st.next}
    ensures var y := DecodePointerField(st, f, ZeroedMember(f), Plain(inner));
            !y.ok && x in y.st.live && MemberBeyond(y.r, x)
  {
    hide DecodeNoinit, Decode, Zeroed, Release, Beyond, MemberBeyond;
    var u := Store(st.live + {st.next}, st.next + 1);
    var y := DecodeNoinit(u, f.sub, Zeroed(f.sub), inner);
    if f.htype.Repeated? {
      DecodeZeroed(u, f.sub, inner);
      ReleaseSpares(y.st, f.sub, y.r, x);
      ZeroedAppend(st, f, inner);
      BeyondBlock(f, st.next, Release(y.st, f.sub, y.r).r, x);
    } else {
      ZeroedPointer(st, f, inner);
      BeyondBlock(f, st.next, y.r, x);
    }
  }

  // The first entry of an array of submessages.
  lemma ZeroedAppend(st: Store, f: Field, inner: Input)
    requires f.atype.Pointer? && f.htype.Repeated? && f.ltype.Submessage? && 0 < f.dataSize <= SizeMax()
    ensures var x := Decode(Store(st.live + {st.next}, st.next + 1), f.sub, Zeroed(f.sub), inner);
            DecodePointerField(st, f, ZeroedMember(f), Plain(inner))
            == Did(x.ok, OwnArray(1, Block(st.next, 1, [Nested(x.r)])), x.st)
  {
    hide Decode, DecodeNoinit, AppendItem, Zeroed, SetToDefaults, Reallocated;
    var b := Plain(inner);
    var x := Decode(Store(st.live + {st.next}, st.next + 1), f.sub, Zeroed(f.sub), inner);
    ZeroedIsDefault(f.sub);
    Granted(st);
    FirstAppend(st, f, b);
    var y := DecodeItem(Store(st.live + {st.next}, st.next + 1), f, b);
    assert ItemsOf(Null) + [y.r] == [Nested(x.r)];
  }

  lemma FirstAppend(st: Store, f: Field, b: Body)
    requires f.atype.Pointer? && f.htype.Repeated? && f.ltype.Submessage? && 0 < f.dataSize <= SizeMax() && b.grant.Moved?
    ensures var x := DecodeItem(Store(st.live + {st.next}, st.next + 1), f, b);
            AppendItem(st, f, OwnArray(0, Null), b) == Did(x.ok, OwnArray(1, Block(st.next, 1, ItemsOf(Null) + [x.r])), x.st)
  {
    hide DecodeItem, Reallocated;
    Granted(st);
    SomeEntries();
  }

  lemma ZeroedPointer(st: Store, f: Field, inner: Input)
    requires f.atype.Pointer? && !f.htype.Repeated? && f.ltype.Submessage? && 0 < f.dataSize <= SizeMax()
    ensures var x := DecodeNoinit(Store(st.live + {st.next}, st.next + 1), f.sub, Zeroed(f.sub), inner);
            DecodePointerField(st, f, ZeroedMember(f), Plain(inner))
            == Did(x.ok, Holding(f, Own(Block(st.next, 1, [Nested(x.r)]))), x.st)
  {
    hide DecodeNewSubmessage, Zeroed, SetToDefaults, Reallocated;
    FirstSubmessage(st, f, Plain(inner));
    assert ReleaseBlock(st, f, Null) == st;
  }

  lemma FirstSubmessage(st: Store, f: Field, b: Body)
    requires f.atype.Pointer? && !f.htype.Repeated? && f.ltype.Submessage? && 0 < f.dataSize <= SizeMax()
    requires b.grant.Moved? && b.begun && b.closed
    ensures var x := DecodeNoinit(Store(st.live + {st.next}, st.next + 1), f.sub, Zeroed(f.sub), b.inner);
            DecodeNewSubmessage(st, f, b) == Did(x.ok, Block(st.next, 1, [Nested(x.r)]), x.st)
  {
    hide DecodeNoinit, Zeroed, SetToDefaults, Reallocated;
    ZeroedIsDefault(f.sub);
    Granted(st);
  }

  lemma BeyondBlock(f: Field, id: nat, m: Record, x: nat)
    requires Beyond(m, x) && id != x
    ensures MemberBeyond(Holding(f, Own(Block(id, 1, [Nested(m)]))), x) && MemberBeyond(OwnArray(1, Block(id, 1, [Nested(m)])), x)
  {
    hide Beyond;
    var p := Block(id, 1, [Nested(m)]);
    assert ItemBeyond(Nested(m), x);
    assert PointerBeyond(p, x);
    assert MemberBeyond(Own(p), x);
  }

  // Whatever is decoded into a zeroed struct of the table, nothing is lost.
  ghost predicate NeverLeaks(d: Desc) {
    forall st: Store, input :: st.Valid() ==> DecodeAndRelease(st, d, input).st.live == st.live
  }

  // A table never leaks if and only if it has no static array of PB_SIZE_MAX submessages with a
  // pointer below it.
  lemma LeaksExactly(d: Desc)
    requires Table(d)
    ensures NeverLeaks(d) <==> !Leaky(d)
  {
    hide Leaky, Table, Decode, Release, Beyond, DecodeNoinit;
    if Leaky(d) {
      var st := Store({}, 0);
      var input, x := LeakingRun(st, d);
      LeakIsFinal(st, d, input, x);
      assert DecodeAndRelease(st, d, input).st.live != st.live;
    } else {
      forall st: Store, input | st.Valid() ensures DecodeAndRelease(st, d, input).st.live == st.live {
        NothingIsLost(st, d, input);
      }
    }
  }

  // pb_decode releases the struct, and the block still lives.
  lemma LeakIsFinal(st: Store, d: Desc, input: Input, x: nat)
    requires var y := DecodeNoinit(st, d, Zeroed(d), input);
             !y.ok && x in y.st.live && x !in st.live && Beyond(y.r, x)
    ensures !Decode(st, d, Zeroed(d), input).ok && x in DecodeAndRelease(st, d, input).st.live
  {
    hide DecodeNoinit, Release, Beyond, Zeroed;
    DecodeZeroed(st, d, input);
    var y := DecodeNoinit(st, d, Zeroed(d), input);
    ReleaseSpares(y.st, d, y.r, x);
  }

  // ----- The smallest table that leaks -----

  // struct { pb_size_t entries_count; struct { int32_t *number; } entries[PB_SIZE_MAX]; }
  const NUMBER_FIELD := Field(1, LType.Varint, Optional, AType.Pointer, 0, 0, 4, 0, 0, Desc([]), None)
  const ENTRY_TABLE := Desc([NUMBER_FIELD])
  const ARRAY_FIELD := Field(1, Submessage, Repeated, Static, 8, -8, 8, SizeMax(), 0, ENTRY_TABLE, None)
  const ARRAY_TABLE := Desc([ARRAY_FIELD])

  // On an empty heap, decoding into it can fail, and leave a block behind when all is released.
  lemma FullArrayLeaks() returns (input: Input)
    ensures Table(ARRAY_TABLE)
    ensures var y := DecodeAndRelease(Store({}, 0), ARRAY_TABLE, input);
            !y.ok && y.st.live != {}
  {
    hide Decode, Release, Beyond, DecodeNoinit, SizeMax;
    FullArrayTable();
    var x;
    input, x := LeakingRun(Store({}, 0), ARRAY_TABLE);
    LeakIsFinal(Store({}, 0), ARRAY_TABLE, input, x);
  }

  lemma FullArrayTable()
    ensures Table(ARRAY_TABLE) && Leaky(ARRAY_TABLE)
  {
    assert TableField(ENTRY_TABLE.fields[0]);
    assert Table(ENTRY_TABLE);
    assert TableField(ARRAY_TABLE.fields[0]);
    assert FieldCanOwn(ENTRY_TABLE.fields[0]);
    assert CountWraps(ARRAY_TABLE.fields[0]) && LeakyField(ARRAY_TABLE.fields[0]);
  }
}
