// pb_release of the malloc build: what it frees, and that it frees no block twice.
module OwnedRelease {
  import opened Wire
  import opened Descriptor
  import opened Ownership

  // A part of a struct after its release, and what lives then.
  datatype After<T> = After(r: T, st: Store)

  // ----- What pb_release does -----

  function Release(st: Store, d: Desc, m: Record): After<Record>
    decreases d, 0
  {
    ReleaseFields(st, d, m, 0)
  }

  // The fields from the i-th on.
  function ReleaseFields(st: Store, d: Desc, m: Record, i: nat): After<Record>
    requires i <= |d.fields|
    decreases d, 0, |d.fields| - i
  {
    if i == |d.fields| then After(m, st)
    else
      var f := d.fields[i];
      if f.slot >= |m.members| then ReleaseFields(st, d, m, i + 1)
      else
        var x := ReleaseField(st, f, m.members[f.slot]);
        ReleaseFields(x.st, d, Record(m.members[f.slot := x.r]), i + 1)
  }

  // pb_release_single_field.  A count beyond the capacity of a static array is cut down to it.
  function ReleaseField(st: Store, f: Field, s: Member): After<Member>
    decreases f, 4
  {
    match s
    case Choice(which, content) =>
      if which != f.tag then After(s, st)
      else
        var x := ReleaseContent(st, f, content);
        After(Choice(which, x.r), x.st)
    case OwnArray(_, p) => After(OwnArray(0, Null), ReleaseBlock(st, f, p))
    case SubArray(count, entries) =>
      var x := ReleaseEntries(st, f, entries, 0, Reachable(count, entries));
      After(SubArray(count, x.r), x.st)
    case _ => ReleaseContent(st, f, s)
  }

  function Reachable(count: nat, entries: seq<Record>): (n: nat)
    ensures n <= |entries|
  {
    if count > |entries| then |entries| else count
  }

  // The submessage or the block of a single field.
  function ReleaseContent(st: Store, f: Field, c: Member): After<Member>
    decreases f, 3
  {
    match c
    case Own(p) => After(Own(Null), ReleaseBlock(st, f, p))
    case Sub(m) =>
      var x := Release(st, f.sub, m);
      After(Sub(x.r), x.st)
    case _ => After(c, st)
  }

  // What lies in a block, and then the block itself.
  function ReleaseBlock(st: Store, f: Field, p: Pointer): Store
    decreases f, 2
  {
    if p.Null? then st else Freed(ReleaseItems(st, f, p.items), p)
  }

  // The submessages in a block, and the blocks that the entries of an array of texts point to.
  function ReleaseItems(st: Store, f: Field, items: seq<Item>): Store
    decreases f, 1, |items|
  {
    if items == [] then st else ReleaseItems(ReleaseItem(st, f, items[0]), f, items[1..])
  }

  function ReleaseItem(st: Store, f: Field, item: Item): Store
    decreases f, 0
  {
    match item
    case Nested(m) => Release(st, f.sub, m).st
    case Entry(p) => Freed(st, p)
  }

  // The entries of a static array from the k-th up to the n-th.
  function ReleaseEntries(st: Store, f: Field, entries: seq<Record>, k: nat, n: nat): (x: After<seq<Record>>)
    requires k <= n <= |entries|
    ensures |x.r| == |entries|
    decreases f, 0, n - k
  {
    if k == n then After(entries, st)
    else
      var x := Release(st, f.sub, entries[k]);
      ReleaseEntries(x.st, f, entries[k := x.r], k + 1, n)
  }

  // ----- What is kept -----

  // Nothing is left of a field; a union is done when its current member is.
  predicate Released(f: Field, s: Member) {
    (f.htype.Oneof? && s.Choice? && s.which != f.tag) || MemberIds(s) == multiset{}
  }

  predicate FieldsReleased(d: Desc, m: Record, n: nat) {
    forall j :: 0 <= j < |d.fields| && j < n ==> d.fields[j].slot < |m.members| && Released(d.fields[j], m.members[d.fields[j].slot])
  }

  // No block is freed that the struct does not own, and a struct whose counts can be trusted owns
  // nothing afterwards.
  lemma {:induction false} ReleaseKept(exact: bool, st: Store, d: Desc, m: Record, over: nat)
    requires st.Valid() && Table(d) && Shaped(d, m) && Ids(m) <= st.Live() && (exact ==> Counted(m, over))
    ensures var x := Release(st, d, m);
            && x.st.Valid() && Shaped(d, x.r) && Kept(exact, st.Live(), Ids(m), x.st.Live(), Ids(x.r))
            && (exact ==> Ids(x.r) == multiset{})
    decreases d, 0
  {
    hide MemberIds, MemberShaped, Shaped, Table, TableField, MembersIds, Kept, MemberCounted, ReleaseFields, Ids;
    ReleaseFieldsKept(exact, st, d, m, 0, over);
    var x := Release(st, d, m);
    if exact { AllReleased(d, x.r); }
  }

  lemma {:induction false} ReleaseFieldsKept(exact: bool, st: Store, d: Desc, m: Record, i: nat, over: nat)
    requires i <= |d.fields| && st.Valid() && Table(d) && Shaped(d, m) && Ids(m) <= st.Live()
    requires exact ==> Counted(m, over) && FieldsReleased(d, m, i)
    ensures var x := ReleaseFields(st, d, m, i);
            && x.st.Valid() && Shaped(d, x.r) && Kept(exact, st.Live(), Ids(m), x.st.Live(), Ids(x.r))
            && (exact ==> FieldsReleased(d, x.r, |d.fields|))
    decreases d, 0, |d.fields| - i
  {
    hide MemberIds, MemberShaped, Shaped, Table, TableField, MembersIds, Kept, MemberCounted, FieldsReleased, ReleaseField;
    if i == |d.fields| {
      KeptFirst(st.Live(), Ids(m));
      KeptWeaker(exact, st.Live(), Ids(m), st.Live(), Ids(m));
    } else {
      var f := d.fields[i];
      FieldShaped(d, m, i);
      MemberUpdate(m.members, f.slot, m.members[f.slot]);
      ReleaseFieldKept(exact, st, f, m.members[f.slot], over);
      var x := ReleaseField(st, f, m.members[f.slot]);
      MemberKept(exact, st.Live(), x.st.Live(), m.members, f.slot, x.r);
      if exact { CountedUpdate(m, f.slot, x.r, over); }
      ReleasedUpdate(exact, d, m, i, x.r);
      var r := Record(m.members[f.slot := x.r]);
      KeptAlive(exact, st.Live(), Ids(m), x.st.Live(), Ids(r));
      ReleaseFieldsKept(exact, x.st, d, r, i + 1, over);
      var y := ReleaseFields(x.st, d, r, i + 1);
      KeptTwice(exact, st.Live(), Ids(m), x.st.Live(), Ids(r), y.st.Live(), Ids(y.r));
    }
  }

  lemma ReleasedUpdate(exact: bool, d: Desc, m: Record, i: nat, s: Member)
    requires Table(d) && Shaped(d, m) && i < |d.fields| && d.fields[i].slot < |m.members|
    requires exact ==> FieldsReleased(d, m, i) && Released(d.fields[i], s)
    requires MemberShaped(d.fields[i], s)
    requires var was := m.members[d.fields[i].slot];
             s.Choice? ==> was.Choice? && was.which == s.which && (s.which != d.fields[i].tag ==> s == was)
    ensures var r := Record(m.members[d.fields[i].slot := s]);
            Shaped(d, r) && (exact ==> FieldsReleased(d, r, i + 1))
  {
    hide MemberShaped;
    var f := d.fields[i];
    var r := Record(m.members[f.slot := s]);
    if s.Choice? && s.which != f.tag { assert r.members == m.members; } else { ShapedUpdate(d, m, i, s); }
    if exact {
      forall j | 0 <= j <= i ensures d.fields[j].slot < |r.members| && Released(d.fields[j], r.members[d.fields[j].slot]) {
        if j < i { assert Apart(d.fields[j], f); }
      }
    }
  }

  lemma AllReleased(d: Desc, m: Record)
    requires Table(d) && Shaped(d, m) && FieldsReleased(d, m, |d.fields|)
    ensures Ids(m) == multiset{}
  {
    forall k | 0 <= k < |m.members| ensures MemberIds(m.members[k]) == multiset{} {
      var f := d.fields[k];
      if f.slot == k {
        assert MemberShaped(f, m.members[k]) && Released(f, m.members[k]);
        if f.htype.Oneof? && m.members[k].which != f.tag && m.members[k].which != 0 {
          var j :| 0 <= j < |d.fields| && d.fields[j].slot == k && d.fields[j].tag == m.members[k].which;
          assert Released(d.fields[j], m.members[k]);
        }
      }
    }
    MembersEmpty(m.members);
  }

  lemma {:induction false} ReleaseFieldKept(exact: bool, st: Store, f: Field, s: Member, over: nat)
    requires st.Valid() && TableField(f) && MemberShaped(f, s) && MemberIds(s) <= st.Live() && (exact ==> MemberCounted(s, over))
    ensures var x := ReleaseField(st, f, s);
            && x.st.Valid() && MemberShaped(f, x.r) && Kept(exact, st.Live(), MemberIds(s), x.st.Live(), MemberIds(x.r))
            && (exact ==> Released(f, x.r) && MemberCounted(x.r, over))
            && (x.r.Choice? ==> s.Choice? && x.r.which == s.which && (s.which != f.tag ==> x.r == s))
    decreases f, 4
  {
    hide Shaped, Table, Ids, ItemIds, EntryIds, Kept, ReleaseContent, ReleaseBlock, ReleaseEntries, PointerCounted, Counted;
    if f.htype.Oneof? {
      if s.which != f.tag {
        KeptFirst(st.Live(), MemberIds(s));
        KeptWeaker(exact, st.Live(), MemberIds(s), st.Live(), MemberIds(s));
      } else {
        ReleaseContentKept(exact, st, f, s.content, over);
      }
    } else if !f.htype.Repeated? {
      ReleaseContentKept(exact, st, f, s, over);
    } else if f.atype.Pointer? {
      ReleaseBlockKept(exact, st, f, s.p, s.count, over);
      NullOwnsNothing();
    } else if f.ltype.Submessage? {
      ReleaseArrayKept(exact, st, f, s, over);
    } else {
      ReleaseContentStays(exact, st, f, s);
    }
    var r := ReleaseField(st, f, s).r;
    if exact && r != s { MemberNothing(r, over); }
  }

  lemma ReleaseContentStays(exact: bool, st: Store, f: Field, s: Member)
    requires s.Inline?
    ensures ReleaseContent(st, f, s) == After(s, st) && MemberIds(s) == multiset{}
    ensures Kept(exact, st.Live(), MemberIds(s), st.Live(), MemberIds(s))
  {
  }

  lemma NullOwnsNothing()
    ensures PointerIds(Null) == multiset{}
  {
  }

  lemma {:induction false} ReleaseContentKept(exact: bool, st: Store, f: Field, c: Member, over: nat)
    requires st.Valid() && TableField(f) && !f.htype.Repeated? && Content(f, c) && MemberIds(c) <= st.Live()
    requires exact ==> MemberCounted(c, over)
    ensures var x := ReleaseContent(st, f, c);
            && x.st.Valid() && Content(f, x.r) && Kept(exact, st.Live(), MemberIds(c), x.st.Live(), MemberIds(x.r))
            && (exact ==> MemberIds(x.r) == multiset{}) && !x.r.Choice?
    decreases f, 3
  {
    hide Shaped, Table, ItemIds, EntryIds, Ids, Kept, Release, ReleaseBlock, PointerCounted, Counted;
    if f.atype.Pointer? {
      ReleaseBlockKept(exact, st, f, c.p, 1, over);
      NullOwnsNothing();
    } else if f.ltype.Submessage? {
      ReleaseKept(exact, st, f.sub, c.m, over);
    } else {
      KeptFirst(st.Live(), MemberIds(c));
      KeptWeaker(exact, st.Live(), MemberIds(c), st.Live(), MemberIds(c));
    }
  }

  lemma {:induction false} ReleaseBlockKept(exact: bool, st: Store, f: Field, p: Pointer, count: nat, over: nat)
    requires st.Valid() && TableField(f) && Points(f, p, count) && PointerIds(p) <= st.Live() && (exact ==> PointerCounted(p, over))
    ensures var u := ReleaseBlock(st, f, p);
            u.Valid() && Kept(exact, st.Live(), PointerIds(p), u.Live(), multiset{})
    decreases f, 2
  {
    hide Shaped, Table, ItemIds, EntryIds, Ids, Kept, ReleaseItems;
    if p.Null? {
      KeptFirst(st.Live(), multiset{});
      KeptWeaker(exact, st.Live(), multiset{}, st.Live(), multiset{});
    } else {
      BlockParts(p, st.Live());
      assert forall k :: 0 <= k < |p.items| ==> ItemShaped(f, p.items[k]);
      ReleaseItemsKept(exact, st, f, p.items, over);
      var u := ReleaseItems(st, f, p.items);
      KeptInside(exact, st.Live(), ItemIds(p.items), u.Live(), multiset{}, PointerIds(p), multiset{p.id});
      KeptAlive(exact, st.Live(), PointerIds(p), u.Live(), multiset{p.id});
      FreeKept(u, p);
      KeptWeaker(exact, u.Live(), multiset{p.id}, Freed(u, p).Live(), multiset{});
      KeptTwice(exact, st.Live(), PointerIds(p), u.Live(), multiset{p.id}, Freed(u, p).Live(), multiset{});
    }
  }

  lemma BlockParts(p: Pointer, l: multiset<nat>)
    requires p.Block? && PointerIds(p) <= l
    ensures ItemIds(p.items) <= l && multiset{p.id} + ItemIds(p.items) == PointerIds(p) + multiset{}
  {
  }

  predicate ItemShaped(f: Field, item: Item)
    decreases f, 0
  {
    if f.ltype.Submessage? then item.Nested? && Shaped(f.sub, item.m)
    else item.Entry? && (item.p.Block? ==> item.p.items == [])
  }

  lemma {:induction false} ReleaseItemsKept(exact: bool, st: Store, f: Field, items: seq<Item>, over: nat)
    requires st.Valid() && TableField(f) && ItemIds(items) <= st.Live()
    requires forall k :: 0 <= k < |items| ==> ItemShaped(f, items[k]) && (exact ==> ItemCounted(items[k], over))
    ensures var u := ReleaseItems(st, f, items);
            u.Valid() && Kept(exact, st.Live(), ItemIds(items), u.Live(), multiset{})
    decreases f, 1, |items|
  {
    hide Shaped, Table, EntryIds, Ids, Kept, MemberIds, ItemIds, PointerIds, ReleaseItem, ItemShaped, ItemCounted;
    if items == [] {
      NoItems(items);
      KeptFirst(st.Live(), multiset{});
      KeptWeaker(exact, st.Live(), multiset{}, st.Live(), multiset{});
    } else {
      FirstItem(items, st.Live());
      ReleaseItemKept(exact, st, f, items[0], over);
      var u := ReleaseItem(st, f, items[0]);
      KeptInside(exact, st.Live(), ItemIdsOf(items[0]), u.Live(), multiset{}, ItemIds(items), ItemIds(items[1..]));
      KeptAlive(exact, st.Live(), ItemIds(items), u.Live(), ItemIds(items[1..]));
      ReleaseItemsKept(exact, u, f, items[1..], over);
      KeptTwice(exact, st.Live(), ItemIds(items), u.Live(), ItemIds(items[1..]), ReleaseItems(u, f, items[1..]).Live(), multiset{});
    }
  }

  lemma {:induction false} ReleaseItemKept(exact: bool, st: Store, f: Field, item: Item, over: nat)
    requires st.Valid() && TableField(f) && ItemShaped(f, item) && ItemIdsOf(item) <= st.Live() && (exact ==> ItemCounted(item, over))
    ensures var u := ReleaseItem(st, f, item);
            u.Valid() && Kept(exact, st.Live(), ItemIdsOf(item), u.Live(), multiset{})
    decreases f, 0
  {
    hide Shaped, Table, EntryIds, Ids, MemberIds, ItemIds, PointerIds, Release, Kept;
    if f.ltype.Submessage? {
      ReleaseKept(exact, st, f.sub, item.m, over);
      var x := Release(st, f.sub, item.m);
      NothingBelow(Ids(x.r));
      KeptDropped(exact, st.Live(), Ids(item.m), x.st.Live(), Ids(x.r), multiset{});
    } else {
      EntryItem(item);
      FreeKept(st, item.p);
      KeptWeaker(exact, st.Live(), IdOf(item.p), Freed(st, item.p).Live(), multiset{});
    }
  }

  lemma NothingBelow(a: multiset<nat>)
    ensures multiset{} <= a
  {
  }

  lemma NoItems(items: seq<Item>)
    requires items == []
    ensures ItemIds(items) == multiset{}
  {
  }

  lemma EntryItem(item: Item)
    requires item.Entry? && (item.p.Block? ==> item.p.items == [])
    ensures ItemIdsOf(item) == IdOf(item.p)
  {
    NoItems([]);
  }

  lemma FirstItem(items: seq<Item>, l: multiset<nat>)
    requires items != [] && ItemIds(items) <= l
    ensures ItemIds(items[1..]) + ItemIdsOf(items[0]) == ItemIds(items) + multiset{} && ItemIdsOf(items[0]) <= l
  {
  }

  // The entries of a static array up to its count; those behind it are not looked at.
  lemma {:induction false} ReleaseArrayKept(exact: bool, st: Store, f: Field, s: Member, over: nat)
    requires st.Valid() && TableField(f) && MemberShaped(f, s) && MemberIds(s) <= st.Live() && (exact ==> MemberCounted(s, over))
    requires f.htype.Repeated? && f.atype.Static? && f.ltype.Submessage?
    ensures var x := ReleaseField(st, f, s);
            && x.st.Valid() && MemberShaped(f, x.r) && x.r.SubArray?
            && Kept(exact, st.Live(), MemberIds(s), x.st.Live(), MemberIds(x.r)) && (exact ==> MemberIds(x.r) == multiset{})
    decreases f, 1
  {
    hide Shaped, Table, Ids, Kept, EntryIds, ReleaseEntries, Counted;
    var n := Reachable(s.count, s.entries);
    ReleaseEntriesKept(exact, st, f, s.entries, 0, n, over);
    var x := ReleaseEntries(st, f, s.entries, 0, n);
    if exact { EntriesEmpty(x.r); }
  }

  lemma {:induction false} ReleaseEntriesKept(exact: bool, st: Store, f: Field, entries: seq<Record>, k: nat, n: nat, over: nat)
    requires k <= n <= |entries| && st.Valid() && TableField(f) && f.ltype.Submessage? && EntryIds(entries) <= st.Live()
    requires forall j :: 0 <= j < |entries| ==> Shaped(f.sub, entries[j])
    requires exact ==> forall j :: k <= j < n ==> Counted(entries[j], over)
    requires exact ==> forall j :: 0 <= j < |entries| && (j < k || j >= n) ==> Ids(entries[j]) == multiset{}
    ensures var x := ReleaseEntries(st, f, entries, k, n);
            && x.st.Valid() && (forall j :: 0 <= j < |x.r| ==> Shaped(f.sub, x.r[j]))
            && Kept(exact, st.Live(), EntryIds(entries), x.st.Live(), EntryIds(x.r))
            && (exact ==> forall j :: 0 <= j < |x.r| ==> Ids(x.r[j]) == multiset{})
    decreases f, 0, n - k
  {
    hide Shaped, Table, Ids, Kept, EntryIds, Release, Counted;
    if k == n {
      KeptFirst(st.Live(), EntryIds(entries));
      KeptWeaker(exact, st.Live(), EntryIds(entries), st.Live(), EntryIds(entries));
    } else {
      EntryUpdate(entries, k, entries[k]);
      ReleaseKept(exact, st, f.sub, entries[k], over);
      var x := Release(st, f.sub, entries[k]);
      EntryKept(exact, st.Live(), x.st.Live(), entries, k, x.r);
      var rest := entries[k := x.r];
      KeptAlive(exact, st.Live(), EntryIds(entries), x.st.Live(), EntryIds(rest));
      ReleaseEntriesKept(exact, x.st, f, rest, k + 1, n, over);
      var y := ReleaseEntries(x.st, f, rest, k + 1, n);
      KeptTwice(exact, st.Live(), EntryIds(entries), x.st.Live(), EntryIds(rest), y.st.Live(), EntryIds(y.r));
    }
  }
}
