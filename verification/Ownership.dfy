// The malloc build of pb_decode.c: who owns which block of the heap.
//
// Blocks are part of the struct that points to them, so a struct is a tree of the blocks it owns.
module Ownership {
  import opened Options
  import opened Wire
  import opened Descriptor

  // ----- Structs and the blocks they own -----

  // A pointer is null, or the number of a block, how many entries there is room for, and what lies in it.
  datatype Pointer = Null | Block(id: nat, room: nat, items: seq<Item>)

  // A nested struct, or the pointer of an entry in an array of strings or bytes.
  datatype Item = Nested(m: Record) | Entry(p: Pointer)

  datatype Member =
    | Inline                                      // no pointer inside
    | Sub(m: Record)                              // static submessage
    | SubArray(count: nat, entries: seq<Record>)  // static array of submessages
    | Own(p: Pointer)                             // pointer field
    | OwnArray(count: nat, p: Pointer)            // pointer to an array
    | Choice(which: nat, content: Member)           // which_ member and union
    | Beside                                      // oneof member that shares an earlier slot

  datatype Record = Record(members: seq<Member>)

  // The numbers of all blocks below a struct, each as often as something points to it.
  function Ids(m: Record): multiset<nat>
    decreases m
  {
    MembersIds(m.members)
  }

  function MembersIds(members: seq<Member>): multiset<nat>
    decreases members
  {
    if members == [] then multiset{} else MemberIds(members[0]) + MembersIds(members[1..])
  }

  function MemberIds(s: Member): multiset<nat>
    decreases s
  {
    match s
    case Inline => multiset{}
    case Sub(m) => Ids(m)
    case SubArray(_, entries) => EntryIds(entries)
    case Own(p) => PointerIds(p)
    case OwnArray(_, p) => PointerIds(p)
    case Choice(_, content) => MemberIds(content)
    case Beside => multiset{}
  }

  function EntryIds(ms: seq<Record>): multiset<nat>
    decreases ms
  {
    if ms == [] then multiset{} else Ids(ms[0]) + EntryIds(ms[1..])
  }

  function PointerIds(p: Pointer): multiset<nat>
    decreases p
  {
    match p
    case Null => multiset{}
    case Block(id, _, items) => multiset{id} + ItemIds(items)
  }

  function ItemIds(items: seq<Item>): multiset<nat>
    decreases items
  {
    if items == [] then multiset{} else ItemIdsOf(items[0]) + ItemIds(items[1..])
  }

  function ItemIdsOf(item: Item): multiset<nat>
    decreases item
  {
    match item
    case Nested(m) => Ids(m)
    case Entry(p) => PointerIds(p)
  }

  // ----- Structs of a table -----

  predicate IsText(f: Field) { f.ltype.String? || f.ltype.Bytes? }

  // A table of the malloc build, without callbacks, extensions and fixed-count arrays.
  predicate Table(d: Desc)
  {
    && (forall i :: 0 <= i < |d.fields| ==> TableField(d.fields[i]))
    && (forall i :: 0 <= i < |d.fields| ==> SlotInside(d, i))
    && (forall i, j :: 0 <= i < j < |d.fields| ==> Apart(d.fields[i], d.fields[j]))
  }

  predicate TableField(f: Field)
  {
    && f.tag > 0 && !f.atype.Callback? && !f.ltype.Extension? && (f.htype.Repeated? ==> f.counted)
    && f.arraySize <= SizeMax() && f.dataSize <= SizeMax()
    && (Packable(f.ltype) ==> f.dataSize > 0)
    && (f.ltype.Submessage? ==> Table(f.sub))
  }

  // allocate_field refuses a size of zero; texts bring their own size.
  predicate Allocatable(f: Field) {
    f.dataSize > 0 || (IsText(f) && !f.htype.Repeated?)
  }

  // What a pointer of the field may point to: a block with room for one item, or for as many as the
  // count says.
  predicate Points(f: Field, p: Pointer, count: nat)
    decreases f, 0
  {
    match p
    case Null => f.htype.Repeated? ==> count == 0
    case Block(_, room, items) =>
      Allocatable(f) && count <= room &&
      if f.ltype.Submessage? then
        |items| == count && forall k :: 0 <= k < count ==> items[k].Nested? && Shaped(f.sub, items[k].m)
      else if f.htype.Repeated? && IsText(f) then
        |items| == count && forall k :: 0 <= k < count ==> items[k].Entry? && (items[k].p.Block? ==> items[k].p.items == [])
      else items == []
  }

  // The content of a field, or of a union whose which_ is its tag.
  predicate Content(f: Field, s: Member)
    decreases f, 1
  {
    if f.atype.Pointer? then s.Own? && Points(f, s.p, 1)
    else if f.ltype.Submessage? then s.Sub? && Shaped(f.sub, s.m)
    else s.Inline?
  }

  // Counts are of type pb_size_t.
  predicate MemberShaped(f: Field, s: Member)
    decreases f, 2
  {
    match f.htype
    case Required => Content(f, s)
    case Optional => Content(f, s)
    case Oneof => s.Choice? && (s.which == f.tag ==> Content(f, s.content)) && (s.which == 0 ==> s.content.Inline?)
    case Repeated =>
      if f.atype.Pointer? then s.OwnArray? && s.count <= SizeMax() && Points(f, s.p, s.count)
      else if f.ltype.Submessage? then
        && s.SubArray? && s.count <= SizeMax() && |s.entries| == f.arraySize
        && forall k :: 0 <= k < |s.entries| ==> Shaped(f.sub, s.entries[k])
      else s.Inline?
  }

  // The which_ of a union is zero or the tag of a member.
  predicate Chosen(d: Desc, k: nat, which: nat)
  {
    which != 0 ==> exists j :: 0 <= j < |d.fields| && d.fields[j].slot == k && d.fields[j].tag == which
  }

  predicate Shaped(d: Desc, m: Record)
    decreases d, 0
  {
    && |m.members| == |d.fields|
    && (forall i :: 0 <= i < |d.fields| ==>
          d.fields[i].slot < |m.members| && MemberShaped(d.fields[i], m.members[d.fields[i].slot]))
    && (forall i :: 0 <= i < |d.fields| && d.fields[i].slot != i ==> m.members[i].Beside?)
    && (forall k :: 0 <= k < |m.members| && m.members[k].Choice? ==> Chosen(d, k, m.members[k].which))
  }

  // ----- Counts that can be trusted -----

  // The entries of static arrays from the count on own nothing, and the count is at most `over`
  // beyond the capacity unless no entry owns anything, at every level.
  predicate Counted(m: Record, over: nat)
    decreases m
  {
    forall k :: 0 <= k < |m.members| ==> MemberCounted(m.members[k], over)
  }

  predicate MemberCounted(s: Member, over: nat)
    decreases s
  {
    match s
    case Sub(m) => Counted(m, over)
    case SubArray(count, entries) =>
      && (count <= |entries| + over || EntryIds(entries) == multiset{})
      && (forall k :: 0 <= k < |entries| ==> Counted(entries[k], over))
      && (forall k :: 0 <= k < |entries| && k >= count ==> Ids(entries[k]) == multiset{})
    case Own(p) => PointerCounted(p, over)
    case OwnArray(_, p) => PointerCounted(p, over)
    case Choice(_, content) => MemberCounted(content, over)
    case _ => true
  }

  predicate PointerCounted(p: Pointer, over: nat)
    decreases p
  {
    p.Block? ==> forall k :: 0 <= k < |p.items| ==> ItemCounted(p.items[k], over)
  }

  predicate ItemCounted(item: Item, over: nat)
    decreases item
  {
    match item
    case Nested(m) => Counted(m, over)
    case Entry(p) => PointerCounted(p, over)
  }

  lemma CountedUpdate(m: Record, k: nat, s: Member, over: nat)
    requires k < |m.members| && Counted(m, over) && MemberCounted(s, over)
    ensures Counted(Record(m.members[k := s]), over)
  {
  }

  lemma {:induction false} CountedMore(m: Record, a: nat, b: nat)
    requires Counted(m, a) && a <= b
    ensures Counted(m, b)
    decreases m
  {
    forall k | 0 <= k < |m.members| ensures MemberCounted(m.members[k], b) { MemberCountedMore(m.members[k], a, b); }
  }

  lemma {:induction false} MemberCountedMore(s: Member, a: nat, b: nat)
    requires MemberCounted(s, a) && a <= b
    ensures MemberCounted(s, b)
    decreases s
  {
    match s
    case Sub(m) => CountedMore(m, a, b);
    case SubArray(_, entries) =>
      forall k | 0 <= k < |entries| ensures Counted(entries[k], b) { CountedMore(entries[k], a, b); }
    case Own(p) => PointerCountedMore(p, a, b);
    case OwnArray(_, p) => PointerCountedMore(p, a, b);
    case Choice(_, content) => MemberCountedMore(content, a, b);
    case _ =>
  }

  lemma {:induction false} PointerCountedMore(p: Pointer, a: nat, b: nat)
    requires PointerCounted(p, a) && a <= b
    ensures PointerCounted(p, b)
    decreases p
  {
    if p.Block? {
      forall k | 0 <= k < |p.items| ensures ItemCounted(p.items[k], b) {
        match p.items[k]
        case Nested(m) => CountedMore(m, a, b);
        case Entry(q) => PointerCountedMore(q, a, b);
      }
    }
  }

  // ----- The heap -----

  function IdOf(p: Pointer): multiset<nat> {
    if p.Null? then multiset{} else multiset{p.id}
  }

  // The blocks that live, and the number of the next one.
  datatype Store = Store(live: set<nat>, next: nat)
  {
    predicate Valid() { forall id :: id in live ==> id < next }

    ghost function Live(): multiset<nat> { multiset(live) }
  }

  // The answer of the allocator.
  datatype Grant = Refused | InPlace | Moved

  // realloc: it fails and nothing changes, or the block stays where it was, or it has moved.
  function Reallocated(st: Store, p: Pointer, g: Grant): (Option<nat>, Store) {
    if g.Refused? then (None, st)
    else if p.Block? && g.InPlace? then (Some(p.id), st)
    else (Some(st.next), Store((if p.Block? then st.live - {p.id} else st.live) + {st.next}, st.next + 1))
  }

  // free, which takes a null pointer too.
  function Freed(st: Store, p: Pointer): Store {
    if p.Block? then st.(live := st.live - {p.id}) else st
  }

  class Heap {
    var live: set<nat>
    var next: nat

    ghost function State(): Store
      reads this
    {
      Store(live, next)
    }

    constructor ()
      ensures State() == Store({}, 0)
    {
      live, next := {}, 0;
    }

    method Realloc(p: Pointer, g: Grant) returns (id: Option<nat>)
      requires IdOf(p) <= State().Live()
      modifies this
      ensures (id, State()) == Reallocated(old(State()), p, g)
    {
      if g.Refused? {
        return None;
      }
      if p.Block? && g.InPlace? {
        return Some(p.id);
      }
      id := Some(next);
      if p.Block? { live := live - {p.id}; }
      live := live + {next};
      next := next + 1;
    }

    // Freeing a block twice is not possible.
    method Free(p: Pointer)
      requires IdOf(p) <= State().Live()
      modifies this
      ensures State() == Freed(old(State()), p)
    {
      if p.Block? { live := live - {p.id}; }
    }
  }

  // ----- Sums -----

  // `l` with `a` becomes `m` with `b`: what lives or is owned afterwards lived or was owned before.
  // If `exact`, nothing is lost either.
  ghost predicate Kept(exact: bool, l: multiset<nat>, a: multiset<nat>, m: multiset<nat>, b: multiset<nat>) {
    l + b <= m + a && (exact ==> l + b == m + a)
  }

  lemma ReallocKept(st: Store, p: Pointer, g: Grant)
    requires st.Valid() && IdOf(p) <= st.Live()
    ensures var (id, u) := Reallocated(st, p, g);
            && u.Valid() && (id.None? ==> u == st)
            && (id.Some? ==> Kept(true, st.Live(), IdOf(p), u.Live(), multiset{id.value}))
  {
    var (id, u) := Reallocated(st, p, g);
    if id.Some? {
      forall x ensures (st.Live() + multiset{id.value})[x] == (u.Live() + IdOf(p))[x] {
      }
    }
  }

  lemma FreeKept(st: Store, p: Pointer)
    requires st.Valid() && IdOf(p) <= st.Live()
    ensures Freed(st, p).Valid() && Kept(true, st.Live(), IdOf(p), Freed(st, p).Live(), multiset{})
  {
  }

  lemma KeptFirst(l: multiset<nat>, a: multiset<nat>)
    ensures Kept(true, l, a, l, a)
  {
  }

  lemma KeptTwice(exact: bool, l: multiset<nat>, a: multiset<nat>, m: multiset<nat>, b: multiset<nat>, n: multiset<nat>, c: multiset<nat>)
    requires Kept(exact, l, a, m, b) && Kept(exact, m, b, n, c)
    ensures Kept(exact, l, a, n, c)
  {
    forall x ensures (l + c)[x] <= (n + a)[x] && (exact ==> (l + c)[x] == (n + a)[x]) {
      assert (l + b)[x] <= (m + a)[x] && (m + c)[x] <= (n + b)[x];
      assert exact ==> (l + b)[x] == (m + a)[x] && (m + c)[x] == (n + b)[x];
    }
  }

  // The same inside something larger, `v` that becomes `w`.
  lemma KeptInside(exact: bool, l: multiset<nat>, a: multiset<nat>, m: multiset<nat>, b: multiset<nat>, v: multiset<nat>, w: multiset<nat>)
    requires Kept(exact, l, a, m, b) && w + a == v + b
    ensures Kept(exact, l, v, m, w)
  {
    forall x ensures (l + w)[x] <= (m + v)[x] && (exact ==> (l + w)[x] == (m + v)[x]) {
      assert (l + b)[x] <= (m + a)[x] && (w + a)[x] == (v + b)[x];
      assert exact ==> (l + b)[x] == (m + a)[x];
    }
  }

  // Something that is owned is dropped; exactly, there is nothing of it.
  lemma KeptDropped(exact: bool, l: multiset<nat>, a: multiset<nat>, m: multiset<nat>, b: multiset<nat>, c: multiset<nat>)
    requires Kept(exact, l, a, m, b) && c <= b && (exact ==> b == c)
    ensures Kept(exact, l, a, m, c)
  {
    forall x ensures (l + c)[x] <= (m + a)[x] {
      assert (l + b)[x] <= (m + a)[x];
    }
  }

  // Less exactly.
  lemma KeptWeaker(exact: bool, l: multiset<nat>, a: multiset<nat>, m: multiset<nat>, b: multiset<nat>)
    requires Kept(true, l, a, m, b)
    ensures Kept(exact, l, a, m, b)
  {
  }

  // Whatever is owned lives, before and after.
  lemma KeptAlive(exact: bool, l: multiset<nat>, a: multiset<nat>, m: multiset<nat>, b: multiset<nat>)
    requires Kept(exact, l, a, m, b) && a <= l
    ensures b <= m
  {
    forall x ensures b[x] <= m[x] {
      assert (l + b)[x] <= (m + a)[x];
    }
  }

  lemma Exchange(a: multiset<nat>, t: multiset<nat>, x: multiset<nat>, u: multiset<nat>, y: multiset<nat>)
    requires t + x == u + y
    ensures (a + t) + x == (a + u) + y
  {
    forall v ensures ((a + t) + x)[v] == ((a + u) + y)[v] {
      assert (t + x)[v] == (u + y)[v];
    }
  }

  lemma {:induction false} MemberUpdate(members: seq<Member>, k: nat, s: Member)
    requires k < |members|
    ensures MembersIds(members[k := s]) + MemberIds(members[k]) == MembersIds(members) + MemberIds(s)
    ensures MemberIds(members[k]) <= MembersIds(members)
    decreases members
  {
    hide MemberIds;
    assert MembersIds(members) == MemberIds(members[0]) + MembersIds(members[1..]);
    if k > 0 {
      MemberUpdate(members[1..], k - 1, s);
      assert members[1..][k - 1] == members[k];
      assert members[k := s][1..] == members[1..][k - 1 := s];
      assert MembersIds(members[k := s]) == MemberIds(members[0]) + MembersIds(members[1..][k - 1 := s]);
      Exchange(MemberIds(members[0]), MembersIds(members[1..][k - 1 := s]), MemberIds(members[k]), MembersIds(members[1..]), MemberIds(s));
    } else {
      assert members[0 := s][1..] == members[1..];
      assert MembersIds(members[0 := s]) == MemberIds(s) + MembersIds(members[1..]);
    }
  }

  lemma {:induction false} EntryUpdate(ms: seq<Record>, k: nat, m: Record)
    requires k < |ms|
    ensures EntryIds(ms[k := m]) + Ids(ms[k]) == EntryIds(ms) + Ids(m)
    ensures Ids(ms[k]) <= EntryIds(ms)
    decreases ms
  {
    hide Ids;
    assert EntryIds(ms) == Ids(ms[0]) + EntryIds(ms[1..]);
    if k > 0 {
      EntryUpdate(ms[1..], k - 1, m);
      assert ms[1..][k - 1] == ms[k];
      assert ms[k := m][1..] == ms[1..][k - 1 := m];
      assert EntryIds(ms[k := m]) == Ids(ms[0]) + EntryIds(ms[1..][k - 1 := m]);
      Exchange(Ids(ms[0]), EntryIds(ms[1..][k - 1 := m]), Ids(ms[k]), EntryIds(ms[1..]), Ids(m));
    } else {
      assert ms[0 := m][1..] == ms[1..];
      assert EntryIds(ms[0 := m]) == Ids(m) + EntryIds(ms[1..]);
    }
  }

  lemma {:induction false} EntriesEmpty(ms: seq<Record>)
    requires forall k :: 0 <= k < |ms| ==> Ids(ms[k]) == multiset{}
    ensures EntryIds(ms) == multiset{}
    decreases ms
  {
    if ms != [] { EntriesEmpty(ms[1..]); }
  }

  lemma {:induction false} MembersEmpty(members: seq<Member>)
    ensures MembersIds(members) == multiset{} <==> forall k :: 0 <= k < |members| ==> MemberIds(members[k]) == multiset{}
    decreases members
  {
    if members != [] {
      MembersEmpty(members[1..]);
      assert forall k :: 0 < k < |members| ==> members[k] == members[1..][k - 1];
      assert forall k :: 0 <= k < |members[1..]| ==> members[1..][k] == members[k + 1];
      if MembersIds(members) == multiset{} { NothingInParts(MemberIds(members[0]), MembersIds(members[1..])); }
    }
  }

  lemma NothingInParts(a: multiset<nat>, b: multiset<nat>)
    requires a + b == multiset{}
    ensures a == multiset{} && b == multiset{}
  {
    assert forall x :: (a + b)[x] == a[x] + b[x];
  }

  lemma {:induction false} ItemAppend(items: seq<Item>, item: Item)
    ensures ItemIds(items + [item]) == ItemIds(items) + ItemIdsOf(item)
    decreases items
  {
    if items == [] {
      assert items + [item] == [item];
      assert [item][1..] == [];
    } else {
      ItemAppend(items[1..], item);
      assert (items + [item])[1..] == items[1..] + [item];
    }
  }

  // A slot of a struct changes, and what lives with it.
  lemma MemberKept(exact: bool, l: multiset<nat>, live: multiset<nat>, members: seq<Member>, k: nat, s: Member)
    requires k < |members| && Kept(exact, l, MemberIds(members[k]), live, MemberIds(s))
    ensures Kept(exact, l, MembersIds(members), live, MembersIds(members[k := s]))
  {
    MemberUpdate(members, k, s);
    KeptInside(exact, l, MemberIds(members[k]), live, MemberIds(s), MembersIds(members), MembersIds(members[k := s]));
  }

  lemma EntryKept(exact: bool, l: multiset<nat>, live: multiset<nat>, ms: seq<Record>, k: nat, m: Record)
    requires k < |ms| && Kept(exact, l, Ids(ms[k]), live, Ids(m))
    ensures Kept(exact, l, EntryIds(ms), live, EntryIds(ms[k := m]))
  {
    EntryUpdate(ms, k, m);
    KeptInside(exact, l, Ids(ms[k]), live, Ids(m), EntryIds(ms), EntryIds(ms[k := m]));
  }

  // The shape of a struct, one field at a time.
  lemma FieldShaped(d: Desc, m: Record, i: nat)
    requires Table(d) && Shaped(d, m) && i < |d.fields|
    ensures var f := d.fields[i];
            TableField(f) && f.slot < |m.members| && MemberShaped(f, m.members[f.slot]) && d.fields[f.slot].slot == f.slot
  {
    hide MemberShaped, TableField;
    assert SlotInside(d, i);
  }

  // A union that holds the member `f`, or none, is well formed for the others too.
  lemma SharedUnion(f: Field, g: Field, s: Member)
    requires f.htype.Oneof? && g.htype.Oneof? && f.tag != g.tag && f.tag > 0 && g.tag > 0 && MemberShaped(f, s)
    requires s.Choice? ==> s.which == f.tag || s.which == 0
    ensures MemberShaped(g, s)
  {
  }

  lemma IsShaped(d: Desc, m: Record)
    requires |m.members| == |d.fields|
    requires forall i :: 0 <= i < |d.fields| ==> d.fields[i].slot < |m.members| && MemberShaped(d.fields[i], m.members[d.fields[i].slot])
    requires forall i :: 0 <= i < |d.fields| && d.fields[i].slot != i ==> m.members[i].Beside?
    requires forall k :: 0 <= k < |m.members| && m.members[k].Choice? ==> Chosen(d, k, m.members[k].which)
    ensures Shaped(d, m)
  {
  }

  lemma ShapedUpdate(d: Desc, m: Record, i: nat, s: Member)
    requires Table(d) && Shaped(d, m) && i < |d.fields| && MemberShaped(d.fields[i], s)
    requires s.Choice? ==> s.which == d.fields[i].tag || s.which == 0
    ensures d.fields[i].slot < |m.members| && Shaped(d, Record(m.members[d.fields[i].slot := s]))
  {
    hide MemberShaped;
    var f := d.fields[i];
    var r := Record(m.members[f.slot := s]);
    assert TableField(f) && SlotInside(d, i);
    assert |m.members| == |d.fields| && f.slot < |m.members|;
    forall j | 0 <= j < |d.fields| ensures d.fields[j].slot < |r.members| && MemberShaped(d.fields[j], r.members[d.fields[j].slot]) {
      if j != i && d.fields[j].slot == f.slot {
        assert if j < i then Apart(d.fields[j], f) else Apart(f, d.fields[j]);
        assert TableField(d.fields[j]);
        SharedUnion(f, d.fields[j], s);
      }
    }
    forall j | 0 <= j < |d.fields| && d.fields[j].slot != j ensures r.members[j].Beside? {
      assert j != f.slot;
    }
    forall k | 0 <= k < |r.members| && r.members[k].Choice? ensures Chosen(d, k, r.members[k].which) {
      assert k == f.slot && s.which != 0 ==> d.fields[i].slot == k && d.fields[i].tag == s.which;
    }
    IsShaped(d, r);
  }

  // ----- Null pointers -----

  // Every pointer of a struct is null, at every level.
  predicate AllNull(m: Record)
    decreases m
  {
    forall k :: 0 <= k < |m.members| ==> MemberNull(m.members[k])
  }

  predicate MemberNull(s: Member)
    decreases s
  {
    match s
    case Sub(m) => AllNull(m)
    case SubArray(_, entries) => forall k :: 0 <= k < |entries| ==> AllNull(entries[k])
    case Own(p) => p.Null?
    case OwnArray(_, p) => p.Null?
    case Choice(_, content) => MemberNull(content)
    case _ => true
  }

  // A struct owns nothing exactly when all of its pointers are null.
  lemma {:induction false} OwnsNothing(m: Record)
    ensures Ids(m) == multiset{} <==> AllNull(m)
    decreases m
  {
    MembersEmpty(m.members);
    forall k | 0 <= k < |m.members| ensures MemberIds(m.members[k]) == multiset{} <==> MemberNull(m.members[k]) {
      MemberOwnsNothing(m.members[k]);
    }
  }

  lemma {:induction false} MemberOwnsNothing(s: Member)
    ensures MemberIds(s) == multiset{} <==> MemberNull(s)
    decreases s
  {
    match s
    case Sub(m) => OwnsNothing(m);
    case SubArray(_, entries) =>
      forall k | 0 <= k < |entries| ensures Ids(entries[k]) == multiset{} <==> AllNull(entries[k]) {
        OwnsNothing(entries[k]);
      }
      if MemberIds(s) == multiset{} { EntriesOwnNothing(entries); }
      if MemberNull(s) { EntriesEmpty(entries); }
    case Own(p) => PointerOwnsNothing(p);
    case OwnArray(_, p) => PointerOwnsNothing(p);
    case Choice(_, content) => MemberOwnsNothing(content);
    case _ =>
  }

  lemma PointerOwnsNothing(p: Pointer)
    ensures PointerIds(p) == multiset{} <==> p.Null?
  {
    if p.Block? { assert p.id in PointerIds(p); }
  }

  lemma {:induction false} EntriesOwnNothing(ms: seq<Record>)
    requires EntryIds(ms) == multiset{}
    ensures forall k :: 0 <= k < |ms| ==> Ids(ms[k]) == multiset{}
    decreases ms
  {
    if ms != [] {
      NothingInParts(Ids(ms[0]), EntryIds(ms[1..]));
      EntriesOwnNothing(ms[1..]);
      assert forall k :: 0 < k < |ms| ==> ms[k] == ms[1..][k - 1];
    }
  }

  // Who owns nothing has nothing to count.
  lemma {:induction false} NothingIsCounted(m: Record, over: nat)
    requires Ids(m) == multiset{}
    ensures Counted(m, over)
    decreases m
  {
    MembersEmpty(m.members);
    forall k | 0 <= k < |m.members| ensures MemberCounted(m.members[k], over) { MemberNothing(m.members[k], over); }
  }

  lemma {:induction false} MemberNothing(s: Member, over: nat)
    requires MemberIds(s) == multiset{}
    ensures MemberCounted(s, over)
    decreases s
  {
    match s
    case Sub(m) => NothingIsCounted(m, over);
    case SubArray(_, entries) =>
      EntriesOwnNothing(entries);
      forall k | 0 <= k < |entries| ensures Counted(entries[k], over) { NothingIsCounted(entries[k], over); }
    case Own(p) => PointerOwnsNothing(p);
    case OwnArray(_, p) => PointerOwnsNothing(p);
    case Choice(_, content) => MemberNothing(content, over);
    case _ =>
  }
}
