// What the lists of the DOM look like after any sequence of operations, and what one insertion does.
module DomRuns {
  import opened Dom

  // Following the next siblings from `n` gives exactly the nodes `ns`, and then the end.
  ghost predicate Walk(w: World, n: Node?, ns: seq<Node>)
    decreases |ns|
  {
    if ns == [] then n == null else n == ns[0] && n in w.links && Walk(w, w.links[n].next, ns[1..])
  }

  ghost predicate WalkBack(w: World, n: Node?, ns: seq<Node>)
    decreases |ns|
  {
    if ns == [] then n == null
    else n == ns[|ns| - 1] && n in w.links && WalkBack(w, w.links[n].previous, ns[..|ns| - 1])
  }

  lemma {:induction false} WalkFrom(w: World, p: Node, i: nat)
    requires Sound(w) && p in w.kids && i <= |w.kids[p]|
    ensures Walk(w, if i < |w.kids[p]| then w.kids[p][i] else null, w.kids[p][i..])
    decreases |w.kids[p]| - i
  {
    var ns := w.kids[p];
    if i < |ns| {
      assert Linked(w, p, i);
      assert ns[i..][1..] == ns[i + 1..];
      WalkFrom(w, p, i + 1);
    }
  }

  lemma {:induction false} WalkBackFrom(w: World, p: Node, i: nat)
    requires Sound(w) && p in w.kids && i <= |w.kids[p]|
    ensures WalkBack(w, Before(w.kids[p], i), w.kids[p][..i])
    decreases i
  {
    var ns := w.kids[p];
    if i > 0 {
      assert Linked(w, p, i - 1);
      assert ns[..i][..i - 1] == ns[..i - 1];
      WalkBackFrom(w, p, i - 1);
    }
  }

  // The links from both ends run through the nodes of the index, all of them children of `p` and
  // none of them twice.
  ghost predicate OneList(w: World, p: Node)
    requires p in w.links
  {
    var ns := w.links[p].index;
    && Distinct(ns) && Walk(w, w.links[p].first, ns) && WalkBack(w, w.links[p].last, ns)
    && forall c :: c in ns ==> c in w.links && w.links[c].parent == p
  }

  lemma ElementsAreLists(w: World, p: Node)
    requires Sound(w) && p in w.links && p.kind == ElementKind
    ensures OneList(w, p)
  {
    assert Ends(w, p);
    var ns := w.kids[p];
    WalkFrom(w, p, 0);
    WalkBackFrom(w, p, |ns|);
    assert ns[0..] == ns && ns[..|ns|] == ns;
    forall c | c in ns ensures c in w.links && w.links[c].parent == p {
      assert Linked(w, p, IndexIn(ns, c));
    }
  }

  // No node is in the lists of two elements.
  lemma ListsAreDisjoint(w: World, p: Node, q: Node, c: Node)
    requires Sound(w) && p in w.links && q in w.links && p.kind == ElementKind && q.kind == ElementKind
    requires c in w.links[p].index && c in w.links[q].index
    ensures p == q
  {
    ElementsAreLists(w, p);
    ElementsAreLists(w, q);
  }

  // ----- Runs -----

  ghost predicate Legal(w: World, ops: seq<Op>)
    requires Sound(w)
    decreases |ops|
  {
    ops != [] ==> Allowed(w, ops[0]) && (ApplyKeeps(w, ops[0]); Legal(Apply(w, ops[0]), ops[1..]))
  }

  ghost function Run(w: World, ops: seq<Op>): (u: World)
    requires Sound(w) && Legal(w, ops)
    ensures Sound(u)
    decreases |ops|
  {
    if ops == [] then w else ApplyKeeps(w, ops[0]); Run(Apply(w, ops[0]), ops[1..])
  }

  lemma EmptyIsSound()
    ensures Sound(EMPTY)
  {
  }

  // Sequences of operations on an empty document.
  ghost predicate Possible(ops: seq<Op>) {
    EmptyIsSound(); Legal(EMPTY, ops)
  }

  ghost function Built(ops: seq<Op>): (w: World)
    requires Possible(ops)
    ensures Sound(w)
  {
    EmptyIsSound(); Run(EMPTY, ops)
  }

  // After any sequence of operations, the children of every element form one list, the index is
  // that list, and no node is in two of them.
  lemma EveryRunKeepsLists(ops: seq<Op>, p: Node, q: Node, c: Node)
    requires Possible(ops) && p in Built(ops).links && p.kind == ElementKind
    ensures OneList(Built(ops), p)
    ensures q in Built(ops).links && q.kind == ElementKind && c in Built(ops).links[p].index && c in Built(ops).links[q].index ==> p == q
  {
    hide Sound, Built, OneList;
    var w := Built(ops);
    ElementsAreLists(w, p);
    if q in w.links && q.kind == ElementKind && c in w.links[p].index && c in w.links[q].index {
      ListsAreDisjoint(w, p, q, c);
    }
  }

  // ----- One insertion -----

  // A node that is inserted comes right before the reference node; the others keep their order, in
  // its new list and in the one that it leaves.
  lemma InsertionMoves(w: World, parent: Node, child: Node, next: Node?, q: Node)
    requires Sound(w) && InsertOk(w, parent, child, next) && child.kind != FragmentKind && q in w.kids
    ensures var u := InsertBefore(w, parent, child, next);
            && q in u.kids && parent in u.kids && child in u.kids[parent]
            && After(u.kids[parent], IndexIn(u.kids[parent], child)) == next
            && (q == parent ==> Without(u.kids[q], child) == if child in w.kids[q] then Without(w.kids[q], child) else w.kids[q])
            && (q != parent ==> u.kids[q] == if child in w.kids[q] then Without(w.kids[q], child) else w.kids[q])
  {
    hide Sound, Detach, Inserted, Without, Splice;
    DetachReady(w, parent, child, next);
    var v := Detach(w, child);
    DetachedLists(w, child, q);
    AroundSpot(v, parent, [child], next);
    InsertedOne(v.kids[parent], child, next);
    InsertionLists(w, parent, child, next);
  }

  lemma InsertionLists(w: World, parent: Node, child: Node, next: Node?)
    requires Sound(w) && InsertOk(w, parent, child, next) && child.kind != FragmentKind
    ensures var v := Detach(w, child);
            && Sound(v) && Insertable(v, parent, [child], next)
            && InsertBefore(w, parent, child, next).kids == v.kids[parent := Inserted(v.kids[parent], [child], next)]
  {
    hide Sound, Detach, Inserted;
    DetachReady(w, parent, child, next);
  }

  lemma InsertedOne(ns: seq<Node>, child: Node, next: Node?)
    requires child !in ns && Distinct(ns) && (next == null || next in ns)
    ensures var us := Inserted(ns, [child], next);
            child in us && After(us, IndexIn(us, child)) == next && Without(us, child) == ns
  {
    assert forall n :: n in [child] ==> n == child;
    InsertAt(ns, [child], next);
    var us := Inserted(ns, [child], next);
    var k := Spot(ns, next);
    assert us[k] == child && IndexIn(us, child) == k;
    hide IndexIn, Distinct;
    assert us[..k] == ns[..k] && us[k + 1..] == ns[k..];
  }

  lemma DetachedLists(w: World, child: Node, q: Node)
    requires Sound(w) && child in w.links && child !in w.removed && q in w.kids
    ensures var v := Detach(w, child);
            q in v.kids && v.kids[q] == if child in w.kids[q] then Without(w.kids[q], child) else w.kids[q]
  {
    assert Attached(w, child);
    if child in w.kids[q] { assert Linked(w, q, IndexIn(w.kids[q], child)); }
  }

  // The children of a fragment come before the reference node in their order.
  lemma SplicingMovesAll(w: World, parent: Node, child: Node, next: Node?)
    requires Sound(w) && InsertOk(w, parent, child, next) && child.kind == FragmentKind
    ensures var u := InsertBefore(w, parent, child, next);
            && child in u.kids && u.kids[child] == []
            && parent in u.kids && u.kids[parent] == Inserted(w.kids[parent], w.kids[child], next)
            && forall q :: q in w.kids && q != parent && q != child ==> q in u.kids && u.kids[q] == w.kids[q]
  {
    DetachReady(w, parent, child, next);
    if w.kids[child] == [] {
      assert Inserted(w.kids[parent], [], next) == w.kids[parent];
    } else {
      TakeAllReady(w, parent, child, next);
    }
  }

  // The index of the fragment itself is not brought up to date: it still has the nodes that the
  // fragment has lost, so it is right only if there were none.
  lemma FragmentIndexIsStale(w: World, parent: Node, child: Node, next: Node?)
    requires Sound(w) && InsertOk(w, parent, child, next) && child.kind == FragmentKind
    requires w.links[child].index == w.kids[child]
    ensures var u := InsertBefore(w, parent, child, next);
            && child in u.links && child in u.kids && u.kids[child] == []
            && u.links[child].first == null && u.links[child].last == null
            && u.links[child].index == w.kids[child]
            && (u.links[child].index == u.kids[child] <==> w.kids[child] == [])
  {
    DetachReady(w, parent, child, next);
    assert Ends(w, child);
    if w.kids[child] != [] {
      TakeAllReady(w, parent, child, next);
      TakeAllKeeps(w, child);
      AroundSpot(TakeAll(w, child), parent, w.kids[child], next);
    }
  }
}
