// What every list of children is after one operation.
module DomLists {
  import opened Dom
  import opened DomRuns

  // A list that a node has left, if it was in it.
  ghost function Less(ns: seq<Node>, n: Node): seq<Node> {
    if n in ns then Without(ns, n) else ns
  }

  // The nodes `more` in the place of one.
  ghost function Instead(ns: seq<Node>, n: Node, more: seq<Node>): seq<Node>
    requires n in ns
  {
    var i := IndexIn(ns, n);
    ns[..i] + more + ns[i + 1..]
  }

  // ----- Removal -----

  lemma RemovedFrom(w: World, parent: Node, child: Node)
    requires Sound(w) && Allowed(w, Remove(parent, child))
    ensures var u := Apply(w, Remove(parent, child));
            && u.kids == w.kids[parent := Without(w.kids[parent], child)] && u.removed == w.removed + {child}
  {
    hide Sound, Without;
    RemoveKeeps(w, parent, child);
  }

  // ----- Insertion -----

  // A node leaves the list that it is in, and comes before the reference node.
  lemma InsertedInto(w: World, parent: Node, child: Node, next: Node?)
    requires Sound(w) && InsertOk(w, parent, child, next) && child.kind != FragmentKind
    ensures next != null ==> next in Less(w.kids[parent], child)
    ensures var u := InsertBefore(w, parent, child, next);
            && u.kids.Keys == w.kids.Keys && u.kids[parent] == Inserted(Less(w.kids[parent], child), [child], next)
            && (forall q :: q in w.kids && q != parent ==> u.kids[q] == Less(w.kids[q], child))
            && child !in u.removed && u.removed == w.removed
  {
    hide Sound, Detach, Inserted, Without, Splice;
    DetachReady(w, parent, child, next);
    InsertionLists(w, parent, child, next);
    DetachedKeys(w, child);
    forall q | q in w.kids ensures Detach(w, child).kids[q] == Less(w.kids[q], child) { DetachedLists(w, child, q); }
    AroundSpot(Detach(w, child), parent, [child], next);
    InsertionRemoved(w, parent, child, next);
  }

  lemma DetachedKeys(w: World, child: Node)
    requires Sound(w) && child in w.links && child !in w.removed
    ensures Detach(w, child).kids.Keys == w.kids.Keys
    ensures Detach(w, child).removed == w.removed || Detach(w, child).removed == w.removed + {child}
  {
    assert Attached(w, child);
  }

  lemma InsertionRemoved(w: World, parent: Node, child: Node, next: Node?)
    requires Sound(w) && InsertOk(w, parent, child, next) && child.kind != FragmentKind
    ensures InsertBefore(w, parent, child, next).removed == w.removed
  {
    hide Sound, Detach, Inserted;
    DetachReady(w, parent, child, next);
    DetachedKeys(w, child);
    assert child in [child];
    assert (set n | n in [child]) == {child};
  }

  // A fragment gives its children away.
  lemma SplicedInto(w: World, parent: Node, child: Node, next: Node?)
    requires Sound(w) && InsertOk(w, parent, child, next) && child.kind == FragmentKind
    ensures var u := InsertBefore(w, parent, child, next);
            && u.kids == w.kids[child := []][parent := Inserted(w.kids[parent], w.kids[child], next)] && u.removed == w.removed
  {
    hide Sound;
    DetachReady(w, parent, child, next);
    if w.kids[child] == [] {
      assert Inserted(w.kids[parent], [], next) == w.kids[parent];
    } else {
      TakeAllReady(w, parent, child, next);
      NotRemoved(w, child);
    }
  }

  lemma NotRemoved(w: World, p: Node)
    requires Sound(w) && p in w.kids
    ensures forall n :: n in w.kids[p] ==> n !in w.removed
  {
    forall n | n in w.kids[p] ensures n !in w.removed { assert Linked(w, p, IndexIn(w.kids[p], n)); }
  }

  // ----- Appending -----

  lemma InsertedAtEnd(ns: seq<Node>, more: seq<Node>)
    ensures Inserted(ns, more, null) == ns + more
  {
    assert ns[..|ns|] == ns && ns[|ns|..] == [];
  }

  // The node comes last in its new list.
  lemma AppendedTo(w: World, parent: Node, child: Node)
    requires Sound(w) && Allowed(w, Append(parent, child)) && child.kind != FragmentKind
    ensures var u := Apply(w, Append(parent, child));
            && u.kids.Keys == w.kids.Keys && u.kids[parent] == Less(w.kids[parent], child) + [child]
            && (forall q :: q in w.kids && q != parent ==> u.kids[q] == Less(w.kids[q], child)) && u.removed == w.removed
  {
    hide Sound, InsertBefore, AppendSingle, Inserted, Less;
    InsertedInto(w, parent, child, null);
    InsertedAtEnd(Less(w.kids[parent], child), [child]);
    if parent.kind == ElementKind { AppendIsInsertion(w, parent, child); }
  }

  lemma FragmentAppendedTo(w: World, parent: Node, child: Node)
    requires Sound(w) && Allowed(w, Append(parent, child)) && child.kind == FragmentKind
    ensures var u := Apply(w, Append(parent, child));
            u.kids == w.kids[child := []][parent := w.kids[parent] + w.kids[child]] && u.removed == w.removed
  {
    hide Sound, InsertBefore, Inserted;
    SplicedInto(w, parent, child, null);
    InsertedAtEnd(w.kids[parent], w.kids[child]);
  }

  // ----- Replacement -----

  // What was put in before a node, when that node has gone.
  lemma PutInstead(ns: seq<Node>, more: seq<Node>, n: Node)
    requires n in ns && Distinct(ns) && n !in more
    ensures n in Inserted(ns, more, n) && Without(Inserted(ns, more, n), n) == Instead(ns, n, more)
  {
    var i, us := IndexIn(ns, n), Inserted(ns, more, n);
    assert us == ns[..i] + more + ns[i..];
    assert us[i + |more|] == n;
    forall k | 0 <= k < |us| && k != i + |more| ensures us[k] != n {
      assert us[k] == if k < i then ns[k] else if k < i + |more| then more[k - i] else ns[k - |more|];
    }
    assert us[..i + |more|] == ns[..i] + more && us[i + |more| + 1..] == ns[i + 1..];
  }

  lemma LessIsDistinct(w: World, p: Node, n: Node)
    requires Sound(w) && p in w.kids && p in w.links
    ensures Distinct(Less(w.kids[p], n)) && n !in Less(w.kids[p], n)
  {
    assert Ends(w, p);
    if n in w.kids[p] { WithoutAt(w.kids[p], n); }
  }

  // The new node is in the place of the old one, which is removed; every other list only loses the new one.
  lemma ReplacedBy(w: World, parent: Node, child: Node, put: Node)
    requires Sound(w) && Allowed(w, Replace(parent, child, put)) && put.kind != FragmentKind
    ensures child in Less(w.kids[parent], put)
    ensures var u := Apply(w, Replace(parent, child, put));
            && u.kids.Keys == w.kids.Keys && u.kids[parent] == Instead(Less(w.kids[parent], put), child, [put])
            && (forall q :: q in w.kids && q != parent ==> u.kids[q] == Less(w.kids[q], put))
            && u.removed == w.removed + {child}
  {
    hide Sound, InsertBefore, RemoveChild, Inserted, Less, Without, Instead;
    InsertKeeps(w, parent, put, child);
    InsertKeepsOthers(w, parent, put, child, child);
    InsertedInto(w, parent, put, child);
    LessIsDistinct(w, parent, put);
    PutInstead(Less(w.kids[parent], put), [put], child);
    var v := InsertBefore(w, parent, put, child);
    RemovalIs(v, parent, child);
  }

  lemma RemovalIs(v: World, parent: Node, child: Node)
    requires Sound(v) && parent in v.links && parent in v.kids && child in v.kids[parent]
    ensures child in v.links
    ensures var u := RemoveChild(v, parent, child);
            u.kids == v.kids[parent := Without(v.kids[parent], child)] && u.removed == v.removed + {child}
  {
    hide Without;
    RemoveKeeps(v, parent, child);
  }

  // The children of a fragment are in the place of the old node, in their order.
  lemma ReplacedByFragment(w: World, parent: Node, child: Node, put: Node)
    requires Sound(w) && Allowed(w, Replace(parent, child, put)) && put.kind == FragmentKind
    ensures var u := Apply(w, Replace(parent, child, put));
            && u.kids == w.kids[put := []][parent := Instead(w.kids[parent], child, w.kids[put])]
            && u.removed == w.removed + {child}
  {
    hide Sound, InsertBefore, RemoveChild, Inserted, Without, Instead;
    InsertKeeps(w, parent, put, child);
    InsertKeepsOthers(w, parent, put, child, child);
    SplicedInto(w, parent, put, child);
    FragmentIsApart(w, parent, child, put);
    PutInstead(w.kids[parent], w.kids[put], child);
    RemovalIs(InsertBefore(w, parent, put, child), parent, child);
  }

  lemma FragmentIsApart(w: World, parent: Node, child: Node, put: Node)
    requires Sound(w) && InsertOk(w, parent, put, child) && put.kind == FragmentKind
    ensures Distinct(w.kids[parent]) && child !in w.kids[put]
  {
    assert Ends(w, parent);
    assert Linked(w, parent, IndexIn(w.kids[parent], child));
    forall n | n in w.kids[put] ensures n != child { assert Linked(w, put, IndexIn(w.kids[put], n)); }
  }
}
