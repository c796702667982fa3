// The lists of children of the DOM in web-adapter.js (module 41): the links between siblings and the
// index childNodes, under insertion, replacement and removal.
//
// The parents are elements and fragments.  A node that has been removed keeps its own links; here it
// is not inserted again, and DomReinsertion has what happens if it is.
module Dom {

  datatype Kind = ElementKind | FragmentKind | TextKind

  // The fields of a node that hold the tree together; the index is the part of childNodes below its
  // length.
  datatype Links = Links(first: Node?, last: Node?, previous: Node?, next: Node?, parent: Node?, index: seq<Node>)

  class Node {
    const kind: Kind
    var firstChild: Node?
    var lastChild: Node?
    var previousSibling: Node?
    var nextSibling: Node?
    var parentNode: Node?
    var childNodes: seq<Node>
    var data: string  // of texts

    constructor (kind: Kind)
      ensures this.kind == kind && Fields() == UNLINKED && data == ""
    {
      this.kind, childNodes, data := kind, [], "";
      firstChild, lastChild, previousSibling, nextSibling, parentNode := null, null, null, null, null;
    }

    ghost function Fields(): Links
      reads this
    {
      Links(firstChild, lastChild, previousSibling, nextSibling, parentNode, childNodes)
    }

    method AppendData(text: string)
      modifies this`data
      ensures data == old(data) + text
    {
      data := data + text;
    }
  }

  const UNLINKED := Links(null, null, null, null, null, [])

  // ----- Lists -----

  ghost predicate Distinct(ns: seq<Node>) {
    forall i, j :: 0 <= i < j < |ns| ==> ns[i] != ns[j]
  }

  function First(ns: seq<Node>): Node? {
    if ns == [] then null else ns[0]
  }

  function Last(ns: seq<Node>): Node? {
    if ns == [] then null else ns[|ns| - 1]
  }

  // The node before and after a position.
  function Before(ns: seq<Node>, i: nat): Node?
    requires i <= |ns|
  {
    if i == 0 then null else ns[i - 1]
  }

  function After(ns: seq<Node>, i: nat): Node?
    requires i < |ns|
  {
    if i + 1 == |ns| then null else ns[i + 1]
  }

  ghost function IndexIn(ns: seq<Node>, n: Node): (i: nat)
    requires n in ns
    ensures i < |ns| && ns[i] == n
  {
    var i :| 0 <= i < |ns| && ns[i] == n;
    i
  }

  // A list without one of its nodes.
  ghost function Without(ns: seq<Node>, n: Node): seq<Node>
    requires n in ns
  {
    var i := IndexIn(ns, n);
    ns[..i] + ns[i + 1..]
  }

  // Where nodes are put: before a node of the list, or at the end.
  ghost function Spot(ns: seq<Node>, next: Node?): (i: nat)
    requires next == null || next in ns
    ensures i <= |ns|
  {
    if next == null then |ns| else IndexIn(ns, next)
  }

  ghost function Inserted(ns: seq<Node>, more: seq<Node>, next: Node?): seq<Node>
    requires next == null || next in ns
  {
    var i := Spot(ns, next);
    ns[..i] + more + ns[i..]
  }

  // ----- The links of a document -----

  // The links of every node, its children, the nodes that have been removed, and the fragments whose
  // index is out of date.
  datatype World = World(links: map<Node, Links>, kids: map<Node, seq<Node>>, removed: set<Node>, stale: set<Node>)

  const EMPTY := World(map[], map[], {}, {})

  // The ends and the index of the list of `p`.
  ghost predicate Ends(w: World, p: Node)
    requires p in w.links && p in w.kids
  {
    && w.links[p].first == First(w.kids[p]) && w.links[p].last == Last(w.kids[p])
    && (p !in w.stale ==> w.links[p].index == w.kids[p])
    && Distinct(w.kids[p])
  }

  // The links of the child number `i` of `p`.
  ghost predicate Linked(w: World, p: Node, i: nat)
    requires p in w.kids && i < |w.kids[p]|
  {
    var c := w.kids[p][i];
    && c in w.links && c !in w.removed && c.kind != FragmentKind
    && w.links[c].parent == p && w.links[c].previous == Before(w.kids[p], i) && w.links[c].next == After(w.kids[p], i)
  }

  // A node with a parent is in its list, unless it has been removed; a fragment has no parent.
  ghost predicate Attached(w: World, n: Node)
    requires n in w.links
  {
    var p := w.links[n].parent;
    && (p != null && n !in w.removed ==> p in w.kids && n in w.kids[p])
    && (n.kind == FragmentKind ==> p == null && n !in w.removed)
  }

  // Links and index agree with the lists of children; the list of `but` may have other ends.
  ghost predicate SoundBut(w: World, but: Node?) {
    && w.kids.Keys == w.links.Keys && w.removed <= w.links.Keys
    && (forall p {:trigger Ends(w, p)} :: p in w.kids && p != but ==> Ends(w, p))
    && (forall p, i {:trigger Linked(w, p, i)} :: p in w.kids && 0 <= i < |w.kids[p]| ==> Linked(w, p, i))
    && (forall n {:trigger Attached(w, n)} :: n in w.links ==> Attached(w, n))
    && (forall p :: p in w.stale ==> p.kind == FragmentKind)
  }

  ghost predicate Sound(w: World) {
    SoundBut(w, null)
  }

  // ----- Taking a child out -----

  // The links around a child that is taken out; its own stay.
  ghost function UnlinkedAt(w: World, parent: Node, child: Node, n: Node): Links
    requires child in w.links && n in w.links
  {
    var l, c := w.links[n], w.links[child];
    l.(next := if n == c.previous then c.next else l.next,
       previous := if n == c.next then c.previous else l.previous,
       first := if n == parent && c.previous == null then c.next else l.first,
       last := if n == parent && c.next == null then c.previous else l.last)
  }

  ghost function Unlink(w: World, parent: Node, child: Node): World
    requires child in w.links && parent in w.kids && child in w.kids[parent]
  {
    w.(links := map n | n in w.links :: UnlinkedAt(w, parent, child, n),
       kids := w.kids[parent := Without(w.kids[parent], child)],
       removed := w.removed + {child})
  }

  // The index is filled again.
  ghost function Reindex(w: World, el: Node): World
    requires el in w.links && el in w.kids
  {
    w.(links := w.links[el := w.links[el].(index := w.kids[el])], stale := w.stale - {el})
  }

  lemma WithoutAt(ns: seq<Node>, n: Node)
    requires n in ns && Distinct(ns)
    ensures var k, u := IndexIn(ns, n), Without(ns, n);
            && |u| == |ns| - 1 && n !in u && Distinct(u)
            && (forall i :: 0 <= i < |u| ==> u[i] == ns[if i < k then i else i + 1])
            && (forall m :: m in ns && m != n ==> m in u)
  {
    var k, u := IndexIn(ns, n), Without(ns, n);
    forall m | m in ns && m != n ensures m in u {
      var j := IndexIn(ns, m);
      assert u[if j < k then j else j - 1] == m;
    }
  }

  lemma Neighbours(w: World, parent: Node, child: Node)
    requires Sound(w) && parent in w.kids && child in w.kids[parent]
    ensures Ends(w, parent) && child in w.links
    ensures var ns, k := w.kids[parent], IndexIn(w.kids[parent], child);
            && w.links[child].previous == Before(ns, k) && w.links[child].next == After(ns, k)
            && w.links[child].parent == parent
            && (k > 0 ==> ns[k - 1] in w.links && w.links[ns[k - 1]].parent == parent)
            && (k + 1 < |ns| ==> ns[k + 1] in w.links && w.links[ns[k + 1]].parent == parent)
  {
    var ns, k := w.kids[parent], IndexIn(w.kids[parent], child);
    assert Linked(w, parent, k) && Ends(w, parent);
    assert k > 0 ==> Linked(w, parent, k - 1);
    assert k + 1 < |ns| ==> Linked(w, parent, k + 1);
  }

  lemma UnlinkLinked(w: World, parent: Node, child: Node, p: Node, i: nat)
    requires Sound(w) && parent in w.kids && child in w.kids[parent] && child in w.links
    requires p in w.kids && i < |Unlink(w, parent, child).kids[p]|
    ensures Linked(Unlink(w, parent, child), p, i)
  {
    var ns := w.kids[parent];
    var k := IndexIn(ns, child);
    Neighbours(w, parent, child);
    WithoutAt(ns, child);
    assert Linked(w, p, if p == parent && i >= k then i + 1 else i);
    hide Without;
  }

  lemma UnlinkKeeps(w: World, parent: Node, child: Node)
    requires Sound(w) && parent in w.kids && child in w.kids[parent] && child in w.links
    ensures var u := Unlink(w, parent, child);
            parent in u.links && parent in u.kids && SoundBut(u, parent) && u.links[parent].first == First(u.kids[parent]) && u.links[parent].last == Last(u.kids[parent]) && Distinct(u.kids[parent])
  {
    var u := Unlink(w, parent, child);
    Neighbours(w, parent, child);
    WithoutAt(w.kids[parent], child);
    forall p, i | p in u.kids && 0 <= i < |u.kids[p]| ensures Linked(u, p, i) {
      UnlinkLinked(w, parent, child, p, i);
    }
    forall p | p in u.kids && p != parent ensures Ends(u, p) {
      assert Ends(w, p);
    }
    forall n | n in u.links ensures Attached(u, n) {
      assert Attached(w, n);
    }
  }

  lemma ReindexKeeps(w: World, el: Node)
    requires SoundBut(w, el) && el in w.kids && el in w.links && Distinct(w.kids[el])
    requires w.links[el].first == First(w.kids[el]) && w.links[el].last == Last(w.kids[el])
    ensures Sound(Reindex(w, el))
  {
    var u := Reindex(w, el);
    forall p, i | p in u.kids && 0 <= i < |u.kids[p]| ensures Linked(u, p, i) {
      assert Linked(w, p, i);
    }
    forall p | p in u.kids ensures Ends(u, p) {
      assert p != el ==> Ends(w, p);
    }
    forall n | n in u.links ensures Attached(u, n) {
      assert Attached(w, n);
    }
  }

  // ----- Putting nodes in -----

  // A node that is in no list, and may be put into one.
  ghost predicate Loose(w: World, n: Node) {
    n in w.links && n.kind != FragmentKind && (n in w.removed || w.links[n].parent == null)
  }

  // Nodes that are linked to each other in order.
  ghost predicate Chain(w: World, ns: seq<Node>)
    requires forall n :: n in ns ==> n in w.links
  {
    && (forall i :: 0 <= i < |ns| - 1 ==> w.links[ns[i]].next == ns[i + 1])
    && (forall i :: 0 < i < |ns| ==> w.links[ns[i]].previous == ns[i - 1])
  }

  ghost predicate Insertable(w: World, parent: Node, seg: seq<Node>, next: Node?) {
    && seg != [] && Distinct(seg) && (forall n :: n in seg ==> Loose(w, n)) && Chain(w, seg)
    && parent in w.kids && parent in w.links && parent !in seg
    && (next == null || (next in w.kids[parent] && next in w.links))
  }

  // The node after which the new ones come.
  function Predecessor(w: World, parent: Node, next: Node?): Node?
    requires parent in w.links && (next != null ==> next in w.links)
  {
    if next != null then w.links[next].previous else w.links[parent].last
  }

  ghost function SplicedAt(w: World, parent: Node, seg: seq<Node>, next: Node?, n: Node): Links
    requires Insertable(w, parent, seg, next) && n in w.links
  {
    var l := w.links[n];
    var pre := Predecessor(w, parent, next);
    l.(previous := if n == seg[0] then pre else if n == next then Last(seg) else l.previous,
       next := if n == Last(seg) then next else if n == pre then seg[0] else l.next,
       first := if n == parent && pre == null then seg[0] else l.first,
       last := if n == parent && next == null then Last(seg) else l.last,
       parent := if n in seg then parent else l.parent)
  }

  ghost function Splice(w: World, parent: Node, seg: seq<Node>, next: Node?): World
    requires Insertable(w, parent, seg, next)
  {
    w.(links := map n | n in w.links :: SplicedAt(w, parent, seg, next, n),
       kids := w.kids[parent := Inserted(w.kids[parent], seg, next)],
       removed := w.removed - (set n | n in seg))
  }

  lemma LooseIsNowhere(w: World, n: Node, p: Node)
    requires Sound(w) && Loose(w, n) && p in w.kids
    ensures n !in w.kids[p]
  {
    forall i | 0 <= i < |w.kids[p]| ensures w.kids[p][i] != n {
      assert Linked(w, p, i);
    }
  }

  // What Inserted does to the positions.
  lemma InsertAt(ns: seq<Node>, seg: seq<Node>, next: Node?)
    requires Distinct(ns) && Distinct(seg) && (forall n :: n in seg ==> n !in ns) && (next == null || next in ns)
    ensures var k, u := Spot(ns, next), Inserted(ns, seg, next);
            && |u| == |ns| + |seg| && Distinct(u)
            && (forall i :: 0 <= i < |u| ==>
                  u[i] == if i < k then ns[i] else if i < k + |seg| then seg[i - k] else ns[i - |seg|])
            && (forall n :: n in ns ==> n in u) && (forall n :: n in seg ==> n in u)
  {
    var k, u := Spot(ns, next), Inserted(ns, seg, next);
    forall i, j | 0 <= i < j < |u| ensures u[i] != u[j] {
      assert u[i] in seg <==> k <= i < k + |seg|;
      assert u[j] in seg <==> k <= j < k + |seg|;
    }
    forall n | n in ns ensures n in u {
      var j := IndexIn(ns, n);
      assert u[if j < k then j else j + |seg|] == n;
    }
    forall n | n in seg ensures n in u {
      assert u[k + IndexIn(seg, n)] == n;
    }
  }

  // Around the spot, before the nodes are put in.
  lemma AroundSpot(w: World, parent: Node, seg: seq<Node>, next: Node?)
    requires Sound(w) && Insertable(w, parent, seg, next)
    ensures Ends(w, parent) && forall n :: n in seg ==> n !in w.kids[parent]
    ensures var ns := w.kids[parent];
            var k := Spot(ns, next);
            && Predecessor(w, parent, next) == Before(ns, k)
            && (next != null ==> k < |ns| && w.links[next].parent == parent)
            && (k > 0 ==> ns[k - 1] in w.links && w.links[ns[k - 1]].parent == parent && ns[k - 1] !in w.removed)
  {
    var ns := w.kids[parent];
    var k := Spot(ns, next);
    assert Ends(w, parent);
    if k < |ns| { assert Linked(w, parent, k); }
    if k > 0 { assert Linked(w, parent, k - 1); }
    forall n | n in seg ensures n !in ns { LooseIsNowhere(w, n, parent); }
  }

  lemma SpliceElsewhere(w: World, parent: Node, seg: seq<Node>, next: Node?, p: Node, i: nat)
    requires Sound(w) && Insertable(w, parent, seg, next)
    requires p in w.kids && p != parent && i < |w.kids[p]|
    ensures p in Splice(w, parent, seg, next).kids && Splice(w, parent, seg, next).kids[p] == w.kids[p]
    ensures Linked(Splice(w, parent, seg, next), p, i)
  {
    hide Inserted, Spot;
    AroundSpot(w, parent, seg, next);
    assert Linked(w, p, i);
    forall n | n in seg ensures n !in w.kids[p] { LooseIsNowhere(w, n, p); }
  }

  lemma SpliceLinked(w: World, parent: Node, seg: seq<Node>, next: Node?, p: Node, i: nat)
    requires Sound(w) && Insertable(w, parent, seg, next)
    requires p in w.kids && i < |Splice(w, parent, seg, next).kids[p]|
    ensures Linked(Splice(w, parent, seg, next), p, i)
  {
    if p != parent {
      SpliceElsewhere(w, parent, seg, next, p, i);
    } else {
      AroundSpot(w, parent, seg, next);
      InsertAt(w.kids[parent], seg, next);
      hide Inserted, Spot;
      SpliceHere(w, parent, seg, next, Inserted(w.kids[parent], seg, next), Spot(w.kids[parent], next), i);
    }
  }

  // The list of the parent, with the new nodes from position k on.
  lemma SpliceHere(w: World, parent: Node, seg: seq<Node>, next: Node?, us: seq<Node>, k: nat, i: nat)
    requires Sound(w) && Insertable(w, parent, seg, next) && k == Spot(w.kids[parent], next) <= |w.kids[parent]|
    requires us == Inserted(w.kids[parent], seg, next) && i < |us| == |w.kids[parent]| + |seg| && Distinct(us)
    requires forall j :: 0 <= j < |us| ==>
      us[j] == if j < k then w.kids[parent][j] else if j < k + |seg| then seg[j - k] else w.kids[parent][j - |seg|]
    ensures Linked(Splice(w, parent, seg, next), parent, i)
  {
    AroundSpot(w, parent, seg, next);
    hide Inserted, Spot, Distinct;
    if i < k {
      assert Linked(w, parent, i) && us[i] !in seg;
    } else if i < k + |seg| {
      assert Loose(w, us[i]);
    } else {
      assert Linked(w, parent, i - |seg|) && us[i] !in seg;
    }
  }

  lemma SpliceKeeps(w: World, parent: Node, seg: seq<Node>, next: Node?)
    requires Sound(w) && Insertable(w, parent, seg, next)
    ensures var u := Splice(w, parent, seg, next);
            && parent in u.links && parent in u.kids && SoundBut(u, parent) && Distinct(u.kids[parent])
            && u.links[parent].first == First(u.kids[parent]) && u.links[parent].last == Last(u.kids[parent])
            && u.links[parent].index == w.links[parent].index
  {
    var u := Splice(w, parent, seg, next);
    var ns := w.kids[parent];
    AroundSpot(w, parent, seg, next);
    InsertAt(ns, seg, next);
    forall p, i | p in u.kids && 0 <= i < |u.kids[p]| ensures Linked(u, p, i) {
      SpliceLinked(w, parent, seg, next, p, i);
    }
    forall p | p in u.kids && p != parent ensures Ends(u, p) {
      assert Ends(w, p);
    }
    forall n | n in u.links ensures Attached(u, n) {
      assert Attached(w, n);
    }
  }

  // ----- Fragments -----

  // The children of a fragment are taken out together.  Its index is not touched.
  ghost function TakeAll(w: World, from: Node): World
    requires from in w.links && from in w.kids
  {
    w.(links := w.links[from := w.links[from].(first := null, last := null)],
       kids := w.kids[from := []],
       removed := w.removed + (set n | n in w.kids[from]),
       stale := w.stale + {from})
  }

  lemma TakeAllLinked(w: World, from: Node, p: Node, i: nat)
    requires Sound(w) && from in w.kids && from in w.links && p in w.kids && i < |TakeAll(w, from).kids[p]|
    ensures Linked(TakeAll(w, from), p, i)
  {
    assert Linked(w, p, i);
    forall j | 0 <= j < |w.kids[from]| ensures w.kids[from][j] != w.kids[p][i] { assert Linked(w, from, j); }
  }

  lemma TakeAllSound(w: World, from: Node)
    requires Sound(w) && from in w.kids && from in w.links && from.kind == FragmentKind
    ensures Sound(TakeAll(w, from))
  {
    var u := TakeAll(w, from);
    forall i | 0 <= i < |w.kids[from]| ensures w.kids[from][i] in w.links && w.kids[from][i].kind != FragmentKind { assert Linked(w, from, i); }
    forall p, i | p in u.kids && 0 <= i < |u.kids[p]| ensures Linked(u, p, i) {
      TakeAllLinked(w, from, p, i);
    }
    forall p | p in u.kids ensures Ends(u, p) {
      assert Ends(w, p);
    }
    forall n | n in u.links ensures Attached(u, n) {
      assert Attached(w, n);
    }
  }

  lemma TakeAllKeeps(w: World, from: Node)
    requires Sound(w) && from in w.kids && from in w.links && from.kind == FragmentKind
    ensures var u := TakeAll(w, from);
            && Sound(u) && Distinct(w.kids[from]) && from !in w.kids[from]
            && (forall n :: n in w.kids[from] ==> Loose(u, n)) && Chain(u, w.kids[from])
  {
    TakeAllSound(w, from);
    var u := TakeAll(w, from);
    var ns := w.kids[from];
    assert Ends(w, from);
    forall i | 0 <= i < |ns| ensures Loose(u, ns[i]) && ns[i] != from
      && w.links[ns[i]].previous == Before(ns, i) && w.links[ns[i]].next == After(ns, i)
    {
      assert Linked(w, from, i);
    }
  }

  // ----- The operations -----

  // A node is taken out of the list it is in.
  ghost function Detach(w: World, child: Node): World
    requires Sound(w) && child in w.links && child !in w.removed
  {
    var cp := w.links[child].parent;
    assert Attached(w, child);
    if cp == null then w else Reindex(Unlink(w, cp, child), cp)
  }

  lemma DetachKeeps(w: World, child: Node)
    requires Sound(w) && child in w.links && child !in w.removed
    ensures var u := Detach(w, child);
            && Sound(u) && u.links.Keys == w.links.Keys
            && (child.kind != FragmentKind ==> Loose(u, child))
  {
    var cp := w.links[child].parent;
    assert Attached(w, child);
    if cp != null {
      UnlinkKeeps(w, cp, child);
      ReindexKeeps(Unlink(w, cp, child), cp);
    }
  }

  // What the caller sees to: the parent can have children, the node was not removed earlier, the
  // reference node is another child of the parent, and the parent is not the node itself or a child
  // of the fragment.
  ghost predicate InsertOk(w: World, parent: Node, child: Node, next: Node?) {
    && parent in w.links && parent in w.kids && parent.kind != TextKind
    && child in w.links && child in w.kids && child !in w.removed && child != parent
    && (child.kind == FragmentKind ==> parent !in w.kids[child])
    && (next != null ==> next in w.kids[parent] && next != child)
  }

  // _insertBefore.
  ghost function InsertBefore(w: World, parent: Node, child: Node, next: Node?): World
    requires Sound(w) && InsertOk(w, parent, child, next)
  {
    DetachReady(w, parent, child, next);
    var v := Detach(w, child);
    if child.kind != FragmentKind then
      Reindex(Splice(v, parent, [child], next), parent)
    else if v.kids[child] == [] then v
    else
      TakeAllReady(v, parent, child, next);
      Reindex(Splice(TakeAll(v, child), parent, v.kids[child], next), parent)
  }

  lemma DetachReady(w: World, parent: Node, child: Node, next: Node?)
    requires Sound(w) && InsertOk(w, parent, child, next)
    ensures var v := Detach(w, child);
            && Sound(v) && v.links.Keys == w.links.Keys && InsertOk(v.(removed := w.removed), parent, child, next)
            && (child.kind == FragmentKind ==> v == w)
            && (child.kind != FragmentKind ==> Insertable(v, parent, [child], next))
  {
    DetachKeeps(w, child);
    assert Attached(w, child);
    var cp := w.links[child].parent;
    if cp != null { Neighbours(w, cp, child); WithoutAt(w.kids[cp], child); }
    var v := Detach(w, child);
    if next != null { assert Linked(v, parent, IndexIn(v.kids[parent], next)); }
    assert Chain(v, [child]);
  }

  lemma TakeAllReady(w: World, parent: Node, child: Node, next: Node?)
    requires Sound(w) && InsertOk(w, parent, child, next) && child.kind == FragmentKind && w.kids[child] != []
    ensures var v := TakeAll(w, child);
            Sound(v) && Insertable(v, parent, w.kids[child], next)
  {
    TakeAllKeeps(w, child);
    var v := TakeAll(w, child);
    if next != null { assert Linked(v, parent, IndexIn(v.kids[parent], next)); }
  }

  lemma InsertKeeps(w: World, parent: Node, child: Node, next: Node?)
    requires Sound(w) && InsertOk(w, parent, child, next)
    ensures Sound(InsertBefore(w, parent, child, next))
  {
    DetachReady(w, parent, child, next);
    var v := Detach(w, child);
    if child.kind != FragmentKind {
      SpliceKeeps(v, parent, [child], next);
      ReindexKeeps(Splice(v, parent, [child], next), parent);
    } else if v.kids[child] != [] {
      TakeAllReady(v, parent, child, next);
      var t := TakeAll(v, child);
      SpliceKeeps(t, parent, v.kids[child], next);
      ReindexKeeps(Splice(t, parent, v.kids[child], next), parent);
    }
  }

  // No node comes or goes.
  lemma InsertKeepsNodes(w: World, parent: Node, child: Node, next: Node?)
    requires Sound(w) && InsertOk(w, parent, child, next)
    ensures InsertBefore(w, parent, child, next).links.Keys == w.links.Keys
  {
    DetachReady(w, parent, child, next);
    var v := Detach(w, child);
    if child.kind != FragmentKind {
      assert Splice(v, parent, [child], next).links.Keys == v.links.Keys;
    } else if v.kids[child] != [] {
      TakeAllReady(w, parent, child, next);
      assert Splice(TakeAll(v, child), parent, v.kids[child], next).links.Keys == v.links.Keys;
    }
  }

  // _appendSingleChild: the index only grows.
  ghost function AppendSingle(w: World, parent: Node, child: Node): World
    requires Sound(w) && InsertOk(w, parent, child, null) && child.kind != FragmentKind
  {
    DetachReady(w, parent, child, null);
    var u := Splice(Detach(w, child), parent, [child], null);
    u.(links := u.links[parent := u.links[parent].(index := u.links[parent].index + [child])])
  }

  // On an element that is the insertion at the end.
  lemma AppendIsInsertion(w: World, parent: Node, child: Node)
    requires Sound(w) && InsertOk(w, parent, child, null) && child.kind != FragmentKind && parent.kind == ElementKind
    ensures AppendSingle(w, parent, child) == InsertBefore(w, parent, child, null)
  {
    DetachReady(w, parent, child, null);
    var v := Detach(w, child);
    SpliceKeeps(v, parent, [child], null);
    assert Ends(v, parent) && parent !in v.stale;
    assert v.kids[parent] + [child] == Inserted(v.kids[parent], [child], null);
  }

  // _removeChild.
  ghost function RemoveChild(w: World, parent: Node, child: Node): World
    requires parent in w.links && child in w.links && parent in w.kids && child in w.kids[parent]
  {
    Reindex(Unlink(w, parent, child), parent)
  }

  lemma RemoveKeeps(w: World, parent: Node, child: Node)
    requires Sound(w) && parent in w.links && parent in w.kids && child in w.kids[parent]
    ensures child in w.links && Sound(RemoveChild(w, parent, child))
  {
    Neighbours(w, parent, child);
    UnlinkKeeps(w, parent, child);
    ReindexKeeps(Unlink(w, parent, child), parent);
  }

  // Others than the one that is inserted stay in the list of the parent.
  lemma InsertKeepsOthers(w: World, parent: Node, child: Node, next: Node?, other: Node)
    requires Sound(w) && InsertOk(w, parent, child, next) && other in w.kids[parent] && other != child
    ensures var u := InsertBefore(w, parent, child, next);
            parent in u.links && parent in u.kids && other in u.kids[parent]
  {
    DetachReady(w, parent, child, next);
    var v := Detach(w, child);
    assert Attached(w, child);
    if w.links[child].parent == parent { Neighbours(w, parent, child); WithoutAt(w.kids[parent], child); }
    if child.kind != FragmentKind {
      AroundSpot(v, parent, [child], next);
      InsertAt(v.kids[parent], [child], next);
    } else if v.kids[child] != [] {
      TakeAllReady(v, parent, child, next);
      AroundSpot(TakeAll(v, child), parent, v.kids[child], next);
      InsertAt(v.kids[parent], v.kids[child], next);
    }
  }

  // ----- Runs -----

  datatype Op =
    | Create(n: Node)
    | Insert(parent: Node, child: Node, next: Node?)
    | Append(parent: Node, child: Node)
    | Remove(parent: Node, child: Node)
    | Replace(parent: Node, child: Node, put: Node)

  ghost predicate Allowed(w: World, op: Op) {
    match op
    case Create(n) => n !in w.links && n !in w.kids
    case Insert(parent, child, next) => InsertOk(w, parent, child, next)
    case Append(parent, child) => InsertOk(w, parent, child, null)
    case Remove(parent, child) => parent in w.links && parent in w.kids && child in w.kids[parent]
    case Replace(parent, child, put) => InsertOk(w, parent, put, child)
  }

  ghost function Apply(w: World, op: Op): World
    requires Sound(w) && Allowed(w, op)
  {
    match op
    case Create(n) => w.(links := w.links[n := UNLINKED], kids := w.kids[n := []])
    case Insert(parent, child, next) => InsertBefore(w, parent, child, next)
    case Append(parent, child) =>
      if parent.kind == ElementKind && child.kind != FragmentKind then AppendSingle(w, parent, child)
      else InsertBefore(w, parent, child, null)
    case Remove(parent, child) =>
      RemoveKeeps(w, parent, child);
      RemoveChild(w, parent, child)
    case Replace(parent, child, put) =>
      InsertKeeps(w, parent, put, child);
      InsertKeepsOthers(w, parent, put, child, child);
      var v := InsertBefore(w, parent, put, child);
      RemoveKeeps(v, parent, child);
      RemoveChild(v, parent, child)
  }

  lemma CreateKeeps(w: World, n: Node)
    requires Sound(w) && n !in w.links && n !in w.kids
    ensures Sound(w.(links := w.links[n := UNLINKED], kids := w.kids[n := []]))
  {
    var u := w.(links := w.links[n := UNLINKED], kids := w.kids[n := []]);
    forall p, i | p in u.kids && 0 <= i < |u.kids[p]| ensures Linked(u, p, i) {
      assert Linked(w, p, i);
    }
    forall p | p in u.kids ensures Ends(u, p) {
      assert p != n ==> Ends(w, p);
    }
    forall m | m in u.links ensures Attached(u, m) {
      assert m != n ==> Attached(w, m);
    }
  }

  // Every operation keeps the links and the indexes.
  lemma ApplyKeeps(w: World, op: Op)
    requires Sound(w) && Allowed(w, op)
    ensures Sound(Apply(w, op))
  {
    hide Sound;
    match op
    case Create(n) => CreateKeeps(w, n);
    case Insert(parent, child, next) => InsertKeeps(w, parent, child, next);
    case Append(parent, child) =>
      InsertKeeps(w, parent, child, null);
      if parent.kind == ElementKind && child.kind != FragmentKind { AppendIsInsertion(w, parent, child); }
    case Remove(parent, child) => RemoveKeeps(w, parent, child);
    case Replace(parent, child, put) =>
      InsertKeeps(w, parent, put, child);
      InsertKeepsOthers(w, parent, put, child, child);
      RemoveKeeps(InsertBefore(w, parent, put, child), parent, child);
  }
}
