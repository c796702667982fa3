// The operations of the DOM on nodes that are updated in place, each shown to do what Dom says.
module DomDocument {
  import opened Dom

  class Document {
    ghost var world: World

    // The nodes are those of the world; a fragment that is being emptied still has its ends.
    ghost predicate Mirrors(but: Node?)
      reads this, world.links.Keys
    {
      forall n :: n in world.links ==>
        if n == but then n.Fields().(first := null, last := null) == world.links[n] else n.Fields() == world.links[n]
    }

    ghost predicate Valid()
      reads this, world.links.Keys
    {
      Mirrors(null) && Sound(world)
    }

    constructor ()
      ensures Valid() && world == EMPTY
    {
      world := EMPTY;
    }

    lemma MirroredFields(but: Node?)
      requires Mirrors(but)
      ensures forall n :: n in world.links && n != but ==> n.Fields() == world.links[n]
      ensures but != null && but in world.links ==> but.Fields().(first := null, last := null) == world.links[but]
    {
    }

    // The nodes are those of another world now.
    ghost method Become(w: World, but: Node?)
      requires forall n :: n in w.links && n != but ==> n.Fields() == w.links[n]
      requires but != null && but in w.links ==> but.Fields().(first := null, last := null) == w.links[but]
      modifies this
      ensures Mirrors(but) && world == w
    {
      world := w;
    }

    method CreateNode(kind: Kind) returns (n: Node)
      requires Valid()
      modifies this
      ensures Valid() && fresh(n) && n.kind == kind
      ensures Allowed(old(world), Create(n)) && world == Apply(old(world), Create(n))
    {
      n := new Node(kind);
      CreateKeeps(world, n);
      world := Apply(world, Create(n));
    }

    // _onUpdateChild without a new child: a walk along the list fills the index.
    method UpdateChildren(el: Node, ghost but: Node?)
      requires Mirrors(but) && SoundBut(world, el) && el in world.kids && el in world.links && el != but
      requires world.links[el].first == First(world.kids[el])
      modifies this, el`childNodes
      ensures Mirrors(but) && world == Reindex(old(world), el)
    {
      hide SoundBut, Reindex, Mirrors;
      MirroredFields(but);
      ghost var ns := world.kids[el];
      var child := el.firstChild;
      el.childNodes := [];
      ghost var i := 0;
      while child != null
        invariant i <= |ns| && el.childNodes == ns[..i] && child == (if i < |ns| then ns[i] else null)
        invariant world == old(world)
        invariant forall n :: n in world.links ==>
          n.Fields().(index := []) == old(n.Fields()).(index := []) && (n != el ==> n.childNodes == old(n.childNodes))
        decreases |ns| - i
      {
        ChildLinked(world, el, i);
        el.childNodes := el.childNodes + [child];
        child := child.nextSibling;
        i := i + 1;
      }
      assert ns[..i] == ns;
      ReindexLinks(world, el);
      Become(Reindex(world, el), but);
    }

    // The links around a child that is taken out.
    method LinkAround(parent: Node, child: Node)
      requires Mirrors(null) && Sound(world) && parent in world.kids && child in world.kids[parent]
      modifies this, world.links.Keys
      ensures child in old(world).links && Mirrors(null) && world == Unlink(old(world), parent, child)
      ensures forall n :: n in old(world).links ==> n.data == old(n.data)
    {
      hide Sound, Unlink, Mirrors, Bridged;
      ghost var w := world;
      MirroredFields(null);
      Neighbours(w, parent, child);
      EndsKeep(w, parent);
      UnlinkFields(w, parent, child);
      var previous := child.previousSibling;
      var next := child.nextSibling;
      Bridge(parent, previous, next, w.links.Keys);
      Become(Unlink(w, parent, child), null);
    }

    // The nodes before and after are linked to each other.
    method Bridge(parent: Node, previous: Node?, next: Node?, ghost nodes: set<Node>)
      requires parent in nodes && (previous != null ==> previous in nodes) && (next != null ==> next in nodes)
      modifies nodes
      ensures forall n :: n in nodes ==> n.Fields() == Bridged(old(n.Fields()), parent, previous, next, n) && n.data == old(n.data)
    {
      if previous != null {
        previous.nextSibling := next;
      } else {
        parent.firstChild := next;
      }
      if next != null {
        next.previousSibling := previous;
      } else {
        parent.lastChild := previous;
      }
    }

    // _removeChild.
    method RemoveChild(parent: Node, child: Node)
      requires Valid() && parent in world.links && parent in world.kids && child in world.kids[parent]
      modifies this, world.links.Keys
      ensures Valid() && Allowed(old(world), Remove(parent, child)) && world == Apply(old(world), Remove(parent, child))
      ensures forall n :: n in old(world).links ==> n.data == old(n.data)
    {
      hide Sound, Unlink, Reindex, Mirrors;
      RemoveKeeps(world, parent, child);
      UnlinkKeeps(world, parent, child);
      UnlinkFields(world, parent, child);
      LinkAround(parent, child);
      UpdateChildren(parent, null);
    }

    // A node is taken out of the list it is in.
    method Detach(child: Node)
      requires Valid() && child in world.links && child !in world.removed
      modifies this, world.links.Keys
      ensures Valid() && world == Dom.Detach(old(world), child)
    {
      hide Sound;
      AttachedParent(world, child);
      if child.parentNode != null {
        RemoveChild(child.parentNode, child);
      }
    }

    // The parent of every node from the first to the last.
    method SetParents(parent: Node, newFirst: Node, newLast: Node, ghost seg: seq<Node>)
      requires seg != [] && newFirst == seg[0] && newLast == Last(seg) && Distinct(seg)
      requires forall i :: 0 <= i < |seg| - 1 ==> seg[i].nextSibling == seg[i + 1]
      modifies seg`parentNode
      ensures forall n :: n in seg ==> n.parentNode == parent
    {
      var n := newFirst;
      ghost var i := 0;
      n.parentNode := parent;
      while n != newLast
        invariant i < |seg| && n == seg[i] && forall j :: 0 <= j <= i ==> seg[j].parentNode == parent
        invariant forall j :: 0 <= j < |seg| - 1 ==> seg[j].nextSibling == seg[j + 1]
        decreases |seg| - i
      {
        assert i < |seg| - 1 && seg[i].nextSibling == seg[i + 1];
        n := n.nextSibling;
        i := i + 1;
        n.parentNode := parent;
      }
      assert i == |seg| - 1;
    }

    // The four links at the ends of a chain that is put in between `pre` and `next`.
    method LinkEnds(parent: Node, newFirst: Node, newLast: Node, pre: Node?, next: Node?, ghost nodes: set<Node>)
      requires parent in nodes && newFirst in nodes && newLast in nodes
      requires (pre != null ==> pre in nodes && pre != newLast) && (next != null ==> next in nodes && next != newFirst)
      modifies nodes
      ensures forall n :: n in nodes ==> n.Fields() == EndsLinked(old(n.Fields()), parent, newFirst, newLast, pre, next, n)
    {
      newFirst.previousSibling := pre;
      newLast.nextSibling := next;
      if pre != null {
        pre.nextSibling := newFirst;
      } else {
        parent.firstChild := newFirst;
      }
      if next == null {
        parent.lastChild := newLast;
      } else {
        next.previousSibling := newLast;
      }
    }

    // The links at the ends, and the parents along the chain.
    method LinkChain(parent: Node, newFirst: Node, newLast: Node, pre: Node?, next: Node?, ghost seg: seq<Node>, ghost nodes: set<Node>)
      requires parent in nodes && seg != [] && newFirst == seg[0] && newLast == seg[|seg| - 1] && Distinct(seg)
      requires (pre != null ==> pre in nodes && pre != newLast) && (next != null ==> next in nodes && next != newFirst)
      requires forall n :: n in seg ==> n in nodes
      requires forall i :: 0 <= i < |seg| - 1 ==> EndsLinked(seg[i].Fields(), parent, newFirst, newLast, pre, next, seg[i]).next == seg[i + 1]
      modifies nodes
      ensures forall n :: n in nodes ==>
        n.Fields() == EndsLinked(old(n.Fields()), parent, newFirst, newLast, pre, next, n).(parent := if n in seg then parent else old(n.parentNode))
    {
      hide Distinct;
      LinkEnds(parent, newFirst, newLast, pre, next, nodes);
      hide EndsLinked;
      SetParents(parent, newFirst, newLast, seg);
    }

    // The links of a chain of nodes that is put in before `next`.
    method Link(parent: Node, newFirst: Node, newLast: Node, next: Node?, ghost seg: seq<Node>, ghost but: Node?)
      requires Mirrors(but) && Sound(world) && Insertable(world, parent, seg, next) && newFirst == seg[0] && newLast == Last(seg)
      requires parent != but && but !in seg
      modifies this, world.links.Keys
      ensures Mirrors(but) && world == Splice(old(world), parent, seg, next)
    {
      hide Sound, Splice, Insertable, Predecessor, EndsLinked, Mirrors;
      ghost var w := world;
      SegmentNodes(w, parent, seg, next);
      SpliceFields(w, parent, seg, next);
      MirroredFields(but);
      ghost var pre0 := Predecessor(w, parent, next);
      assert (if next != null then next.previousSibling else parent.lastChild) == pre0 by { PredecessorIs(w, parent, seg, next); }
      var pre := if next != null then next.previousSibling else parent.lastChild;
      if but != null { EndsElsewhere(but.Fields(), parent, newFirst, newLast, pre, next, but); }
      LinkChain(parent, newFirst, newLast, pre, next, seg, w.links.Keys);
      Become(Splice(w, parent, seg, next), but);
    }

    // The nodes of a fragment are put in; the fragment is empty then.
    method InsertAll(parent: Node, newChild: Node, nextChild: Node?)
      requires Valid() && InsertOk(world, parent, newChild, nextChild)
      requires newChild.kind == FragmentKind && world.kids[newChild] != []
      modifies this, world.links.Keys
      ensures world == Dom.InsertBefore(old(world), parent, newChild, nextChild) && Mirrors(null)
    {
      hide Sound, Splice, Reindex, TakeAll, Dom.Detach, Mirrors;
      ghost var w, seg := world, world.kids[newChild];
      EndsKeep(w, newChild);
      DetachReady(w, parent, newChild, nextChild);
      TakeAllReady(w, parent, newChild, nextChild);
      TakeAllFields(w, newChild);
      SpliceKeeps(TakeAll(w, newChild), parent, seg, nextChild);
      MirroredFields(null);
      Become(TakeAll(w, newChild), newChild);
      FragmentIsOutside(w, parent, newChild, nextChild);
      Link(parent, newChild.firstChild, newChild.lastChild, nextChild, seg, newChild);
      UpdateChildren(parent, newChild);
      DropEnds(newChild);
    }

    // A fragment that has been emptied.
    method DropEnds(from: Node)
      requires Mirrors(from)
      modifies from`firstChild, from`lastChild
      ensures Mirrors(null)
    {
      from.firstChild := null;
      from.lastChild := null;
    }

    // _insertBefore.
    method InsertBefore(parent: Node, newChild: Node, nextChild: Node?)
      requires Valid() && InsertOk(world, parent, newChild, nextChild)
      modifies this, world.links.Keys
      ensures Valid() && Allowed(old(world), Insert(parent, newChild, nextChild))
      ensures world == Apply(old(world), Insert(parent, newChild, nextChild))
    {
      hide Sound, Splice, Reindex, TakeAll, Dom.Detach;
      InsertKeeps(world, parent, newChild, nextChild);
      DetachReady(world, parent, newChild, nextChild);
      Detach(newChild);
      EndsKeep(world, newChild);
      if newChild.kind != FragmentKind {
        SpliceKeeps(world, parent, [newChild], nextChild);
        Link(parent, newChild, newChild, nextChild, [newChild], null);
        UpdateChildren(parent, null);
      } else if newChild.firstChild != null {
        InsertAll(parent, newChild, nextChild);
      }
    }

    // _appendSingleChild.
    method AppendSingleChild(parent: Node, newChild: Node)
      requires Valid() && InsertOk(world, parent, newChild, null)
      requires parent.kind == ElementKind && newChild.kind != FragmentKind
      modifies this, world.links.Keys
      ensures Valid() && world == AppendSingle(old(world), parent, newChild)
    {
      hide Sound, Splice, Dom.Detach, Mirrors;
      InsertKeeps(world, parent, newChild, null);
      AppendIsInsertion(world, parent, newChild);
      DetachReady(world, parent, newChild, null);
      Detach(newChild);
      SpliceKeeps(world, parent, [newChild], null);
      Link(parent, newChild, newChild, null, [newChild], null);
      LengthenIndex(parent, newChild);
    }

    // _onUpdateChild with a new child.
    method LengthenIndex(el: Node, newChild: Node)
      requires Mirrors(null) && el in world.links
      modifies this, el`childNodes
      ensures Mirrors(null)
      ensures world == old(world.(links := world.links[el := world.links[el].(index := world.links[el].index + [newChild])]))
    {
      el.childNodes := el.childNodes + [newChild];
      world := world.(links := world.links[el := world.links[el].(index := world.links[el].index + [newChild])]);
    }

    // Element.appendChild, and Node.appendChild for a fragment.
    method AppendChild(parent: Node, newChild: Node)
      requires Valid() && InsertOk(world, parent, newChild, null)
      modifies this, world.links.Keys
      ensures Valid() && Allowed(old(world), Append(parent, newChild)) && world == Apply(old(world), Append(parent, newChild))
    {
      hide Sound, InsertOk;
      if parent.kind == ElementKind && newChild.kind != FragmentKind {
        AppendSingleChild(parent, newChild);
      } else {
        InsertBefore(parent, newChild, null);
      }
    }

    method ReplaceChild(parent: Node, newChild: Node, oldChild: Node)
      requires Valid() && InsertOk(world, parent, newChild, oldChild)
      modifies this, world.links.Keys
      ensures Valid() && Allowed(old(world), Replace(parent, oldChild, newChild))
      ensures world == Apply(old(world), Replace(parent, oldChild, newChild))
    {
      hide Sound, Mirrors;
      ghost var w := world;
      InsertKeepsOthers(w, parent, newChild, oldChild, oldChild);
      InsertKeepsNodes(w, parent, newChild, oldChild);
      InsertBefore(parent, newChild, oldChild);
      RemoveChild(parent, oldChild);
    }
  }

  function Bridged(l: Links, parent: Node, previous: Node?, next: Node?, n: Node): Links {
    l.(next := if n == previous then next else l.next,
       previous := if n == next then previous else l.previous,
       first := if n == parent && previous == null then next else l.first,
       last := if n == parent && next == null then previous else l.last)
  }

  // What the four links change in the fields of a node.
  function EndsLinked(l: Links, parent: Node, newFirst: Node, newLast: Node, pre: Node?, next: Node?, n: Node): Links {
    l.(previous := if n == newFirst then pre else if n == next then newLast else l.previous,
       next := if n == newLast then next else if n == pre then newFirst else l.next,
       first := if n == parent && pre == null then newFirst else l.first,
       last := if n == parent && next == null then newLast else l.last)
  }

  lemma EndsElsewhere(l: Links, parent: Node, newFirst: Node, newLast: Node, pre: Node?, next: Node?, n: Node)
    requires n != parent
    ensures EndsLinked(l, parent, newFirst, newLast, pre, next, n).(first := null, last := null)
         == EndsLinked(l.(first := null, last := null), parent, newFirst, newLast, pre, next, n)
  {
  }

  // The nodes of a chain are others than those around them, and stay linked to each other.
  lemma SegmentNodes(w: World, parent: Node, seg: seq<Node>, next: Node?)
    requires Sound(w) && Insertable(w, parent, seg, next)
    ensures parent in w.links && seg != [] && Distinct(seg)
    ensures forall i :: 0 <= i < |seg| ==> seg[i] in w.links && seg[i] != parent
    ensures forall n :: n in seg ==> n in w.links
    ensures next != null ==> next in w.links && next != seg[0]
    ensures var pre := Predecessor(w, parent, next);
            && (pre != null ==> pre in w.links && pre != Last(seg))
            && forall i :: 0 <= i < |seg| - 1 ==> EndsLinked(w.links[seg[i]], parent, seg[0], seg[|seg| - 1], pre, next, seg[i]).next == seg[i + 1]
  {
    AroundSpot(w, parent, seg, next);
    forall i | 0 <= i < |seg| ensures seg[i] in w.links && seg[i] !in w.kids[parent] && seg[i] != parent {
      assert Loose(w, seg[i]);
    }
  }

  lemma PredecessorIs(w: World, parent: Node, seg: seq<Node>, next: Node?)
    requires Insertable(w, parent, seg, next)
    ensures Predecessor(w, parent, next) == if next != null then w.links[next].previous else w.links[parent].last
  {
  }

  lemma ChildLinked(w: World, p: Node, i: nat)
    requires SoundBut(w, p) && p in w.kids && i < |w.kids[p]|
    ensures Linked(w, p, i)
  {
  }

  lemma ReindexLinks(w: World, el: Node)
    requires el in w.links && el in w.kids
    ensures Reindex(w, el).links == w.links[el := w.links[el].(index := w.kids[el])]
  {
  }

  lemma UnlinkFields(w: World, parent: Node, child: Node)
    requires child in w.links && parent in w.kids && child in w.kids[parent]
    ensures var u := Unlink(w, parent, child);
            u.links.Keys == w.links.Keys && forall n :: n in w.links ==>
              u.links[n] == Bridged(w.links[n], parent, w.links[child].previous, w.links[child].next, n)
  {
  }

  lemma SpliceFields(w: World, parent: Node, seg: seq<Node>, next: Node?)
    requires Insertable(w, parent, seg, next)
    ensures var u, pre := Splice(w, parent, seg, next), Predecessor(w, parent, next);
            && u.links.Keys == w.links.Keys
            && forall n :: n in w.links ==>
                 u.links[n] == EndsLinked(w.links[n], parent, seg[0], seg[|seg| - 1], pre, next, n).(parent := if n in seg then parent else w.links[n].parent)
  {
  }

  lemma FragmentIsOutside(w: World, parent: Node, from: Node, next: Node?)
    requires Sound(w) && InsertOk(w, parent, from, next) && from.kind == FragmentKind
    ensures from !in w.kids[from] && from != parent
  {
    forall i | 0 <= i < |w.kids[from]| ensures w.kids[from][i] != from {
      assert Linked(w, from, i);
    }
  }

  lemma EndsKeep(w: World, p: Node)
    requires Sound(w)
    ensures w.kids.Keys == w.links.Keys
    ensures p in w.kids ==> w.links[p].first == First(w.kids[p]) && w.links[p].last == Last(w.kids[p])
  {
    assert p in w.kids ==> Ends(w, p);
  }

  lemma TakeAllFields(w: World, from: Node)
    requires from in w.links && from in w.kids
    ensures TakeAll(w, from).links == w.links[from := w.links[from].(first := null, last := null)]
  {
  }

  lemma AttachedParent(w: World, n: Node)
    requires Sound(w) && n in w.links && n !in w.removed
    ensures var p := w.links[n].parent;
            p != null ==> p in w.links && p in w.kids && n in w.kids[p]
  {
    assert Attached(w, n);
  }
}
