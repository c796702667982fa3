// Inserting a node that was removed earlier.  It still has its parent and both links, so it is first
// taken out of the list that it was in once more, and the nodes that used to be around it are linked
// to each other again.
module DomReinsertion {
  import opened Dom
  import opened DomRuns

  ghost predicate Leftover(w: World, child: Node) {
    && child in w.links && child in w.removed && child.kind != FragmentKind
    && w.links[child].parent != null && w.links[child].parent in w.links && w.links[child].parent in w.kids
  }

  // _removeChild for such a node: the list should not change, as the node is not in it.  The walk
  // that follows leaves some index.
  ghost function TakenOutAgain(w: World, child: Node, index: seq<Node>): World
    requires Leftover(w, child)
  {
    var p := w.links[child].parent;
    w.(links := map n | n in w.links ::
         if n == p then UnlinkedAt(w, p, child, n).(index := index) else UnlinkedAt(w, p, child, n),
       stale := w.stale - {p})
  }

  ghost predicate Listed(w: World, n: Node) {
    exists p :: p in w.kids && n in w.kids[p]
  }

  // The nodes around it have not got other neighbours since, or are in no list now.
  ghost predicate Spares(w: World, child: Node)
    requires Leftover(w, child)
  {
    var c, p := w.links[child], w.links[child].parent;
    && (if c.previous == null then w.links[p].first == c.next
        else c.previous in w.links && Listed(w, c.previous) ==> w.links[c.previous].next == c.next)
    && (if c.next == null then w.links[p].last == c.previous
        else c.next in w.links && Listed(w, c.next) ==> w.links[c.next].previous == c.previous)
  }

  // The document stays sound exactly then.
  lemma TakenOutExactly(w: World, child: Node, index: seq<Node>)
    requires Sound(w) && Leftover(w, child)
    ensures Sound(TakenOutAgain(w, child, index)) <==> Spares(w, child) && index == w.kids[w.links[child].parent]
  {
    var u := TakenOutAgain(w, child, index);
    var c, p := w.links[child], w.links[child].parent;
    if Spares(w, child) && index == w.kids[p] {
      TakenOutSound(w, child);
    }
    if Sound(u) {
      assert Ends(w, p) && Ends(u, p);
      if c.previous != null && c.previous in w.links && Listed(w, c.previous) { NextStays(w, u, c.previous); }
      if c.next != null && c.next in w.links && Listed(w, c.next) { PreviousStays(w, u, c.next); }
    }
  }

  lemma NextStays(w: World, u: World, n: Node)
    requires Sound(w) && Sound(u) && u.kids == w.kids && Listed(w, n) && n in w.links && n in u.links
    ensures u.links[n].next == w.links[n].next
  {
    var p :| p in w.kids && n in w.kids[p];
    var i := IndexIn(w.kids[p], n);
    assert Linked(w, p, i) && Linked(u, p, i);
  }

  lemma PreviousStays(w: World, u: World, n: Node)
    requires Sound(w) && Sound(u) && u.kids == w.kids && Listed(w, n) && n in w.links && n in u.links
    ensures u.links[n].previous == w.links[n].previous
  {
    var p :| p in w.kids && n in w.kids[p];
    var i := IndexIn(w.kids[p], n);
    assert Linked(w, p, i) && Linked(u, p, i);
  }

  lemma TakenOutSound(w: World, child: Node)
    requires Sound(w) && Leftover(w, child) && Spares(w, child)
    ensures Sound(TakenOutAgain(w, child, w.kids[w.links[child].parent]))
  {
    var p := w.links[child].parent;
    var u := TakenOutAgain(w, child, w.kids[p]);
    forall q, i | q in u.kids && 0 <= i < |u.kids[q]| ensures Linked(u, q, i) {
      assert Linked(w, q, i);
      assert Listed(w, w.kids[q][i]);
    }
    forall q | q in u.kids ensures Ends(u, q) {
      assert Ends(w, q);
    }
    forall n | n in u.links ensures Attached(u, n) {
      assert Attached(w, n);
    }
  }

  // Then the node is inserted like a new one.
  lemma Reinserted(w: World, child: Node, parent: Node, next: Node?)
    requires Sound(w) && Leftover(w, child) && Spares(w, child)
    requires parent in w.links && parent in w.kids && parent != child && (next != null ==> next in w.kids[parent] && next in w.links)
    ensures var v := TakenOutAgain(w, child, w.kids[w.links[child].parent]);
            && Insertable(v, parent, [child], next)
            && var u := Splice(v, parent, [child], next);
            && parent in u.links && parent in u.kids
            && Sound(Reindex(u, parent)) && u.kids == w.kids[parent := Inserted(w.kids[parent], [child], next)]
  {
    hide Inserted, Spares;
    TakenOutSound(w, child);
    var v := TakenOutAgain(w, child, w.kids[w.links[child].parent]);
    assert Chain(v, [child]);
    assert Loose(v, child);
    SpliceKeeps(v, parent, [child], next);
    ReindexKeeps(Splice(v, parent, [child], next), parent);
  }

  // ----- A run -----

  // A child is removed, another one appended, and the first one inserted again: the second is lost.
  function Steps(p: Node, c: Node, x: Node): seq<Op> {
    [Create(p), Create(c), Create(x), Append(p, c), Remove(p, c), Append(p, x)]
  }

  // A node that has never been in a list, at the end of an empty list.
  lemma FirstAppend(w: World, p: Node, c: Node)
    requires Sound(w) && InsertOk(w, p, c, null) && p.kind == ElementKind && c.kind != FragmentKind
    requires w.kids[p] == [] && w.links[c] == UNLINKED
    ensures Allowed(w, Append(p, c))
    ensures var u := Apply(w, Append(p, c));
            && u.links == w.links[p := w.links[p].(first := c, last := c, index := [c])][c := UNLINKED.(parent := p)]
            && u.kids == w.kids[p := [c]] && u.removed == w.removed
  {
    DetachReady(w, p, c, null);
    assert Ends(w, p);
    AppendIsInsertion(w, p, c);
    assert Inserted([], [c], null) == [c];
  }

  // The only child of a node is removed.
  lemma OnlyRemoved(w: World, p: Node, c: Node)
    requires Sound(w) && p in w.links && p in w.kids && w.kids[p] == [c] && c != p && c in w.links
    requires w.links[c] == UNLINKED.(parent := p)
    ensures Allowed(w, Remove(p, c))
    ensures var u := Apply(w, Remove(p, c));
            && u.links == w.links[p := w.links[p].(first := null, last := null, index := [])]
            && u.kids == w.kids[p := []] && u.removed == w.removed + {c}
  {
    assert c in w.kids[p];
    RemoveKeeps(w, p, c);
    assert IndexIn([c], c) == 0 && Without([c], c) == [];
  }

  // The lost node still takes `p` for its parent, but is not in its list, which begins and ends with
  // the other one.
  lemma ReinsertionLoses(p: Node, c: Node, x: Node)
    requires p != c && p != x && c != x && p.kind == ElementKind && c.kind != FragmentKind && x.kind != FragmentKind
    ensures Possible(Steps(p, c, x))
    ensures var w := Built(Steps(p, c, x));
            && Leftover(w, c) && !Spares(w, c) && p in w.kids && w.kids[p] == [x]
            && var v := TakenOutAgain(w, c, []);
            && Insertable(v, p, [c], null)
            && var u := Splice(v, p, [c], null);
            && p in u.links && c in u.links && x in u.links
            && u.links[p].first == c && u.links[p].last == c && u.links[c].next == null && u.links[x].parent == p
            && p in u.kids && u.kids[p] == [x, c] && !Sound(Reindex(u, p))
  {
    hide Sound, InsertBefore;
    var ops := Steps(p, c, x);
    EmptyIsSound();
    CreateKeeps(EMPTY, p);
    var w1 := Apply(EMPTY, ops[0]);
    CreateKeeps(w1, c);
    var w2 := Apply(w1, ops[1]);
    CreateKeeps(w2, x);
    var w3 := Apply(w2, ops[2]);
    FirstAppend(w3, p, c);
    ApplyKeeps(w3, ops[3]);
    var w4 := Apply(w3, ops[3]);
    OnlyRemoved(w4, p, c);
    ApplyKeeps(w4, ops[4]);
    var w5 := Apply(w4, ops[4]);
    FirstAppend(w5, p, x);
    ApplyKeeps(w5, ops[5]);
    var w := Apply(w5, ops[5]);
    RunOfSix(ops, w1, w2, w3, w4, w5);
    LostNode(w, p, c, x);
  }

  lemma RunOfSix(ops: seq<Op>, w1: World, w2: World, w3: World, w4: World, w5: World)
    requires |ops| == 6 && Sound(EMPTY) && Sound(w1) && Sound(w2) && Sound(w3) && Sound(w4) && Sound(w5)
    requires Allowed(EMPTY, ops[0]) && Apply(EMPTY, ops[0]) == w1
    requires Allowed(w1, ops[1]) && Apply(w1, ops[1]) == w2
    requires Allowed(w2, ops[2]) && Apply(w2, ops[2]) == w3
    requires Allowed(w3, ops[3]) && Apply(w3, ops[3]) == w4
    requires Allowed(w4, ops[4]) && Apply(w4, ops[4]) == w5
    requires Allowed(w5, ops[5])
    ensures Possible(ops) && Built(ops) == Apply(w5, ops[5])
  {
    hide Sound, Allowed, Apply;
    ApplyKeeps(w5, ops[5]);
    var tail := ops[5..];
    assert tail[1..] == [];
    assert Legal(w5, tail) && Run(w5, tail) == Apply(w5, ops[5]);
    assert ops[4..][1..] == tail && ops[3..][1..] == ops[4..] && ops[2..][1..] == ops[3..] && ops[1..][1..] == ops[2..];
    assert Legal(w4, ops[4..]) && Run(w4, ops[4..]) == Apply(w5, ops[5]);
    assert Legal(w3, ops[3..]) && Run(w3, ops[3..]) == Apply(w5, ops[5]);
    assert Legal(w2, ops[2..]) && Run(w2, ops[2..]) == Apply(w5, ops[5]);
    assert Legal(w1, ops[1..]) && Run(w1, ops[1..]) == Apply(w5, ops[5]);
  }

  lemma LostNode(w: World, p: Node, c: Node, x: Node)
    requires p != c && p != x && c != x && c.kind != FragmentKind
    requires p in w.links && c in w.links && x in w.links && p in w.kids && w.kids[p] == [x] && c in w.removed
    requires w.links[c] == UNLINKED.(parent := p) && w.links[x] == UNLINKED.(parent := p) && w.links[p].first == x && w.links[p].last == x
    ensures Leftover(w, c) && !Spares(w, c)
    ensures var v := TakenOutAgain(w, c, []);
            && Insertable(v, p, [c], null)
            && var u := Splice(v, p, [c], null);
            && p in u.links && c in u.links && x in u.links
            && u.links[p].first == c && u.links[p].last == c && u.links[c].next == null && u.links[x].parent == p
            && p in u.kids && u.kids[p] == [x, c] && !Sound(Reindex(u, p))
  {
    var v := TakenOutAgain(w, c, []);
    assert Loose(v, c) && Chain(v, [c]);
    var u := Splice(v, p, [c], null);
    assert Inserted([x], [c], null) == [x, c];
    assert !Ends(Reindex(u, p), p);
  }
}
