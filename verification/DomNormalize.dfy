// `normalize` on linked nodes: a walk along the next siblings that removes the texts after a text.
module DomNormalize {
  import opened Dom
  import opened DomDocument

  // ----- What a list of nodes shows -----

  type Data = map<Node, string>

  // A node, with its text if it is one.
  datatype Piece = Piece(n: Node, text: string)

  function PieceOf(n: Node, data: Data): Piece {
    Piece(n, if n.kind.TextKind? && n in data then data[n] else "")
  }

  // The list with adjacent texts joined: the first of them has the text of all.
  function Shown(ns: seq<Node>, data: Data): seq<Piece> {
    if ns == [] then [] else Fuse(PieceOf(ns[0], data), Shown(ns[1..], data))
  }

  function Fuse(p: Piece, ps: seq<Piece>): seq<Piece> {
    if p.n.kind.TextKind? && ps != [] && ps[0].n.kind.TextKind? then [Piece(p.n, p.text + ps[0].text)] + ps[1..] else [p] + ps
  }

  // No two texts are next to each other.
  ghost predicate Quiet(ns: seq<Node>) {
    forall i :: 0 <= i < |ns| - 1 ==> !(ns[i].kind.TextKind? && ns[i + 1].kind.TextKind?)
  }

  lemma ShownHead(ns: seq<Node>, data: Data)
    ensures Shown(ns, data) == [] <==> ns == []
    ensures ns != [] ==> Shown(ns, data)[0].n == ns[0]
  {
  }

  // A list without adjacent texts shows its nodes as they are.
  lemma {:induction false} QuietIsShown(ns: seq<Node>, data: Data)
    requires Quiet(ns)
    ensures |Shown(ns, data)| == |ns| && forall i :: 0 <= i < |ns| ==> Shown(ns, data)[i] == PieceOf(ns[i], data)
  {
    if ns != [] {
      var tail := ns[1..];
      assert forall i :: 0 <= i < |tail| ==> tail[i] == ns[i + 1];
      QuietIsShown(tail, data);
      ShownHead(tail, data);
    }
  }

  lemma {:induction false} ShownElsewhere(ns: seq<Node>, data: Data, after: Data)
    requires forall n :: n in ns ==> PieceOf(n, data) == PieceOf(n, after)
    ensures Shown(ns, data) == Shown(ns, after)
  {
    if ns != [] { ShownElsewhere(ns[1..], data, after); }
  }

  // A text that takes in the one after it shows the same.
  lemma {:induction false} ShownJoined(ns: seq<Node>, i: nat, data: Data)
    requires i + 1 < |ns| && Distinct(ns) && ns[i].kind.TextKind? && ns[i + 1].kind.TextKind? && ns[i] in data && ns[i + 1] in data
    ensures Shown(ns[..i + 1] + ns[i + 2..], data[ns[i] := data[ns[i]] + data[ns[i + 1]]]) == Shown(ns, data)
    decreases i
  {
    var after := data[ns[i] := data[ns[i]] + data[ns[i + 1]]];
    var us := ns[..i + 1] + ns[i + 2..];
    if i == 0 {
      ShownElsewhere(ns[2..], data, after);
      assert us[1..] == ns[2..] && ns[1..][1..] == ns[2..];
      var ps := Shown(ns[2..], data);
      FuseTwice(ns[0], data[ns[0]], ns[1], data[ns[1]], ps);
      assert Shown(ns[1..], data) == Fuse(Piece(ns[1], data[ns[1]]), ps);
    } else {
      var tail := ns[1..];
      assert tail[i - 1] == ns[i] && tail[i] == ns[i + 1];
      ShownJoined(tail, i - 1, data);
      assert tail[..i] + tail[i + 1..] == us[1..];
    }
  }

  lemma FuseTwice(m: Node, a: string, n: Node, b: string, ps: seq<Piece>)
    requires m.kind.TextKind? && n.kind.TextKind?
    ensures Fuse(Piece(m, a), Fuse(Piece(n, b), ps)) == Fuse(Piece(m, a + b), ps)
  {
    if ps != [] && ps[0].n.kind.TextKind? {
      assert ([Piece(n, b + ps[0].text)] + ps[1..])[1..] == ps[1..];
      assert a + (b + ps[0].text) == a + b + ps[0].text;
    } else {
      assert ([Piece(n, b)] + ps)[1..] == ps;
    }
  }

  // ----- What the walk changes -----

  // Lists without adjacent texts stay, and no list gets new nodes.
  ghost predicate Joined(w: World, u: World) {
    && w.links.Keys == u.links.Keys && w.kids.Keys == u.kids.Keys
    && (forall p :: p in w.kids && Quiet(w.kids[p]) ==> u.kids[p] == w.kids[p])
    && (forall p, n :: p in w.kids && n in u.kids[p] ==> n in w.kids[p])
  }

  // Below the nodes up to a height there are only lower ones.
  ghost predicate Ranked(w: World, rank: Node -> nat, h: nat) {
    forall p, c :: p in w.kids && rank(p) <= h && c in w.kids[p] ==> rank(c) < rank(p)
  }

  // No adjacent texts at any level below a node.
  ghost predicate Separated(w: World, rank: Node -> nat, p: Node)
    decreases rank(p)
  {
    p in w.kids && Quiet(w.kids[p]) && forall c :: c in w.kids[p] ==> rank(c) < rank(p) && Separated(w, rank, c)
  }

  lemma {:induction false} SeparatedStays(w: World, u: World, rank: Node -> nat, p: Node)
    requires Separated(w, rank, p) && Joined(w, u)
    ensures Separated(u, rank, p)
    decreases rank(p)
  {
    forall c | c in u.kids[p] ensures rank(c) < rank(p) && Separated(u, rank, c) {
      SeparatedStays(w, u, rank, c);
    }
  }

  lemma RankedStays(w: World, u: World, rank: Node -> nat, h: nat)
    requires Ranked(w, rank, h) && Joined(w, u)
    ensures Ranked(u, rank, h)
  {
  }

  lemma JoinedTwice(w: World, u: World, v: World)
    requires Joined(w, u) && Joined(u, v)
    ensures Joined(w, v)
  {
  }

  // The text after a text is removed.
  lemma RemovedText(w: World, el: Node, i: nat)
    requires Sound(w) && el in w.links && el in w.kids && i + 1 < |w.kids[el]|
    requires w.kids[el][i].kind.TextKind? && w.kids[el][i + 1].kind.TextKind?
    ensures w.kids[el][i + 1] in w.links && Distinct(w.kids[el])
    ensures var u := RemoveChild(w, el, w.kids[el][i + 1]);
            && Joined(w, u) && u.kids == w.kids[el := w.kids[el][..i + 1] + w.kids[el][i + 2..]]
  {
    assert Ends(w, el);
    assert Linked(w, el, i + 1);
    assert IndexIn(w.kids[el], w.kids[el][i + 1]) == i + 1;
    assert !Quiet(w.kids[el]);
  }

  // Every list shows what it has shown before.
  ghost predicate ShowsSame(w: World, data: Data, u: World, after: Data) {
    w.kids.Keys == u.kids.Keys && forall p :: p in w.kids ==> Shown(u.kids[p], after) == Shown(w.kids[p], data)
  }

  lemma JoinShowsSame(w: World, el: Node, i: nat, data: Data, u: World, after: Data)
    requires Sound(w) && el in w.links && el in w.kids && i + 1 < |w.kids[el]| && Distinct(w.kids[el])
    requires w.kids[el][i].kind.TextKind? && w.kids[el][i + 1].kind.TextKind?
    requires u.kids == w.kids[el := w.kids[el][..i + 1] + w.kids[el][i + 2..]]
    requires var a, b := w.kids[el][i], w.kids[el][i + 1];
             a in data && b in data && after == data[a := data[a] + data[b]]
    ensures ShowsSame(w, data, u, after)
  {
    hide Shown;
    ShownJoined(w.kids[el], i, data);
    assert Linked(w, el, i);
    forall p | p in w.kids && p != el ensures Shown(u.kids[p], after) == Shown(w.kids[p], data) {
      forall n | n in w.kids[p] ensures PieceOf(n, data) == PieceOf(n, after) {
        assert Linked(w, p, IndexIn(w.kids[p], n));
      }
      ShownElsewhere(w.kids[p], data, after);
    }
  }

  // A list without adjacent texts is all that was to be seen before: the first node of each run of
  // texts, with the texts of all of them, and the other nodes in their order.
  lemma WhatIsLeft(w: World, data: Data, u: World, after: Data, p: Node)
    requires ShowsSame(w, data, u, after) && p in w.kids && Quiet(u.kids[p])
    ensures p in u.kids && |u.kids[p]| == |Shown(w.kids[p], data)|
    ensures forall i :: 0 <= i < |u.kids[p]| ==> Shown(w.kids[p], data)[i] == PieceOf(u.kids[p][i], after)
  {
    QuietIsShown(u.kids[p], after);
  }

  // ----- The walk -----

  ghost function Texts(doc: Document): Data
    reads doc, doc.world.links.Keys
  {
    map n | n in doc.world.links :: n.data
  }

  // The list of `el` up to its child number i is done.
  ghost predicate DoneUpTo(w: World, rank: Node -> nat, el: Node, i: nat) {
    && el in w.kids && i <= |w.kids[el]|
    && (forall j :: 0 <= j < i && j + 1 < |w.kids[el]| ==> !(w.kids[el][j].kind.TextKind? && w.kids[el][j + 1].kind.TextKind?))
    && (forall j :: 0 <= j < i ==> rank(w.kids[el][j]) < rank(el) && Separated(w, rank, w.kids[el][j]))
  }

  // What has become of the document on the way.
  ghost predicate OnTheWay(w: World, data: Data, u: World, after: Data, rank: Node -> nat, h: nat) {
    && Joined(w, u) && ShowsSame(w, data, u, after)
    && forall p :: p in w.kids && rank(p) > h ==> u.kids[p] == w.kids[p]
  }

  lemma OnTheWayTwice(w: World, d: Data, u: World, e: Data, v: World, f: Data, rank: Node -> nat, h: nat, k: nat)
    requires OnTheWay(w, d, u, e, rank, h) && OnTheWay(u, e, v, f, rank, k) && k <= h
    ensures OnTheWay(w, d, v, f, rank, h)
  {
    hide Shown, Quiet;
  }

  lemma OnTheWayBegins(w: World, d: Data, rank: Node -> nat, h: nat)
    ensures OnTheWay(w, d, w, d, rank, h)
  {
    hide Shown;
  }

  lemma BeginsFirst(doc: Document, el: Node, rank: Node -> nat)
    requires doc.Valid() && el in doc.world.links
    ensures DoneUpTo(doc.world, rank, el, 0) && el.firstChild == First(doc.world.kids[el])
  {
    assert Ends(doc.world, el);
    doc.MirroredFields(null);
  }

  // A child of a node, and the one after it.
  lemma ChildAt(doc: Document, el: Node, i: nat, rank: Node -> nat)
    requires doc.Valid() && el in doc.world.links && el in doc.world.kids && i < |doc.world.kids[el]| && Ranked(doc.world, rank, rank(el))
    ensures var child := doc.world.kids[el][i];
            && child in doc.world.links && child.nextSibling == After(doc.world.kids[el], i)
            && rank(child) < rank(el) && Ranked(doc.world, rank, rank(child))
  {
    assert Linked(doc.world, el, i);
    doc.MirroredFields(null);
  }

  // After a text has been removed, the walk is still where it was.
  lemma WalkStays(w: World, u: World, rank: Node -> nat, el: Node, i: nat)
    requires DoneUpTo(w, rank, el, i) && i + 1 < |w.kids[el]| && Joined(w, u)
    requires u.kids == w.kids[el := w.kids[el][..i + 1] + w.kids[el][i + 2..]]
    ensures DoneUpTo(u, rank, el, i) && i < |u.kids[el]| && u.kids[el][i] == w.kids[el][i]
  {
    hide Separated, Joined;
    forall j | 0 <= j < i ensures Separated(u, rank, u.kids[el][j]) { SeparatedStays(w, u, rank, w.kids[el][j]); }
  }

  // After a child has been normalized, the walk goes on behind it.
  lemma WalkGoesOn(w: World, u: World, rank: Node -> nat, el: Node, i: nat)
    requires DoneUpTo(w, rank, el, i) && i < |w.kids[el]| && Joined(w, u) && u.kids.Keys == w.kids.Keys && u.kids[el] == w.kids[el]
    requires rank(w.kids[el][i]) < rank(el) && Separated(u, rank, w.kids[el][i])
    requires i + 1 < |w.kids[el]| ==> !(w.kids[el][i].kind.TextKind? && w.kids[el][i + 1].kind.TextKind?)
    ensures DoneUpTo(u, rank, el, i + 1)
  {
    hide Separated, Joined;
    forall j | 0 <= j < i ensures Separated(u, rank, u.kids[el][j]) { SeparatedStays(w, u, rank, w.kids[el][j]); }
  }

  lemma AllDone(w: World, rank: Node -> nat, el: Node)
    requires el in w.kids && DoneUpTo(w, rank, el, |w.kids[el]|)
    ensures Separated(w, rank, el)
  {
  }

  // A text takes in the one after it.
  method TakeIn(doc: Document, el: Node, child: Node, next: Node, ghost i: nat)
    requires doc.Valid() && el in doc.world.links && el in doc.world.kids && i + 1 < |doc.world.kids[el]|
    requires child == doc.world.kids[el][i] && next == doc.world.kids[el][i + 1] && child.kind.TextKind? && next.kind.TextKind?
    modifies doc, doc.world.links.Keys
    ensures doc.Valid() && next in old(doc.world).links && doc.world == RemoveChild(old(doc.world), el, next)
    ensures var was := old(Texts(doc));
            child in was && next in was && Texts(doc) == was[child := was[child] + was[next]]
  {
    hide Sound, RemoveChild, Joined, Apply, Allowed, Document.Mirrors;
    RemovedText(doc.world, el, i);
    RemoveIs(doc.world, el, next);
    ChildIsNode(doc.world, el, i);
    doc.RemoveChild(el, next);
    assert Texts(doc) == old(Texts(doc));
    Append(doc, child, next.data);
  }

  lemma RemoveIs(w: World, el: Node, n: Node)
    requires Sound(w) && Allowed(w, Remove(el, n)) && n in w.links
    ensures Apply(w, Remove(el, n)) == RemoveChild(w, el, n)
  {
  }

  // The links do not change with the text.
  method Append(doc: Document, child: Node, text: string)
    requires doc.Valid() && child in doc.world.links
    modifies child`data
    ensures doc.Valid() && Texts(doc) == old(Texts(doc))[child := old(child.data) + text]
  {
    hide Sound;
    child.AppendData(text);
  }

  lemma ChildIsNode(w: World, p: Node, i: nat)
    requires Sound(w) && p in w.kids && i < |w.kids[p]|
    ensures w.kids[p][i] in w.links
  {
    assert Linked(w, p, i);
  }

  // The children of a node, at all levels, lose their adjacent texts, and show what they have shown.
  // The tree below the node has a height: a node that is below itself would be walked forever.
  method Normalize(doc: Document, el: Node, ghost rank: Node -> nat)
    requires doc.Valid() && el in doc.world.links && Ranked(doc.world, rank, rank(el))
    modifies doc, doc.world.links.Keys
    ensures doc.Valid() && Separated(doc.world, rank, el)
    ensures OnTheWay(old(doc.world), old(Texts(doc)), doc.world, Texts(doc), rank, rank(el))
    decreases rank(el)
  {
    hide Sound, Shown, Quiet, Document.Mirrors, Ranked, Joined, ShowsSame, Separated, DoneUpTo, OnTheWay, RemoveChild, Texts;
    var child := el.firstChild;
    ghost var i := 0;
    BeginsFirst(doc, el, rank);
    OnTheWayBegins(doc.world, Texts(doc), rank, rank(el));
    while child != null
      invariant doc.Valid() && doc.world.links.Keys == old(doc.world).links.Keys && el in doc.world.kids && i <= |doc.world.kids[el]|
      invariant OnTheWay(old(doc.world), old(Texts(doc)), doc.world, Texts(doc), rank, rank(el))
      invariant DoneUpTo(doc.world, rank, el, i) && Ranked(doc.world, rank, rank(el))
      invariant child == if i < |doc.world.kids[el]| then doc.world.kids[el][i] else null
      decreases |doc.world.kids[el]| - i
    {
      ghost var w, data := doc.world, Texts(doc);
      ChildAt(doc, el, i, rank);
      var next := child.nextSibling;
      if next != null && next.kind == TextKind && child.kind == TextKind {
        TakeIn(doc, el, child, next, i);
        Taken(w, el, i, data, doc.world, Texts(doc), rank);
      } else {
        Normalize(doc, child, rank);
        Passed(w, el, i, data, doc.world, Texts(doc), rank);
        child := next;
        i := i + 1;
      }
      OnTheWayTwice(old(doc.world), old(Texts(doc)), w, data, doc.world, Texts(doc), rank, rank(el), rank(el));
    }
    AllDone(doc.world, rank, el);
  }

  lemma Taken(w: World, el: Node, i: nat, data: Data, u: World, after: Data, rank: Node -> nat)
    requires Sound(w) && el in w.links && el in w.kids && i + 1 < |w.kids[el]| && DoneUpTo(w, rank, el, i) && Ranked(w, rank, rank(el))
    requires w.kids[el][i].kind.TextKind? && w.kids[el][i + 1].kind.TextKind?
    requires w.kids[el][i] in data && w.kids[el][i + 1] in data && w.kids[el][i + 1] in w.links
    requires u == RemoveChild(w, el, w.kids[el][i + 1])
    requires after == data[w.kids[el][i] := data[w.kids[el][i]] + data[w.kids[el][i + 1]]]
    ensures u.links.Keys == w.links.Keys && el in u.kids && |u.kids[el]| < |w.kids[el]| && i < |u.kids[el]| && u.kids[el][i] == w.kids[el][i]
    ensures OnTheWay(w, data, u, after, rank, rank(el)) && DoneUpTo(u, rank, el, i) && Ranked(u, rank, rank(el))
  {
    hide Sound, Shown, RemoveChild, DoneUpTo, Ranked;
    RemovedText(w, el, i);
    JoinShowsSame(w, el, i, data, u, after);
    WalkStays(w, u, rank, el, i);
    RankedStays(w, u, rank, rank(el));
  }

  lemma Passed(w: World, el: Node, i: nat, data: Data, u: World, after: Data, rank: Node -> nat)
    requires el in w.kids && i < |w.kids[el]| && DoneUpTo(w, rank, el, i) && Ranked(w, rank, rank(el))
    requires rank(w.kids[el][i]) < rank(el) && OnTheWay(w, data, u, after, rank, rank(w.kids[el][i])) && Separated(u, rank, w.kids[el][i])
    requires i + 1 < |w.kids[el]| ==> !(w.kids[el][i].kind.TextKind? && w.kids[el][i + 1].kind.TextKind?)
    ensures u.links.Keys == w.links.Keys && el in u.kids && u.kids[el] == w.kids[el]
    ensures OnTheWay(w, data, u, after, rank, rank(el)) && DoneUpTo(u, rank, el, i + 1) && Ranked(u, rank, rank(el))
  {
    hide Shown, ShowsSame, DoneUpTo, Ranked, Separated, Quiet;
    WalkGoesOn(w, u, rank, el, i);
    RankedStays(w, u, rank, rank(el));
  }
}
