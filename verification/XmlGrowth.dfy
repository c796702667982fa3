// What the reader has built it only adds to: a tree that has gone wrong somewhere stays wrong there.
module XmlGrowth {
  import opened Xml
  import opened XmlReader

  // ----- Trees with more in them -----

  // The second list has everything of the first, in the same places, and perhaps more behind it, at
  // every level.
  predicate Grows(a: seq<Node>, b: seq<Node>)
    decreases a
  {
    |a| <= |b| && forall i :: 0 <= i < |a| ==> NodeGrows(a[i], b[i])
  }

  predicate NodeGrows(x: Node, y: Node)
    decreases x
  {
    match x
    case Text(_) => y == x
    case Element(name, attrs, children) => y.Element? && y.name == name && y.attrs == attrs && Grows(children, y.children)
  }

  lemma {:induction false} GrowsItself(a: seq<Node>)
    ensures Grows(a, a)
    decreases a
  {
    forall i | 0 <= i < |a| ensures NodeGrows(a[i], a[i]) { NodeGrowsItself(a[i]); }
  }

  lemma {:induction false} NodeGrowsItself(n: Node)
    ensures NodeGrows(n, n)
    decreases n
  {
    if n.Element? { GrowsItself(n.children); }
  }

  lemma {:induction false} GrowsTwice(a: seq<Node>, b: seq<Node>, c: seq<Node>)
    requires Grows(a, b) && Grows(b, c)
    ensures Grows(a, c)
    decreases a
  {
    forall i | 0 <= i < |a| ensures NodeGrows(a[i], c[i]) {
      assert NodeGrows(a[i], b[i]) && NodeGrows(b[i], c[i]);
      if a[i].Element? { GrowsTwice(a[i].children, b[i].children, c[i].children); }
    }
  }

  lemma OneMore(ns: seq<Node>, x: Node, y: Node)
    requires NodeGrows(x, y)
    ensures Grows(ns, ns + [y]) && Grows(ns + [x], ns + [y])
  {
    hide NodeGrows;
    GrowsItself(ns);
  }

  // ----- What the tree builder has built -----

  lemma {:induction false} CloseIgnoresRoot(t: Tree, rooted: bool)
    ensures Close(t.(rooted := rooted)) == Close(t)
    decreases |t.open|
  {
    if t.open != [] { CloseIgnoresRoot(EndElement(t), rooted); }
  }

  lemma {:induction false} LastGrows(t: Tree, x: Node, y: Node)
    requires NodeGrows(x, y)
    ensures Grows(Close(AddNode(t, x)), Close(AddNode(t, y)))
    decreases |t.open|
  {
    if t.open == [] {
      OneMore(t.doc, x, y);
    } else {
      var f, t0 := t.open[|t.open| - 1], t.(open := t.open[..|t.open| - 1]);
      OneMore(f.children, x, y);
      LastGrows(t0, Element(f.name, f.attrs, f.children + [x]), Element(f.name, f.attrs, f.children + [y]));
      EndsWith(t, x);
      EndsWith(t, y);
    }
  }

  // A node in the innermost element is there when that element has ended.
  lemma EndsWith(t: Tree, n: Node)
    requires t.open != []
    ensures var f := t.open[|t.open| - 1];
            Close(AddNode(t, n)) == Close(AddNode(t.(open := t.open[..|t.open| - 1]), Element(f.name, f.attrs, f.children + [n])))
  {
    assert AddNode(t, n).open[..|t.open| - 1] == t.open[..|t.open| - 1];
  }

  lemma NodeIsMore(t: Tree, n: Node)
    ensures Grows(Close(t), Close(AddNode(t, n)))
  {
    NodeGrowsItself(n);
    if t.open == [] {
      OneMore(t.doc, n, n);
    } else {
      var f, t0 := t.open[|t.open| - 1], t.(open := t.open[..|t.open| - 1]);
      OneMore(f.children, n, n);
      LastGrows(t0, Element(f.name, f.attrs, f.children), Element(f.name, f.attrs, f.children + [n]));
      EndsWith(t, n);
    }
  }

  lemma CharactersAreMore(t: Tree, chars: string, n: nat)
    ensures Grows(Close(t), Close(Characters(t, chars, n)))
  {
    hide AllSpace, Grows, Close;
    var text := if n < |chars| then chars[..n] else chars;
    GrowsItself(Close(t));
    NodeIsMore(t, Text(text));
  }

  lemma ElementIsMore(t: Tree, name: string, attrs: seq<Attr>)
    ensures Grows(Close(t), Close(StartElement(t, name, attrs)))
  {
    var u := t.(rooted := true);
    var s := StartElement(t, name, attrs);
    assert s.open[..|t.open|] == t.open;
    assert EndElement(s) == AddNode(u, Element(name, SetAttrs([], attrs), []));
    NodeIsMore(u, Element(name, SetAttrs([], attrs), []));
    CloseIgnoresRoot(t, true);
  }

  lemma TextIsMore(env: Env, source: string, r: Reader, end: nat)
    requires r.start <= end <= |source| && InStep(r)
    ensures Grows(Close(r.tree), Close(AppendText(env, source, r, end).tree))
  {
    hide Grows, Close, Replace, Characters;
    GrowsItself(Close(r.tree));
    if end > r.start { CharactersAreMore(r.tree, Replace(env, source[r.start..end]), end - r.start); }
  }

  lemma SpecialContentIsMore(env: Env, source: string, at: nat, name: string, r: Reader)
    requires r.start < at < |source| && source[at] == '>' && InStep(r)
    ensures Grows(Close(r.tree), Close(AtSpecialContent(env, source, at, name, r).tree))
  {
    hide Grows, Close, Replace, Characters, HasMarkup, IsScript, AppendText;
    var end := IndexOfPiece(source, "</" + name + ">", at);
    var raw := if end < 0 then source[..at + 1] else source[at + 1..end];
    GrowsItself(Close(r.tree));
    if IsSpecial(name) && HasMarkup(raw) {
      var text := if IsScript(name) then raw else Replace(env, raw);
      var u := r.(tree := Characters(r.tree, text, |text|));
      CharactersAreMore(r.tree, text, |text|);
      TextIsMore(env, source, u, u.start + 1);
      GrowsTwice(Close(r.tree), Close(u.tree), Close(AppendText(env, source, u, u.start + 1).tree));
    }
  }

  lemma StartTagIsMore(env: Env, source: string, r: Reader)
    requires r.start < |source| && InStep(r)
    ensures var s := AtStartTag(env, source, r);
            s.Next? ==> Grows(Close(r.tree), Close(s.reader.tree))
  {
    hide Grows, StartElement, EndElement, AtSpecialContent, ScanElement, LastEnd, SpaceWithin;
    var scan := ScanElement(env, source, r.start);
    if scan.Scanned? {
      var name := scan.el.name.value;
      var tree := StartElement(r.tree, name, scan.el.attrs);
      ElementIsMore(r.tree, name, scan.el.attrs);
      var last := LastEnd(env, source, scan.at, name, r.ends);
      if !scan.el.closed && last >= scan.at {
        var space := SpaceWithin(CurrentSpace(env, r.stack), scan.el.attrs);
        var ends := if name in env.inherited then r.ends else r.ends[name := last];
        var u := Reader(r.start, r.stack + [Waiting(name, space)], tree, ends);
        SpecialContentIsMore(env, source, scan.at, name, u);
        GrowsTwice(Close(r.tree), Close(tree), Close(AtSpecialContent(env, source, scan.at, name, u).tree));
      }
    }
  }

  // A step of the reader only adds to what has been built.
  lemma TagIsMore(env: Env, source: string, r: Reader)
    requires r.start < |source| && InStep(r)
    ensures var s := AtTag(env, source, r);
            s.Next? ==> Grows(Close(r.tree), Close(s.reader.tree))
  {
    hide Grows, EndElement, AtStartTag, Broken;
    GrowsItself(Close(r.tree));
    StartTagIsMore(env, source, r);
  }

  // ----- Trees that have gone wrong -----

  // No two texts next to each other up to an index.
  predicate Flat(ns: seq<Node>, k: nat) {
    forall i :: 0 <= i < k && i + 1 < |ns| ==> ns[i].Element? || ns[i + 1].Element?
  }

  // Somewhere in `a` is a text that `b` does not have there, or only in a shorter form.
  predicate Off(a: seq<Node>, b: seq<Node>)
    decreases a
  {
    exists k :: 0 <= k < |a| && k < |b| && Flat(a, k) && NodeOff(a[k], b[k])
  }

  predicate NodeOff(x: Node, y: Node)
    decreases x
  {
    match x
    case Text(data) => y.Element? || |y.data| < |data|
    case Element(_, _, children) => y.Element? && Off(children, y.children)
  }

  lemma {:induction false} OffForMore(a: seq<Node>, b: seq<Node>, c: seq<Node>)
    requires Off(a, b) && Grows(a, c)
    ensures Off(c, b)
    decreases a
  {
    var k :| 0 <= k < |a| && k < |b| && Flat(a, k) && NodeOff(a[k], b[k]);
    assert NodeGrows(a[k], c[k]);
    forall i | 0 <= i < k && i + 1 < |c| ensures c[i].Element? || c[i + 1].Element? {
      assert NodeGrows(a[i], c[i]) && NodeGrows(a[i + 1], c[i + 1]);
    }
    if a[k].Element? { OffForMore(a[k].children, b[k].children, c[k].children); }
    assert NodeOff(c[k], b[k]) && Flat(c, k);
  }

  // Joining texts does not move the nodes before the first join.
  lemma {:induction false} NormalizeAt(a: seq<Node>, k: nat)
    requires k < |a| && Flat(a, k)
    ensures k < |Normalize(a)|
    ensures a[k].Element? ==> Normalize(a)[k] == NormalizeNode(a[k])
    ensures a[k].Text? ==> Normalize(a)[k].Text? && |Normalize(a)[k].data| >= |a[k].data|
    decreases a
  {
    var tail := a[1..];
    if k > 0 {
      assert tail[0] == a[1] && tail[k - 1] == a[k] && (a[0].Element? || a[1].Element?);
      forall i | 0 <= i < k - 1 && i + 1 < |tail| ensures tail[i].Element? || tail[i + 1].Element? {
        assert tail[i] == a[i + 1] && tail[i + 1] == a[i + 2];
      }
      NormalizeAt(tail, 0);
      NormalizeAt(tail, k - 1);
      assert Normalize(a) == [NormalizeNode(a[0])] + Normalize(tail);
    }
  }

  lemma {:induction false} OffIsNoMatch(a: seq<Node>, b: seq<Node>)
    requires Off(a, b)
    ensures Normalize(a) != b
    decreases a
  {
    var k :| 0 <= k < |a| && k < |b| && Flat(a, k) && NodeOff(a[k], b[k]);
    NormalizeAt(a, k);
    if a[k].Element? { OffIsNoMatch(a[k].children, b[k].children); }
  }

  // Whatever comes after, the result is another tree.
  lemma {:induction false} OffForever(env: Env, source: string, r: Reader, ns: seq<Node>)
    requires r.start <= |source| && InStep(r) && Off(Close(r.tree), ns)
    ensures ParseFrom(env, source, r) != Document(ns)
    decreases |source| - r.start
  {
    hide Off, Grows, AtTag, AppendText, Close, Normalize, AllSpace;
    var tagStart := IndexOf(source, '<', r.start);
    if tagStart < 0 {
      var rest := source[r.start..];
      NodeGrowsItself(Text(rest));
      OneMore(Close(r.tree), Text(rest), Text(rest));
      OffForMore(Close(r.tree), ns, Close(r.tree) + [Text(rest)]);
      OffIsNoMatch(Close(r.tree), ns);
      OffIsNoMatch(Close(r.tree) + [Text(rest)], ns);
    } else {
      var u := AppendText(env, source, r, tagStart);
      TextIsMore(env, source, r, tagStart);
      OffForMore(Close(r.tree), ns, Close(u.tree));
      TagIsMore(env, source, u);
      var s := AtTag(env, source, u);
      if s.Next? {
        OffForMore(Close(u.tree), ns, Close(s.reader.tree));
        OffForever(env, source, s.reader, ns);
      }
    }
  }

  // ----- Clean trees -----

  // No text is empty, and no two texts are next to each other.
  predicate Clean(n: Node) {
    match n
    case Text(data) => data != ""
    case Element(_, _, children) => AllClean(children)
  }

  predicate AllClean(ns: seq<Node>) {
    forall i :: 0 <= i < |ns| ==> Clean(ns[i]) && (ns[i].Text? && i + 1 < |ns| ==> ns[i + 1].Element?)
  }

  // No text is empty.
  predicate Full(n: Node) {
    match n
    case Text(data) => data != ""
    case Element(_, _, children) => AllFull(children)
  }

  predicate AllFull(ns: seq<Node>) {
    forall i :: 0 <= i < |ns| ==> Full(ns[i])
  }

  predicate TreeFull(t: Tree) {
    AllFull(t.doc) && forall i :: 0 <= i < |t.open| ==> AllFull(t.open[i].children)
  }

  lemma {:induction false} FullIsClean(ns: seq<Node>)
    requires AllFull(ns)
    ensures AllClean(Normalize(ns))
    decreases ns
  {
    if ns != [] {
      var n, tail := NormalizeNode(ns[0]), Normalize(ns[1..]);
      assert Full(ns[0]);
      FullIsClean(ns[1..]);
      if ns[0].Element? { FullIsClean(ns[0].children); }
      if n.Text? && tail != [] && tail[0].Text? {
        var r := [Text(n.data + tail[0].data)] + tail[1..];
        assert Clean(tail[0]) && (|tail| > 1 ==> tail[1].Element?);
        forall i | 0 <= i < |r| ensures Clean(r[i]) && (r[i].Text? && i + 1 < |r| ==> r[i + 1].Element?) {
          if i > 0 { assert r[i] == tail[i] && (i + 1 < |r| ==> r[i + 1] == tail[i + 1]); }
        }
      } else {
        var r := [n] + tail;
        forall i | 0 <= i < |r| ensures Clean(r[i]) && (r[i].Text? && i + 1 < |r| ==> r[i + 1].Element?) {
          if i > 0 { assert r[i] == tail[i - 1] && (i + 1 < |r| ==> r[i + 1] == tail[i]); }
        }
      }
    }
  }

  lemma EndKeepsFull(t: Tree)
    requires TreeFull(t) && t.open != []
    ensures TreeFull(EndElement(t))
  {
    var f := t.open[|t.open| - 1];
    assert Full(Element(f.name, f.attrs, f.children));
  }

  lemma {:induction false} CloseIsFull(t: Tree)
    requires TreeFull(t)
    ensures AllFull(Close(t))
    decreases |t.open|
  {
    hide TreeFull, EndElement;
    if t.open == [] {
      assert TreeFull(t) ==> AllFull(t.doc) by { FullDocument(t); }
    } else {
      EndKeepsFull(t);
      CloseIsFull(EndElement(t));
    }
  }

  lemma FullDocument(t: Tree)
    requires TreeFull(t)
    ensures AllFull(t.doc)
  {
  }

  lemma CharactersKeepFull(t: Tree, chars: string, n: nat)
    requires TreeFull(t)
    ensures TreeFull(Characters(t, chars, n))
  {
    hide AllSpace;
    var text := if n < |chars| then chars[..n] else chars;
    if text != "" {
      assert Full(Text(text));
      AddKeepsFull(t, Text(text));
    }
  }

  lemma AddKeepsFull(t: Tree, n: Node)
    requires TreeFull(t) && Full(n)
    ensures TreeFull(AddNode(t, n))
  {
  }

  lemma TextKeepsFull(env: Env, source: string, r: Reader, end: nat)
    requires r.start <= end <= |source| && InStep(r) && TreeFull(r.tree)
    ensures TreeFull(AppendText(env, source, r, end).tree)
  {
    hide Replace, Characters, TreeFull;
    if end > r.start { CharactersKeepFull(r.tree, Replace(env, source[r.start..end]), end - r.start); }
  }

  lemma SpecialContentKeepsFull(env: Env, source: string, at: nat, name: string, r: Reader)
    requires r.start < at < |source| && source[at] == '>' && InStep(r) && TreeFull(r.tree)
    ensures TreeFull(AtSpecialContent(env, source, at, name, r).tree)
  {
    hide Replace, HasMarkup, IsScript, IsSpecial, AppendText, Characters, TreeFull;
    var end := IndexOfPiece(source, "</" + name + ">", at);
    var raw := if end < 0 then source[..at + 1] else source[at + 1..end];
    var text := if IsScript(name) then raw else Replace(env, raw);
    var u := r.(tree := Characters(r.tree, text, |text|));
    CharactersKeepFull(r.tree, text, |text|);
    TextKeepsFull(env, source, u, u.start + 1);
  }

  lemma StartTagKeepsFull(env: Env, source: string, r: Reader)
    requires r.start < |source| && InStep(r) && TreeFull(r.tree)
    ensures var s := AtStartTag(env, source, r);
            s.Next? ==> TreeFull(s.reader.tree)
  {
    hide EndElement, AtSpecialContent, ScanElement, LastEnd, SpaceWithin, SetAttrs;
    var scan := ScanElement(env, source, r.start);
    if scan.Scanned? {
      var name := scan.el.name.value;
      var tree := StartElement(r.tree, name, scan.el.attrs);
      assert TreeFull(tree);
      EndKeepsFull(tree);
      var last := LastEnd(env, source, scan.at, name, r.ends);
      if !scan.el.closed && last >= scan.at {
        var space := SpaceWithin(CurrentSpace(env, r.stack), scan.el.attrs);
        var ends := if name in env.inherited then r.ends else r.ends[name := last];
        SpecialContentKeepsFull(env, source, scan.at, name, Reader(r.start, r.stack + [Waiting(name, space)], tree, ends));
      }
    }
  }

  lemma TagKeepsFull(env: Env, source: string, r: Reader)
    requires r.start < |source| && InStep(r) && TreeFull(r.tree)
    ensures var s := AtTag(env, source, r);
            s.Next? ==> TreeFull(s.reader.tree)
  {
    hide EndElement, AtStartTag, Broken, TreeFull;
    StartTagKeepsFull(env, source, r);
    if r.tree.open != [] { EndKeepsFull(r.tree); }
  }

  // Whatever is read, in the result no text is empty and no two are next to each other.
  lemma {:induction false} ResultIsClean(env: Env, source: string, r: Reader)
    requires r.start <= |source| && InStep(r) && TreeFull(r.tree)
    ensures var result := ParseFrom(env, source, r);
            result.Document? ==> AllClean(result.children)
    decreases |source| - r.start
  {
    hide TreeFull, AtTag, AppendText, Close, Normalize, AllClean, Clean;
    var tagStart := IndexOf(source, '<', r.start);
    if tagStart < 0 {
      var rest := source[r.start..];
      CloseIsFull(r.tree);
      FullIsClean(Close(r.tree));
      if !AllSpace(rest) { FullIsClean(Close(r.tree) + [Text(rest)]); }
    } else {
      var u := AppendText(env, source, r, tagStart);
      TextKeepsFull(env, source, r, tagStart);
      TagKeepsFull(env, source, u);
      var s := AtTag(env, source, u);
      if s.Next? { ResultIsClean(env, source, s.reader); }
    }
  }
}
