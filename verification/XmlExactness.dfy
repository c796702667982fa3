// Exactly which trees come back after printing and reading.
module XmlExactness {
  import opened Options
  import opened Xml
  import opened XmlReader
  import opened XmlGrowth
  import opened XmlTags
  import opened XmlRoundTrip

  // The text that a list of nodes begins with.
  function FirstText(ns: seq<Node>): string {
    if ns != [] && ns[0].Text? then ns[0].data else ""
  }

  // A text that is too long stands where the children should begin.
  lemma TooLong(text: string, ns: seq<Node>)
    requires ns != [] && |text| > |FirstText(ns)|
    ensures Off([Text(text)], ns)
  {
    var a := [Text(text)];
    assert NodeOff(a[0], ns[0]) && Flat(a, 0);
  }

  // ----- Scripts and textareas -----

  // Clean children that are not all texts begin with a text, perhaps, and a tag.
  lemma TextThenTag(ns: seq<Node>) returns (more: string)
    requires AllClean(ns) && AllPrintable(ns) && !AllTexts(ns)
    ensures PrintAll(ns) == EscapeAll(FirstText(ns), IN_TEXT) + ("<" + more) && more != "" && more[0] != '/'
  {
    hide PrintAttrs, EscapeAll, Clean;
    if ns[0].Element? {
      more := TagFirst(ns);
      EscapeNothing(IN_TEXT);
      assert "" + ("<" + more) == "<" + more;
    } else {
      TailIsClean(ns);
      var tail := ns[1..];
      assert |ns| > 1 && tail[0] == ns[1];
      more := TagFirst(tail);
    }
  }

  lemma TagFirst(ns: seq<Node>) returns (more: string)
    requires AllPrintable(ns) && ns != [] && ns[0].Element?
    ensures PrintAll(ns) == "<" + more && more != "" && more[0] != '/'
  {
    hide PrintAttrs, PrintAll, IsName;
    var n := ns[0];
    assert Printable(n);
    NameBegins(n.name);
    var tail := PrintAttrs(n.attrs) + (if n.children == [] then "/>" else ">" + PrintAll(n.children) + "</" + n.name + ">");
    assert Print(n) == "<" + (n.name + tail);
    more := n.name + tail + PrintAll(ns[1..]);
    FirstPrinted(ns);
    assert "<" + (n.name + tail) + PrintAll(ns[1..]) == "<" + more;
  }

  lemma NameBegins(name: string)
    requires IsName(name)
    ensures name != "" && name[0] != '/'
  {
    NameCharsAreOthers(name[0]);
  }

  lemma FirstPrinted(ns: seq<Node>)
    requires ns != []
    ensures PrintAll(ns) == Print(ns[0]) + PrintAll(ns[1..])
  {
  }

  // The first end tag is behind the first tag.
  lemma EndIsLater(source: string, at: nat, printed: string, more: string, name: string)
    requires at < |source| && source[at] == '>' && '<' !in printed && more != "" && more[0] != '/'
    requires Found(source, at + 1, printed + ("<" + more))
    requires Found(source, at + 1 + |printed + ("<" + more)|, "</" + name + ">")
    ensures var end := IndexOfPiece(source, "</" + name + ">", at);
            at + 1 + |printed| < end <= |source| && source[at + 1..at + 1 + |printed| + 1] == printed + "<"
  {
    hide Found;
    var p := at + 1 + |printed|;
    FoundParts(source, at + 1, printed, "<" + more);
    FoundParts(source, p, "<", more);
    FoundParts(source, at + 1, printed, "<");
    FoundThere(source, at + 1, printed + "<");
    FoundThere(source, p, "<");
    FoundThere(source, p + 1, more);
    FoundAt(source, p + 1, more, 0);
    forall i | at <= i < p ensures i < |source| && source[i] != '<' {
      if i > at { FoundAt(source, at + 1, printed, i - at - 1); }
    }
    FoundThere(source, at + 1 + |printed + ("<" + more)|, "</" + name + ">");
    TagNotBefore(source, at, p, at + 1 + |printed + ("<" + more)|, name);
  }

  lemma FoundThere(source: string, at: nat, piece: string)
    requires Found(source, at, piece)
    ensures at + |piece| <= |source| && source[at..at + |piece|] == piece
  {
  }

  // An end tag does not begin before `p`, nor there.
  lemma TagNotBefore(source: string, at: nat, p: nat, later: nat, name: string)
    requires p + 1 < |source| && source[p + 1] != '/' && (forall i :: at <= i < p ==> source[i] != '<')
    requires at <= later && OccursAt(source, "</" + name + ">", later)
    ensures p < IndexOfPiece(source, "</" + name + ">", at) <= |source|
  {
    var tag := "</" + name + ">";
    var end := IndexOfPiece(source, tag, at);
    var there := source[end..end + |tag|];
    assert there[0] == source[end] && there[1] == source[end + 1];
  }

  // What is made of the content is longer than the text it should begin with.
  lemma RawIsTooLong(env: Env, d: string, raw: string, name: string)
    requires Standard(env) && |raw| > |EscapeAll(d, IN_TEXT)| && raw[..|EscapeAll(d, IN_TEXT)| + 1] == EscapeAll(d, IN_TEXT) + "<"
    ensures HasMarkup(raw) && |if IsScript(name) then raw else Replace(env, raw)| > |d|
  {
    hide IsScript, EscapeAll;
    var printed := EscapeAll(d, IN_TEXT);
    var more := raw[|printed| + 1..];
    assert raw == printed + ("<" + more);
    assert '<' in raw;
    EscapedText(d, IN_TEXT, '<');
    ReplaceBegins(env, d, IN_TEXT, "<" + more);
    ReplaceOther(env, '<', more);
  }

  // A script or textarea with something else in it than it should have.
  lemma DisturbedContent(env: Env, source: string, w: Reader, at: nat, n: Node) returns (text: string)
    requires Standard(env) && n.Element? && Printable(n) && Clean(n) && n.children != []
    requires w.start < at < |source| && source[at] == '>' && InStep(w) && w.stack != [] && w.tree.open != []
    requires w.stack[|w.stack| - 1] == Waiting(n.name, XHTML) && !Undisturbed(XHTML, n)
    requires Found(source, at + 1, PrintAll(n.children)) && Found(source, at + 1 + |PrintAll(n.children)|, "</" + n.name + ">")
    ensures |text| > |FirstText(n.children)| && Opened(env, source, at, w).tree == AddNode(w.tree, Text(text))
  {
    hide PrintAll, EscapeAll, Replace, IsScript, AddNode, AllClean, Printable, OccursAt, AppendText;
    var d, inner := FirstText(n.children), PrintAll(n.children);
    var printed := EscapeAll(d, IN_TEXT);
    var tag := "</" + n.name + ">";
    var raw;
    EscapedText(d, IN_TEXT, '<');
    if AllTexts(n.children) {
      OneText(n.children);
      FirstEnd(source, at, inner, n.name);
      EscapeMarkup(d);
      raw := inner;
      text := raw;
    } else {
      ChildrenArePrintable(n);
      var more := TextThenTag(n.children);
      EndIsLater(source, at, printed, more, n.name);
      raw := source[at + 1..IndexOfPiece(source, tag, at)];
      assert raw[..|printed| + 1] == source[at + 1..at + 1 + |printed| + 1];
      RawIsTooLong(env, d, raw, n.name);
      text := if IsScript(n.name) then raw else Replace(env, raw);
    }
    TextIsAdded(w.tree, text);
  }

  // Clean children that are all texts are a single text.
  lemma OneText(ns: seq<Node>)
    requires AllClean(ns) && AllTexts(ns) && ns != []
    ensures PrintAll(ns) == EscapeAll(FirstText(ns), IN_TEXT) && (AllPlain(ns) <==> !HasMarkup(FirstText(ns)))
  {
    assert Clean(ns[0]) && ns[0].Text?;
    if |ns| > 1 {
      SecondIsElement(ns);
      assert false;
    }
    assert ns == [ns[0]] && ns[1..] == [];
    assert PrintAll([]) == "";
    assert Print(ns[0]) + "" == Print(ns[0]);
  }

  lemma SecondIsElement(ns: seq<Node>)
    requires AllClean(ns) && |ns| > 1 && ns[0].Text?
    ensures ns[1].Element?
  {
  }

  lemma TextIsAdded(t: Tree, text: string)
    requires text != "" && t.open != []
    ensures Characters(t, text, |text|) == AddNode(t, Text(text))
  {
    assert text[..|text|] == text;
  }

  // ----- The first disturbed element -----

  // In an element that is not legible, something else is read.
  lemma {:induction false} Misread(env: Env, source: string, r: Reader, n: Node) returns (u: Reader, x: Node)
    requires Standard(env) && n.Element? && Printable(n) && Clean(n) && InStep(r) && Looked(env, source, r.ends)
    requires !Legible(CurrentSpace(env, r.stack), n) && Found(source, r.start, Print(n))
    ensures Same(env, source, r, u) && Close(u.tree) == Close(AddNode(r.tree.(rooted := true), x)) && x.Element? && NodeOff(x, n)
    decreases n
  {
    hide EndElement, StartElement, PrintAttrs, PrintAll, AddNodes, Looked, AddNode, ParseFrom, Opened, SpaceWithin, Close, Off,
      AllLegible, Undisturbed, AllClean;
    NothingIsLegible(SpaceWithin(CurrentSpace(env, r.stack), n.attrs), n);
    var name, attrs, children := n.name, n.attrs, n.children;
    var within := SpaceWithin(CurrentSpace(env, r.stack), attrs);
    var head := "<" + name + PrintAttrs(attrs);
    var inner, at := PrintAll(children), r.start + |head|;
    ElementParts(source, r.start, n);
    var w := ReadPrintedStart(env, source, r, name, attrs, at + 1 + |inner|);
    StartedTree(r.tree, name, attrs);
    if Undisturbed(within, n) {
      NotSpecial(within, n);
      var v := w.(start := at + 1);
      assert Opened(env, source, at, w) == v by { NothingSpecial(env, source, at, w); }
      TagBegins(source, at + 1 + |inner|, name);
      EscapeNothing(IN_TEXT);
      assert "" + inner == inner;
      ChildrenArePrintable(n);
      ChildrenAreClean(n);
      var k, y;
      u, k, y := MisreadAll(env, source, v, "", children);
      assert TextNodes("") + children[..k] + [y] == children[..k] + [y];
      x := Element(name, attrs, children[..k] + [y]);
      Completed(r.tree, name, attrs, children[..k] + [y]);
      ChildIsOff(children, k, y);
    } else {
      DisturbedIsSpecial(within, n);
      var text := DisturbedContent(env, source, w, at, n);
      u := Opened(env, source, at, w);
      x := Element(name, attrs, [Text(text)]);
      OneNode(w.tree, Text(text));
      Completed(r.tree, name, attrs, [Text(text)]);
      TooLong(text, children);
    }
  }

  lemma NothingIsLegible(within: string, n: Node)
    requires n.Element? && !(Undisturbed(within, n) && AllLegible(within, n.children))
    ensures n.children != []
  {
  }

  // An undisturbed script or textarea is legible.
  lemma NotSpecial(within: string, n: Node)
    requires n.Element? && Undisturbed(within, n) && !AllLegible(within, n.children)
    ensures !(within == XHTML && IsSpecial(n.name))
  {
  }

  lemma DisturbedIsSpecial(within: string, n: Node)
    requires n.Element? && !Undisturbed(within, n)
    ensures within == XHTML && !Undisturbed(XHTML, n)
  {
  }

  lemma NothingSpecial(env: Env, source: string, at: nat, w: Reader)
    requires w.start < at < |source| && source[at] == '>' && InStep(w) && w.stack != []
    requires !(w.stack[|w.stack| - 1].space == XHTML && IsSpecial(w.stack[|w.stack| - 1].name))
    ensures Opened(env, source, at, w) == w.(start := at + 1)
  {
  }

  lemma ChildrenAreClean(n: Node)
    requires n.Element? && Clean(n)
    ensures AllClean(n.children)
  {
  }

  lemma OneNode(t: Tree, n: Node)
    ensures AddNodes(t, [n]) == AddNode(t, n)
  {
    assert [n][1..] == [];
  }

  // An element that has only been begun, at the end of the source.
  lemma Completed(t: Tree, name: string, attrs: seq<Attr>, children: seq<Node>)
    requires forall i, j :: 0 <= i < j < |attrs| ==> attrs[i].name != attrs[j].name
    ensures Close(AddNodes(StartElement(t, name, attrs), children)) == Close(AddNode(t.(rooted := true), Element(name, attrs, children)))
  {
    hide AddNodes, StartElement, EndElement, AddNode;
    ElementIsBuilt(t, name, attrs, children);
  }

  lemma ChildIsOff(ns: seq<Node>, k: nat, y: Node)
    requires AllClean(ns) && k < |ns| && y.Element? && NodeOff(y, ns[k])
    ensures Off(ns[..k] + [y], ns)
  {
    hide Clean, NodeOff;
    var a := ns[..k] + [y];
    forall i | 0 <= i < k && i + 1 < |a| ensures a[i].Element? || a[i + 1].Element? {
      assert a[i] == ns[i] && (i + 1 < k ==> a[i + 1] == ns[i + 1]);
    }
    assert Flat(a, k) && a[k] == y;
  }

  // The children up to the first that is not legible are read as they are.
  lemma {:induction false} MisreadAll(env: Env, source: string, r: Reader, before: string, ns: seq<Node>)
    returns (u: Reader, k: nat, x: Node)
    requires Standard(env) && AllPrintable(ns) && AllClean(ns) && InStep(r) && Looked(env, source, r.ends)
    requires !AllLegible(CurrentSpace(env, r.stack), ns) && r.tree.rooted && r.tree.open != []
    requires before == "" || ns == [] || ns[0].Element?
    requires Found(source, r.start, EscapeAll(before, IN_TEXT) + PrintAll(ns))
    ensures k < |ns| && x.Element? && NodeOff(x, ns[k])
    ensures Same(env, source, r, u) && Close(u.tree) == Close(AddNodes(r.tree, TextNodes(before) + ns[..k] + [x]))
    decreases ns
  {
    hide PrintAttrs, AddNodes, Looked, AddNode, ParseFrom, EscapeAll, Legible, CurrentSpace, Close, NodeOff, Print, Printable, Clean,
      Found, AllLegible, Standard;
    FirstOrLater(CurrentSpace(env, r.stack), ns);
    var printed, rest, tail := EscapeAll(before, IN_TEXT), PrintAll(ns[1..]), ns[1..];
    assert PrintAll(ns) == Print(ns[0]) + rest;
    TailIsClean(ns);
    if ns[0].Text? {
      var data := ns[0].data;
      TextFirst(ns, before);
      assert printed + PrintAll(ns) == EscapeAll(data, IN_TEXT) + rest;
      u, k, x := MisreadAll(env, source, r, data, tail);
      k := k + 1;
      assert TextNodes(data) + tail[..k - 1] + [x] == TextNodes(before) + ns[..k] + [x];
    } else {
      assert printed + PrintAll(ns) == printed + (Print(ns[0]) + rest);
      FoundParts(source, r.start, printed, Print(ns[0]) + rest);
      FoundParts(source, r.start + |printed|, Print(ns[0]), rest);
      ElementBegins(source, r.start + |printed|, ns[0]);
      ReadText(env, source, r, before);
      var t := AddNodes(r.tree, TextNodes(before));
      var v := r.(start := r.start + |printed|, tree := t);
      if Legible(CurrentSpace(env, r.stack), ns[0]) {
        var w := ReadNode(env, source, v, ns[0]);
        CleanIsVisible(ns[0]);
        EscapeNothing(IN_TEXT);
        assert "" + rest == rest;
        u, k, x := MisreadAll(env, source, w, "", tail);
        AddThree(r.tree, TextNodes(before), ns[0], TextNodes("") + tail[..k] + [x]);
        k := k + 1;
        assert TextNodes(before) + [ns[0]] + (TextNodes("") + tail[..k - 1] + [x]) == TextNodes(before) + ns[..k] + [x];
      } else {
        u, x := Misread(env, source, v, ns[0]);
        k := 0;
        AddNodesConcat(r.tree, TextNodes(before), [x]);
        OneNode(t, x);
        assert TextNodes(before) + ns[..0] + [x] == TextNodes(before) + [x];
      }
    }
  }

  lemma FirstOrLater(space: string, ns: seq<Node>)
    requires !AllLegible(space, ns)
    ensures ns != [] && (Legible(space, ns[0]) ==> !AllLegible(space, ns[1..]))
    ensures ns[0].Text? ==> Legible(space, ns[0])
  {
    hide Legible;
    if ns != [] && Legible(space, ns[0]) {
      var i :| 0 <= i < |ns| && !Legible(space, ns[i]);
      assert ns[1..][i - 1] == ns[i];
    }
    TextIsLegible(space);
  }

  lemma TextIsLegible(space: string)
    ensures forall n: Node :: n.Text? ==> Legible(space, n)
  {
  }

  lemma TextFirst(ns: seq<Node>, before: string)
    requires ns != [] && ns[0].Text? && AllClean(ns) && before == ""
    ensures ns[0].data != "" && Print(ns[0]) == EscapeAll(ns[0].data, IN_TEXT) && EscapeAll(before, IN_TEXT) == ""
    ensures |ns| > 1 ==> ns[1].Element?
  {
    assert Clean(ns[0]);
  }

  // ----- The round trip -----

  // The tree comes back as it was exactly when no text in it is empty or next to another, and no
  // script or textarea of XHTML holds what the reader takes for text.
  lemma RoundTripExactly(env: Env, root: Node)
    requires Standard(env) && root.Element? && Printable(root)
    ensures Parse(env, Print(root)) == Document([root]) <==> Clean(root) && Legible(env.space, root)
  {
    hide Printable, Clean, Legible, Print, ParseFrom, Visible, NodeOff;
    var source := Print(root);
    if !Clean(root) {
      ResultIsClean(env, source, BEGIN);
      CleanAlone(root);
    } else if Legible(env.space, root) {
      ReadsBack(env, root);
      CleanIsVisible(root);
    } else {
      assert source[0..0 + |source|] == source;
      var u, x := Misread(env, source, BEGIN, root);
      assert AddNode(BEGIN.tree.(rooted := true), x) == Tree([x], [], true) by { assert [] + [x] == [x]; }
      assert Flat([x], 0) && NodeOff([x][0], [root][0]);
      OffForever(env, source, u, [root]);
    }
  }

  lemma CleanAlone(n: Node)
    ensures AllClean([n]) ==> Clean(n)
  {
    assert AllClean([n]) ==> Clean([n][0]);
  }

  // The smallest example: a script with its own declaration of the namespace.
  const SCRIPT := Element("script", [Attr("xmlns", XHTML)], [Text("<")])

  lemma ScriptIsLost(env: Env)
    requires Standard(env)
    ensures Clean(SCRIPT) && Printable(SCRIPT) && Parse(env, Print(SCRIPT)) != Document([SCRIPT])
  {
    hide IsName, Print, Parse, InAnyCase, HasMarkup;
    ScriptNames();
    assert SpaceWithin(env.space, SCRIPT.attrs) == XHTML;
    assert SCRIPT.children[0] == Text("<");
    assert !AllPlain(SCRIPT.children);
    RoundTripExactly(env, SCRIPT);
  }

  lemma ScriptNames()
    ensures IsName("script") && IsName("xmlns") && InAnyCase("script", "script") && HasMarkup("<")
  {
    assert '<' in "<";
  }
}
