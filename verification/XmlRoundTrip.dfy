// The reader undoes the printer: reading what has been printed rebuilds the tree, up to empty texts
// and the borders between adjacent texts, which do not show.
module XmlRoundTrip {
  import opened Options
  import opened Xml
  import opened XmlReader
  import opened XmlGrowth
  import opened XmlTags

  // ----- References -----

  // The entities that the printer uses mean what it replaced.
  predicate Standard(env: Env) {
    && "lt" in env.entities && env.entities["lt"] == "<"
    && "amp" in env.entities && env.entities["amp"] == "&"
    && "quot" in env.entities && env.entities["quot"] == "\""
  }

  lemma EscapeIsReference(env: Env, c: char, rest: string)
    requires Standard(env) && c in IN_VALUE
    ensures Reference(Escape(c) + rest) == |Escape(c)|
    ensures Meaning(env, Escape(c)) == [c]
  {
    var s := Escape(c) + rest;
    assert s[0] == '&' && s[1] != '#';
    if c == '<' {
      assert s[1] == 'l' && s[2] == 't' && s[3] == ';';
      assert WordEnd(s, 3) == 3 && WordEnd(s, 2) == 3;
      assert "&lt;"[1..3] == "lt";
    } else if c == '&' {
      assert s[1] == 'a' && s[2] == 'm' && s[3] == 'p' && s[4] == ';';
      assert WordEnd(s, 4) == 4 && WordEnd(s, 3) == 4 && WordEnd(s, 2) == 4;
      assert "&amp;"[1..4] == "amp";
    } else {
      assert s[1] == 'q' && s[2] == 'u' && s[3] == 'o' && s[4] == 't' && s[5] == ';';
      assert WordEnd(s, 5) == 5 && WordEnd(s, 4) == 5 && WordEnd(s, 3) == 5 && WordEnd(s, 2) == 5;
      assert "&quot;"[1..5] == "quot";
    }
  }

  // Replacing the references undoes the escaping, whatever was escaped, if ampersands were.
  lemma ReplaceUndoesEscape(env: Env, s: string, special: set<char>)
    requires Standard(env) && '&' in special && special <= IN_VALUE
    ensures Replace(env, EscapeAll(s, special)) == s
  {
    assert EscapeAll(s, special) + "" == EscapeAll(s, special) && s + "" == s;
    ReplaceBegins(env, s, special, "");
  }

  lemma {:induction false} ReplaceBegins(env: Env, s: string, special: set<char>, more: string)
    requires Standard(env) && '&' in special && special <= IN_VALUE
    ensures Replace(env, EscapeAll(s, special) + more) == s + Replace(env, more)
  {
    hide Replace, Escape;
    if s == "" {
      assert "" + more == more && "" + Replace(env, more) == Replace(env, more);
    } else {
      var c, rest := s[0], EscapeAll(s[1..], special) + more;
      ReplaceBegins(env, s[1..], special, more);
      if c in special {
        assert EscapeAll(s, special) + more == Escape(c) + rest;
        ReplaceEscape(env, c, rest);
      } else {
        assert EscapeAll(s, special) + more == [c] + rest;
        ReplaceOther(env, c, rest);
      }
      assert [c] + (s[1..] + Replace(env, more)) == s + Replace(env, more);
    }
  }

  lemma ReplaceEscape(env: Env, c: char, rest: string)
    requires Standard(env) && c in IN_VALUE
    ensures Replace(env, Escape(c) + rest) == [c] + Replace(env, rest)
  {
    hide Reference, Meaning, Escape;
    EscapeIsReference(env, c, rest);
    EscapeIsSome(c);
    var e := Escape(c) + rest;
    assert e[..|Escape(c)|] == Escape(c) && e[|Escape(c)|..] == rest;
  }

  lemma EscapeIsSome(c: char)
    requires c in MARKUP
    ensures |Escape(c)| >= 4
  {
  }

  lemma ReplaceOther(env: Env, c: char, rest: string)
    requires c != '&'
    ensures Replace(env, [c] + rest) == [c] + Replace(env, rest)
  {
    hide Meaning;
    var e := [c] + rest;
    assert e[0] == c && e[1..] == rest && Reference(e) == 0;
  }

  // A text without markup is printed as it is, and any other text becomes longer.
  lemma {:induction false} EscapeMarkup(s: string)
    ensures HasMarkup(EscapeAll(s, IN_TEXT)) <==> HasMarkup(s)
    ensures if HasMarkup(s) then |EscapeAll(s, IN_TEXT)| > |s| else EscapeAll(s, IN_TEXT) == s
  {
    if s != "" {
      var c, rest := s[0], EscapeAll(s[1..], IN_TEXT);
      EscapeMarkup(s[1..]);
      assert s == [c] + s[1..];
      MarkupParts([c], s[1..]);
      if c in IN_TEXT {
        assert '&' in Escape(c) && HasMarkup(Escape(c)) && c in [c] && HasMarkup([c]);
        MarkupParts(Escape(c), rest);
      } else {
        assert !HasMarkup([c]);
        MarkupParts([c], rest);
      }
    }
  }

  lemma MarkupParts(a: string, b: string)
    ensures HasMarkup(a + b) <==> HasMarkup(a) || HasMarkup(b)
  {
    if HasMarkup(a) { var c :| c in a && c in IN_TEXT; assert c in a + b; }
    if HasMarkup(b) { var c :| c in b && c in IN_TEXT; assert c in a + b; }
  }

  // The printed form is not shorter, and none of the special characters but the ampersand is in it.
  lemma {:induction false} EscapedText(s: string, special: set<char>, c: char)
    requires special <= IN_VALUE && c in special && c != '&'
    ensures |EscapeAll(s, special)| >= |s| && (s != "" ==> EscapeAll(s, special) != "")
    ensures c !in EscapeAll(s, special)
  {
    if s != "" {
      EscapedText(s[1..], special, c);
    }
  }

  lemma {:induction false} EscapeConcat(s: string, t: string, special: set<char>)
    requires special <= MARKUP
    ensures EscapeAll(s + t, special) == EscapeAll(s, special) + EscapeAll(t, special)
  {
    hide Escape;
    if s == "" {
      assert s + t == t;
    } else {
      var first := if s[0] in special then Escape(s[0]) else [s[0]];
      EscapeConcat(s[1..], t, special);
      assert (s + t)[1..] == s[1..] + t;
      assert EscapeAll(s + t, special) == first + EscapeAll(s[1..] + t, special);
    }
  }

  // ----- Scanning a printed start tag -----

  // The spelling of the printer: one blank before each attribute, and quotation marks.
  function PrintedAttribute(a: Attr): Attribute {
    Attribute(" ", a.name, "", "", Quoted('"', EscapeAll(a.value, IN_VALUE)))
  }

  function PrintedAttributes(attrs: seq<Attr>): seq<Attribute> {
    if attrs == [] then [] else [PrintedAttribute(attrs[0])] + PrintedAttributes(attrs[1..])
  }

  function PrintedTag(name: string, attrs: seq<Attr>, closed: bool): StartTag {
    StartTag(name, PrintedAttributes(attrs), "", closed)
  }

  lemma NameIsQName(name: string)
    requires IsName(name)
    ensures IsQName(name)
  {
    if IndexOf(name, ':', 0) >= 0 {
      NameCharsAreOthers(name[IndexOf(name, ':', 0)]);
    }
  }

  lemma AttributeIsSpelled(env: Env, a: Attr)
    requires Standard(env) && IsName(a.name)
    ensures IsSpelled(PrintedAttribute(a)) && WriteAttribute(PrintedAttribute(a)) == PrintAttr(a) && Meant(env, PrintedAttribute(a)) == a
  {
    hide EscapeAll, Replace, IsName, IsQName;
    NameIsQName(a.name);
    EscapedText(a.value, IN_VALUE, '"');
    ReplaceUndoesEscape(env, a.value, IN_VALUE);
    assert "" + "=" + "" + ['"'] + EscapeAll(a.value, IN_VALUE) + ['"'] == "=\"" + EscapeAll(a.value, IN_VALUE) + "\"";
  }

  lemma {:induction false} AttributesAreSpelled(env: Env, attrs: seq<Attr>)
    requires Standard(env) && forall i :: 0 <= i < |attrs| ==> IsName(attrs[i].name)
    ensures var more := PrintedAttributes(attrs);
            && |more| == |attrs| && (forall i :: 0 <= i < |more| ==> IsSpelled(more[i]))
            && WriteAttributes(more) == PrintAttrs(attrs) && AllMeant(env, more) == attrs
    decreases attrs
  {
    hide IsSpelled, PrintedAttribute, WriteAttribute, PrintAttr, Meant, IsName;
    if attrs != [] {
      AttributeIsSpelled(env, attrs[0]);
      AttributesAreSpelled(env, attrs[1..]);
      assert [attrs[0]] + attrs[1..] == attrs;
    }
  }

  lemma PrintedIsSpelled(env: Env, name: string, attrs: seq<Attr>, closed: bool)
    requires Standard(env) && IsName(name) && forall i :: 0 <= i < |attrs| ==> IsName(attrs[i].name)
    ensures var t := PrintedTag(name, attrs, closed);
            && TagIsSpelled(t) && WriteTag(t) == "<" + name + PrintAttrs(attrs) + (if closed then "/>" else ">")
            && AllMeant(env, t.attributes) == attrs && EndsThere(t) == closed
  {
    hide IsSpelled, IsName, IsQName, PrintedAttributes, WriteAttributes, PrintAttrs, AllMeant;
    NameIsQName(name);
    AttributesAreSpelled(env, attrs);
    assert "<" + name + PrintAttrs(attrs) + "" == "<" + name + PrintAttrs(attrs);
  }

  // A printed start tag is scanned up to its ">".
  lemma ScanPrinted(env: Env, source: string, at: nat, name: string, attrs: seq<Attr>, closed: bool)
    requires Standard(env) && IsName(name) && forall i :: 0 <= i < |attrs| ==> IsName(attrs[i].name)
    requires Found(source, at, "<" + name + PrintAttrs(attrs) + (if closed then "/>" else ">"))
    ensures ScanElement(env, source, at) ==
            Scanned(at + 1 + |name| + |PrintAttrs(attrs)| + (if closed then 1 else 0), Start(Some(name), attrs, closed))
  {
    hide PrintAttrs, WriteTag, Found, IsName, Standard, TagIsSpelled, EndsThere, ScanElement, PrintedAttributes;
    PrintedIsSpelled(env, name, attrs, closed);
    TagIsRead(env, source, at, PrintedTag(name, attrs, closed));
  }

  // ----- Trees -----

  // The names can be printed, and those of the attributes of an element differ.
  predicate Printable(n: Node) {
    match n
    case Text(_) => true
    case Element(name, attrs, children) =>
      && IsName(name)
      && (forall i :: 0 <= i < |attrs| ==> IsName(attrs[i].name))
      && (forall i, j :: 0 <= i < j < |attrs| ==> attrs[i].name != attrs[j].name)
      && AllPrintable(children)
  }

  predicate AllPrintable(ns: seq<Node>) {
    forall i :: 0 <= i < |ns| ==> Printable(ns[i])
  }

  predicate AllTexts(ns: seq<Node>) {
    forall i :: 0 <= i < |ns| ==> ns[i].Text?
  }

  predicate AllPlain(ns: seq<Node>) {
    forall i :: 0 <= i < |ns| ==> ns[i].Text? && !HasMarkup(ns[i].data)
  }

  // In the namespace of XHTML, a script holds only texts without markup, and a textarea only texts.
  predicate Legible(space: string, n: Node)
    decreases n
  {
    n.Element? ==>
      var within := SpaceWithin(space, n.attrs);
      Undisturbed(within, n) && AllLegible(within, n.children)
  }

  predicate AllLegible(space: string, ns: seq<Node>)
    decreases ns
  {
    forall i :: 0 <= i < |ns| ==> Legible(space, ns[i])
  }

  predicate Undisturbed(within: string, n: Node)
    requires n.Element?
  {
    within == XHTML && IsSpecial(n.name) ==> if IsScript(n.name) then AllPlain(n.children) else AllTexts(n.children)
  }

  // The tree that a reader can see: texts are joined, and not empty.
  function Visible(n: Node): Node {
    match n
    case Text(_) => n
    case Element(name, attrs, children) => Element(name, attrs, VisibleAll("", children))
  }

  // The same for a list of nodes that comes after some text.
  function VisibleAll(before: string, ns: seq<Node>): seq<Node>
    decreases ns
  {
    if ns == [] then TextNodes(before)
    else match ns[0]
      case Text(data) => VisibleAll(before + data, ns[1..])
      case Element(_, _, _) => TextNodes(before) + [Visible(ns[0])] + VisibleAll("", ns[1..])
  }

  function TextNodes(s: string): seq<Node> {
    if s == "" then [] else [Text(s)]
  }

  function AddNodes(t: Tree, ns: seq<Node>): (r: Tree)
    ensures |r.open| == |t.open| && r.rooted == t.rooted
    decreases ns
  {
    if ns == [] then t else AddNodes(AddNode(t, ns[0]), ns[1..])
  }

  lemma {:induction false} AddNodesConcat(t: Tree, a: seq<Node>, b: seq<Node>)
    ensures AddNodes(t, a + b) == AddNodes(AddNodes(t, a), b)
    decreases a
  {
    if a == [] {
      assert a + b == b;
    } else {
      AddNodesConcat(AddNode(t, a[0]), a[1..], b);
      assert (a + b)[1..] == a[1..] + b;
    }
  }

  // Children are added to the innermost open element.
  lemma {:induction false} AddNodesToFrame(doc: seq<Node>, open: seq<Frame>, f: Frame, ns: seq<Node>)
    ensures AddNodes(Tree(doc, open + [f], true), ns) == Tree(doc, open + [f.(children := f.children + ns)], true)
    decreases ns
  {
    if ns == [] {
      assert f.children + ns == f.children;
    } else {
      var g := f.(children := f.children + [ns[0]]);
      AddNodesToFrame(doc, open, g, ns[1..]);
      assert g.children + ns[1..] == f.children + ns;
      assert (open + [f])[..|open|] == open;
    }
  }

  lemma {:induction false} DistinctAreAppended(attrs: seq<Attr>, more: seq<Attr>)
    requires forall i, j :: 0 <= i < j < |attrs + more| ==> (attrs + more)[i].name != (attrs + more)[j].name
    ensures SetAttrs(attrs, more) == attrs + more
    decreases more
  {
    if more == [] {
      assert attrs + more == attrs;
    } else {
      assert (attrs + more)[|attrs|] == more[0];
      assert forall i :: 0 <= i < |attrs| ==> (attrs + more)[i] == attrs[i];
      assert attrs + [more[0]] + more[1..] == attrs + more;
      DistinctAreAppended(attrs + [more[0]], more[1..]);
    }
  }

  // An element with its children is complete.
  lemma ElementIsComplete(t: Tree, name: string, attrs: seq<Attr>, children: seq<Node>)
    ensures var u := AddNodes(StartElement(t, name, attrs), children);
            u.open != [] && EndElement(u) == AddNode(t.(rooted := true), Element(name, SetAttrs([], attrs), children))
  {
    var f := Frame(name, SetAttrs([], attrs), []);
    AddNodesToFrame(t.doc, t.open, f, children);
    assert f.children + children == children;
    assert (t.open + [f.(children := children)])[..|t.open|] == t.open;
  }

  lemma ElementIsBuilt(t: Tree, name: string, attrs: seq<Attr>, children: seq<Node>)
    requires forall i, j :: 0 <= i < j < |attrs| ==> attrs[i].name != attrs[j].name
    ensures var u := AddNodes(StartElement(t, name, attrs), children);
            u.open != [] && EndElement(u) == AddNode(t.(rooted := true), Element(name, attrs, children))
  {
    assert [] + attrs == attrs;
    DistinctAreAppended([], attrs);
    ElementIsComplete(t, name, attrs, children);
  }

  // ----- Reading a printed tree -----

  // What has been looked up is the last end tag.
  predicate Looked(env: Env, source: string, ends: map<string, int>) {
    forall name :: name in ends ==> ends[name] == LastIndexOf(source, "</" + name + ">", |source|)
  }

  // The reader goes on the same way.
  predicate Same(env: Env, source: string, a: Reader, b: Reader) {
    && a.start <= |source| && InStep(a) && b.start <= |source| && InStep(b)
    && ParseFrom(env, source, a) == ParseFrom(env, source, b)
  }

  lemma StepParse(env: Env, source: string, r: Reader, u: Reader)
    requires r.start < |source| && InStep(r) && source[r.start] == '<' && AtTag(env, source, r) == Next(u)
    ensures Same(env, source, r, u)
  {
    hide AtTag, Replace, Characters;
    IndexOfIs(source, '<', r.start, r.start);
    assert AppendText(env, source, r, r.start) == r;
  }

  // The references in a text are replaced, and the text is not longer than it was.
  function Shown(env: Env, raw: string): string {
    var text := Replace(env, raw);
    if |raw| < |text| then text[..|raw|] else text
  }

  // A text is read up to the next tag.
  lemma ReadRaw(env: Env, source: string, r: Reader, raw: string)
    requires '<' !in raw && InStep(r) && (r.tree.open != [] || r.tree.rooted)
    requires Found(source, r.start, raw) && Found(source, r.start + |raw|, "<")
    ensures Same(env, source, r, r.(start := r.start + |raw|, tree := AddNodes(r.tree, TextNodes(Shown(env, raw)))))
  {
    hide AtTag, Replace;
    var end := r.start + |raw|;
    FoundAt(source, end, "<", 0);
    ReplaceNothing(env);
    forall i | r.start <= i < end ensures source[i] != '<' {
      FoundAt(source, r.start, raw, i - r.start);
    }
    IndexOfIs(source, '<', r.start, end);
    IndexOfIs(source, '<', end, end);
    assert source[r.start..end] == raw;
    var u := AppendText(env, source, r, end);
    assert u == r.(start := end, tree := AddNodes(r.tree, TextNodes(Shown(env, raw))));
    assert AppendText(env, source, u, end) == u;
  }

  lemma ReplaceNothing(env: Env)
    ensures Replace(env, "") == ""
  {
  }

  // A printed text.
  lemma ReadText(env: Env, source: string, r: Reader, data: string)
    requires Standard(env) && InStep(r) && (r.tree.open != [] || r.tree.rooted)
    requires Found(source, r.start, EscapeAll(data, IN_TEXT)) && Found(source, r.start + |EscapeAll(data, IN_TEXT)|, "<")
    ensures Same(env, source, r, r.(start := r.start + |EscapeAll(data, IN_TEXT)|, tree := AddNodes(r.tree, TextNodes(data))))
  {
    hide Replace, EscapeAll, Found, ParseFrom;
    EscapedText(data, IN_TEXT, '<');
    ReplaceUndoesEscape(env, data, IN_TEXT);
    ReadRaw(env, source, r, EscapeAll(data, IN_TEXT));
  }

  lemma EscapeNothing(special: set<char>)
    requires special <= MARKUP
    ensures EscapeAll("", special) == ""
  {
  }

  // An end tag.
  lemma ReadEndTag(env: Env, source: string, r: Reader, name: string)
    requires IsQName(name) && InStep(r) && r.stack != [] && r.stack[|r.stack| - 1].name == name
    requires Found(source, r.start, "</" + name + ">")
    ensures Same(env, source, r, r.(start := r.start + |name| + 3, stack := r.stack[..|r.stack| - 1], tree := EndElement(r.tree)))
  {
    hide EndElement, IsQName, Found, Broken, IndexOf;
    EndTagParts(source, r.start, name);
    NotBroken(name);
    StepParse(env, source, r, r.(start := r.start + |name| + 3, stack := r.stack[..|r.stack| - 1], tree := EndElement(r.tree)));
  }

  lemma EndTagParts(source: string, at: nat, name: string)
    requires IsQName(name) && Found(source, at, "</" + name + ">")
    ensures at + 2 + |name| < |source| && source[at] == '<' && source[at + 1] == '/'
    ensures IndexOf(source, '>', at + 3) == at + 2 + |name| && source[at + 2..at + 2 + |name|] == name
  {
    hide IsQName, IndexOf;
    QNameIsOrdinary(name);
    assert "</" + name + ">" == "</" + (name + ">");
    FoundParts(source, at, "</", name + ">");
    FoundParts(source, at + 2, name, ">");
    FoundAt(source, at, "</", 0);
    FoundAt(source, at, "</", 1);
    FoundAt(source, at + 2 + |name|, ">", 0);
    forall i | at + 2 <= i < at + 2 + |name| ensures source[i] != '>' {
      FoundAt(source, at + 2, name, i - at - 2);
      assert IsOrdinary(name[i - at - 2]);
    }
    IndexOfIs(source, '>', at + 3, at + 2 + |name|);
  }

  lemma QNameHasNoAngle(name: string)
    requires IsQName(name)
    ensures '<' !in name && name != "" && IsNameStart(name[0])
  {
    var k := IndexOf(name, ':', 0);
    forall i | 0 <= i < |name| ensures name[i] != '<' {
      if k < 0 || i < k {
        if k >= 0 { assert name[i] == name[..k][i]; }
        NameCharsAreOthers(name[i]);
      } else if i > k {
        assert name[i] == name[k + 1..][i - k - 1];
        NameCharsAreOthers(name[i]);
      }
    }
    if k >= 0 { assert name[0] == name[..k][0]; }
  }

  lemma NotBroken(name: string)
    requires IsQName(name)
    ensures !Broken(name)
  {
    QNameHasNoAngle(name);
  }

  // The tag of an element without content.
  lemma ReadClosedTag(env: Env, source: string, r: Reader, t: StartTag)
    requires TagIsSpelled(t) && EndsThere(t) && InStep(r) && Found(source, r.start, WriteTag(t))
    ensures Same(env, source, r, r.(start := r.start + |WriteTag(t)|, tree := EndElement(StartElement(r.tree, t.name, AllMeant(env, t.attributes)))))
  {
    hide EndElement, StartElement, WriteTag, ScanElement, AllMeant, TagIsSpelled, IsQName;
    TagIsRead(env, source, r.start, t);
    TagIsStart(env, source, r, t);
    StepParse(env, source, r, AtStartTag(env, source, r).reader);
  }

  lemma TagIsStart(env: Env, source: string, r: Reader, t: StartTag)
    requires TagIsSpelled(t) && InStep(r) && Found(source, r.start, WriteTag(t))
    ensures r.start + |WriteTag(t)| <= |source| && |WriteTag(t)| >= 3 && source[r.start] == '<'
    ensures source[r.start + |WriteTag(t)| - 1] == '>' && AtTag(env, source, r) == AtStartTag(env, source, r)
  {
    hide AtStartTag, WriteAttributes, IsQName;
    var w := WriteTag(t);
    QNameHasNoAngle(t.name);
    NameCharsAreOthers(t.name[0]);
    FoundAt(source, r.start, w, 0);
    FoundAt(source, r.start, w, 1);
    FoundAt(source, r.start, w, |w| - 1);
    assert w[1] == t.name[0] && w[|w| - 1] == '>';
    assert !IsNameStart('?') && !IsNameStart('!');
  }

  // What follows the start tag of an element that has not ended, up to its ">" at a position.
  function Opened(env: Env, source: string, at: nat, w: Reader): (u: Reader)
    requires w.start < at < |source| && source[at] == '>' && InStep(w) && w.stack != []
    ensures InStep(u) && w.start < u.start <= |source|
  {
    var top := w.stack[|w.stack| - 1];
    if top.space == XHTML then AtSpecialContent(env, source, at, top.name, w) else w.(start := at + 1)
  }

  lemma FoundOccurs(source: string, piece: string, at: nat)
    requires Found(source, at, piece)
    ensures OccursAt(source, piece, at)
  {
  }

  // The start tag of an element whose end tag comes later.
  lemma ReadStartTag(env: Env, source: string, r: Reader, t: StartTag, later: nat) returns (w: Reader)
    requires TagIsSpelled(t) && !EndsThere(t) && InStep(r) && Looked(env, source, r.ends) && Found(source, r.start, WriteTag(t))
    requires Found(source, later, "</" + t.name + ">") && later >= r.start + |WriteTag(t)|
    ensures w.start == r.start && Looked(env, source, w.ends)
    ensures w.stack == r.stack + [Waiting(t.name, SpaceWithin(CurrentSpace(env, r.stack), AllMeant(env, t.attributes)))]
    ensures w.tree == StartElement(r.tree, t.name, AllMeant(env, t.attributes))
    ensures var at := r.start + |WriteTag(t)| - 1;
            && r.start < at < |source| && source[at] == '>' && InStep(w)
            && Same(env, source, r, Opened(env, source, at, w))
  {
    hide EndElement, StartElement, WriteTag, ScanElement, AtSpecialContent, SpaceWithin, Found, IsQName, AllMeant, TagIsSpelled, ParseFrom;
    var name, attrs := t.name, AllMeant(env, t.attributes);
    TagIsRead(env, source, r.start, t);
    TagIsStart(env, source, r, t);
    FoundOccurs(source, "</" + name + ">", later);
    var last := LastIndexOf(source, "</" + name + ">", |source|);
    assert last >= later;
    var within := SpaceWithin(CurrentSpace(env, r.stack), attrs);
    w := Reader(r.start, r.stack + [Waiting(name, within)], StartElement(r.tree, name, attrs),
                if name in env.inherited then r.ends else r.ends[name := last]);
    var at := r.start + |WriteTag(t)| - 1;
    assert ScanElement(env, source, r.start).at == at;
    StepParse(env, source, r, Opened(env, source, at, w));
  }

  lemma ReadPrintedClosed(env: Env, source: string, r: Reader, name: string, attrs: seq<Attr>)
    requires Standard(env) && IsName(name) && forall i :: 0 <= i < |attrs| ==> IsName(attrs[i].name)
    requires InStep(r) && Found(source, r.start, "<" + name + PrintAttrs(attrs) + "/>")
    ensures Same(env, source, r, r.(start := r.start + |"<" + name + PrintAttrs(attrs) + "/>"|, tree := EndElement(StartElement(r.tree, name, attrs))))
  {
    hide EndElement, StartElement, PrintAttrs, WriteTag, Found, IsName, Standard, TagIsSpelled, EndsThere, ParseFrom, PrintedAttributes;
    PrintedIsSpelled(env, name, attrs, true);
    ReadClosedTag(env, source, r, PrintedTag(name, attrs, true));
  }

  lemma ReadPrintedStart(env: Env, source: string, r: Reader, name: string, attrs: seq<Attr>, later: nat) returns (w: Reader)
    requires Standard(env) && IsName(name) && forall i :: 0 <= i < |attrs| ==> IsName(attrs[i].name)
    requires InStep(r) && Looked(env, source, r.ends) && Found(source, r.start, "<" + name + PrintAttrs(attrs) + ">")
    requires Found(source, later, "</" + name + ">") && later >= r.start + |"<" + name + PrintAttrs(attrs) + ">"|
    ensures w.start == r.start && w.stack == r.stack + [Waiting(name, SpaceWithin(CurrentSpace(env, r.stack), attrs))]
    ensures w.tree == StartElement(r.tree, name, attrs) && Looked(env, source, w.ends)
    ensures var at := r.start + |"<" + name + PrintAttrs(attrs)|;
            && r.start < at < |source| && source[at] == '>' && InStep(w)
            && Same(env, source, r, Opened(env, source, at, w))
  {
    hide EndElement, StartElement, PrintAttrs, WriteTag, Found, IsName, Standard, TagIsSpelled, EndsThere, ParseFrom, PrintedAttributes,
      SpaceWithin, Opened, Looked;
    PrintedIsSpelled(env, name, attrs, false);
    w := ReadStartTag(env, source, r, PrintedTag(name, attrs, false), later);
  }

  // The first end tag after a text without "<" that stands before it.
  lemma FirstEnd(source: string, at: nat, inner: string, name: string)
    requires at < |source| && source[at] == '>' && '<' !in inner
    requires Found(source, at + 1, inner) && Found(source, at + 1 + |inner|, "</" + name + ">")
    ensures IndexOfPiece(source, "</" + name + ">", at) == at + 1 + |inner|
    ensures source[at + 1..at + 1 + |inner|] == inner
  {
    var tag, later := "</" + name + ">", at + 1 + |inner|;
    assert OccursAt(source, tag, later);
    forall i | at <= i < later ensures source[i] != '<' {
      if i > at { FoundAt(source, at + 1, inner, i - at - 1); }
    }
    var r := IndexOfPiece(source, tag, at);
    assert source[r] == '<' by { assert source[r..r + |tag|][0] == source[r]; }
  }

  function TextOf(ns: seq<Node>): string {
    if ns == [] then "" else (if ns[0].Text? then ns[0].data else "") + TextOf(ns[1..])
  }

  // Children that are all texts are one text.
  lemma {:induction false} TextsAreOne(before: string, ns: seq<Node>)
    requires AllTexts(ns)
    ensures PrintAll(ns) == EscapeAll(TextOf(ns), IN_TEXT) && VisibleAll(before, ns) == TextNodes(before + TextOf(ns))
    ensures AllPlain(ns) ==> !HasMarkup(TextOf(ns))
    decreases ns
  {
    if ns == [] {
      assert before + "" == before;
    } else {
      TextsAreOne(before + ns[0].data, ns[1..]);
      EscapeConcat(ns[0].data, TextOf(ns[1..]), IN_TEXT);
      MarkupParts(ns[0].data, TextOf(ns[1..]));
      assert before + TextOf(ns) == before + ns[0].data + TextOf(ns[1..]);
    }
  }

  // The content of an element is read, up to its end tag.
  lemma {:induction false} ReadContent(env: Env, source: string, w: Reader, at: nat, n: Node) returns (x: Reader)
    requires Standard(env) && n.Element? && Printable(n) && n.children != []
    requires w.start < at < |source| && source[at] == '>' && InStep(w) && w.stack != [] && Looked(env, source, w.ends)
    requires w.stack[|w.stack| - 1].name == n.name && w.tree.rooted && w.tree.open != []
    requires Undisturbed(CurrentSpace(env, w.stack), n) && AllLegible(CurrentSpace(env, w.stack), n.children)
    requires Found(source, at + 1, PrintAll(n.children)) && Found(source, at + 1 + |PrintAll(n.children)|, "</" + n.name + ">")
    ensures x.start == at + 1 + |PrintAll(n.children)| && x.stack == w.stack && Looked(env, source, x.ends)
    ensures x.tree == AddNodes(w.tree, VisibleAll("", n.children)) && Same(env, source, Opened(env, source, at, w), x)
    decreases n.children, 1
  {
    hide AddNodes, VisibleAll, Looked, AddNode, ParseFrom, EscapeAll, PrintAll, Replace, HasMarkup, IsScript, IsSpecial, AllLegible, Printable,
      Found, Opened, Standard, Undisturbed, AtSpecialContent;
    var inner := PrintAll(n.children);
    ChildrenArePrintable(n);
    TagBegins(source, at + 1 + |inner|, n.name);
    if w.stack[|w.stack| - 1].space == XHTML && IsSpecial(n.name) && HasMarkup(inner) {
      x := ReadSpecial(env, source, w, at, n);
    } else {
      EscapeNothing(IN_TEXT);
      assert "" + inner == inner;
      OpenedInPlace(env, source, w, at, n);
      x := ReadNodes(env, source, w.(start := at + 1), "", n.children);
    }
  }

  // Content with markup is one text.
  lemma ReadSpecial(env: Env, source: string, w: Reader, at: nat, n: Node) returns (x: Reader)
    requires Standard(env) && n.Element? && n.children != []
    requires w.start < at < |source| && source[at] == '>' && InStep(w) && w.stack != [] && w.tree.open != []
    requires w.stack[|w.stack| - 1] == Waiting(n.name, XHTML) && IsSpecial(n.name) && HasMarkup(PrintAll(n.children))
    requires Undisturbed(XHTML, n)
    requires Found(source, at + 1, PrintAll(n.children)) && Found(source, at + 1 + |PrintAll(n.children)|, "</" + n.name + ">")
    ensures x.start == at + 1 + |PrintAll(n.children)| && x.stack == w.stack && x.ends == w.ends && InStep(x)
    ensures x.tree == AddNodes(w.tree, VisibleAll("", n.children)) && x == Opened(env, source, at, w)
  {
    hide AddNodes, VisibleAll, AddNode, EscapeAll, PrintAll, Replace, HasMarkup, IsScript, IsSpecial, Found, Standard, Undisturbed,
      IndexOfPiece, Characters;
    var inner, text := PrintAll(n.children), TextOf(n.children);
    OnlyTexts(n);
    TextsAreOne("", n.children);
    EscapedText(text, IN_TEXT, '<');
    FirstEnd(source, at, inner, n.name);
    EscapeMarkup(text);
    ReplaceUndoesEscape(env, text, IN_TEXT);
    assert "" + text == text;
    x := AtSpecialContent(env, source, at, n.name, w);
    MarkupIsText(w.tree, text);
  }

  // Other content is read on from the start tag.
  lemma OpenedInPlace(env: Env, source: string, w: Reader, at: nat, n: Node)
    requires n.Element? && w.start < at < |source| && source[at] == '>' && InStep(w) && w.stack != []
    requires w.stack[|w.stack| - 1].name == n.name
    requires !(w.stack[|w.stack| - 1].space == XHTML && IsSpecial(n.name) && HasMarkup(PrintAll(n.children)))
    requires Undisturbed(CurrentSpace(env, w.stack), n)
    requires Found(source, at + 1, PrintAll(n.children)) && Found(source, at + 1 + |PrintAll(n.children)|, "</" + n.name + ">")
    ensures Opened(env, source, at, w) == w.(start := at + 1)
  {
    hide EscapeAll, PrintAll, Replace, HasMarkup, IsScript, IsSpecial, Found, Undisturbed, IndexOfPiece, Characters;
    if w.stack[|w.stack| - 1].space == XHTML && IsSpecial(n.name) {
      var text := TextOf(n.children);
      OnlyTexts(n);
      TextsAreOne("", n.children);
      EscapedText(text, IN_TEXT, '<');
      assert "" + text == text;
      FirstEnd(source, at, PrintAll(n.children), n.name);
    }
  }

  lemma ChildrenArePrintable(n: Node)
    requires n.Element? && Printable(n)
    ensures AllPrintable(n.children)
  {
  }

  lemma OnlyTexts(n: Node)
    requires n.Element? && IsSpecial(n.name) && Undisturbed(XHTML, n)
    ensures AllTexts(n.children) && (IsScript(n.name) ==> AllPlain(n.children))
  {
  }

  lemma MarkupIsText(t: Tree, text: string)
    requires HasMarkup(text) && t.open != []
    ensures text != "" && Characters(t, text, |text|) == AddNode(t, Text(text)) == AddNodes(t, TextNodes(text))
  {
    assert text[..|text|] == text;
  }

  // A printed element is read as what is visible of it.
  lemma {:induction false} ReadNode(env: Env, source: string, r: Reader, n: Node) returns (u: Reader)
    requires Standard(env) && n.Element? && Printable(n) && InStep(r) && Looked(env, source, r.ends)
    requires Legible(CurrentSpace(env, r.stack), n) && Found(source, r.start, Print(n))
    ensures u.start == r.start + |Print(n)| && u.stack == r.stack && Looked(env, source, u.ends)
    ensures u.tree == AddNode(r.tree.(rooted := true), Visible(n)) && Same(env, source, r, u)
    decreases n
  {
    hide EndElement, StartElement, PrintAttrs, PrintAll, AddNodes, VisibleAll, Looked, AddNode, ParseFrom, Opened, SpaceWithin,
      AllLegible, Undisturbed;
    var name, attrs, children := n.name, n.attrs, n.children;
    var head := "<" + name + PrintAttrs(attrs);
    if children == [] {
      ReadPrintedClosed(env, source, r, name, attrs);
      VisibleNothing();
      ElementIsBuilt(r.tree, name, attrs, []);
      AddNothing(StartElement(r.tree, name, attrs));
      u := r.(start := r.start + |Print(n)|, tree := EndElement(StartElement(r.tree, name, attrs)));
    } else {
      var inner, tail := PrintAll(children), "</" + name + ">";
      ElementParts(source, r.start, n);
      var later := r.start + |head| + 1 + |inner|;
      var w := ReadPrintedStart(env, source, r, name, attrs, later);
      StartedTree(r.tree, name, attrs);
      var x := ReadContent(env, source, w, r.start + |head|, n);
      NameIsQName(name);
      ReadEndTag(env, source, x, name);
      ElementIsBuilt(r.tree, name, attrs, VisibleAll("", children));
      u := x.(start := later + |tail|, stack := r.stack, tree := EndElement(x.tree));
    }
  }

  lemma ElementParts(source: string, at: nat, n: Node)
    requires n.Element? && n.children != [] && Found(source, at, Print(n))
    ensures var head := "<" + n.name + PrintAttrs(n.attrs);
            var inner := PrintAll(n.children);
            && Print(n) == (head + ">") + (inner + ("</" + n.name + ">"))
            && Found(source, at, head + ">") && Found(source, at + |head| + 1, inner)
            && Found(source, at + |head| + 1 + |inner|, "</" + n.name + ">")
  {
    hide PrintAttrs, PrintAll, Found;
    var head, inner, tail := "<" + n.name + PrintAttrs(n.attrs), PrintAll(n.children), "</" + n.name + ">";
    assert Print(n) == (head + ">") + (inner + tail);
    FoundParts(source, at, head + ">", inner + tail);
    FoundParts(source, at + |head| + 1, inner, tail);
  }

  lemma VisibleNothing()
    ensures VisibleAll("", []) == []
  {
  }

  lemma AddNothing(t: Tree)
    ensures AddNodes(t, []) == t
  {
  }

  lemma StartedTree(t: Tree, name: string, attrs: seq<Attr>)
    ensures StartElement(t, name, attrs).rooted && StartElement(t, name, attrs).open != []
  {
  }

  lemma TagBegins(source: string, at: nat, name: string)
    requires Found(source, at, "</" + name + ">")
    ensures Found(source, at, "<")
  {
    assert "</" + name + ">" == "<" + ("/" + name + ">");
    FoundParts(source, at, "<", "/" + name + ">");
  }

  // The printed children, after some text, are read as what is visible of them.
  lemma {:induction false} ReadNodes(env: Env, source: string, r: Reader, before: string, ns: seq<Node>) returns (u: Reader)
    requires Standard(env) && AllPrintable(ns) && InStep(r) && Looked(env, source, r.ends)
    requires AllLegible(CurrentSpace(env, r.stack), ns) && r.tree.rooted && r.tree.open != []
    requires Found(source, r.start, EscapeAll(before, IN_TEXT) + PrintAll(ns))
    requires Found(source, r.start + |EscapeAll(before, IN_TEXT) + PrintAll(ns)|, "<")
    ensures u.start == r.start + |EscapeAll(before, IN_TEXT) + PrintAll(ns)| && u.stack == r.stack && Looked(env, source, u.ends)
    ensures u.tree == AddNodes(r.tree, VisibleAll(before, ns)) && Same(env, source, r, u)
    decreases ns, 0
  {
    hide EndElement, StartElement, PrintAttrs, AddNodes, Looked, AddNode, ParseFrom, EscapeAll, Legible, CurrentSpace, Found, Standard,
      Print, Printable;
    var printed := EscapeAll(before, IN_TEXT);
    if ns == [] {
      assert printed + PrintAll(ns) == printed;
      ReadText(env, source, r, before);
      u := r.(start := r.start + |printed|, tree := AddNodes(r.tree, TextNodes(before)));
    } else {
      var rest := PrintAll(ns[1..]);
      assert PrintAll(ns) == Print(ns[0]) + rest;
      if ns[0].Text? {
        var data := ns[0].data;
        EscapeConcat(before, data, IN_TEXT);
        TextIsEscaped(ns[0]);
        assert printed + PrintAll(ns) == EscapeAll(before + data, IN_TEXT) + rest;
        u := ReadNodes(env, source, r, before + data, ns[1..]);
      } else {
        assert printed + PrintAll(ns) == printed + (Print(ns[0]) + rest);
        FoundParts(source, r.start, printed, Print(ns[0]) + rest);
        FoundParts(source, r.start + |printed|, Print(ns[0]), rest);
        ElementBegins(source, r.start + |printed|, ns[0]);
        ReadText(env, source, r, before);
        var v := r.(start := r.start + |printed|, tree := AddNodes(r.tree, TextNodes(before)));
        var x := ReadNode(env, source, v, ns[0]);
        EscapeNothing(IN_TEXT);
        assert "" + rest == rest;
        u := ReadNodes(env, source, x, "", ns[1..]);
        AddThree(r.tree, TextNodes(before), Visible(ns[0]), VisibleAll("", ns[1..]));
      }
    }
  }

  lemma TextIsEscaped(n: Node)
    requires n.Text?
    ensures Print(n) == EscapeAll(n.data, IN_TEXT)
  {
  }

  lemma PrintBegins(n: Node)
    requires n.Element?
    ensures Print(n) != "" && Print(n)[0] == '<'
  {
    hide PrintAttrs, PrintAll;
  }

  lemma ElementBegins(source: string, at: nat, n: Node)
    requires n.Element? && Found(source, at, Print(n))
    ensures Found(source, at, "<")
  {
    hide Print, Found;
    PrintBegins(n);
    assert Print(n) == "<" + Print(n)[1..];
    FoundParts(source, at, "<", Print(n)[1..]);
  }

  lemma AddThree(t: Tree, a: seq<Node>, n: Node, b: seq<Node>)
    ensures AddNodes(AddNode(AddNodes(t, a), n), b) == AddNodes(t, a + [n] + b)
  {
    AddNodesConcat(t, a + [n], b);
    AddNodesConcat(t, a, [n]);
    assert AddNodes(AddNodes(t, a), [n]) == AddNode(AddNodes(t, a), n);
  }

  // ----- The round trip -----

  // What is visible is clean.
  lemma {:induction false} VisibleIsClean(n: Node)
    requires n.Element?
    ensures Clean(Visible(n))
    decreases n
  {
    VisibleAllIsClean("", n.children);
  }

  lemma {:induction false} VisibleAllIsClean(before: string, ns: seq<Node>)
    ensures AllClean(VisibleAll(before, ns))
    decreases ns
  {
    if ns != [] {
      if ns[0].Text? {
        VisibleAllIsClean(before + ns[0].data, ns[1..]);
      } else {
        VisibleIsClean(ns[0]);
        VisibleAllIsClean("", ns[1..]);
      }
    }
  }

  // A clean tree is what is visible of it.
  lemma {:induction false} CleanIsVisible(n: Node)
    requires n.Element? && Clean(n)
    ensures Visible(n) == n
    decreases n
  {
    CleanAreVisible("", n.children);
    assert TextNodes("") + n.children == n.children;
  }

  lemma {:induction false} CleanAreVisible(before: string, ns: seq<Node>)
    requires AllClean(ns) && (before == "" || ns == [] || ns[0].Element?)
    ensures VisibleAll(before, ns) == TextNodes(before) + ns
    decreases ns
  {
    if ns == [] {
      assert TextNodes(before) + ns == TextNodes(before);
    } else {
      var tail := ns[1..];
      assert [ns[0]] + tail == ns;
      TailIsClean(ns);
      if ns[0].Text? {
        assert before + ns[0].data == ns[0].data;
        assert tail != [] ==> tail[0] == ns[1];
        CleanAreVisible(ns[0].data, tail);
        assert TextNodes(before) + ns == ns;
      } else {
        CleanIsVisible(ns[0]);
        CleanAreVisible("", tail);
        assert TextNodes("") + tail == tail;
        assert TextNodes(before) + [ns[0]] + tail == TextNodes(before) + ns;
      }
    }
  }

  lemma TailIsClean(ns: seq<Node>)
    requires AllClean(ns) && ns != []
    ensures AllClean(ns[1..]) && Clean(ns[0])
  {
    var tail := ns[1..];
    forall i | 0 <= i < |tail| ensures Clean(tail[i]) && (tail[i].Text? && i + 1 < |tail| ==> tail[i + 1].Element?) {
      assert tail[i] == ns[i + 1];
    }
  }

  // Joining adjacent texts changes nothing in a clean tree.
  lemma {:induction false} NormalizeClean(ns: seq<Node>)
    requires AllClean(ns)
    ensures Normalize(ns) == ns
    decreases ns
  {
    if ns != [] {
      TailIsClean(ns);
      NormalizeClean(ns[1..]);
      if ns[0].Element? { NormalizeClean(ns[0].children); }
      assert [ns[0]] + ns[1..] == ns;
      assert |ns| > 1 ==> ns[1..][0] == ns[1];
    }
  }

  // What the reader makes of a printed element.
  lemma ReadsBack(env: Env, root: Node)
    requires Standard(env) && root.Element? && Printable(root) && Legible(env.space, root)
    ensures Parse(env, Print(root)) == Document([Visible(root)])
  {
    hide Normalize, Print, Visible, Printable, Clean, Legible;
    var source := Print(root);
    assert source[0..0 + |source|] == source;
    var u := ReadNode(env, source, BEGIN, root);
    assert source[u.start..] == "";
    assert u.tree == Tree([Visible(root)], [], true) by { assert [] + [Visible(root)] == [Visible(root)]; }
    VisibleIsClean(root);
    NormalizeClean([Visible(root)]);
  }
}
