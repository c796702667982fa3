// Whole documents in every spelling: what the reader builds of them, also outside of what the printer
// writes.
module XmlSpelling {
  import opened Options
  import opened Xml
  import opened XmlReader
  import opened XmlGrowth
  import opened XmlTags
  import opened XmlRoundTrip

  // ----- Documents -----

  // A run of characters, or an element with its content; an element may also end in its start tag.
  datatype Markup = Words(raw: string) | Elem(tag: StartTag, content: seq<Markup>)

  function Write(k: Markup): string {
    match k
    case Words(raw) => raw
    case Elem(t, content) => WriteTag(t) + if t.closed then "" else WriteAll(content) + "</" + t.name + ">"
  }

  function WriteAll(ks: seq<Markup>): string {
    if ks == [] then "" else Write(ks[0]) + WriteAll(ks[1..])
  }

  // No tag begins in the characters, and no start tag loses its slash; a script or textarea of XHTML has
  // nothing in it that would be markup.
  predicate Proper(env: Env, space: string, k: Markup)
    decreases k
  {
    match k
    case Words(raw) => '<' !in raw
    case Elem(t, content) =>
      var within := SpaceWithin(space, AllMeant(env, t.attributes));
      && TagIsSpelled(t) && EndsThere(t) == t.closed && (t.closed ==> content == [])
      && !(within == XHTML && IsSpecial(t.name) && HasMarkup(WriteAll(content)))
      && AllProper(env, within, content)
  }

  predicate AllProper(env: Env, space: string, ks: seq<Markup>)
    decreases ks
  {
    forall i :: 0 <= i < |ks| ==> Proper(env, space, ks[i])
  }

  // The node that an element becomes, and the nodes that its content becomes, after some characters.
  function Built(env: Env, k: Markup): Node
    requires k.Elem?
    decreases k
  {
    Element(k.tag.name, SetAttrs([], AllMeant(env, k.tag.attributes)), BuiltAll(env, "", k.content))
  }

  function BuiltAll(env: Env, before: string, ks: seq<Markup>): seq<Node>
    decreases ks
  {
    if ks == [] then TextNodes(Shown(env, before))
    else match ks[0]
      case Words(raw) => BuiltAll(env, before + raw, ks[1..])
      case Elem(_, _) => TextNodes(Shown(env, before)) + [Built(env, ks[0])] + BuiltAll(env, "", ks[1..])
  }

  // ----- Reading -----

  lemma ElemParts(source: string, at: nat, k: Markup)
    requires k.Elem? && !k.tag.closed && Found(source, at, Write(k))
    ensures var inner := WriteAll(k.content);
            && Write(k) == WriteTag(k.tag) + (inner + ("</" + k.tag.name + ">"))
            && Found(source, at, WriteTag(k.tag)) && Found(source, at + |WriteTag(k.tag)|, inner)
            && Found(source, at + |WriteTag(k.tag)| + |inner|, "</" + k.tag.name + ">")
  {
    hide WriteTag, WriteAll, Found;
    var inner, tail := WriteAll(k.content), "</" + k.tag.name + ">";
    assert Write(k) == WriteTag(k.tag) + (inner + tail);
    FoundParts(source, at, WriteTag(k.tag), inner + tail);
    FoundParts(source, at + |WriteTag(k.tag)|, inner, tail);
  }

  lemma ProperParts(env: Env, space: string, k: Markup)
    requires k.Elem? && Proper(env, space, k)
    ensures var within := SpaceWithin(space, AllMeant(env, k.tag.attributes));
            && TagIsSpelled(k.tag) && EndsThere(k.tag) == k.tag.closed && (k.tag.closed ==> k.content == [])
            && !(within == XHTML && IsSpecial(k.tag.name) && HasMarkup(WriteAll(k.content)))
            && AllProper(env, within, k.content) && IsQName(k.tag.name)
  {
  }

  // An element that has been opened goes on behind its start tag, unless its content is special.
  lemma OpenedPlainly(env: Env, source: string, at: nat, w: Reader, inner: string)
    requires w.start < at < |source| && source[at] == '>' && InStep(w) && w.stack != []
    requires Found(source, at + 1, inner) && Found(source, at + 1 + |inner|, "</" + w.stack[|w.stack| - 1].name + ">")
    requires w.stack[|w.stack| - 1].space == XHTML && IsSpecial(w.stack[|w.stack| - 1].name) ==> !HasMarkup(inner)
    ensures Opened(env, source, at, w) == w.(start := at + 1)
  {
    hide IsScript, IsSpecial, HasMarkup, Found, IndexOfPiece, Replace, Characters;
    var name := w.stack[|w.stack| - 1].name;
    if w.stack[|w.stack| - 1].space == XHTML && IsSpecial(name) {
      AngleIsMarkup(inner);
      FirstEnd(source, at, inner, name);
    }
  }

  lemma AngleIsMarkup(s: string)
    ensures '<' in s ==> HasMarkup(s)
  {
    assert '<' in IN_TEXT;
  }

  lemma {:induction false} ReadElem(env: Env, source: string, r: Reader, k: Markup) returns (u: Reader)
    requires k.Elem? && InStep(r) && Looked(env, source, r.ends)
    requires Proper(env, CurrentSpace(env, r.stack), k) && Found(source, r.start, Write(k))
    ensures u.start == r.start + |Write(k)| && u.stack == r.stack && Looked(env, source, u.ends)
    ensures u.tree == AddNode(r.tree.(rooted := true), Built(env, k)) && Same(env, source, r, u)
    decreases k
  {
    hide EndElement, StartElement, WriteTag, WriteAll, AddNodes, BuiltAll, Looked, AddNode, ParseFrom, Opened, SpaceWithin, AllProper, Proper,
      IsSpecial, HasMarkup, AllMeant, TagIsSpelled, EndsThere, IsQName, SetAttrs, Found;
    ProperParts(env, CurrentSpace(env, r.stack), k);
    var t, attrs := k.tag, AllMeant(env, k.tag.attributes);
    if t.closed {
      assert Write(k) == WriteTag(t);
      ReadClosedTag(env, source, r, t);
      NothingBuilt(env);
      ElementIsComplete(r.tree, t.name, attrs, []);
      AddNothing(StartElement(r.tree, t.name, attrs));
      u := r.(start := r.start + |Write(k)|, tree := EndElement(StartElement(r.tree, t.name, attrs)));
    } else {
      var inner, tail := WriteAll(k.content), "</" + t.name + ">";
      ElemParts(source, r.start, k);
      var later := r.start + |WriteTag(t)| + |inner|;
      var w := ReadStartTag(env, source, r, t, later);
      StartedTree(r.tree, t.name, attrs);
      OpenedPlainly(env, source, r.start + |WriteTag(t)| - 1, w, inner);
      TagBegins(source, later, t.name);
      assert "" + inner == inner;
      var x := ReadAll(env, source, w.(start := r.start + |WriteTag(t)|), "", k.content);
      ReadEndTag(env, source, x, t.name);
      ElementIsComplete(r.tree, t.name, attrs, BuiltAll(env, "", k.content));
      u := x.(start := later + |tail|, stack := r.stack, tree := EndElement(x.tree));
    }
  }

  lemma NothingBuilt(env: Env)
    ensures BuiltAll(env, "", []) == []
  {
    ReplaceNothing(env);
  }

  lemma {:induction false} ReadAll(env: Env, source: string, r: Reader, before: string, ks: seq<Markup>) returns (u: Reader)
    requires '<' !in before && AllProper(env, CurrentSpace(env, r.stack), ks) && InStep(r) && Looked(env, source, r.ends)
    requires r.tree.rooted && r.tree.open != []
    requires Found(source, r.start, before + WriteAll(ks)) && Found(source, r.start + |before + WriteAll(ks)|, "<")
    ensures u.start == r.start + |before + WriteAll(ks)| && u.stack == r.stack && Looked(env, source, u.ends)
    ensures u.tree == AddNodes(r.tree, BuiltAll(env, before, ks)) && Same(env, source, r, u)
    decreases ks, 0
  {
    hide AddNodes, Looked, AddNode, ParseFrom, Proper, CurrentSpace, Found, Write, Built, Shown;
    if ks == [] {
      assert before + WriteAll(ks) == before;
      ReadRaw(env, source, r, before);
      u := r.(start := r.start + |before|, tree := AddNodes(r.tree, TextNodes(Shown(env, before))));
    } else {
      var rest := WriteAll(ks[1..]);
      assert WriteAll(ks) == Write(ks[0]) + rest;
      if ks[0].Words? {
        var raw := ks[0].raw;
        WordsAreWritten(env, CurrentSpace(env, r.stack), ks[0]);
        assert before + WriteAll(ks) == before + raw + rest;
        u := ReadAll(env, source, r, before + raw, ks[1..]);
      } else {
        assert before + WriteAll(ks) == before + (Write(ks[0]) + rest);
        FoundParts(source, r.start, before, Write(ks[0]) + rest);
        FoundParts(source, r.start + |before|, Write(ks[0]), rest);
        ElemBegins(source, r.start + |before|, ks[0]);
        ReadRaw(env, source, r, before);
        var v := r.(start := r.start + |before|, tree := AddNodes(r.tree, TextNodes(Shown(env, before))));
        var x := ReadElem(env, source, v, ks[0]);
        assert "" + rest == rest;
        u := ReadAll(env, source, x, "", ks[1..]);
        AddThree(r.tree, TextNodes(Shown(env, before)), Built(env, ks[0]), BuiltAll(env, "", ks[1..]));
      }
    }
  }

  lemma WordsAreWritten(env: Env, space: string, k: Markup)
    requires k.Words? && Proper(env, space, k)
    ensures Write(k) == k.raw && '<' !in k.raw
  {
  }

  lemma ElemBegins(source: string, at: nat, k: Markup)
    requires k.Elem? && Found(source, at, Write(k))
    ensures Found(source, at, "<")
  {
    hide Write, Found;
    WriteBegins(k);
    assert Write(k) == "<" + Write(k)[1..];
    FoundParts(source, at, "<", Write(k)[1..]);
  }

  lemma WriteBegins(k: Markup)
    requires k.Elem?
    ensures Write(k) != "" && Write(k)[0] == '<'
  {
    hide WriteAttributes, WriteAll;
  }

  // ----- What stands around the root -----

  // White space before the root is kept, and nothing else; after it everything else is kept, as it is.
  lemma DocumentIsRead(env: Env, before: string, k: Markup, after: string)
    requires k.Elem? && Proper(env, env.space, k) && '<' !in before && '<' !in after
    ensures Parse(env, before + Write(k) + after) == Document(Normalize(
              (if AllSpace(Shown(env, before)) then TextNodes(Shown(env, before)) else [])
              + [Built(env, k)] + (if AllSpace(after) then [] else [Text(after)])))
  {
    hide Normalize, Write, Built, Proper, Found, Shown, AddNode, AllSpace, Close;
    var source := before + Write(k) + after;
    var r := ReadHead(env, source, before, k, after);
    var u := ReadElem(env, source, r, k);
    AfterRoot(env, source, u, after);
    RootIsAdded(r.tree, Built(env, k));
    assert r.tree.doc + [Built(env, k)] + [] == r.tree.doc + [Built(env, k)];
  }

  // Up to the root.
  lemma ReadHead(env: Env, source: string, before: string, k: Markup, after: string) returns (r: Reader)
    requires k.Elem? && source == before + Write(k) + after && '<' !in before
    ensures Same(env, source, BEGIN, r) && r.start == |before| && r.stack == [] && r.ends == map[]
    ensures Found(source, r.start, Write(k)) && source[|before| + |Write(k)|..] == after
    ensures r.tree == Tree(if AllSpace(Shown(env, before)) then TextNodes(Shown(env, before)) else [], [], false)
  {
    hide AtTag, Write, AllSpace, Replace;
    assert source == before + (Write(k) + after) && source == (before + Write(k)) + after;
    assert source[|before + Write(k)|..] == after;
    assert source[0..|before| + |Write(k) + after|] == before + (Write(k) + after);
    FoundParts(source, 0, before, Write(k) + after);
    FoundParts(source, |before|, Write(k), after);
    ElemBegins(source, |before|, k);
    FoundAt(source, |before|, "<", 0);
    forall i | 0 <= i < |before| ensures source[i] != '<' { assert source[i] == before[i]; }
    IndexOfIs(source, '<', 0, |before|);
    IndexOfIs(source, '<', |before|, |before|);
    assert source[0..|before|] == before;
    ReplaceNothing(env);
    r := AppendText(env, source, BEGIN, |before|);
    assert AppendText(env, source, r, |before|) == r;
  }

  lemma RootIsAdded(t: Tree, n: Node)
    requires t.open == []
    ensures Close(AddNode(t.(rooted := true), n)) == t.doc + [n]
  {
  }

  lemma AfterRoot(env: Env, source: string, u: Reader, after: string)
    requires u.start <= |source| && InStep(u) && source[u.start..] == after && '<' !in after
    ensures ParseFrom(env, source, u) == Document(Normalize(if AllSpace(after) then Close(u.tree) else Close(u.tree) + [Text(after)]))
  {
    hide Normalize, Close, AllSpace, AtTag;
    forall i | u.start <= i < |source| ensures source[i] != '<' { assert source[i] == after[i - u.start]; }
  }

  // ----- Other end tags -----

  // Whatever stands in an end tag, unless there is a blank right before a "<", it ends the innermost element if it is its name, and nothing
  // otherwise; the same name in other letters is an error.
  lemma EndTagExactly(env: Env, source: string, r: Reader, raw: string)
    requires InStep(r) && r.stack != [] && raw != "" && '>' !in raw && Found(source, r.start, "</" + raw + ">")
    requires forall i :: 0 < i < |raw| && raw[i] == '<' ==> !IsSpace(raw[i - 1])
    ensures r.start + |raw| + 3 <= |source|
    ensures var name, s := r.stack[|r.stack| - 1].name, AtTag(env, source, r);
            && (s.Halt? <==> raw != name && env.lower(raw) == env.lower(name))
            && (raw == name ==> s == Next(r.(start := r.start + |raw| + 3, stack := r.stack[..|r.stack| - 1], tree := EndElement(r.tree))))
            && (env.lower(raw) != env.lower(name) ==> s == Next(r.(start := r.start + |raw| + 3)))
  {
    hide IndexOf, Broken, Found, EndElement;
    RawEndParts(source, r.start, raw);
    IsNotBroken(raw);
  }

  lemma RawEndParts(source: string, at: nat, raw: string)
    requires raw != "" && '>' !in raw && Found(source, at, "</" + raw + ">")
    ensures at + 3 + |raw| <= |source| && source[at] == '<' && source[at + 1] == '/'
    ensures IndexOf(source, '>', at + 3) == at + 2 + |raw| && source[at + 2..at + 2 + |raw|] == raw
  {
    hide IndexOf, Found;
    assert "</" + raw + ">" == "</" + (raw + ">");
    FoundParts(source, at, "</", raw + ">");
    FoundParts(source, at + 2, raw, ">");
    FoundIs(source, at + 2, raw);
    FoundAt(source, at, "</", 0);
    FoundAt(source, at, "</", 1);
    FoundAt(source, at + 2 + |raw|, ">", 0);
    forall i | at + 2 <= i < at + 2 + |raw| ensures source[i] != '>' { FoundAt(source, at + 2, raw, i - at - 2); }
    IndexOfIs(source, '>', at + 3, at + 2 + |raw|);
  }

  lemma IsNotBroken(raw: string)
    requires forall i :: 0 < i < |raw| && raw[i] == '<' ==> !IsSpace(raw[i - 1])
    ensures !Broken(raw)
  {
  }

  // A blank in an end tag makes it another name: the element is not ended by it.
  lemma BlankEndsNothing(env: Env, source: string, r: Reader, name: string, blank: char)
    requires InStep(r) && r.stack != [] && r.stack[|r.stack| - 1].name == name && IsQName(name) && blank in {' ', '\t', '\n', '\r'}
    requires Found(source, r.start, "</" + (name + [blank]) + ">") && env.lower(name) != env.lower(name + [blank])
    ensures Same(env, source, r, r.(start := r.start + |name| + 4))
  {
    hide IsQName, IndexOf, AtTag, Found, EndElement;
    QNameHasNoAngle(name);
    QNameIsOrdinary(name);
    forall i | 0 <= i < |name| ensures name[i] != '>' { assert IsOrdinary(name[i]); }
    EndTagExactly(env, source, r, name + [blank]);
    RawEndParts(source, r.start, name + [blank]);
    StepParse(env, source, r, r.(start := r.start + |name| + 4));
  }

  // ----- Elements that are not ended -----

  // If no end tag of its name follows, an element ends in its start tag.
  lemma UnendedIsEmpty(env: Env, source: string, r: Reader, t: StartTag)
    requires TagIsSpelled(t) && InStep(r) && Found(source, r.start, WriteTag(t)) && t.name !in env.inherited && t.name !in r.ends
    requires forall i :: OccursAt(source, "</" + t.name, i) ==> i < r.start
    ensures r.start + |WriteTag(t)| <= |source|
    ensures var s := AtTag(env, source, r);
            && s.Next? && s.reader.start == r.start + |WriteTag(t)| && s.reader.stack == r.stack
            && s.reader.tree == EndElement(StartElement(r.tree, t.name, AllMeant(env, t.attributes)))
  {
    hide EndElement, StartElement, ScanElement, AllMeant, TagIsSpelled, IsQName, WriteTag, AtSpecialContent;
    TagIsRead(env, source, r.start, t);
    TagIsStart(env, source, r, t);
    var a := LastIndexOf(source, "</" + t.name + ">", |source|);
    if a >= 0 { FullIsPart(source, t.name, a); }
  }

  // The beginning of an end tag of the name follows, even if that is no end tag.
  ghost predicate Follows(source: string, from: nat, name: string) {
    exists i :: from <= i && OccursAt(source, "</" + name, i)
  }

  // The element waits for its end tag, or has been ended.
  predicate GoesOn(s: Step, stack: seq<Waiting>, name: string) {
    s.Next? && |s.reader.stack| == |stack| + 1 && s.reader.stack[..|stack|] == stack && s.reader.stack[|stack|].name == name
  }

  predicate Ended(s: Step, stack: seq<Waiting>) {
    s.Next? && s.reader.stack == stack
  }

  lemma GoesOnExactly(env: Env, source: string, r: Reader, t: StartTag)
    requires TagIsSpelled(t) && !EndsThere(t) && InStep(r) && Found(source, r.start, WriteTag(t))
    requires t.name !in env.inherited && t.name !in r.ends
    ensures r.start < |source|
    ensures if Follows(source, r.start + |WriteTag(t)|, t.name) then GoesOn(AtTag(env, source, r), r.stack, t.name)
            else Ended(AtTag(env, source, r), r.stack)
  {
    hide EndElement, StartElement, ScanElement, AllMeant, TagIsSpelled, IsQName, WriteTag, AtSpecialContent, EndsThere, Found;
    TagIsRead(env, source, r.start, t);
    TagIsStart(env, source, r, t);
    var at := r.start + |WriteTag(t)| - 1;
    LastEndIsLast(env, source, at, t.name, r.ends);
    var space := SpaceWithin(CurrentSpace(env, r.stack), AllMeant(env, t.attributes));
    var u := Reader(r.start, r.stack + [Waiting(t.name, space)], StartElement(r.tree, t.name, AllMeant(env, t.attributes)),
                    r.ends[t.name := LastEnd(env, source, at, t.name, r.ends)]);
    SpecialKeepsStack(env, source, at, t.name, u);
  }

  lemma LastEndIsLast(env: Env, source: string, at: nat, name: string, ends: map<string, int>)
    requires at < |source| && source[at] == '>' && name !in env.inherited && name !in ends
    ensures LastEnd(env, source, at, name, ends) >= at <==> Follows(source, at + 1, name)
  {
    var a := LastIndexOf(source, "</" + name + ">", |source|);
    var b := LastIndexOf(source, "</" + name, |source|);
    if a >= 0 { FullIsPart(source, name, a); }
    forall i | OccursAt(source, "</" + name, i) ensures i < |source| && source[i] == '<' { AngleIsFirst(source, name, i); }
  }

  lemma AngleIsFirst(source: string, name: string, at: int)
    requires OccursAt(source, "</" + name, at)
    ensures at < |source| && source[at] == '<'
  {
    assert source[at..at + |"</" + name|][0] == source[at];
  }

  lemma SpecialKeepsStack(env: Env, source: string, at: nat, name: string, r: Reader)
    requires r.start < at < |source| && source[at] == '>' && InStep(r)
    ensures AtSpecialContent(env, source, at, name, r).stack == r.stack
  {
    hide IsSpecial, IsScript, HasMarkup, Replace, Characters, IndexOfPiece;
  }

  lemma FullIsPart(source: string, name: string, at: int)
    requires OccursAt(source, "</" + name + ">", at)
    ensures OccursAt(source, "</" + name, at)
  {
    var long := "</" + name + ">";
    assert source[at..at + |long|][..|long| - 1] == long[..|long| - 1];
    assert long[..|long| - 1] == "</" + name;
  }
}
