// The reader and its tree builder as they run, on a handler that is updated in place.
module XmlParser {
  import opened Xml
  import opened XmlReader

  // The handler that builds the tree.
  class DomHandler {
    var doc: seq<Node>
    var open: seq<Frame>
    var rooted: bool

    ghost function Built(): Tree
      reads this
    {
      Tree(doc, open, rooted)
    }

    constructor ()
      ensures Built() == BEGIN.tree
    {
      doc, open, rooted := [], [], false;
    }

    method AppendChild(n: Node)
      modifies this
      ensures Built() == AddNode(old(Built()), n)
    {
      if open == [] {
        doc := doc + [n];
      } else {
        var last := |open| - 1;
        open := open[..last] + [open[last].(children := open[last].children + [n])];
      }
    }

    method Characters(chars: string, n: nat)
      modifies this
      ensures Built() == XmlReader.Characters(old(Built()), chars, n)
    {
      var text := if n < |chars| then chars[..n] else chars;
      if text != "" {
        if open != [] || rooted {
          AppendChild(Text(text));
        } else if AllSpace(text) {
          doc := doc + [Text(text)];
        }
      }
    }

    method StartElement(name: string, attrs: seq<Attr>)
      modifies this
      ensures Built() == XmlReader.StartElement(old(Built()), name, attrs)
    {
      var found := [];
      var i := 0;
      while i < |attrs|
        invariant i <= |attrs| && SetAttrs(found, attrs[i..]) == SetAttrs([], attrs)
      {
        found := SetAttr(found, attrs[i]);
        assert attrs[i..][1..] == attrs[i + 1..];
        i := i + 1;
      }
      open, rooted := open + [Frame(name, found, [])], true;
    }

    // What has been built when the source ends.
    method CloseAll() returns (children: seq<Node>)
      modifies this
      ensures children == Close(old(Built()))
    {
      while open != []
        invariant Close(Built()) == Close(old(Built()))
        decreases |open|
      {
        EndElement();
      }
      return doc;
    }

    method EndElement()
      requires open != []
      modifies this
      ensures Built() == XmlReader.EndElement(old(Built()))
    {
      var last := |open| - 1;
      var f := open[last];
      open := open[..last];
      AppendChild(Element(f.name, f.attrs, f.children));
    }
  }

  // The case of an end tag: the position after it and the elements that still wait, or None.
  method ReadEndTag(env: Env, source: string, start: nat, stack: seq<Waiting>, handler: DomHandler, ghost ends: map<string, int>)
    returns (stop: bool, next: nat, waiting: seq<Waiting>)
    requires start < |source| && |stack| == |handler.open|
    modifies handler
    ensures AtEndTag(env, source, Reader(start, stack, old(handler.Built()), ends)) ==
            (if stop then Halt else Next(Reader(next, waiting, handler.Built(), ends)))
  {
    hide XmlReader.EndElement, Broken;
    next, waiting := start, stack;
    var end := IndexOf(source, '>', start + 3);
    if end < 0 || Broken(source[start + 2..end]) { return true, next, waiting; }
    var name := source[start + 2..end];
    if stack != [] {
      var last := |stack| - 1;
      if stack[last].name == name {
        handler.EndElement();
        waiting := stack[..last];
      } else if env.lower(stack[last].name) == env.lower(name) {
        return true, next, waiting;
      }
    }
    return false, end + 1, waiting;
  }

  // The namespaces that an element declares; the loop begins with its last attribute.
  method DeclaredSpace(space: string, attrs: seq<Attr>) returns (within: string)
    ensures within == SpaceWithin(space, attrs)
  {
    within := space;
    var i := |attrs|;
    while i > 0
      invariant 0 <= i <= |attrs| && within == SpaceWithin(space, attrs[i..])
    {
      i := i - 1;
      assert attrs[i..][1..] == attrs[i + 1..];
      if attrs[i].name == "xmlns" { within := attrs[i].value; }
    }
    assert attrs[0..] == attrs;
  }

  // The content of an element whose default namespace is that of XHTML.
  method ReadSpecialContent(env: Env, source: string, at: nat, start: nat, name: string, stack: seq<Waiting>, handler: DomHandler,
                            ghost ends: map<string, int>)
    returns (next: nat)
    requires start < at < |source| && source[at] == '>' && |stack| == |handler.open|
    modifies handler
    ensures AtSpecialContent(env, source, at, name, Reader(start, stack, old(handler.Built()), ends))
         == Reader(next, stack, handler.Built(), ends)
  {
    hide XmlReader.Characters, Replace, HasMarkup, IsScript;
    if IsSpecial(name) {
      var end := IndexOfPiece(source, "</" + name + ">", at);
      var text := if end < 0 then source[..at + 1] else source[at + 1..end];
      if HasMarkup(text) {
        if !IsScript(name) { text := Replace(env, text); }
        handler.Characters(text, |text|);
        if end < 0 {
          handler.Characters(Replace(env, source[start..start + 1]), 1);
          return start + 1;
        }
        return end;
      }
    }
    return at + 1;
  }

  // The case of a start tag.
  method ReadStartTag(env: Env, source: string, start: nat, stack: seq<Waiting>, handler: DomHandler, ends: map<string, int>)
    returns (stop: bool, next: nat, waiting: seq<Waiting>, looked: map<string, int>)
    requires start < |source| && |stack| == |handler.open|
    modifies handler
    ensures AtStartTag(env, source, Reader(start, stack, old(handler.Built()), ends)) ==
            (if stop then Halt else Next(Reader(next, waiting, handler.Built(), looked)))
  {
    hide XmlReader.StartElement, XmlReader.EndElement, LastEnd, ScanElement, AtSpecialContent;
    next, waiting, looked := start, stack, ends;
    var scan := ParseElementStartPart(env, source, start);
    if scan.Stop? { return true, next, waiting, looked; }
    var name := scan.el.name.value;
    var closed := scan.el.closed;
    if !closed {
      var last := LastEnd(env, source, scan.at, name, ends);
      if name !in env.inherited { looked := ends[name := last]; }
      closed := last < scan.at;
    }
    var space := DeclaredSpace(CurrentSpace(env, stack), scan.el.attrs);
    handler.StartElement(name, scan.el.attrs);
    next := scan.at + 1;
    if closed {
      handler.EndElement();
    } else {
      waiting := stack + [Waiting(name, space)];
      if space == XHTML {
        next := ReadSpecialContent(env, source, scan.at, start, name, waiting, handler, looked);
      }
    }
    return false, next, waiting, looked;
  }

  // The main loop of the reader.
  method ParseDocument(env: Env, source: string) returns (result: Result)
    ensures result == Parse(env, source)
  {
    hide XmlReader.Characters, Normalize, Close, AllSpace, Replace, AtStartTag, AtEndTag;
    var handler := new DomHandler();
    var start := 0;
    var stack: seq<Waiting> := [];
    var ends: map<string, int> := map[];
    while true
      invariant fresh(handler) && start <= |source| && |stack| == |handler.open|
      invariant ParseFrom(env, source, Reader(start, stack, handler.Built(), ends)) == Parse(env, source)
      decreases |source| - start
    {
      ghost var r := Reader(start, stack, handler.Built(), ends);
      var tagStart := IndexOf(source, '<', start);
      if tagStart < 0 {
        var rest := source[start..];
        var children := handler.CloseAll();
        if !AllSpace(rest) {
          children := children + [Text(rest)];
        }
        return Document(Normalize(children));
      }
      if tagStart > start {
        handler.Characters(Replace(env, source[start..tagStart]), tagStart - start);
        start := tagStart;
      }
      assert Reader(start, stack, handler.Built(), ends) == AppendText(env, source, r, tagStart);
      var c := if start + 1 < |source| then source[start + 1] else ' ';
      var stop := true;
      if c == '/' {
        stop, start, stack := ReadEndTag(env, source, start, stack, handler, ends);
      } else if c != '?' && c != '!' {
        stop, start, stack, ends := ReadStartTag(env, source, start, stack, handler, ends);
      }
      if stop { return Stopped; }
    }
  }
}
