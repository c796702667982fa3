// The trees that the DOM of web-adapter.js holds, without namespaces, and how they are printed
// (module 41, serializeToString).
module Xml {

  datatype Attr = Attr(name: string, value: string)
  datatype Node = Element(name: string, attrs: seq<Attr>, children: seq<Node>) | Text(data: string)

  // ----- Names -----

  predicate IsNameStart(c: char) {
    var u := c as int;
    || 0x41 <= u <= 0x5A || u == 0x5F || 0x61 <= u <= 0x7A || 0xC0 <= u <= 0xD6 || 0xD8 <= u <= 0xF6
    || 0xF8 <= u <= 0x2FF || 0x370 <= u <= 0x37D || 0x37F <= u <= 0x1FFF || 0x200C <= u <= 0x200D
    || 0x2070 <= u <= 0x218F || 0x2C00 <= u <= 0x2FEF || 0x3001 <= u <= 0xD7FF
    || 0xF900 <= u <= 0xFDCF || 0xFDF0 <= u <= 0xFFFD
  }

  predicate IsNameChar(c: char) {
    var u := c as int;
    || IsNameStart(c) || c == '-' || c == '.' || 0x30 <= u <= 0x39 || u == 0xB7 || 0x300 <= u <= 0x36F || 0x203F <= u <= 0x2040
  }

  // A name without a colon.
  predicate IsName(s: string) {
    s != "" && IsNameStart(s[0]) && forall i :: 0 <= i < |s| ==> IsNameChar(s[i])
  }

  // ----- Printing -----

  const MARKUP := {'<', '>', '&', '"'}
  const IN_TEXT := {'<', '&'}
  const IN_VALUE := {'<', '&', '"'}

  // What stands for a character that would be read as markup.
  function Escape(c: char): string
    requires c in MARKUP
  {
    if c == '<' then "&lt;" else if c == '>' then "&gt;" else if c == '&' then "&amp;" else "&quot;"
  }

  function EscapeAll(s: string, special: set<char>): string
    requires special <= MARKUP
  {
    if s == "" then "" else (if s[0] in special then Escape(s[0]) else [s[0]]) + EscapeAll(s[1..], special)
  }

  function PrintAttr(a: Attr): string {
    " " + a.name + "=\"" + EscapeAll(a.value, IN_VALUE) + "\""
  }

  function PrintAttrs(attrs: seq<Attr>): string {
    if attrs == [] then "" else PrintAttr(attrs[0]) + PrintAttrs(attrs[1..])
  }

  function Print(n: Node): string {
    match n
    case Text(data) => EscapeAll(data, IN_TEXT)
    case Element(name, attrs, children) =>
      "<" + name + PrintAttrs(attrs) + (if children == [] then "/>" else ">" + PrintAll(children) + "</" + name + ">")
  }

  function PrintAll(ns: seq<Node>): string {
    if ns == [] then "" else Print(ns[0]) + PrintAll(ns[1..])
  }

  // The parts that have been pushed, joined.
  function Joined(parts: seq<string>): string {
    if parts == [] then "" else Joined(parts[..|parts| - 1]) + parts[|parts| - 1]
  }

  class Buffer {
    var parts: seq<string>

    constructor ()
      ensures parts == []
    {
      parts := [];
    }

    method Push(s: string)
      modifies this
      ensures parts == old(parts) + [s]
      ensures Joined(parts) == old(Joined(parts)) + s
    {
      parts := parts + [s];
      assert parts[..|parts| - 1] == old(parts);
    }

    method PushAttr(a: Attr)
      modifies this
      ensures Joined(parts) == old(Joined(parts)) + PrintAttr(a)
    {
      ghost var was := Joined(parts);
      Push(" ");
      Push(a.name);
      Push("=\"");
      Push(EscapeAll(a.value, IN_VALUE));
      Push("\"");
      assert Joined(parts) == was + (" " + a.name + "=\"" + EscapeAll(a.value, IN_VALUE) + "\"");
    }

    // The beginning of a start tag.
    method PushTag(name: string, attrs: seq<Attr>)
      modifies this
      ensures Joined(parts) == old(Joined(parts)) + ("<" + name + PrintAttrs(attrs))
    {
      hide Joined, PrintAttr;
      ghost var was := Joined(parts);
      Push("<");
      Push(name);
      assert Joined(parts) == was + ("<" + name);
      var i := 0;
      while i < |attrs|
        invariant i <= |attrs|
        invariant Joined(parts) + PrintAttrs(attrs[i..]) == was + ("<" + name + PrintAttrs(attrs))
      {
        PushAttr(attrs[i]);
        assert attrs[i..][0] == attrs[i] && attrs[i..][1..] == attrs[i + 1..];
        i := i + 1;
      }
    }

    method Serialize(n: Node)
      modifies this
      ensures Joined(parts) == old(Joined(parts)) + Print(n)
      decreases n
    {
      hide Joined, PrintAttrs, PrintAll;
      ghost var was := Joined(parts);
      match n {
        case Text(data) =>
          Push(EscapeAll(data, IN_TEXT));
        case Element(name, attrs, children) =>
          PushTag(name, attrs);
          if children != [] {
            Push(">");
            SerializeAll(children);
            Push("</");
            Push(name);
            Push(">");
            ghost var head := "<" + name + PrintAttrs(attrs);
            assert Joined(parts) == was + (head + (">" + PrintAll(children) + "</" + name + ">"));
          } else {
            Push("/>");
          }
      }
    }

    method SerializeAll(ns: seq<Node>)
      modifies this
      ensures Joined(parts) == old(Joined(parts)) + PrintAll(ns)
      decreases ns
    {
      hide Joined, Print;
      ghost var was := Joined(parts);
      var i := 0;
      while i < |ns|
        invariant i <= |ns|
        invariant Joined(parts) + PrintAll(ns[i..]) == was + PrintAll(ns)
      {
        Serialize(ns[i]);
        assert ns[i..][0] == ns[i] && ns[i..][1..] == ns[i + 1..];
        i := i + 1;
      }
    }
  }
}
