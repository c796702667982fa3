// What the printer writes beyond names, values and texts: no more markup than the tree asks for.
module XmlPrinted {
  import opened Xml
  import opened XmlRoundTrip

  function Count(s: string, c: char): nat {
    if s == "" then 0 else (if s[0] == c then 1 else 0) + Count(s[1..], c)
  }

  function CountIn(s: string, chars: set<char>): nat {
    if s == "" then 0 else (if s[0] in chars then 1 else 0) + CountIn(s[1..], chars)
  }

  // ----- What is in a tree -----

  datatype Contents = Contents(elements: nat, leaves: nat, values: seq<string>, texts: seq<string>)

  function Both(x: Contents, y: Contents): Contents {
    Contents(x.elements + y.elements, x.leaves + y.leaves, x.values + y.values, x.texts + y.texts)
  }

  function ValuesOf(attrs: seq<Attr>): seq<string> {
    seq(|attrs|, i requires 0 <= i < |attrs| => attrs[i].value)
  }

  function ContentsOf(n: Node): Contents {
    match n
    case Text(data) => Contents(0, 0, [], [data])
    case Element(_, attrs, children) =>
      Both(Contents(1, if children == [] then 1 else 0, ValuesOf(attrs), []), ContentsOfAll(children))
  }

  function ContentsOfAll(ns: seq<Node>): Contents {
    if ns == [] then Contents(0, 0, [], []) else Both(ContentsOf(ns[0]), ContentsOfAll(ns[1..]))
  }

  function CountAll(strings: seq<string>, c: char): nat {
    if strings == [] then 0 else Count(strings[0], c) + CountAll(strings[1..], c)
  }

  function CountInAll(strings: seq<string>, chars: set<char>): nat {
    if strings == [] then 0 else CountIn(strings[0], chars) + CountInAll(strings[1..], chars)
  }

  // ----- Counting -----

  lemma {:induction false} CountJoin(s: string, t: string, c: char)
    ensures Count(s + t, c) == Count(s, c) + Count(t, c)
  {
    if s == "" {
      assert s + t == t;
    } else {
      assert (s + t)[1..] == s[1..] + t;
      CountJoin(s[1..], t, c);
    }
  }

  lemma {:induction false} CountAllJoin(s: seq<string>, t: seq<string>, c: char)
    ensures CountAll(s + t, c) == CountAll(s, c) + CountAll(t, c)
  {
    if s == [] {
      assert s + t == t;
    } else {
      assert (s + t)[1..] == s[1..] + t;
      CountAllJoin(s[1..], t, c);
    }
  }

  lemma {:induction false} CountInAllJoin(s: seq<string>, t: seq<string>, chars: set<char>)
    ensures CountInAll(s + t, chars) == CountInAll(s, chars) + CountInAll(t, chars)
  {
    if s == [] {
      assert s + t == t;
    } else {
      assert (s + t)[1..] == s[1..] + t;
      CountInAllJoin(s[1..], t, chars);
    }
  }

  lemma {:induction false} NotInName(name: string, c: char)
    requires !IsNameChar(c) && forall i :: 0 <= i < |name| ==> IsNameChar(name[i])
    ensures Count(name, c) == 0
  {
    if name != "" {
      assert forall i :: 0 <= i < |name[1..]| ==> name[1..][i] == name[i + 1];
      NotInName(name[1..], c);
    }
  }

  lemma CountEscape(s: char, c: char)
    requires s in MARKUP && !IsNameChar(c)
    ensures Count(Escape(s), c) == InReferences(c, 1)
  {
    var e := Escape(s);
    NotInName(e[1..|e| - 1], c);
    CountJoin(['&'], e[1..|e| - 1], c);
    CountJoin(e[..|e| - 1], [';'], c);
    assert e == e[..|e| - 1] + [';'] && e[..|e| - 1] == ['&'] + e[1..|e| - 1];
  }

  // Escaping replaces the special characters by one reference each and touches nothing else.
  function Kept(s: string, special: set<char>, c: char): nat {
    if c in special then 0 else Count(s, c)
  }

  function InReferences(c: char, references: nat): nat {
    if c == '&' || c == ';' then references else 0
  }

  lemma {:induction false} CountEscaped(s: string, special: set<char>, c: char)
    requires special <= MARKUP && !IsNameChar(c)
    ensures Count(EscapeAll(s, special), c) == Kept(s, special, c) + InReferences(c, CountIn(s, special))
  {
    if s != "" {
      var head := if s[0] in special then Escape(s[0]) else [s[0]];
      CountJoin(head, EscapeAll(s[1..], special), c);
      CountEscaped(s[1..], special, c);
      if s[0] in special { CountEscape(s[0], c); }
    }
  }

  // ----- The markup of a tree -----

  // How often a character that no name holds stands in the markup of so many elements, so many of
  // them without children, and of so many attributes: one tag for an element without children and
  // two for the others, and for an attribute a blank, an equals sign and two quotation marks.
  function Markup(c: char, elements: nat, leaves: nat, attributes: nat): int {
    if c == '<' || c == '>' then 2 * elements - leaves
    else if c == '/' then elements
    else if c == ' ' || c == '=' then attributes
    else if c == '"' then 2 * attributes
    else 0
  }

  function KeptAll(strings: seq<string>, special: set<char>, c: char): nat {
    if c in special then 0 else CountAll(strings, c)
  }

  function Marks(x: Contents, c: char): int {
    Markup(c, x.elements, x.leaves, |x.values|) + KeptAll(x.values, IN_VALUE, c) + KeptAll(x.texts, IN_TEXT, c)
    + InReferences(c, CountInAll(x.values, IN_VALUE)) + InReferences(c, CountInAll(x.texts, IN_TEXT))
  }

  lemma MarksOfBoth(x: Contents, y: Contents, c: char)
    ensures Marks(Both(x, y), c) == Marks(x, c) + Marks(y, c)
  {
    hide CountAll, CountInAll;
    CountAllJoin(x.values, y.values, c);
    CountAllJoin(x.texts, y.texts, c);
    CountInAllJoin(x.values, y.values, IN_VALUE);
    CountInAllJoin(x.texts, y.texts, IN_TEXT);
  }

  lemma OneString(s: string, c: char)
    ensures CountAll([s], c) == Count(s, c)
    ensures CountInAll([s], IN_VALUE) == CountIn(s, IN_VALUE) && CountInAll([s], IN_TEXT) == CountIn(s, IN_TEXT)
  {
    assert [s][1..] == [];
  }

  lemma Signs(c: char)
    ensures Count(" ", c) + Count("=\"", c) + Count("\"", c) == Markup(c, 0, 0, 1)
  {
    assert "=\""[1..] == "\"";
  }

  lemma AttrMarks(a: Attr, c: char)
    requires IsName(a.name) && !IsNameChar(c)
    ensures Count(PrintAttr(a), c) == Marks(Contents(0, 0, [a.value], []), c)
  {
    var value := EscapeAll(a.value, IN_VALUE);
    OneString(a.value, c);
    Signs(c);
    CountEscaped(a.value, IN_VALUE, c);
    NotInName(a.name, c);
    CountJoin(" " + a.name + "=\"" + value, "\"", c);
    CountJoin(" " + a.name + "=\"", value, c);
    CountJoin(" " + a.name, "=\"", c);
    CountJoin(" ", a.name, c);
  }

  lemma {:induction false} AttrsMarks(attrs: seq<Attr>, c: char)
    requires !IsNameChar(c) && forall i :: 0 <= i < |attrs| ==> IsName(attrs[i].name)
    ensures Count(PrintAttrs(attrs), c) == Marks(Contents(0, 0, ValuesOf(attrs), []), c)
  {
    hide Marks, PrintAttr, IsName;
    if attrs == [] {
      assert ValuesOf(attrs) == [];
      NoMarks(c);
    } else {
      AttrMarks(attrs[0], c);
      AttrsMarks(attrs[1..], c);
      CountJoin(PrintAttr(attrs[0]), PrintAttrs(attrs[1..]), c);
      var first, others := Contents(0, 0, [attrs[0].value], []), Contents(0, 0, ValuesOf(attrs[1..]), []);
      MarksOfBoth(first, others, c);
      assert Both(first, others) == Contents(0, 0, ValuesOf(attrs), []);
    }
  }

  lemma NoMarks(c: char)
    ensures Marks(Contents(0, 0, [], []), c) == 0
  {
  }

  lemma TextMarks(data: string, c: char)
    requires !IsNameChar(c)
    ensures Count(EscapeAll(data, IN_TEXT), c) == Marks(Contents(0, 0, [], [data]), c)
  {
    OneString(data, c);
    CountEscaped(data, IN_TEXT, c);
  }

  // The tags of one element around its attributes and its children.
  lemma TagMarks(name: string, inner: string, content: string, c: char)
    requires IsName(name) && !IsNameChar(c)
    ensures Count("<" + name + inner + "/>", c) == Markup(c, 1, 1, 0) + Count(inner, c)
    ensures Count("<" + name + inner + (">" + content + "</" + name + ">"), c) == Markup(c, 1, 0, 0) + Count(inner, c) + Count(content, c)
  {
    NotInName(name, c);
    CountJoin("<" + name + inner, "/>", c);
    CountJoin("<" + name, inner, c);
    CountJoin("<", name, c);
    CountJoin("<" + name + inner, ">" + content + "</" + name + ">", c);
    CountJoin(">" + content + "</" + name, ">", c);
    CountJoin(">" + content + "</", name, c);
    CountJoin(">" + content, "</", c);
    CountJoin(">", content, c);
  }

  lemma ElementMarks(leaves: nat, values: seq<string>, c: char)
    ensures Marks(Contents(1, leaves, values, []), c) == Markup(c, 1, leaves, 0) + Marks(Contents(0, 0, values, []), c)
  {
  }

  // ----- The printed tree -----

  lemma {:induction false} PrintedExactly(n: Node, c: char)
    requires Printable(n) && !IsNameChar(c)
    ensures Count(Print(n), c) == Marks(ContentsOf(n), c)
    decreases n
  {
    hide Marks, Markup, Count, EscapeAll, PrintAttrs, IsName, ValuesOf;
    match n {
      case Text(data) => TextMarks(data, c);
      case Element(name, attrs, children) =>
        AttrsMarks(attrs, c);
        TagMarks(name, PrintAttrs(attrs), PrintAll(children), c);
        var leaves := if children == [] then 1 else 0;
        ElementMarks(leaves, ValuesOf(attrs), c);
        AllPrintedExactly(children, c);
        MarksOfBoth(Contents(1, leaves, ValuesOf(attrs), []), ContentsOfAll(children), c);
        if children == [] { NoMarks(c); }
    }
  }

  lemma {:induction false} AllPrintedExactly(ns: seq<Node>, c: char)
    requires AllPrintable(ns) && !IsNameChar(c)
    ensures Count(PrintAll(ns), c) == Marks(ContentsOfAll(ns), c)
    decreases ns
  {
    hide Marks, Print, ContentsOf, Printable;
    if ns == [] {
      NoMarks(c);
    } else {
      assert forall i :: 0 <= i < |ns[1..]| ==> ns[1..][i] == ns[i + 1];
      PrintedExactly(ns[0], c);
      AllPrintedExactly(ns[1..], c);
      CountJoin(Print(ns[0]), PrintAll(ns[1..]), c);
      MarksOfBoth(ContentsOf(ns[0]), ContentsOfAll(ns[1..]), c);
    }
  }

  // No tag is written that the tree does not ask for, no blank, no quotation mark and no reference.
  lemma PrintedMarkup(n: Node)
    requires Printable(n)
    ensures var x, s := ContentsOf(n), Print(n);
            && Count(s, '<') == 2 * x.elements - x.leaves
            && Count(s, '>') == 2 * x.elements - x.leaves + CountAll(x.values, '>') + CountAll(x.texts, '>')
            && Count(s, '/') == x.elements + CountAll(x.values, '/') + CountAll(x.texts, '/')
            && Count(s, ' ') == |x.values| + CountAll(x.values, ' ') + CountAll(x.texts, ' ')
            && Count(s, '=') == |x.values| + CountAll(x.values, '=') + CountAll(x.texts, '=')
            && Count(s, '"') == 2 * |x.values| + CountAll(x.texts, '"')
            && Count(s, '\'') == CountAll(x.values, '\'') + CountAll(x.texts, '\'')
            && Count(s, '#') == CountAll(x.values, '#') + CountAll(x.texts, '#')
            && Count(s, '&') == CountInAll(x.values, {'<', '&', '"'}) + CountInAll(x.texts, {'<', '&'})
  {
    hide Count, CountAll, CountInAll, ContentsOf, Print, Printable;
    forall c | c in {'<', '>', '/', ' ', '=', '"', '\'', '#', '&'} ensures Count(Print(n), c) == Marks(ContentsOf(n), c) {
      PrintedExactly(n, c);
    }
  }
}
