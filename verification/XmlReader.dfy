// The XML reader of web-adapter.js (module 43) with the handler that builds the tree (module 40).
// A run is followed as long as the reader has no error to report: it stops where the source calls
// `error` or `fatalError` or throws, and at the constructs that begin with "<?" and "<!".
module XmlReader {
  import opened Xml
  import opened Options

  // The default namespace outside of all elements, the named entities, what stands for the other
  // references, lower case, and the names that every object of the language has as properties.
  datatype Env = Env(space: string, entities: map<string, string>, other: string -> string, lower: string -> string, inherited: set<string>)

  // ----- Strings -----

  // The first occurrence of a character at or after a position, or -1.
  function IndexOf(s: string, c: char, from: nat): (r: int)
    ensures -1 <= r < |s|
    ensures r >= 0 ==> from <= r && s[r] == c && forall i :: from <= i < r ==> s[i] != c
    ensures r < 0 ==> forall i :: from <= i < |s| ==> s[i] != c
    decreases |s| - from
  {
    if from >= |s| then -1 else if s[from] == c then from else IndexOf(s, c, from + 1)
  }

  predicate OccursAt(s: string, piece: string, at: int) {
    0 <= at <= |s| - |piece| && s[at..at + |piece|] == piece
  }

  // The first occurrence of a piece that begins at or after a position, or -1.
  function IndexOfPiece(s: string, piece: string, from: nat): (r: int)
    ensures -1 <= r && (r >= 0 ==> from <= r && OccursAt(s, piece, r))
    ensures forall i :: from <= i && OccursAt(s, piece, i) ==> 0 <= r <= i
    decreases |s| - from
  {
    if from > |s| then -1 else if OccursAt(s, piece, from) then from else IndexOfPiece(s, piece, from + 1)
  }

  // The last occurrence of a piece that begins at or before a position, or -1.
  function LastIndexOf(s: string, piece: string, at: int): (r: int)
    requires at <= |s|
    ensures -1 <= r && (r >= 0 ==> OccursAt(s, piece, r))
    ensures forall i :: 0 <= i <= at && OccursAt(s, piece, i) ==> i <= r
    decreases at + 1
  {
    if at < 0 then -1 else if OccursAt(s, piece, at) then at else LastIndexOf(s, piece, at - 1)
  }

  // The white space of a regular expression.
  predicate IsSpace(c: char) {
    var u := c as int;
    || 9 <= u <= 13 || u == 32 || u == 0xA0 || u == 0x1680 || 0x2000 <= u <= 0x200A || 0x2028 <= u <= 0x2029
    || u == 0x202F || u == 0x205F || u == 0x3000 || u == 0xFEFF
  }

  predicate AllSpace(s: string) {
    forall i :: 0 <= i < |s| ==> IsSpace(s[i])
  }

  predicate IsWord(c: char) {
    '0' <= c <= '9' || 'A' <= c <= 'Z' || 'a' <= c <= 'z' || c == '_'
  }

  // ----- References -----

  function WordEnd(s: string, i: nat): (r: nat)
    requires i <= |s|
    ensures i <= r <= |s|
    decreases |s| - i
  {
    if i < |s| && IsWord(s[i]) then WordEnd(s, i + 1) else i
  }

  // The length of the reference at the beginning of `s`, or 0: an ampersand, perhaps a number sign,
  // word characters and a semicolon.
  function Reference(s: string): (r: nat)
    ensures r <= |s| && (r > 0 ==> r >= 3 && s[0] == '&' && s[r - 1] == ';')
  {
    if s == "" || s[0] != '&' then 0 else
      var i := if |s| > 1 && s[1] == '#' then 2 else 1;
      var j := WordEnd(s, i);
      if i < j < |s| && s[j] == ';' then j + 1 else 0
  }

  function Meaning(env: Env, reference: string): string
    requires |reference| >= 2
  {
    var k := reference[1..|reference| - 1];
    if k in env.entities then env.entities[k] else env.other(reference)
  }

  // All references replaced, from the left.
  function Replace(env: Env, s: string): string
    decreases |s|
  {
    if s == "" then "" else
      var n := Reference(s);
      if n > 0 then Meaning(env, s[..n]) + Replace(env, s[n..]) else [s[0]] + Replace(env, s[1..])
  }

  // ----- The start of an element -----

  // The states of the scanner.
  datatype Status = Tag | AttrName | AttrSpace | Eq | NoQuot | AttrEnd | TagSpace | TagClose

  // The names and attributes found so far.
  datatype Start = Start(name: Option<string>, attrs: seq<Attr>, closed: bool)

  // A scan ends at a position, or stops.
  datatype Scan = Scanned(at: nat, el: Start) | Stop

  // A name, perhaps with a prefix.
  predicate IsQName(s: string) {
    var i := IndexOf(s, ':', 0);
    if i < 0 then IsName(s) else IsName(s[..i]) && IsName(s[i + 1..])
  }

  function SetTagName(el: Start, name: string): Option<Start> {
    if IsQName(name) then Some(el.(name := Some(name))) else None
  }

  function Add(el: Start, name: string, value: string): Option<Start> {
    if IsQName(name) then Some(el.(attrs := el.attrs + [Attr(name, value)])) else None
  }

  // The registers of the scanner: the position, the begin of the current part, the status, the name
  // of the current attribute, and what it has found.
  datatype Scanner = Scanner(p: nat, start: nat, s: Status, attrName: string, el: Start)

  datatype Move = Go(to: Scanner) | End(scan: Scan)

  // White space is what sorts before a blank, and U+0080.
  predicate IsBlank(c: char) {
    c <= ' ' || c == '\U{0080}'
  }

  // The begin is not after the position, and the tag name is known once its characters are over.
  predicate InRange(source: string, x: Scanner) {
    x.start <= x.p <= |source| && (x.s == Tag || x.el.name.Some?)
  }

  // The scanner goes on after it has perhaps found something.
  function Then(el: Option<Start>, x: Scanner): Move {
    if el.None? then End(Stop) else Go(x.(el := el.value))
  }

  function AtEquals(source: string, x: Scanner): Move
    requires InRange(source, x)
  {
    match x.s
    case AttrName => Go(x.(attrName := source[x.start..x.p], s := Eq))
    case AttrSpace => Go(x.(s := Eq))
    case _ => End(Stop)
  }

  function AtQuote(env: Env, source: string, x: Scanner): Move
    requires InRange(source, x) && x.p < |source|
  {
    match x.s
    case Eq => Quoted(env, source, x)
    case AttrName => Quoted(env, source, x.(attrName := source[x.start..x.p]))
    case NoQuot =>
      Then(Add(x.el, x.attrName, Replace(env, source[x.start..x.p])), x.(start := x.p + 1, s := AttrEnd))
    case _ => End(Stop)
  }

  // The value reaches up to the same quotation mark.
  function Quoted(env: Env, source: string, x: Scanner): Move
    requires InRange(source, x) && x.p < |source|
  {
    var end := IndexOf(source, source[x.p], x.p + 1);
    if end < 0 then End(Stop)
    else Then(Add(x.el, x.attrName, Replace(env, source[x.p + 1..end])), x.(p := end, start := x.p + 1, s := AttrEnd))
  }

  function AtSlash(source: string, x: Scanner): Move
    requires InRange(source, x)
  {
    match x.s
    case Tag =>
      var el := SetTagName(x.el, source[x.start..x.p]);
      Then(if el.None? then None else Some(el.value.(closed := true)), x.(s := TagClose))
    case AttrEnd => Go(x.(s := TagClose, el := x.el.(closed := true)))
    case TagSpace => Go(x.(s := TagClose, el := x.el.(closed := true)))
    case TagClose => Go(x.(s := TagClose, el := x.el.(closed := true)))
    case NoQuot => Go(x)
    case AttrName => Go(x)
    case AttrSpace => Go(x)
    case Eq => End(Stop)
  }

  function AtEnd(x: Scanner, el: Option<Start>): Move {
    End(if el.None? then Stop else Scanned(x.p, el.value))
  }

  function AtGreater(env: Env, source: string, x: Scanner): Move
    requires InRange(source, x)
  {
    match x.s
    case Tag => AtEnd(x, SetTagName(x.el, source[x.start..x.p]))
    case AttrEnd => AtEnd(x, Some(x.el))
    case TagSpace => AtEnd(x, Some(x.el))
    case TagClose => AtEnd(x, Some(x.el))
    case AttrSpace => AtEnd(x, Add(x.el, x.attrName, x.attrName))
    case Eq => End(Stop)
    case _ =>
      var part := source[x.start..x.p];
      var slash := part != "" && part[|part| - 1] == '/';
      var value := if slash then part[..|part| - 1] else part;
      var el := if slash then x.el.(closed := true) else x.el;
      AtEnd(x, if x.s == NoQuot then Add(el, x.attrName, Replace(env, value)) else Add(el, value, value))
  }

  function AtBlank(env: Env, source: string, x: Scanner): Move
    requires InRange(source, x)
  {
    match x.s
    case Tag => Then(SetTagName(x.el, source[x.start..x.p]), x.(s := TagSpace))
    case AttrName => Go(x.(attrName := source[x.start..x.p], s := AttrSpace))
    case NoQuot => Then(Add(x.el, x.attrName, Replace(env, source[x.start..x.p])), x.(s := TagSpace))
    case AttrEnd => Go(x.(s := TagSpace))
    case _ => Go(x)
  }

  function AtOther(x: Scanner): Move {
    match x.s
    case AttrSpace => Then(Add(x.el, x.attrName, x.attrName), x.(start := x.p, s := AttrName))
    case AttrEnd => Go(x.(start := x.p, s := AttrName))
    case TagSpace => Go(x.(start := x.p, s := AttrName))
    case Eq => Go(x.(start := x.p, s := NoQuot))
    case TagClose => End(Stop)
    case _ => Go(x)
  }

  // One round of the scanner, before it moves to the next position.
  function Round(env: Env, source: string, x: Scanner): (m: Move)
    requires InRange(source, x)
    ensures m.Go? ==> x.p <= m.to.p < |source| && m.to.start <= m.to.p + 1 && (m.to.s == Tag || m.to.el.name.Some?)
    ensures m.End? && m.scan.Scanned? ==> m.scan.at == x.p < |source| && source[x.p] == '>' && m.scan.el.name.Some?
  {
    if x.p == |source| then End(Stop) else
      var c := source[x.p];
      if c == '=' then AtEquals(source, x)
      else if c == '\'' || c == '"' then AtQuote(env, source, x)
      else if c == '/' then AtSlash(source, x)
      else if c == '>' then AtGreater(env, source, x)
      else if IsBlank(c) then AtBlank(env, source, x)
      else AtOther(x)
  }

  function ScanFrom(env: Env, source: string, x: Scanner): (r: Scan)
    requires InRange(source, x)
    ensures r.Scanned? ==> x.p <= r.at < |source| && source[r.at] == '>' && r.el.name.Some?
    decreases |source| - x.p
  {
    var m := Round(env, source, x);
    if m.End? then m.scan else ScanFrom(env, source, m.to.(p := m.to.p + 1))
  }

  // parseElementStartPart, for the tag that begins at a position.
  function ScanElement(env: Env, source: string, tagStart: nat): (r: Scan)
    requires tagStart < |source|
    ensures r.Scanned? ==> tagStart < r.at < |source| && source[r.at] == '>' && r.el.name.Some?
  {
    ScanFrom(env, source, Scanner(tagStart + 1, tagStart + 1, Tag, "", Start(None, [], false)))
  }

  method ParseElementStartPart(env: Env, source: string, tagStart: nat) returns (r: Scan)
    requires tagStart < |source|
    ensures r == ScanElement(env, source, tagStart)
  {
    var x := Scanner(tagStart + 1, tagStart + 1, Tag, "", Start(None, [], false));
    while true
      invariant InRange(source, x) && ScanFrom(env, source, x) == ScanElement(env, source, tagStart)
      decreases |source| - x.p
    {
      var m := Round(env, source, x);
      if m.End? {
        return m.scan;
      }
      x := m.to.(p := m.to.p + 1);
    }
  }

  // ----- The tree builder -----

  // An element whose end has not been reached, with what has been read of it.
  datatype Frame = Frame(name: string, attrs: seq<Attr>, children: seq<Node>)

  // The children of the document, the open elements, and whether the current node is set: it is the
  // innermost open element, and the document when they have all been closed.
  datatype Tree = Tree(doc: seq<Node>, open: seq<Frame>, rooted: bool)

  function AddNode(t: Tree, n: Node): (r: Tree)
    ensures |r.open| == |t.open| && r.rooted == t.rooted
  {
    if t.open == [] then t.(doc := t.doc + [n]) else
      var last := |t.open| - 1;
      t.(open := t.open[..last] + [t.open[last].(children := t.open[last].children + [n])])
  }

  // The text of `n` characters, taken from `chars`.
  function Characters(t: Tree, chars: string, n: nat): (r: Tree)
    ensures |r.open| == |t.open|
  {
    var text := if n < |chars| then chars[..n] else chars;
    if text == "" then t
    else if t.open != [] || t.rooted then AddNode(t, Text(text))
    else if AllSpace(text) then t.(doc := t.doc + [Text(text)])
    else t
  }

  // An attribute takes the place of the last one with its name.
  function SetAttr(attrs: seq<Attr>, a: Attr): seq<Attr> {
    var i := AttrIndex(attrs, a.name, |attrs|);
    if i < 0 then attrs + [a] else attrs[i := a]
  }

  function AttrIndex(attrs: seq<Attr>, name: string, n: nat): (r: int)
    requires n <= |attrs|
    ensures -1 <= r < n && (r >= 0 ==> attrs[r].name == name)
    ensures r < 0 ==> forall i :: 0 <= i < n ==> attrs[i].name != name
  {
    if n == 0 then -1 else if attrs[n - 1].name == name then n - 1 else AttrIndex(attrs, name, n - 1)
  }

  function SetAttrs(attrs: seq<Attr>, more: seq<Attr>): seq<Attr>
    decreases more
  {
    if more == [] then attrs else SetAttrs(SetAttr(attrs, more[0]), more[1..])
  }

  function StartElement(t: Tree, name: string, attrs: seq<Attr>): (r: Tree)
    ensures |r.open| == |t.open| + 1
  {
    Tree(t.doc, t.open + [Frame(name, SetAttrs([], attrs), [])], true)
  }

  function EndElement(t: Tree): (r: Tree)
    requires t.open != []
    ensures |r.open| == |t.open| - 1
  {
    var last := |t.open| - 1;
    var f := t.open[last];
    AddNode(t.(open := t.open[..last]), Element(f.name, f.attrs, f.children))
  }

  // What has been built when the source ends: elements that were not closed end there.
  function Close(t: Tree): seq<Node>
    decreases |t.open|
  {
    if t.open == [] then t.doc else Close(EndElement(t))
  }

  // Adjacent texts are joined, at every level.
  function Normalize(ns: seq<Node>): seq<Node>
    decreases ns
  {
    if ns == [] then [] else Join(NormalizeNode(ns[0]), Normalize(ns[1..]))
  }

  function NormalizeNode(n: Node): Node {
    match n
    case Text(_) => n
    case Element(name, attrs, children) => Element(name, attrs, Normalize(children))
  }

  function Join(n: Node, ns: seq<Node>): seq<Node> {
    if n.Text? && ns != [] && ns[0].Text? then [Text(n.data + ns[0].data)] + ns[1..] else [n] + ns
  }

  // ----- The reader -----

  // An element to be ended, with the default namespace in it.
  datatype Waiting = Waiting(name: string, space: string)

  // The position, the elements to be ended, the tree, and where the last end tag of each name looked
  // up so far is.
  datatype Reader = Reader(start: nat, stack: seq<Waiting>, tree: Tree, ends: map<string, int>)

  datatype Result = Document(children: seq<Node>) | Stopped

  datatype Step = Next(reader: Reader) | Halt

  // Every element that waits for its end tag is open.
  predicate InStep(r: Reader) {
    |r.stack| == |r.tree.open|
  }

  function AppendText(env: Env, source: string, r: Reader, end: nat): (t: Reader)
    requires r.start <= end <= |source| && InStep(r)
    ensures t.start == end && InStep(t)
  {
    r.(tree := if end > r.start then Characters(r.tree, Replace(env, source[r.start..end]), end - r.start) else r.tree,
       start := end)
  }

  // A blank right before "<".
  predicate Broken(name: string) {
    exists i :: 0 <= i < |name| - 1 && IsSpace(name[i]) && name[i + 1] == '<'
  }

  function AtEndTag(env: Env, source: string, r: Reader): (s: Step)
    requires r.start < |source| && InStep(r)
    ensures s.Next? ==> InStep(s.reader) && r.start < s.reader.start <= |source|
  {
    var end := IndexOf(source, '>', r.start + 3);
    if end < 0 then Halt else
      var name := source[r.start + 2..end];
      if Broken(name) then Halt
      else if r.stack == [] then Next(r.(start := end + 1))
      else
        var last := |r.stack| - 1;
        if r.stack[last].name == name then
          Next(r.(start := end + 1, stack := r.stack[..last], tree := EndElement(r.tree)))
        else if env.lower(r.stack[last].name) == env.lower(name) then Halt
        else Next(r.(start := end + 1))
  }

  // Where the last end tag of the name is; the answer is kept.  An inherited property is not before
  // any position.
  function LastEnd(env: Env, source: string, at: nat, name: string, ends: map<string, int>): int {
    if name in env.inherited then at
    else if name in ends then ends[name] else
      var pos := LastIndexOf(source, "</" + name + ">", |source|);
      if pos < at then LastIndexOf(source, "</" + name, |source|) else pos
  }

  // ----- Namespaces -----

  const XHTML := "http://www.w3.org/1999/xhtml"

  // The default namespace inside an element with these attributes; the first declaration counts.
  function SpaceWithin(space: string, attrs: seq<Attr>): string {
    if attrs == [] then space
    else if attrs[0].name == "xmlns" then attrs[0].value
    else SpaceWithin(space, attrs[1..])
  }

  function CurrentSpace(env: Env, stack: seq<Waiting>): string {
    if stack == [] then env.space else stack[|stack| - 1].space
  }

  // A name in small or capital letters, or both.
  predicate InAnyCase(name: string, small: string) {
    |name| == |small| && forall i :: 0 <= i < |name| ==> name[i] == small[i] || name[i] as int + 32 == small[i] as int
  }

  predicate IsScript(name: string) { InAnyCase(name, "script") }

  predicate IsSpecial(name: string) { IsScript(name) || InAnyCase(name, "textarea") }

  predicate HasMarkup(text: string) { exists c :: c in text && c in IN_TEXT }

  // parseHtmlSpecialContent: the content of a script or textarea up to its first end tag is one text
  // if there is markup in it.  Without an end tag, the text is what has been read so far, and the
  // reader tries again right after the "<" of the tag.
  function AtSpecialContent(env: Env, source: string, at: nat, name: string, r: Reader): (u: Reader)
    requires r.start < at < |source| && source[at] == '>' && InStep(r)
    ensures InStep(u) && r.start < u.start <= |source|
  {
    var end := IndexOfPiece(source, "</" + name + ">", at);
    var raw := if end < 0 then source[..at + 1] else source[at + 1..end];
    if !IsSpecial(name) || !HasMarkup(raw) then r.(start := at + 1)
    else
      var text := if IsScript(name) then raw else Replace(env, raw);
      var u := r.(tree := Characters(r.tree, text, |text|));
      if end < 0 then AppendText(env, source, u, u.start + 1) else u.(start := end)
  }

  function AtStartTag(env: Env, source: string, r: Reader): (s: Step)
    requires r.start < |source| && InStep(r)
    ensures s.Next? ==> InStep(s.reader) && r.start < s.reader.start <= |source|
  {
    var scan := ScanElement(env, source, r.start);
    if scan.Stop? then Halt else
      var name := scan.el.name.value;
      var last := LastEnd(env, source, scan.at, name, r.ends);
      var closed := scan.el.closed || last < scan.at;
      var space := SpaceWithin(CurrentSpace(env, r.stack), scan.el.attrs);
      var tree := StartElement(r.tree, name, scan.el.attrs);
      var ends := if scan.el.closed || name in env.inherited then r.ends else r.ends[name := last];
      if closed then Next(Reader(scan.at + 1, r.stack, EndElement(tree), ends))
      else
        var u := Reader(r.start, r.stack + [Waiting(name, space)], tree, ends);
        Next(if space == XHTML then AtSpecialContent(env, source, scan.at, name, u) else u.(start := scan.at + 1))
  }

  // The tag that begins at the position of the reader.
  function AtTag(env: Env, source: string, r: Reader): (s: Step)
    requires r.start < |source| && InStep(r)
    ensures s.Next? ==> InStep(s.reader) && r.start < s.reader.start <= |source|
  {
    var next := if r.start + 1 < |source| then source[r.start + 1] else ' ';
    if next == '/' then AtEndTag(env, source, r)
    else if next == '?' || next == '!' then Halt
    else AtStartTag(env, source, r)
  }

  // What follows the last tag becomes a child of the document, unless it is white space.
  function AtEndOfSource(source: string, r: Reader): Result
    requires r.start <= |source|
  {
    var rest := source[r.start..];
    Document(Normalize(
      if AllSpace(rest) then Close(r.tree)
      else Close(r.tree) + [Text(rest)]))
  }

  function ParseFrom(env: Env, source: string, r: Reader): Result
    requires r.start <= |source| && InStep(r)
    decreases |source| - r.start
  {
    var tagStart := IndexOf(source, '<', r.start);
    if tagStart < 0 then AtEndOfSource(source, r) else
      var s := AtTag(env, source, AppendText(env, source, r, tagStart));
      if s.Halt? then Stopped else ParseFrom(env, source, s.reader)
  }

  const BEGIN := Reader(0, [], Tree([], [], false), map[])

  // parseFromString.
  function Parse(env: Env, source: string): Result {
    ParseFrom(env, source, BEGIN)
  }
}
