// Start tags in every spelling that XML leaves open, and those of HTML beside it: what the scanner of eight
// states makes of them.
module XmlTags {
  import opened Options
  import opened Xml
  import opened XmlReader

  // ----- Where a piece of the source is -----

  predicate Found(source: string, at: nat, piece: string) {
    at + |piece| <= |source| && source[at..at + |piece|] == piece
  }

  lemma FoundParts(source: string, at: nat, a: string, b: string)
    ensures Found(source, at, a + b) <==> Found(source, at, a) && Found(source, at + |a|, b)
  {
    if Found(source, at, a + b) {
      assert source[at..at + |a|] == source[at..at + |a + b|][..|a|];
      assert source[at + |a|..at + |a| + |b|] == source[at..at + |a + b|][|a|..];
    }
    if Found(source, at, a) && Found(source, at + |a|, b) {
      assert source[at..at + |a + b|] == source[at..at + |a|] + source[at + |a|..at + |a| + |b|];
    }
  }

  lemma FoundAt(source: string, at: nat, piece: string, i: nat)
    requires Found(source, at, piece) && i < |piece|
    ensures at + i < |source| && source[at + i] == piece[i]
  {
    assert source[at..at + |piece|][i] == source[at + i];
  }

  lemma IndexOfIs(s: string, c: char, from: nat, at: nat)
    requires from <= at < |s| && s[at] == c && forall i :: from <= i < at ==> s[i] != c
    ensures IndexOf(s, c, from) == at
  {
  }

  // ----- Spellings -----

  // A value in quotation marks of either kind, without any, or left out.
  datatype Spelling = Quoted(quote: char, raw: string) | Unquoted(raw: string) | Valueless

  // The blanks before an attribute, its name, and the blanks around its equals sign.
  datatype Attribute = Attribute(gap: string, name: string, before: string, after: string, value: Spelling)

  // The blanks before the end, and whether the element ends there.
  datatype StartTag = StartTag(name: string, attributes: seq<Attribute>, gap: string, closed: bool)

  function WriteAttribute(a: Attribute): string {
    a.gap + a.name + WriteValue(a)
  }

  function WriteValue(a: Attribute): string {
    match a.value
    case Quoted(q, raw) => a.before + "=" + a.after + [q] + raw + [q]
    case Unquoted(raw) => a.before + "=" + a.after + raw
    case Valueless => ""
  }

  function WriteAttributes(more: seq<Attribute>): string {
    if more == [] then "" else WriteAttribute(more[0]) + WriteAttributes(more[1..])
  }

  function WriteTag(t: StartTag): string {
    "<" + t.name + WriteAttributes(t.attributes) + t.gap + (if t.closed then "/>" else ">")
  }

  // What an attribute stands for.
  function Meant(env: Env, a: Attribute): Attr {
    Attr(a.name, if a.value.Valueless? then a.name else Replace(env, a.value.raw))
  }

  function AllMeant(env: Env, more: seq<Attribute>): seq<Attr> {
    if more == [] then [] else [Meant(env, more[0])] + AllMeant(env, more[1..])
  }

  predicate Blanks(s: string) {
    forall i :: 0 <= i < |s| ==> IsBlank(s[i])
  }

  // Characters that mean nothing to the scanner.
  predicate IsOrdinary(c: char) {
    c !in {'=', '\'', '"', '/', '>'} && !IsBlank(c)
  }

  predicate Ordinary(s: string) {
    forall i :: 0 <= i < |s| ==> IsOrdinary(s[i])
  }

  predicate IsSpelled(a: Attribute) {
    && IsQName(a.name) && a.gap != "" && Blanks(a.gap) && Blanks(a.before) && Blanks(a.after)
    && match a.value
       case Quoted(q, raw) => (q == '"' || q == '\'') && q !in raw
       case Unquoted(raw) => raw != "" && Ordinary(raw)
       case Valueless => true
  }

  predicate TagIsSpelled(t: StartTag) {
    IsQName(t.name) && Blanks(t.gap) && forall i :: 0 <= i < |t.attributes| ==> IsSpelled(t.attributes[i])
  }

  // The slash after a blank is lost behind an attribute without a value.
  predicate EndsThere(t: StartTag) {
    t.closed && !(t.gap != "" && LastIsValueless(t.attributes))
  }

  predicate LastIsValueless(done: seq<Attribute>) {
    done != [] && done[|done| - 1].value.Valueless?
  }

  // ----- Steps of the scanner -----

  lemma NameCharsAreOthers(c: char)
    requires IsNameChar(c)
    ensures c !in {'=', '\'', '"', '/', '>', '<', ':'} && !IsBlank(c)
  {
  }

  lemma QNameIsOrdinary(s: string)
    requires IsQName(s)
    ensures s != "" && Ordinary(s)
  {
    var k := IndexOf(s, ':', 0);
    forall i | 0 <= i < |s| ensures IsOrdinary(s[i]) {
      if k < 0 || i < k {
        if k >= 0 { assert s[i] == s[..k][i]; }
        NameCharsAreOthers(s[i]);
      } else if i > k {
        assert s[i] == s[k + 1..][i - k - 1];
        NameCharsAreOthers(s[i]);
      }
    }
  }

  lemma StepScan(env: Env, source: string, x: Scanner, y: Scanner)
    requires InRange(source, x) && Round(env, source, x) == Go(y)
    ensures InRange(source, y.(p := y.p + 1)) && ScanFrom(env, source, x) == ScanFrom(env, source, y.(p := y.p + 1))
  {
    hide AtEquals, AtQuote, AtSlash, AtGreater, AtBlank, AtOther;
  }

  // Ordinary characters are passed over in a name, and in a value without quotation marks.
  lemma {:induction false} ScanOrdinary(env: Env, source: string, x: Scanner, piece: string)
    requires InRange(source, x) && (x.s == Tag || x.s == AttrName || x.s == NoQuot) && Found(source, x.p, piece) && Ordinary(piece)
    ensures InRange(source, x.(p := x.p + |piece|))
    ensures ScanFrom(env, source, x) == ScanFrom(env, source, x.(p := x.p + |piece|))
    decreases |piece|
  {
    hide ScanFrom;
    if piece == "" {
      assert x.(p := x.p + |piece|) == x;
    } else {
      FoundAt(source, x.p, piece, 0);
      assert IsOrdinary(piece[0]);
      assert Round(env, source, x) == Go(x);
      StepScan(env, source, x, x);
      assert piece == [piece[0]] + piece[1..];
      FoundParts(source, x.p, [piece[0]], piece[1..]);
      ScanOrdinary(env, source, x.(p := x.p + 1), piece[1..]);
    }
  }

  // Blanks are passed over where one has been seen before, and after an equals sign.
  lemma {:induction false} ScanBlanks(env: Env, source: string, x: Scanner, gap: string)
    requires InRange(source, x) && (x.s == TagSpace || x.s == AttrSpace || x.s == Eq) && Found(source, x.p, gap) && Blanks(gap)
    ensures InRange(source, x.(p := x.p + |gap|))
    ensures ScanFrom(env, source, x) == ScanFrom(env, source, x.(p := x.p + |gap|))
    decreases |gap|
  {
    hide ScanFrom;
    if gap == "" {
      assert x.(p := x.p + |gap|) == x;
    } else {
      FoundAt(source, x.p, gap, 0);
      assert IsBlank(gap[0]);
      BlankIsNoSign(gap[0]);
      assert Round(env, source, x) == Go(x);
      StepScan(env, source, x, x);
      assert gap == [gap[0]] + gap[1..];
      FoundParts(source, x.p, [gap[0]], gap[1..]);
      ScanBlanks(env, source, x.(p := x.p + 1), gap[1..]);
    }
  }

  lemma BlankIsNoSign(c: char)
    requires IsBlank(c)
    ensures c !in {'=', '\'', '"', '/', '>'}
  {
  }

  // ----- Between two attributes -----

  // The name has been read and the attributes `done`; the last one may be still open.
  predicate Behind(env: Env, source: string, x: Scanner, name: string, done: seq<Attribute>) {
    && InRange(source, x)
    && if done == [] then x.s == Tag && source[x.start..x.p] == name && x.el == Start(None, [], false)
       else
         var a := done[|done| - 1];
         match a.value
         case Quoted(_, _) => x.s == AttrEnd && x.el == Start(Some(name), AllMeant(env, done), false)
         case Unquoted(raw) =>
           x.s == NoQuot && source[x.start..x.p] == raw && x.attrName == a.name
           && x.el == Start(Some(name), AllMeant(env, done[..|done| - 1]), false)
         case Valueless =>
           x.s == AttrName && source[x.start..x.p] == a.name && x.el == Start(Some(name), AllMeant(env, done[..|done| - 1]), false)
  }

  lemma {:induction false} MeantAppend(env: Env, done: seq<Attribute>, a: Attribute)
    ensures AllMeant(env, done + [a]) == AllMeant(env, done) + [Meant(env, a)]
    decreases done
  {
    if done == [] {
      assert done + [a] == [a] && [a][1..] == [];
    } else {
      assert (done + [a])[1..] == done[1..] + [a];
      MeantAppend(env, done[1..], a);
    }
  }

  lemma MeantLast(env: Env, done: seq<Attribute>)
    requires done != []
    ensures AllMeant(env, done) == AllMeant(env, done[..|done| - 1]) + [Meant(env, done[|done| - 1])]
  {
    assert done[..|done| - 1] + [done[|done| - 1]] == done;
    MeantAppend(env, done[..|done| - 1], done[|done| - 1]);
  }

  // After some blanks, everything has been added but an attribute without a value.
  predicate Spaced(env: Env, source: string, x: Scanner, name: string, done: seq<Attribute>) {
    && InRange(source, x)
    && if LastIsValueless(done) then
         x.s == AttrSpace && x.attrName == done[|done| - 1].name && x.el == Start(Some(name), AllMeant(env, done[..|done| - 1]), false)
       else x.s == TagSpace && x.el == Start(Some(name), AllMeant(env, done), false)
  }

  lemma ScanGap(env: Env, source: string, x: Scanner, name: string, done: seq<Attribute>, gap: string) returns (y: Scanner)
    requires Behind(env, source, x, name, done) && IsQName(name) && Found(source, x.p, gap) && Blanks(gap) && gap != ""
    requires done != [] ==> IsQName(done[|done| - 1].name)
    ensures Spaced(env, source, y, name, done) && y.p == x.p + |gap| && ScanFrom(env, source, x) == ScanFrom(env, source, y)
  {
    hide ScanFrom, IsQName, Replace, AtEquals, AtQuote, AtSlash, AtGreater, AtOther;
    assert gap == [gap[0]] + gap[1..];
    FoundParts(source, x.p, [gap[0]], gap[1..]);
    FoundAt(source, x.p, gap, 0);
    assert IsBlank(gap[0]);
    BlankIsNoSign(gap[0]);
    if done != [] { MeantLast(env, done); }
    var m := Round(env, source, x);
    assert m == AtBlank(env, source, x) && m.Go?;
    StepScan(env, source, x, m.to);
    var b := m.to.(p := x.p + 1);
    assert Spaced(env, source, b, name, done);
    ScanBlanks(env, source, b, gap[1..]);
    y := b.(p := x.p + |gap|);
  }

  // The name of the next attribute.
  lemma ScanNextName(env: Env, source: string, x: Scanner, name: string, done: seq<Attribute>, next: string) returns (y: Scanner)
    requires Spaced(env, source, x, name, done) && IsQName(next) && Found(source, x.p, next)
    requires done != [] ==> IsQName(done[|done| - 1].name)
    ensures InRange(source, y) && y.s == AttrName && y.start == x.p && y.p == x.p + |next| && y.el == Start(Some(name), AllMeant(env, done), false)
    ensures ScanFrom(env, source, x) == ScanFrom(env, source, y)
  {
    hide ScanFrom, IsQName, Replace, AtEquals, AtQuote, AtSlash, AtGreater, AtBlank;
    QNameIsOrdinary(next);
    assert next == [next[0]] + next[1..];
    FoundParts(source, x.p, [next[0]], next[1..]);
    FoundAt(source, x.p, next, 0);
    assert IsOrdinary(next[0]);
    if done != [] { MeantLast(env, done); }
    var m := Round(env, source, x);
    assert m == AtOther(x) && m.Go?;
    StepScan(env, source, x, m.to);
    var b := m.to.(p := x.p + 1);
    assert Ordinary(next[1..]) by { forall i | 0 <= i < |next[1..]| ensures IsOrdinary(next[1..][i]) { assert next[1..][i] == next[i + 1]; } }
    ScanOrdinary(env, source, b, next[1..]);
    y := b.(p := x.p + |next|);
  }

  // The equals sign with the blanks around it.
  lemma ScanEquals(env: Env, source: string, x: Scanner, before: string, after: string) returns (y: Scanner)
    requires InRange(source, x) && x.s == AttrName && Blanks(before) && Blanks(after)
    requires Found(source, x.p, before) && Found(source, x.p + |before|, "=") && Found(source, x.p + |before| + 1, after)
    ensures InRange(source, y) && y.s == Eq && y.p == x.p + |before| + 1 + |after| && y.attrName == source[x.start..x.p] && y.el == x.el
    ensures ScanFrom(env, source, x) == ScanFrom(env, source, y)
  {
    hide ScanFrom, AtQuote, AtSlash, AtGreater, AtOther, Found;
    var b := x;
    if before != "" {
      assert before == [before[0]] + before[1..];
      FoundParts(source, x.p, [before[0]], before[1..]);
      FoundAt(source, x.p, before, 0);
      assert IsBlank(before[0]);
      BlankIsNoSign(before[0]);
      b := x.(attrName := source[x.start..x.p], s := AttrSpace);
      assert Round(env, source, x) == Go(b);
      StepScan(env, source, x, b);
      ScanBlanks(env, source, b.(p := x.p + 1), before[1..]);
      b := b.(p := x.p + |before|);
    }
    FoundAt(source, b.p, "=", 0);
    var e := b.(attrName := source[x.start..x.p], s := Eq);
    assert Round(env, source, b) == Go(e);
    StepScan(env, source, b, e);
    ScanBlanks(env, source, e.(p := b.p + 1), after);
    y := e.(p := b.p + 1 + |after|);
  }

  lemma QuotedParts(source: string, at: nat, q: char, raw: string)
    requires Found(source, at, [q] + raw + [q]) && q !in raw
    ensures at + 1 + |raw| < |source| && source[at] == q && IndexOf(source, q, at + 1) == at + 1 + |raw|
    ensures source[at + 1..at + 1 + |raw|] == raw
  {
    hide Found, IndexOf;
    assert [q] + raw + [q] == [q] + (raw + [q]);
    FoundParts(source, at, [q], raw + [q]);
    FoundParts(source, at + 1, raw, [q]);
    FoundIs(source, at + 1, raw);
    FoundAt(source, at, [q], 0);
    FoundAt(source, at + 1 + |raw|, [q], 0);
    forall i | at + 1 <= i < at + 1 + |raw| ensures source[i] != q { FoundAt(source, at + 1, raw, i - at - 1); }
    IndexOfIs(source, q, at + 1, at + 1 + |raw|);
  }

  // A value in quotation marks.
  lemma ScanQuoted(env: Env, source: string, x: Scanner, q: char, raw: string) returns (y: Scanner)
    requires InRange(source, x) && x.s == Eq && IsQName(x.attrName) && (q == '"' || q == '\'') && q !in raw
    requires Found(source, x.p, [q] + raw + [q])
    ensures InRange(source, y) && y.s == AttrEnd && y.p == x.p + |raw| + 2
    ensures y.el == x.el.(attrs := x.el.attrs + [Attr(x.attrName, Replace(env, raw))])
    ensures ScanFrom(env, source, x) == ScanFrom(env, source, y)
  {
    hide ScanFrom, Replace, IsQName, AtEquals, AtSlash, AtGreater, AtBlank, AtOther, Found, IndexOf;
    var end := x.p + 1 + |raw|;
    QuotedParts(source, x.p, q, raw);
    var z := Scanner(end, x.p + 1, AttrEnd, x.attrName, x.el.(attrs := x.el.attrs + [Attr(x.attrName, Replace(env, raw))]));
    assert Round(env, source, x) == Go(z);
    StepScan(env, source, x, z);
    y := z.(p := end + 1);
  }

  // A value without any, up to where it ends.
  lemma ScanUnquoted(env: Env, source: string, x: Scanner, raw: string) returns (y: Scanner)
    requires InRange(source, x) && x.s == Eq && raw != "" && Ordinary(raw) && Found(source, x.p, raw)
    ensures InRange(source, y) && y.s == NoQuot && y.start == x.p && y.p == x.p + |raw| && y.attrName == x.attrName && y.el == x.el
    ensures ScanFrom(env, source, x) == ScanFrom(env, source, y)
  {
    hide ScanFrom;
    assert raw == [raw[0]] + raw[1..];
    FoundParts(source, x.p, [raw[0]], raw[1..]);
    FoundAt(source, x.p, raw, 0);
    assert IsOrdinary(raw[0]);
    var z := x.(start := x.p, s := NoQuot);
    assert Round(env, source, x) == Go(z);
    StepScan(env, source, x, z);
    assert Ordinary(raw[1..]) by { forall i | 0 <= i < |raw[1..]| ensures IsOrdinary(raw[1..][i]) { assert raw[1..][i] == raw[i + 1]; } }
    ScanOrdinary(env, source, z.(p := x.p + 1), raw[1..]);
    y := z.(p := x.p + |raw|);
  }

  // ----- Attributes -----

  lemma ValueParts(source: string, at: nat, a: Attribute)
    requires !a.value.Valueless? && Found(source, at, WriteValue(a))
    ensures Found(source, at, a.before) && Found(source, at + |a.before|, "=") && Found(source, at + |a.before| + 1, a.after)
    ensures Found(source, at + |a.before| + 1 + |a.after|, if a.value.Quoted? then [a.value.quote] + a.value.raw + [a.value.quote] else a.value.raw)
  {
    hide Found;
    var v := if a.value.Quoted? then [a.value.quote] + a.value.raw + [a.value.quote] else a.value.raw;
    assert WriteValue(a) == a.before + ("=" + (a.after + v));
    FoundParts(source, at, a.before, "=" + (a.after + v));
    FoundParts(source, at + |a.before|, "=", a.after + v);
    FoundParts(source, at + |a.before| + 1, a.after, v);
  }

  lemma ScanAttribute(env: Env, source: string, x: Scanner, name: string, done: seq<Attribute>, a: Attribute) returns (y: Scanner)
    requires IsQName(name) && IsSpelled(a) && (done != [] ==> IsQName(done[|done| - 1].name))
    requires Behind(env, source, x, name, done) && Found(source, x.p, WriteAttribute(a))
    ensures y.p == x.p + |WriteAttribute(a)| && Behind(env, source, y, name, done + [a])
    ensures ScanFrom(env, source, x) == ScanFrom(env, source, y)
  {
    hide ScanFrom, IsQName, Found, Replace, Behind, Spaced, Blanks, Ordinary, InRange;
    assert WriteAttribute(a) == a.gap + (a.name + WriteValue(a));
    FoundParts(source, x.p, a.gap, a.name + WriteValue(a));
    FoundParts(source, x.p + |a.gap|, a.name, WriteValue(a));
    var b := ScanGap(env, source, x, name, done, a.gap);
    var n := ScanNextName(env, source, b, name, done, a.name);
    FoundIs(source, b.p, a.name);
    y := ScanSpelling(env, source, n, a);
    Appended(env, source, n, y, name, done, a);
  }

  // From the name of an attribute to its end.
  lemma ScanSpelling(env: Env, source: string, n: Scanner, a: Attribute) returns (y: Scanner)
    requires IsSpelled(a) && InRange(source, n) && n.s == AttrName && source[n.start..n.p] == a.name && Found(source, n.p, WriteValue(a))
    ensures InRange(source, y) && y.p == n.p + |WriteValue(a)| && Spelled(env, source, n, y, a)
    ensures ScanFrom(env, source, n) == ScanFrom(env, source, y)
  {
    hide ScanFrom, IsQName, Found, Replace, Blanks, Ordinary;
    y := n;
    if !a.value.Valueless? {
      ValueParts(source, n.p, a);
      var e := ScanEquals(env, source, n, a.before, a.after);
      if a.value.Quoted? {
        y := ScanQuoted(env, source, e, a.value.quote, a.value.raw);
      } else {
        y := ScanUnquoted(env, source, e, a.value.raw);
        assert source[y.start..y.p] == a.value.raw by { FoundIs(source, e.p, a.value.raw); }
      }
    }
  }

  lemma FoundIs(source: string, at: nat, piece: string)
    requires Found(source, at, piece)
    ensures at + |piece| <= |source| && source[at..at + |piece|] == piece
  {
  }

  predicate Spelled(env: Env, source: string, n: Scanner, y: Scanner, a: Attribute)
    requires InRange(source, n) && InRange(source, y)
  {
    match a.value
    case Quoted(_, raw) => y.s == AttrEnd && y.el == n.el.(attrs := n.el.attrs + [Meant(env, a)])
    case Unquoted(raw) => y.s == NoQuot && source[y.start..y.p] == raw && y.attrName == a.name && y.el == n.el
    case Valueless => y == n
  }

  lemma Appended(env: Env, source: string, n: Scanner, y: Scanner, name: string, done: seq<Attribute>, a: Attribute)
    requires InRange(source, n) && InRange(source, y) && Spelled(env, source, n, y, a)
    requires n.s == AttrName && source[n.start..n.p] == a.name && n.el == Start(Some(name), AllMeant(env, done), false)
    ensures Behind(env, source, y, name, done + [a])
  {
    hide Replace;
    MeantAppend(env, done, a);
    assert (done + [a])[..|done|] == done;
  }

  lemma {:induction false} ScanAttributes(env: Env, source: string, x: Scanner, name: string, done: seq<Attribute>, more: seq<Attribute>)
    returns (y: Scanner)
    requires IsQName(name) && (done != [] ==> IsQName(done[|done| - 1].name)) && forall i :: 0 <= i < |more| ==> IsSpelled(more[i])
    requires Behind(env, source, x, name, done) && Found(source, x.p, WriteAttributes(more))
    ensures y.p == x.p + |WriteAttributes(more)| && Behind(env, source, y, name, done + more)
    ensures ScanFrom(env, source, x) == ScanFrom(env, source, y)
    decreases |more|
  {
    hide ScanFrom, IsQName, Found, Behind, WriteAttribute, IsSpelled;
    if more == [] {
      assert done + more == done;
      y := x;
    } else {
      FoundParts(source, x.p, WriteAttribute(more[0]), WriteAttributes(more[1..]));
      var z := ScanAttribute(env, source, x, name, done, more[0]);
      SpelledName(more[0]);
      y := ScanAttributes(env, source, z, name, done + [more[0]], more[1..]);
      assert done + [more[0]] + more[1..] == done + more;
    }
  }

  lemma SpelledName(a: Attribute)
    requires IsSpelled(a)
    ensures IsQName(a.name)
  {
  }

  // ----- The end of a tag -----

  // Right behind the name or an attribute.
  lemma ScanEnd(env: Env, source: string, x: Scanner, name: string, done: seq<Attribute>, closed: bool)
    requires IsQName(name) && (done != [] ==> IsSpelled(done[|done| - 1]))
    requires Behind(env, source, x, name, done) && Found(source, x.p, if closed then "/>" else ">")
    ensures ScanFrom(env, source, x) == Scanned(x.p + (if closed then 1 else 0), Start(Some(name), AllMeant(env, done), closed))
  {
    hide IsQName, Replace, ScanFrom, Behind;
    if !closed {
      FoundAt(source, x.p, ">", 0);
      ScanGreater(env, source, x, name, done);
    } else {
      FoundAt(source, x.p, "/>", 0);
      FoundAt(source, x.p, "/>", 1);
      ScanSlash(env, source, x, name, done);
    }
  }

  lemma ScanGreater(env: Env, source: string, x: Scanner, name: string, done: seq<Attribute>)
    requires IsQName(name) && (done != [] ==> IsSpelled(done[|done| - 1]))
    requires Behind(env, source, x, name, done) && x.p < |source| && source[x.p] == '>'
    ensures ScanFrom(env, source, x) == Scanned(x.p, Start(Some(name), AllMeant(env, done), false))
  {
    hide IsQName, Replace, ScanFrom, AtEquals, AtQuote, AtSlash, AtBlank, AtOther, Found;
    if done != [] {
      var a := done[|done| - 1];
      NoSlash(a);
      MeantLast(env, done);
    }
    EndsNow(env, source, x, Start(Some(name), AllMeant(env, done), false));
  }

  // A slash has been read behind the name or an attribute.
  predicate Slashed(env: Env, source: string, z: Scanner, name: string, done: seq<Attribute>) {
    && InRange(source, z)
    && match z.s
       case TagClose => z.el == Start(Some(name), AllMeant(env, done), true)
       case NoQuot =>
         && done != [] && done[|done| - 1].value.Unquoted? && source[z.start..z.p] == done[|done| - 1].value.raw + "/"
         && z.attrName == done[|done| - 1].name && z.el == Start(Some(name), AllMeant(env, done[..|done| - 1]), false)
       case AttrName =>
         && done != [] && done[|done| - 1].value.Valueless? && source[z.start..z.p] == done[|done| - 1].name + "/"
         && z.el == Start(Some(name), AllMeant(env, done[..|done| - 1]), false)
       case _ => false
  }

  lemma ScanSlash(env: Env, source: string, x: Scanner, name: string, done: seq<Attribute>)
    requires IsQName(name) && (done != [] ==> IsSpelled(done[|done| - 1]))
    requires Behind(env, source, x, name, done) && x.p + 1 < |source| && source[x.p] == '/' && source[x.p + 1] == '>'
    ensures ScanFrom(env, source, x) == Scanned(x.p + 1, Start(Some(name), AllMeant(env, done), true))
  {
    hide ScanFrom, IsSpelled, IsQName, Behind, Slashed;
    var z := SlashIsRead(env, source, x, name, done);
    SlashedEnds(env, source, z, name, done);
  }

  lemma NothingMeant(env: Env)
    ensures AllMeant(env, []) == []
  {
  }

  lemma SlashIsRead(env: Env, source: string, x: Scanner, name: string, done: seq<Attribute>) returns (z: Scanner)
    requires IsQName(name) && Behind(env, source, x, name, done) && x.p < |source| && source[x.p] == '/'
    ensures z.p == x.p + 1 && Slashed(env, source, z, name, done) && ScanFrom(env, source, x) == ScanFrom(env, source, z)
  {
    hide IsQName, Replace, ScanFrom, AtEquals, AtQuote, AtGreater, AtBlank, AtOther, AllMeant;
    NothingMeant(env);
    var m := Round(env, source, x);
    assert m == AtSlash(source, x) && m.Go?;
    StepScan(env, source, x, m.to);
    z := m.to.(p := x.p + 1);
    if z.s != TagClose { Longer(source, x, z); }
  }

  lemma SlashedEnds(env: Env, source: string, z: Scanner, name: string, done: seq<Attribute>)
    requires Slashed(env, source, z, name, done) && z.p < |source| && source[z.p] == '>' && (done != [] ==> IsSpelled(done[|done| - 1]))
    ensures ScanFrom(env, source, z) == Scanned(z.p, Start(Some(name), AllMeant(env, done), true))
  {
    hide IsQName, Replace, ScanFrom, AtEquals, AtQuote, AtSlash, AtBlank, AtOther, Blanks, Ordinary;
    if done != [] { MeantLast(env, done); }
    EndsNow(env, source, z, Start(Some(name), AllMeant(env, done), true));
  }

  lemma Longer(source: string, x: Scanner, z: Scanner)
    requires InRange(source, x) && InRange(source, z) && z.start == x.start && z.p == x.p + 1 && source[x.p] == '/'
    ensures source[z.start..z.p] == source[x.start..x.p] + "/"
  {
  }

  lemma EndsNow(env: Env, source: string, x: Scanner, el: Start)
    requires InRange(source, x) && x.p < |source| && source[x.p] == '>' && AtGreater(env, source, x) == End(Scanned(x.p, el))
    ensures ScanFrom(env, source, x) == Scanned(x.p, el)
  {
    hide AtGreater;
  }

  // A value without quotation marks, and a name, do not end in a slash.
  lemma NoSlash(a: Attribute)
    requires IsSpelled(a)
    ensures a.name != "" && a.name[|a.name| - 1] != '/'
    ensures a.value.Unquoted? ==> a.value.raw != "" && a.value.raw[|a.value.raw| - 1] != '/'
  {
    hide IsQName;
    QNameIsOrdinary(a.name);
    assert IsOrdinary(a.name[|a.name| - 1]);
    if a.value.Unquoted? { assert IsOrdinary(a.value.raw[|a.value.raw| - 1]); }
  }

  // After some blanks.
  lemma SpelledHasName(a: Attribute)
    requires IsSpelled(a)
    ensures IsQName(a.name)
  {
  }

  lemma ScanSpacedEnd(env: Env, source: string, x: Scanner, name: string, done: seq<Attribute>, closed: bool)
    requires IsQName(name) && (done != [] ==> IsSpelled(done[|done| - 1]))
    requires Spaced(env, source, x, name, done) && Found(source, x.p, if closed then "/>" else ">")
    ensures ScanFrom(env, source, x) == Scanned(
      x.p + (if closed then 1 else 0),
      Start(Some(name), AllMeant(env, done), closed && !LastIsValueless(done)))
  {
    hide IsQName, Replace, ScanFrom, IsSpelled, Found, AllMeant, AtEquals, AtQuote, AtBlank, AtOther;
    if done != [] {
      MeantLast(env, done);
      assert IsQName(done[|done| - 1].name) by { SpelledHasName(done[|done| - 1]); }
    }
    var ends := closed && !LastIsValueless(done);
    if !closed {
      FoundAt(source, x.p, ">", 0);
      EndsNow(env, source, x, Start(Some(name), AllMeant(env, done), false));
    } else {
      FoundAt(source, x.p, "/>", 0);
      FoundAt(source, x.p, "/>", 1);
      var m := Round(env, source, x);
      assert m == AtSlash(source, x) && m.Go?;
      StepScan(env, source, x, m.to);
      EndsNow(env, source, m.to.(p := x.p + 1), Start(Some(name), AllMeant(env, done), ends));
    }
  }

  // A tag in any spelling is scanned up to its ">": the name, and the attributes in their order with the
  // references in their values replaced.
  lemma TagIsRead(env: Env, source: string, at: nat, t: StartTag)
    requires TagIsSpelled(t) && Found(source, at, WriteTag(t))
    ensures ScanElement(env, source, at) ==
            Scanned(at + |WriteTag(t)| - 1, Start(Some(t.name), AllMeant(env, t.attributes), EndsThere(t)))
  {
    hide ScanFrom, IsQName, Found, Behind, Spaced, WriteAttributes, IsSpelled, Blanks, Round;
    var end := if t.closed then "/>" else ">";
    var more := t.attributes;
    assert WriteTag(t) == "<" + (t.name + (WriteAttributes(more) + (t.gap + end)));
    FoundParts(source, at, "<", t.name + (WriteAttributes(more) + (t.gap + end)));
    FoundParts(source, at + 1, t.name, WriteAttributes(more) + (t.gap + end));
    FoundParts(source, at + 1 + |t.name|, WriteAttributes(more), t.gap + end);
    FoundParts(source, at + 1 + |t.name| + |WriteAttributes(more)|, t.gap, end);
    var x := ScanTagName(env, source, at, t.name);
    var y := ScanAttributes(env, source, x, t.name, [], more);
    assert [] + more == more;
    if more != [] { SpelledName(more[|more| - 1]); }
    if t.gap == "" {
      ScanEnd(env, source, y, t.name, more, t.closed);
    } else {
      var z := ScanGap(env, source, y, t.name, more, t.gap);
      ScanSpacedEnd(env, source, z, t.name, more, t.closed);
    }
  }

  lemma ScanTagName(env: Env, source: string, at: nat, name: string) returns (x: Scanner)
    requires IsQName(name) && Found(source, at, "<") && Found(source, at + 1, name)
    ensures at < |source| && x.p == at + 1 + |name| && Behind(env, source, x, name, [])
    ensures ScanElement(env, source, at) == ScanFrom(env, source, x)
  {
    hide ScanFrom, IsQName;
    QNameIsOrdinary(name);
    var b := Scanner(at + 1, at + 1, Tag, "", Start(None, [], false));
    ScanOrdinary(env, source, b, name);
    x := b.(p := at + 1 + |name|);
  }
}
