// The grammar of start tags that the scanner of eight states accepts, read by descent: the scanner computes
// it on every source, what it accepts as well as what it refuses.
module XmlGrammar {
  import opened Options
  import opened Xml
  import opened XmlReader

  // ----- Runs of characters -----

  predicate IsSign(c: char) {
    c in {'=', '\'', '"', '>'}
  }

  // A name ends before a slash; an attribute's name and a value without quotation marks do not.
  datatype Run = Name | Part | Blank | Tail

  predicate IsIn(c: char, run: Run) {
    match run
    case Name => !IsSign(c) && !IsBlank(c) && c != '/'
    case Part => !IsSign(c) && !IsBlank(c)
    case Blank => IsBlank(c)
    case Tail => IsBlank(c) || c == '/'
  }

  // Where a run that begins at a position ends.
  function Past(s: string, i: nat, run: Run): (r: nat)
    requires i <= |s|
    ensures i <= r <= |s| && (r < |s| ==> !IsIn(s[r], run))
    ensures forall k :: i <= k < r ==> IsIn(s[k], run)
    decreases |s| - i
  {
    if i < |s| && IsIn(s[i], run) then Past(s, i + 1, run) else i
  }

  // ----- The grammar -----

  predicate IsAt(s: string, i: nat, chars: set<char>) {
    i < |s| && s[i] in chars
  }

  // A part, without the slash at its end.
  function WithoutSlash(part: string): string {
    if part != "" && part[|part| - 1] == '/' then part[..|part| - 1] else part
  }

  // A tag is a name and what is inside of the tag.
  function ReadTag(env: Env, s: string, i: nat): Scan
    requires i <= |s|
  {
    var j := Past(s, i, Name);
    if j == |s| || IsAt(s, j, {'=', '\'', '"'}) || !IsQName(s[i..j]) then Stop
    else Inside(env, s, j, Start(Some(s[i..j]), [], false))
  }

  // Behind the name of the tag or the quotation mark of a value: attributes, up to the end or a slash.
  // Only blanks and slashes are behind a slash.
  function Inside(env: Env, s: string, i: nat, el: Start): Scan
    requires i <= |s|
    decreases |s| - i, 1
  {
    var k := Past(s, i, Blank);
    if IsAt(s, k, {'>'}) then Scanned(k, el)
    else if IsAt(s, k, {'/'}) then
      Closed(s, k, el)
    else if k == |s| || IsSign(s[k]) then Stop
    else Attribute(env, s, k, el)
  }

  function Closed(s: string, i: nat, el: Start): Scan
    requires i <= |s|
  {
    var end := Past(s, i, Tail);
    if IsAt(s, end, {'>'}) then Scanned(end, el.(closed := true)) else Stop
  }

  function Attribute(env: Env, s: string, i: nat, el: Start): Scan
    requires i < |s| && IsIn(s[i], Name)
    decreases |s| - i, 0
  {
    var j := Past(s, i, Part);
    var name := s[i..j];
    if IsAt(s, j, {'='}) then Value(env, s, j + 1, name, el)
    else if IsAt(s, j, {'\'', '"'}) then QuotedValue(env, s, j, name, el)
    else if IsAt(s, j, {'>'}) then Last(s, j, WithoutSlash(name), WithoutSlash(name), name, el)
    else
      // The blanks behind a name, with slashes that nobody heeds.
      var k := Past(s, j, Tail);
      if IsAt(s, k, {'='}) then Value(env, s, k + 1, name, el)
      else if k == |s| || IsAt(s, k, {'\'', '"'}) || !IsQName(name) then Stop
      else if s[k] == '>' then Scanned(k, Having(el, name, name))
      else Attribute(env, s, k, Having(el, name, name))
  }

  function Having(el: Start, name: string, value: string): Start {
    el.(attrs := el.attrs + [Attr(name, value)])
  }

  // An attribute that the end of the tag ends; a slash at its end belongs to the tag.
  function Last(s: string, at: nat, name: string, value: string, part: string, el: Start): Scan {
    if IsQName(name) then Scanned(at, Having(el, name, value).(closed := el.closed || part != WithoutSlash(part))) else Stop
  }

  // Behind an equals sign.
  function Value(env: Env, s: string, i: nat, name: string, el: Start): Scan
    requires i <= |s|
    decreases |s| - i, 1
  {
    var k := Past(s, i, Blank);
    if IsAt(s, k, {'\'', '"'}) then QuotedValue(env, s, k, name, el)
    else if k == |s| || s[k] in {'=', '/', '>'} then Stop
    else
      var j := Past(s, k, Part);
      var raw := s[k..j];
      if IsAt(s, j, {'>'}) then Last(s, j, name, Replace(env, WithoutSlash(raw)), raw, el)
      else if j == |s| || s[j] == '=' || !IsQName(name) then Stop
      else Inside(env, s, if IsSign(s[j]) then j + 1 else j, Having(el, name, Replace(env, raw)))
  }

  // A value reaches up to the next quotation mark of its kind.
  function QuotedValue(env: Env, s: string, i: nat, name: string, el: Start): Scan
    requires IsAt(s, i, {'\'', '"'})
    decreases |s| - i, 0
  {
    var end := IndexOf(s, s[i], i + 1);
    if end < 0 || !IsQName(name) then Stop else Inside(env, s, end + 1, Having(el, name, Replace(env, s[i + 1..end])))
  }

  // ----- The scanner passes over runs -----

  function RunOf(s: Status): Run
    requires s != AttrEnd
  {
    match s
    case Tag => Name
    case AttrName => Part
    case NoQuot => Part
    case AttrSpace => Tail
    case TagClose => Tail
    case TagSpace => Blank
    case Eq => Blank
  }

  lemma {:induction false} PassesOver(env: Env, source: string, x: Scanner)
    requires InRange(source, x) && x.s != AttrEnd && (x.s == TagClose ==> x.el.closed)
    ensures ScanFrom(env, source, x) == ScanFrom(env, source, x.(p := Past(source, x.p, RunOf(x.s))))
    decreases |source| - x.p
  {
    hide ScanFrom, IsQName, Replace, IndexOf;
    if x.p < |source| && IsIn(source[x.p], RunOf(x.s)) {
      var y := x.(p := x.p + 1);
      assert Round(env, source, x) == Go(x);
      OneRound(env, source, x);
      PassesOver(env, source, y);
    } else {
      assert x.(p := Past(source, x.p, RunOf(x.s))) == x;
    }
  }

  lemma OneRound(env: Env, source: string, x: Scanner)
    requires InRange(source, x)
    ensures var m := Round(env, source, x);
            if m.End? then ScanFrom(env, source, x) == m.scan
            else InRange(source, m.to.(p := m.to.p + 1)) && ScanFrom(env, source, x) == ScanFrom(env, source, m.to.(p := m.to.p + 1))
  {
    hide AtEquals, AtQuote, AtSlash, AtGreater, AtBlank, AtOther;
  }

  // The first character of a run belongs to it.
  lemma PastFirst(s: string, i: nat, run: Run)
    requires i < |s| && IsIn(s[i], run)
    ensures Past(s, i, run) == Past(s, i + 1, run)
  {
  }

  // ----- The scanner computes the grammar -----

  lemma ScansClosed(env: Env, source: string, x: Scanner, i: nat)
    requires InRange(source, x) && x.s == TagClose && x.p == i + 1 && source[i] == '/' && x.el.closed
    ensures ScanFrom(env, source, x) == Closed(source, i, x.el)
  {
    hide ScanFrom, IsQName, Replace, IndexOf, Past;
    PastFirst(source, i, Tail);
    PassesOver(env, source, x);
    OneRound(env, source, x.(p := Past(source, i, Tail)));
  }

  // Blanks behind an attribute or the name of the tag.
  lemma ScansGap(env: Env, source: string, x: Scanner) returns (y: Scanner)
    requires InRange(source, x) && (x.s == TagSpace || x.s == AttrEnd) && x.el.name.Some?
    ensures InRange(source, y) && (y.s == TagSpace || y.s == AttrEnd) && y.el == x.el && y.p == Past(source, x.p, Blank)
    ensures ScanFrom(env, source, x) == ScanFrom(env, source, y)
  {
    hide ScanFrom, IsQName, Replace, IndexOf;
    y := x;
    if x.s == AttrEnd && x.p < |source| && IsBlank(source[x.p]) {
      OneRound(env, source, x);
      PastFirst(source, x.p, Blank);
      y := x.(s := TagSpace, p := x.p + 1);
    }
    if y.s == TagSpace { PassesOver(env, source, y); }
    y := y.(p := Past(source, x.p, Blank));
  }

  lemma {:induction false} ScansInside(env: Env, source: string, x: Scanner)
    requires InRange(source, x) && (x.s == TagSpace || x.s == AttrEnd) && x.el.name.Some?
    ensures ScanFrom(env, source, x) == Inside(env, source, x.p, x.el)
    decreases |source| - x.p, 3
  {
    hide ScanFrom, IsQName, Replace, IndexOf, Past, Attribute, Value, QuotedValue;
    var y := ScansGap(env, source, x);
    var k := y.p;
    OneRound(env, source, y);
    if IsAt(source, k, {'/'}) {
      ScansClosed(env, source, y.(p := k + 1, s := TagClose, el := y.el.(closed := true)), k);
    } else if k < |source| && !IsSign(source[k]) {
      ScansAttribute(env, source, y.(p := k + 1, start := k, s := AttrName));
    }
  }

  lemma {:induction false} ScansAttribute(env: Env, source: string, x: Scanner)
    requires InRange(source, x) && x.s == AttrName && x.p == x.start + 1 && IsIn(source[x.start], Name) && x.el.name.Some?
    ensures ScanFrom(env, source, x) == Attribute(env, source, x.start, x.el)
    decreases |source| - x.start, 2
  {
    hide ScanFrom, IsQName, Replace, IndexOf, Inside, Value, QuotedValue;
    PastFirst(source, x.start, Part);
    PassesOver(env, source, x);
    var j := Past(source, x.start, Part);
    var y := x.(p := j);
    OneRound(env, source, y);
    if IsAt(source, j, {'='}) {
      ScansValue(env, source, y.(attrName := source[x.start..j], s := Eq, p := j + 1));
    } else if IsAt(source, j, {'\'', '"'}) {
      ScansQuoted(env, source, y, source[x.start..j]);
    } else if j < |source| && source[j] != '>' {
      ScansBehindName(env, source, y);
    }
  }

  lemma {:induction false} ScansBehindName(env: Env, source: string, y: Scanner)
    requires InRange(source, y) && y.s == AttrName && y.start < y.p < |source| && IsBlank(source[y.p]) && y.el.name.Some?
    requires IsIn(source[y.start], Name) && Past(source, y.start, Part) == y.p
    ensures ScanFrom(env, source, y) == Attribute(env, source, y.start, y.el)
    decreases |source| - y.start, 1
  {
    hide ScanFrom, IsQName, Replace, IndexOf, Past, Inside, Value, QuotedValue;
    var name := source[y.start..y.p];
    OneRound(env, source, y);
    PastFirst(source, y.p, Tail);
    var z := y.(attrName := name, s := AttrSpace, p := y.p + 1);
    PassesOver(env, source, z);
    var k := Past(source, y.p, Tail);
    var u := z.(p := k);
    OneRound(env, source, u);
    if IsAt(source, k, {'='}) {
      ScansValue(env, source, u.(s := Eq, p := k + 1));
    } else if k < |source| && !IsSign(source[k]) && IsQName(name) {
      ScansAttribute(env, source, u.(el := Having(u.el, name, name), start := k, s := AttrName, p := k + 1));
    }
  }

  lemma {:induction false} ScansValue(env: Env, source: string, x: Scanner)
    requires InRange(source, x) && x.s == Eq && x.el.name.Some?
    ensures ScanFrom(env, source, x) == Value(env, source, x.p, x.attrName, x.el)
    decreases |source| - x.p, 1
  {
    hide ScanFrom, IsQName, Replace, IndexOf, Inside, Attribute, QuotedValue;
    PassesOver(env, source, x);
    var k := Past(source, x.p, Blank);
    var y := x.(p := k);
    OneRound(env, source, y);
    if IsAt(source, k, {'\'', '"'}) {
      ScansQuoted(env, source, y, x.attrName);
    } else if k < |source| && !IsSign(source[k]) && source[k] != '/' {
      ScansUnquoted(env, source, y.(start := k, s := NoQuot, p := k + 1));
    }
  }

  lemma {:induction false} ScansUnquoted(env: Env, source: string, x: Scanner)
    requires InRange(source, x) && x.s == NoQuot && x.p == x.start + 1 && IsIn(source[x.start], Name) && x.el.name.Some?
    ensures ScanFrom(env, source, x) == Value(env, source, x.start, x.attrName, x.el)
    decreases |source| - x.start, 0
  {
    hide ScanFrom, IsQName, Replace, IndexOf, Inside, Attribute, QuotedValue;
    PastFirst(source, x.start, Part);
    PassesOver(env, source, x);
    var j := Past(source, x.start, Part);
    var y := x.(p := j);
    OneRound(env, source, y);
    assert Past(source, x.start, Blank) == x.start;
    if j < |source| && source[j] !in {'>', '='} && IsQName(x.attrName) {
      var el := Having(x.el, x.attrName, Replace(env, source[x.start..j]));
      if IsSign(source[j]) {
        ScansInside(env, source, y.(el := el, start := j + 1, s := AttrEnd, p := j + 1));
      } else {
        ScansBlank(env, source, y.(el := el, s := TagSpace, p := j + 1), j);
      }
    }
  }

  // A blank that ends a value has been passed over already.
  lemma {:induction false} ScansBlank(env: Env, source: string, x: Scanner, j: nat)
    requires InRange(source, x) && x.s == TagSpace && x.p == j + 1 && IsBlank(source[j]) && x.el.name.Some?
    ensures ScanFrom(env, source, x) == Inside(env, source, j, x.el)
    decreases |source| - x.p, 4
  {
    hide ScanFrom, Attribute;
    ScansInside(env, source, x);
    PastFirst(source, j, Blank);
  }

  lemma {:induction false} ScansQuoted(env: Env, source: string, x: Scanner, name: string)
    requires InRange(source, x) && IsAt(source, x.p, {'\'', '"'}) && x.el.name.Some?
    requires if x.s == Eq then name == x.attrName else x.s == AttrName && name == source[x.start..x.p]
    ensures ScanFrom(env, source, x) == QuotedValue(env, source, x.p, name, x.el)
    decreases |source| - x.p, 0
  {
    hide ScanFrom, IsQName, Replace, Inside, Attribute, Value;
    OneRound(env, source, x);
    var end := IndexOf(source, source[x.p], x.p + 1);
    if end >= 0 && IsQName(name) {
      var el := Having(x.el, name, Replace(env, source[x.p + 1..end]));
      ScansInside(env, source, Scanner(end + 1, x.p + 1, AttrEnd, name, el));
    }
  }

  // The scanner and the grammar agree about every source.
  lemma ScansTheGrammar(env: Env, source: string, tagStart: nat)
    requires tagStart < |source|
    ensures ScanElement(env, source, tagStart) == ReadTag(env, source, tagStart + 1)
  {
    hide ScanFrom, IsQName, Replace, IndexOf, Attribute, Value, QuotedValue;
    var x := Scanner(tagStart + 1, tagStart + 1, Tag, "", Start(None, [], false));
    PassesOver(env, source, x);
    var j := Past(source, x.p, Name);
    var y := x.(p := j);
    OneRound(env, source, y);
    var el := Start(Some(source[x.p..j]), [], false);
    if j < |source| && IsQName(source[x.p..j]) {
      if IsBlank(source[j]) {
        ScansBlank(env, source, y.(el := el, s := TagSpace, p := j + 1), j);
      } else if source[j] == '/' {
        ScansClosed(env, source, y.(p := j + 1, s := TagClose, el := el.(closed := true)), j);
      }
    }
  }
}
