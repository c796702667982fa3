// References, the content of scripts and textareas, declared namespaces, and the tags that are errors.
module XmlContent {
  import opened Options
  import opened Xml
  import opened XmlReader
  import opened XmlAttributes
  import opened XmlTags
  import opened XmlRoundTrip
  import opened XmlSpelling

  // ----- References -----

  // An ampersand, perhaps a number sign, word characters and a semicolon.
  predicate IsReference(p: string) {
    var i := if |p| > 1 && p[1] == '#' then 2 else 1;
    |p| > i + 1 && p[0] == '&' && p[|p| - 1] == ';' && forall k :: i <= k < |p| - 1 ==> IsWord(p[k])
  }

  lemma {:induction false} WordsEnd(s: string, i: nat, j: nat)
    requires i <= j <= |s| && (forall k :: i <= k < j ==> IsWord(s[k])) && (j < |s| ==> !IsWord(s[j]))
    ensures WordEnd(s, i) == j
    decreases j - i
  {
    if i < j { WordsEnd(s, i + 1, j); }
  }

  lemma {:induction false} WordsOnly(s: string, i: nat)
    requires i <= |s|
    ensures var j := WordEnd(s, i);
            (forall k :: i <= k < j ==> IsWord(s[k])) && (j < |s| ==> !IsWord(s[j]))
    decreases |s| - i
  {
    if i < |s| && IsWord(s[i]) { WordsOnly(s, i + 1); }
  }

  // The reference at the beginning of a text is the only beginning that is one.
  lemma ReferenceExactly(s: string, n: nat)
    requires 0 < n <= |s|
    ensures Reference(s) == n <==> IsReference(s[..n])
  {
    var i := if |s| > 1 && s[1] == '#' then 2 else 1;
    if Reference(s) == n {
      WordsOnly(s, i);
    }
    if IsReference(s[..n]) {
      forall k | i <= k < n - 1 ensures IsWord(s[k]) { assert s[..n][k] == s[k]; }
      WordsEnd(s, i, n - 1);
    }
  }

  // A reference is replaced by its meaning, whatever follows; another character stays.
  lemma ReferencesExactly(env: Env, s: string)
    ensures forall p, rest :: s == p + rest && IsReference(p) ==> Replace(env, s) == Meaning(env, p) + Replace(env, rest)
    ensures s != "" && (forall n :: 0 < n <= |s| ==> !IsReference(s[..n])) ==> Replace(env, s) == [s[0]] + Replace(env, s[1..])
  {
    forall p, rest | s == p + rest && IsReference(p) ensures Replace(env, s) == Meaning(env, p) + Replace(env, rest) {
      ReferenceExactly(s, |p|);
      assert s[..|p|] == p && s[|p|..] == rest;
    }
    if s != "" && Reference(s) > 0 { ReferenceExactly(s, Reference(s)); }
  }

  // ----- Scripts and textareas -----

  function Small(c: char): char {
    if 'A' <= c <= 'Z' then (c as int + 32) as char else c
  }

  // A name in any letters.
  lemma SpecialExactly(name: string)
    ensures IsScript(name) <==> seq(|name|, i requires 0 <= i < |name| => Small(name[i])) == "script"
    ensures IsSpecial(name) <==> seq(|name|, i requires 0 <= i < |name| => Small(name[i])) in {"script", "textarea"}
  {
    SpelledInSmall(name, "script");
    SpelledInSmall(name, "textarea");
  }

  lemma SpelledInSmall(name: string, small: string)
    requires forall i :: 0 <= i < |small| ==> 'a' <= small[i] <= 'z'
    ensures InAnyCase(name, small) <==> seq(|name|, i requires 0 <= i < |name| => Small(name[i])) == small
  {
    var s := seq(|name|, i requires 0 <= i < |name| => Small(name[i]));
    if InAnyCase(name, small) {
      forall i | 0 <= i < |name| ensures s[i] == small[i] {}
    }
    if s == small {
      forall i | 0 <= i < |name| ensures name[i] == small[i] || name[i] as int + 32 == small[i] as int { assert s[i] == small[i]; }
    }
  }

  // Content with markup up to the first end tag is one text; in a script its references stay.
  lemma SpecialIsRead(env: Env, source: string, at: nat, w: Reader, name: string, inner: string)
    requires w.start < at < |source| && source[at] == '>' && InStep(w) && w.tree.open != [] && IsSpecial(name) && HasMarkup(inner)
    requires Found(source, at + 1, inner) && Found(source, at + 1 + |inner|, "</" + name + ">")
    requires forall i :: at <= i < at + 1 + |inner| ==> !OccursAt(source, "</" + name + ">", i)
    ensures AtSpecialContent(env, source, at, name, w) ==
            w.(start := at + 1 + |inner|, tree := AddNodes(w.tree, TextNodes(if IsScript(name) then inner else Replace(env, inner))))
  {
    hide Replace, HasMarkup, IsSpecial, IsScript, AddNode;
    var tag := "</" + name + ">";
    assert OccursAt(source, tag, at + 1 + |inner|);
    assert IndexOfPiece(source, tag, at) == at + 1 + |inner|;
    assert source[at + 1..at + 1 + |inner|] == inner;
    OneText(w.tree, if IsScript(name) then inner else Replace(env, inner));
  }

  lemma OneText(t: Tree, text: string)
    requires t.open != []
    ensures Characters(t, text, |text|) == AddNodes(t, TextNodes(text))
  {
  }

  // Without an end tag the text is everything read so far, and the reader goes on right behind the "<".
  lemma SpecialWithoutEnd(env: Env, source: string, at: nat, w: Reader, name: string)
    requires w.start < at < |source| && source[at] == '>' && source[w.start] == '<' && InStep(w) && w.tree.open != [] && IsSpecial(name)
    requires forall i :: at <= i ==> !OccursAt(source, "</" + name + ">", i)
    ensures var text := if IsScript(name) then source[..at + 1] else Replace(env, source[..at + 1]);
            AtSpecialContent(env, source, at, name, w) == w.(start := w.start + 1, tree := AddNode(AddNodes(w.tree, TextNodes(text)), Text("<")))
  {
    hide IsSpecial, IsScript, AddNode;
    var text := if IsScript(name) then source[..at + 1] else Replace(env, source[..at + 1]);
    assert source[..at + 1][w.start] == '<' && '<' in IN_TEXT;
    assert HasMarkup(source[..at + 1]);
    OneText(w.tree, text);
    assert source[w.start..w.start + 1] == "<";
    OneAngle(env);
  }

  lemma OneAngle(env: Env)
    ensures Replace(env, "<") == "<"
  {
    assert "<"[1..] == "";
  }

  // ----- Namespaces -----

  // The first declaration of an element counts, and else what is around it.
  lemma {:induction false} FirstDeclarationCounts(space: string, attrs: seq<Attr>)
    ensures var i := FirstOf(attrs, "xmlns");
            SpaceWithin(space, attrs) == if i < |attrs| then attrs[i].value else space
    decreases attrs
  {
    if attrs != [] { FirstDeclarationCounts(space, attrs[1..]); }
  }

  // ----- Tags that are errors, or look like it -----

  // An element whose name every object has as a property goes on, whatever follows.
  lemma InheritedGoesOn(env: Env, source: string, r: Reader, t: StartTag)
    requires TagIsSpelled(t) && !EndsThere(t) && InStep(r) && Found(source, r.start, WriteTag(t)) && t.name in env.inherited
    ensures r.start + |WriteTag(t)| <= |source|
    ensures var s := AtTag(env, source, r);
            && s.Next? && s.reader.ends == r.ends && s.reader.stack != [] && s.reader.stack[..|s.reader.stack| - 1] == r.stack
            && s.reader.stack[|s.reader.stack| - 1] == Waiting(t.name, SpaceWithin(CurrentSpace(env, r.stack), AllMeant(env, t.attributes)))
  {
    hide EndElement, StartElement, ScanElement, AllMeant, TagIsSpelled, IsQName, WriteTag, EndsThere, Found,
      Replace, Characters, HasMarkup, IsSpecial, IsScript, IndexOfPiece;
    TagIsRead(env, source, r.start, t);
    TagIsStart(env, source, r, t);
  }

  // A blank right before "<" in an end tag is an error, and so is a tag that does not end, or a
  // declaration.
  lemma BrokenEndTag(env: Env, source: string, r: Reader, a: string, blank: char, b: string)
    requires InStep(r) && IsSpace(blank) && '>' !in a + [blank] + "<" + b && Found(source, r.start, "</" + (a + [blank] + "<" + b) + ">")
    ensures r.start < |source| && AtTag(env, source, r) == Halt
  {
    hide IndexOf, Found, IsSpace;
    var raw := a + [blank] + "<" + b;
    RawEndParts(source, r.start, raw);
    assert raw[|a|] == blank && raw[|a| + 1] == '<';
    assert Broken(raw);
  }

  lemma UnendedTag(env: Env, source: string, r: Reader)
    requires r.start < |source| && InStep(r) && source[r.start] == '<' && forall i :: r.start <= i < |source| ==> source[i] != '>'
    ensures AtTag(env, source, r) == Halt
  {
    hide ScanElement;
  }

  lemma DeclarationStops(env: Env, source: string, r: Reader)
    requires r.start + 1 < |source| && InStep(r) && source[r.start + 1] in {'?', '!'}
    ensures AtTag(env, source, r) == Halt
  {
  }
}
