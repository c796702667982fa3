// `normalize` of web-adapter.js (module 41) on trees: adjacent texts are joined in place, the text as
// a whole stays.
module XmlNormalize {
  import opened Xml
  import opened XmlReader

  // textContent.
  function TextContent(n: Node): string {
    match n
    case Text(data) => data
    case Element(_, _, children) => TextOf(children)
  }

  function TextOf(ns: seq<Node>): string {
    if ns == [] then "" else TextContent(ns[0]) + TextOf(ns[1..])
  }

  // No two texts are next to each other, at any level.
  predicate Separated(ns: seq<Node>) {
    && (forall i :: 0 <= i < |ns| - 1 ==> !(ns[i].Text? && ns[i + 1].Text?))
    && (forall i :: 0 <= i < |ns| && ns[i].Element? ==> Separated(ns[i].children))
  }

  // A list begins with a text exactly when its joined form does.
  lemma NormalizeHead(ns: seq<Node>)
    ensures Normalize(ns) == [] <==> ns == []
    ensures ns != [] ==> (Normalize(ns)[0].Text? <==> ns[0].Text?)
  {
  }

  lemma JoinText(n: Node, ns: seq<Node>)
    ensures TextOf(Join(n, ns)) == TextContent(n) + TextOf(ns)
  {
    if n.Text? && ns != [] && ns[0].Text? {
      assert Join(n, ns)[1..] == ns[1..];
    } else {
      assert ([n] + ns)[1..] == ns;
    }
  }

  lemma {:induction false} NormalizeKeepsText(ns: seq<Node>)
    ensures TextOf(Normalize(ns)) == TextOf(ns)
    decreases ns
  {
    if ns != [] {
      if ns[0].Element? { NormalizeKeepsText(ns[0].children); }
      NormalizeKeepsText(ns[1..]);
      JoinText(NormalizeNode(ns[0]), Normalize(ns[1..]));
    }
  }

  lemma JoinSeparates(n: Node, ns: seq<Node>)
    requires Separated(ns) && (n.Element? ==> Separated(n.children))
    ensures Separated(Join(n, ns))
  {
    var u := Join(n, ns);
    if n.Text? && ns != [] && ns[0].Text? {
      assert forall i :: 0 < i < |u| ==> u[i] == ns[i];
    } else {
      assert forall i :: 0 < i < |u| ==> u[i] == ns[i - 1];
    }
  }

  lemma {:induction false} NormalizeSeparates(ns: seq<Node>)
    ensures Separated(Normalize(ns))
    decreases ns
  {
    if ns != [] {
      if ns[0].Element? { NormalizeSeparates(ns[0].children); }
      NormalizeSeparates(ns[1..]);
      JoinSeparates(NormalizeNode(ns[0]), Normalize(ns[1..]));
    }
  }

  // A tree is left alone exactly when its texts are separated already.
  lemma {:induction false} NormalizeIsIdentity(ns: seq<Node>)
    ensures Normalize(ns) == ns <==> Separated(ns)
    decreases ns
  {
    NormalizeSeparates(ns);
    if Separated(ns) && ns != [] {
      assert forall i :: 0 <= i < |ns[1..]| ==> ns[1..][i] == ns[i + 1];
      NormalizeIsIdentity(ns[1..]);
      if ns[0].Element? { NormalizeIsIdentity(ns[0].children); }
      assert [ns[0]] + ns[1..] == ns;
      assert |ns| > 1 ==> ns[1..][0] == ns[1];
    }
  }

  lemma NormalizeCons(n: Node, rest: seq<Node>)
    ensures Normalize([n] + rest) == Join(NormalizeNode(n), Normalize(rest))
  {
    var ns := [n] + rest;
    assert ns[0] == n && ns[1..] == rest;
  }

  // Two texts at the head may be joined first.
  lemma NormalizeMerged(a: string, b: string, rest: seq<Node>)
    ensures Normalize([Text(a), Text(b)] + rest) == Normalize([Text(a + b)] + rest)
  {
    NormalizeCons(Text(a + b), rest);
    NormalizeCons(Text(b), rest);
    NormalizeCons(Text(a), [Text(b)] + rest);
    assert [Text(a), Text(b)] + rest == [Text(a)] + ([Text(b)] + rest);
    var n := Normalize(rest);
    if n != [] && n[0].Text? {
      assert a + (b + n[0].data) == (a + b) + n[0].data;
      assert ([Text(b + n[0].data)] + n[1..])[1..] == n[1..];
    } else {
      assert ([Text(b)] + n)[1..] == n;
    }
  }

  // A child that is not joined with the next one is done.
  lemma NormalizeStep(n: Node, rest: seq<Node>)
    requires n.Text? && rest != [] ==> rest[0].Element?
    ensures Normalize([n] + rest) == [NormalizeNode(n)] + Normalize(rest)
  {
    NormalizeHead(rest);
    NormalizeCons(n, rest);
  }

  lemma NormalizeNothing()
    ensures Normalize([]) == []
  {
  }

  // A text takes in the one after it.
  lemma TakenIn(cs: seq<Node>, i: nat)
    requires i + 1 < |cs| && cs[i].Text? && cs[i + 1].Text?
    ensures var us := cs[..i] + [Text(cs[i].data + cs[i + 1].data)] + cs[i + 2..];
            && us[..i] == cs[..i] && us[i + 1..] == cs[i + 2..] && Normalize(us[i..]) == Normalize(cs[i..])
  {
    hide Normalize;
    NormalizeMerged(cs[i].data, cs[i + 1].data, cs[i + 2..]);
    assert cs[i..] == [Text(cs[i].data), Text(cs[i + 1].data)] + cs[i + 2..];
    var us := cs[..i] + [Text(cs[i].data + cs[i + 1].data)] + cs[i + 2..];
    assert us[i..] == [Text(cs[i].data + cs[i + 1].data)] + cs[i + 2..];
  }

  // A child is done when it does not take in the one after it.
  lemma Finished(cs: seq<Node>, i: nat)
    requires i < |cs| && !(cs[i].Text? && i + 1 < |cs| && cs[i + 1].Text?)
    ensures var us := cs[i := NormalizeNode(cs[i])];
            us[i + 1..] == cs[i + 1..] && us[..i + 1] + Normalize(us[i + 1..]) == cs[..i] + Normalize(cs[i..])
  {
    hide Normalize;
    NormalizeStep(cs[i], cs[i + 1..]);
    assert cs[i..] == [cs[i]] + cs[i + 1..];
    var us := cs[i := NormalizeNode(cs[i])];
    assert us[..i + 1] == cs[..i] + [NormalizeNode(cs[i])] && us[i + 1..] == cs[i + 1..];
  }

  // The walk of `normalize` over the children of a node: a text takes in the text after it, which is
  // removed; any other child is normalized itself.
  method NormalizeChildren(ns: seq<Node>) returns (cs: seq<Node>)
    ensures cs == Normalize(ns)
    decreases ns
  {
    hide Normalize;
    cs := ns;
    var i := 0;
    ghost var taken := 0;
    while i < |cs|
      invariant i <= |cs| && Normalize(ns) == cs[..i] + Normalize(cs[i..])
      invariant i + taken <= |ns| && |cs| == |ns| - taken && cs[i..][if i < |cs| then 1 else 0..] == ns[i + taken..][if i < |cs| then 1 else 0..]
      invariant i < |cs| && cs[i].Element? ==> cs[i] == ns[i + taken]
      decreases |cs| - i
    {
      if cs[i].Text? && i + 1 < |cs| && cs[i + 1].Text? {
        TakenIn(cs, i);
        cs := cs[..i] + [Text(cs[i].data + cs[i + 1].data)] + cs[i + 2..];
        taken := taken + 1;
      } else {
        ghost var was := cs;
        if cs[i].Element? {
          var children := NormalizeChildren(cs[i].children);
          cs := cs[i := Element(cs[i].name, cs[i].attrs, children)];
        }
        assert cs == was[i := NormalizeNode(was[i])];
        Finished(was, i);
        i := i + 1;
      }
    }
    assert cs[..i] == cs && cs[i..] == [];
    NormalizeNothing();
  }
}
