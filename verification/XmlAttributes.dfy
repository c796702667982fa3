// What an element keeps of attributes of which several may have the same name.
module XmlAttributes {
  import opened Xml
  import opened XmlReader

  // The first and the last attribute of a name.
  function FirstOf(attrs: seq<Attr>, name: string): (r: nat)
    ensures r <= |attrs| && (r < |attrs| ==> attrs[r].name == name)
    ensures forall i :: 0 <= i < r ==> attrs[i].name != name
  {
    if attrs == [] || attrs[0].name == name then 0 else FirstOf(attrs[1..], name) + 1
  }

  function LastOf(attrs: seq<Attr>, name: string): (r: int)
    ensures -1 <= r < |attrs| && (r >= 0 ==> attrs[r].name == name)
    ensures forall i :: r < i < |attrs| ==> attrs[i].name != name
  {
    if attrs == [] then -1
    else if attrs[|attrs| - 1].name == name then |attrs| - 1 else LastOf(attrs[..|attrs| - 1], name)
  }

  // Every name once, in the order in which the names first occur, with the value that it has last.
  predicate Merges(merged: seq<Attr>, attrs: seq<Attr>) {
    HasLastValues(merged, attrs) && InOrder(merged, attrs) && HoldsAll(merged, attrs)
  }

  predicate HasLastValues(merged: seq<Attr>, attrs: seq<Attr>) {
    forall i :: 0 <= i < |merged| ==> 0 <= LastOf(attrs, merged[i].name) && merged[i] == attrs[LastOf(attrs, merged[i].name)]
  }

  predicate InOrder(merged: seq<Attr>, attrs: seq<Attr>) {
    forall i, j :: 0 <= i < j < |merged| ==> FirstOf(attrs, merged[i].name) < FirstOf(attrs, merged[j].name)
  }

  predicate HoldsAll(merged: seq<Attr>, attrs: seq<Attr>) {
    forall k :: 0 <= k < |attrs| ==> Holds(merged, attrs[k].name)
  }

  predicate Holds(merged: seq<Attr>, name: string) {
    exists i :: 0 <= i < |merged| && merged[i].name == name
  }

  lemma {:induction false} SetAppended(found: seq<Attr>, attrs: seq<Attr>, a: Attr)
    ensures SetAttrs(found, attrs + [a]) == SetAttr(SetAttrs(found, attrs), a)
    decreases attrs
  {
    if attrs == [] {
      assert attrs + [a] == [a] && [a][1..] == [];
    } else {
      assert (attrs + [a])[1..] == attrs[1..] + [a];
      SetAppended(SetAttr(found, attrs[0]), attrs[1..], a);
    }
  }

  lemma FirstAppended(attrs: seq<Attr>, a: Attr, name: string)
    ensures FirstOf(attrs + [a], name) ==
            if FirstOf(attrs, name) < |attrs| || a.name == name then FirstOf(attrs, name) else |attrs| + 1
  {
    var all := attrs + [a];
    var r, u := FirstOf(attrs, name), FirstOf(all, name);
    assert forall i :: 0 <= i < |attrs| ==> all[i] == attrs[i];
    assert all[|attrs|] == a;
  }

  lemma LastAppended(attrs: seq<Attr>, a: Attr, name: string)
    ensures LastOf(attrs + [a], name) == if a.name == name then |attrs| else LastOf(attrs, name)
  {
    assert (attrs + [a])[..|attrs|] == attrs;
  }

  lemma NothingMerged()
    ensures SetAttrs([], []) == [] && Merges([], [])
  {
  }

  lemma {:induction false} AttributesAreMerged(attrs: seq<Attr>)
    ensures Merges(SetAttrs([], attrs), attrs)
    decreases |attrs|
  {
    hide Merges, SetAttr, SetAttrs;
    NothingMerged();
    if attrs != [] {
      var n := |attrs| - 1;
      AttributesAreMerged(attrs[..n]);
      SetAppended([], attrs[..n], attrs[n]);
      assert attrs[..n] + [attrs[n]] == attrs;
      OneMoreMerged(SetAttrs([], attrs[..n]), attrs[..n], attrs[n]);
    }
  }

  // What setting an attribute does to the names and to the values.
  lemma SetAttrIs(merged: seq<Attr>, a: Attr)
    ensures var next := SetAttr(merged, a);
            && (next[..|merged|] == merged || Holds(merged, a.name)) && |merged| <= |next| <= |merged| + 1
            && (|next| > |merged| <==> !Holds(merged, a.name)) && (|next| > |merged| ==> next[|merged|] == a)
            && forall i :: 0 <= i < |merged| ==> next[i].name == merged[i].name
  {
  }

  lemma OneMoreMerged(merged: seq<Attr>, attrs: seq<Attr>, a: Attr)
    requires Merges(merged, attrs)
    ensures Merges(SetAttr(merged, a), attrs + [a])
  {
    hide HasLastValues, InOrder, HoldsAll, SetAttr;
    OneMoreValue(merged, attrs, a);
    OneMoreInOrder(merged, attrs, a);
    OneMoreHeld(merged, attrs, a);
  }

  lemma OneMoreValue(merged: seq<Attr>, attrs: seq<Attr>, a: Attr)
    requires HasLastValues(merged, attrs) && InOrder(merged, attrs)
    ensures HasLastValues(SetAttr(merged, a), attrs + [a])
  {
    hide FirstOf, LastOf;
    var all, next := attrs + [a], SetAttr(merged, a);
    forall i | 0 <= i < |next| ensures 0 <= LastOf(all, next[i].name) && next[i] == all[LastOf(all, next[i].name)] {
      LastAppended(attrs, a, next[i].name);
      if next[i].name != a.name {
        assert i < |merged| && next[i] == merged[i];
      } else {
        NamedOnce(merged, attrs);
      }
    }
  }

  lemma NamedOnce(merged: seq<Attr>, attrs: seq<Attr>)
    requires InOrder(merged, attrs)
    ensures forall i, j :: 0 <= i < j < |merged| ==> merged[i].name != merged[j].name
  {
  }

  lemma OneMoreInOrder(merged: seq<Attr>, attrs: seq<Attr>, a: Attr)
    requires Merges(merged, attrs)
    ensures InOrder(SetAttr(merged, a), attrs + [a])
  {
    hide FirstOf, LastOf, SetAttr, HoldsAll, Holds;
    var all, next := attrs + [a], SetAttr(merged, a);
    SetAttrIs(merged, a);
    forall i | 0 <= i < |merged| ensures FirstOf(all, next[i].name) == FirstOf(attrs, merged[i].name) < |attrs| {
      FirstAppended(attrs, a, merged[i].name);
      FirstIsBefore(attrs, merged[i].name);
    }
    if |next| > |merged| {
      FirstAppended(attrs, a, a.name);
      NotAmong(merged, attrs, a.name);
    }
  }

  lemma FirstIsBefore(attrs: seq<Attr>, name: string)
    requires 0 <= LastOf(attrs, name)
    ensures FirstOf(attrs, name) < |attrs|
  {
    hide FirstOf, LastOf;
    assert attrs[LastOf(attrs, name)].name == name;
  }

  lemma OneMoreHeld(merged: seq<Attr>, attrs: seq<Attr>, a: Attr)
    requires HoldsAll(merged, attrs)
    ensures HoldsAll(SetAttr(merged, a), attrs + [a])
  {
    hide SetAttr;
    var all, next := attrs + [a], SetAttr(merged, a);
    SetAttrIs(merged, a);
    forall name | Holds(merged, name) ensures Holds(next, name) {
      var i :| 0 <= i < |merged| && merged[i].name == name;
      assert next[i].name == name;
    }
    if |next| > |merged| { assert next[|merged|].name == a.name; }
    forall k | 0 <= k < |all| ensures Holds(next, all[k].name) {
      if k < |attrs| { assert Holds(merged, attrs[k].name); }
    }
  }

  lemma NotAmong(merged: seq<Attr>, attrs: seq<Attr>, name: string)
    requires HoldsAll(merged, attrs) && !Holds(merged, name)
    ensures FirstOf(attrs, name) == |attrs|
  {
    forall k | 0 <= k < |attrs| ensures attrs[k].name != name {
      assert Holds(merged, attrs[k].name);
    }
  }
}
