// The bitmap of required fields in pb_decode_noinit: fields_seen, two 32-bit words.
module SeenWords {
  import opened Wire
  import opened WireFacts
  import opened Descriptor
  import opened Decoding

  function Shr(x: nat, k: nat): nat { if k == 0 then x else Shr(x / 2, k - 1) }

  predicate Bit(w: nat, k: nat) { if k == 0 then w % 2 == 1 else Bit(w / 2, k - 1) }

  lemma {:induction false} BitOfOr(a: nat, b: nat, k: nat)
    ensures Bit(BitOr(a, b), k) <==> Bit(a, k) || Bit(b, k)
    decreases k
  {
    if a == 0 || b == 0 { NoBits(k); }
    else if k > 0 { BitOfOr(a / 2, b / 2, k - 1); }
  }

  lemma {:induction false} NoBits(k: nat)
    ensures !Bit(0, k)
    decreases k
  {
    if k > 0 { NoBits(k - 1); }
  }

  lemma {:induction false} BitOfShl(j: nat, k: nat)
    ensures Bit(Shl(1, j), k) <==> j == k
    decreases k
  {
    if j == 0 && k > 0 { NoBits(k - 1); }
    else if j > 0 && k > 0 { BitOfShl(j - 1, k - 1); }
  }

  // The bits of w are exactly the first r.
  ghost predicate LowBits(w: nat, r: nat)
  {
    forall k: nat :: Bit(w, k) <==> k < r
  }

  lemma {:induction false} OnesAreLowBits(w: nat, r: nat)
    ensures w == Shl(1, r) - 1 <==> LowBits(w, r)
    decreases r
  {
    if r == 0 {
      if w == 0 { forall k: nat ensures !Bit(w, k) { NoBits(k); } }
      else { var k := SomeBit(w); assert Bit(w, k); }
    } else {
      OnesAreLowBits(w / 2, r - 1);
      assert Shl(1, r) == 2 * Shl(1, r - 1);
      BitsOfHalf(w, r);
    }
  }

  lemma BitsOfHalf(w: nat, r: nat)
    requires r > 0
    ensures LowBits(w, r) <==> Bit(w, 0) && LowBits(w / 2, r - 1)
  {
    if LowBits(w, r) {
      forall k: nat ensures Bit(w / 2, k) <==> k < r - 1 { assert Bit(w, k + 1) <==> Bit(w / 2, k); }
    }
    if Bit(w, 0) && LowBits(w / 2, r - 1) {
      forall k: nat ensures Bit(w, k) <==> k < r { if k > 0 { assert Bit(w, k) <==> Bit(w / 2, k - 1); } }
    }
  }

  // A word without bits from n on is complete when it has all the others.
  lemma WordOnes(w: nat, n: nat)
    requires forall k: nat :: n <= k ==> !Bit(w, k)
    ensures w == Shl(1, n) - 1 <==> BitsBelow(w, n)
  {
    OnesAreLowBits(w, n);
  }

  ghost predicate BitsBelow(w: nat, n: nat)
  {
    forall k: nat :: k < n ==> Bit(w, k)
  }

  lemma {:induction false} SomeBit(w: nat) returns (k: nat)
    requires w > 0
    ensures Bit(w, k)
    decreases w
  {
    if w % 2 == 1 { k := 0; } else { k := SomeBit(w / 2); k := k + 1; }
  }

  // allbits >> a.
  lemma {:induction false} OnesShifted(a: nat, b: nat)
    ensures Shr(Shl(1, a + b) - 1, a) == Shl(1, b) - 1
    decreases a
  {
    if a > 0 { OnesShifted(a - 1, b); }
  }

  // ----- Required fields and their bits -----

  lemma {:induction false} RequiredIndexGrows(d: Desc, i: nat, j: nat)
    requires i <= j <= |d.fields|
    ensures RequiredIndex(d, i) <= RequiredIndex(d, j)
    ensures i < j && d.fields[i].htype.Required? ==> RequiredIndex(d, i) < RequiredIndex(d, j)
    decreases j
  {
    if i < j { RequiredIndexGrows(d, i, j - 1); }
  }

  // Every index below the number of required fields belongs to one.
  lemma {:induction false} RequiredAt(d: Desc, b: nat, n: nat) returns (i: nat)
    requires n <= |d.fields| && b < RequiredIndex(d, n)
    ensures i < n && d.fields[i].htype.Required? && RequiredIndex(d, i) == b
    decreases n
  {
    if b < RequiredIndex(d, n - 1) { i := RequiredAt(d, b, n - 1); } else { i := n - 1; }
  }

  // Bit b of the two words.
  predicate SeenBit(words: seq<nat>, b: nat)
    requires |words| == 2 && b < MAX_REQUIRED
  {
    Bit(words[b / 32], b % 32)
  }

  // The words show the set: a bit is on exactly when it is the index of a field in it.
  ghost predicate Shows(d: Desc, words: seq<nat>, seen: set<nat>)
  {
    && |words| == 2
    && (forall w :: 0 <= w < 2 ==> forall k: nat :: Bit(words[w], k) ==> k < 32)
    && (forall b: nat :: b < MAX_REQUIRED ==> (SeenBit(words, b) <==> HasIndex(d, seen, b)))
  }

  ghost predicate HasIndex(d: Desc, seen: set<nat>, b: nat)
  {
    exists i: nat :: i < |d.fields| && i in seen && Tracked(d, i) && RequiredIndex(d, i) == b
  }

  // fields_seen[i >> 5] |= 1 << (i & 31).
  function Marked(words: seq<nat>, b: nat): (words': seq<nat>)
    requires |words| == 2 && b < MAX_REQUIRED
    ensures |words'| == 2
  {
    words[b / 32 := BitOr(words[b / 32], Shl(1, b % 32))]
  }

  lemma MarkedShows(d: Desc, words: seq<nat>, seen: set<nat>, i: nat)
    requires i < |d.fields| && Tracked(d, i) && Shows(d, words, seen)
    ensures Shows(d, Marked(words, RequiredIndex(d, i)), seen + {i})
  {
    var at := RequiredIndex(d, i);
    var words' := Marked(words, at);
    forall w, k: nat | 0 <= w < 2
      ensures Bit(words'[w], k) <==> Bit(words[w], k) || (w == at / 32 && k == at % 32)
    {
      BitOfOr(words[at / 32], Shl(1, at % 32), k);
      BitOfShl(at % 32, k);
    }
    forall b: nat | b < MAX_REQUIRED
      ensures SeenBit(words', b) <==> HasIndex(d, seen + {i}, b)
    {
      assert b == at <==> b / 32 == at / 32 && b % 32 == at % 32;
      assert SeenBit(words, b) <==> HasIndex(d, seen, b);
      if HasIndex(d, seen + {i}, b) && b != at {
        var j: nat :| j < |d.fields| && j in seen + {i} && Tracked(d, j) && RequiredIndex(d, j) == b;
        assert j in seen;
      }
      if HasIndex(d, seen, b) {
        var j: nat :| j < |d.fields| && j in seen && Tracked(d, j) && RequiredIndex(d, j) == b;
        assert j in seen + {i};
      }
      if b == at { assert i in seen + {i}; }
    }
  }

  lemma NothingShown(d: Desc)
    ensures Shows(d, [0, 0], {})
  {
    forall k: nat ensures !Bit(0, k) { NoBits(k); }
  }

  // allbits, a word of ones.
  function AllBits(): nat { 0xFFFF_FFFF }

  lemma AllBitsShifted()
    ensures AllBits() == Shl(1, 32) - 1
  {
    Shl7(1, 0); Shl7(1, 7); Shl7(1, 14); Shl7(1, 21);
    assert Shl(1, 32) == 16 * Shl(1, 28);
  }

  // The check at the end of pb_decode_noinit: whole words first, then the remaining bits.
  predicate WordsComplete(words: seq<nat>, count: nat)
    requires |words| == 2 && count <= MAX_REQUIRED
  {
    && (forall w :: 0 <= w < count / 32 ==> words[w] == AllBits())
    && (count % 32 != 0 ==> words[count / 32] == Shr(AllBits(), 32 - count % 32))
  }

  function Min(a: nat, b: nat): nat { if a < b then a else b }

  // The words pass the check exactly when every tracked required field has been seen.
  lemma CheckIsExact(d: Desc, words: seq<nat>, st: State)
    requires Shows(d, words, st.seen)
    ensures WordsComplete(words, Min(RequiredIndex(d, |d.fields|), MAX_REQUIRED)) <==> RequiredSeen(d, st)
  {
    var total := RequiredIndex(d, |d.fields|);
    var count := Min(total, MAX_REQUIRED);
    BitsComplete(words, count, d, st.seen);
    if AllSeen(words, count) {
      forall i | 0 <= i < |d.fields| && Tracked(d, i)
        ensures i in st.seen
      {
        RequiredIndexGrows(d, i, |d.fields|);
        var b := RequiredIndex(d, i);
        assert SeenBit(words, b);
        var j: nat :| j < |d.fields| && j in st.seen && Tracked(d, j) && RequiredIndex(d, j) == b;
        if i < j { RequiredIndexGrows(d, i, j); } else if j < i { RequiredIndexGrows(d, j, i); }
      }
    }
    if RequiredSeen(d, st) {
      forall b: nat | b < count
        ensures SeenBit(words, b)
      {
        var i := RequiredAt(d, b, |d.fields|);
        assert Tracked(d, i) && HasIndex(d, st.seen, b);
      }
    }
  }

  // No bit beyond the number of required fields is ever on.
  lemma NoBitsBeyond(words: seq<nat>, d: Desc, seen: set<nat>, b: nat)
    requires Shows(d, words, seen) && RequiredIndex(d, |d.fields|) <= b < MAX_REQUIRED
    ensures !SeenBit(words, b)
  {
    if HasIndex(d, seen, b) {
      var j: nat :| j < |d.fields| && j in seen && Tracked(d, j) && RequiredIndex(d, j) == b;
      RequiredIndexGrows(d, j, |d.fields|);
    }
  }

  // How many bits of word v count asks for.
  function Wanted(count: nat, v: nat): nat
  {
    if count <= 32 * v then 0 else Min(count - 32 * v, 32)
  }

  lemma BitsComplete(words: seq<nat>, count: nat, d: Desc, seen: set<nat>)
    requires Shows(d, words, seen) && count == Min(RequiredIndex(d, |d.fields|), MAX_REQUIRED)
    ensures WordsComplete(words, count) <==> AllSeen(words, count)
  {
    var w, r := count / 32, count % 32;
    AllBitsShifted();
    forall v | 0 <= v < w
      ensures words[v] == AllBits() <==> BitsBelow(words[v], Wanted(count, v))
    {
      WordOnes(words[v], 32);
      assert Wanted(count, v) == 32;
    }
    if r != 0 {
      OnesShifted(32 - r, r);
      forall k: nat | r <= k ensures !Bit(words[w], k) {
        if k < 32 {
          NoBitsBeyond(words, d, seen, 32 * w + k);
          assert (32 * w + k) / 32 == w && (32 * w + k) % 32 == k;
        }
      }
      WordOnes(words[w], r);
      assert Wanted(count, w) == r;
    }
    SeenByWord(words, count);
  }

  ghost predicate AllSeen(words: seq<nat>, count: nat)
    requires |words| == 2 && count <= MAX_REQUIRED
  {
    forall b: nat :: b < count ==> SeenBit(words, b)
  }

  lemma SeenByWord(words: seq<nat>, count: nat)
    requires |words| == 2 && count <= MAX_REQUIRED
    ensures AllSeen(words, count) <==> BitsBelow(words[0], Wanted(count, 0)) && BitsBelow(words[1], Wanted(count, 1))
  {
    if AllSeen(words, count) {
      forall k: nat | k < Wanted(count, 0) ensures Bit(words[0], k) { assert SeenBit(words, k); }
      forall k: nat | k < Wanted(count, 1) ensures Bit(words[1], k) { assert SeenBit(words, 32 + k); }
    }
    if BitsBelow(words[0], Wanted(count, 0)) && BitsBelow(words[1], Wanted(count, 1)) {
      forall b: nat | b < count ensures SeenBit(words, b) {
        assert b % 32 < Wanted(count, b / 32);
      }
    }
  }
}
