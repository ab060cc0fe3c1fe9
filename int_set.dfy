/** `IntSet`: a set of naturals stored as a vector of 64-bit words, bit `x % 64` of word `x / 64`
    standing for `x`. A word is modelled by its 64 bits, least significant first. */
module IntSets {
  /** One storage word, as its `kNumBits == 64` bits. */
  type Bits = b: seq<bool> | |b| == 64 witness seq(64, _ => false)

  /** The word 0. */
  function Zero(): (w: Bits)
    ensures forall p | 0 <= p < 64 :: !w[p]
  {
    seq(64, _ => false)
  }

  /** `2^p`. */
  function Pow2(p: nat): (r: nat)
    ensures r > 0
  {
    if p == 0 then 1 else 2 * Pow2(p - 1)
  }

  /** The bits of the number `n`. */
  function FromNat(n: nat): (w: Bits)
    ensures forall p | 0 <= p < 64 :: w[p] <==> (n / Pow2(p)) % 2 == 1
  {
    seq(64, p requires 0 <= p => (n / Pow2(p)) % 2 == 1)
  }

  /** `a | b`. */
  function Or(a: Bits, b: Bits): (w: Bits)
    ensures forall p | 0 <= p < 64 :: w[p] == (a[p] || b[p])
  {
    seq(64, p requires 0 <= p < 64 => a[p] || b[p])
  }

  /** `w |= 1ul << p`. */
  function SetBit(w: Bits, p: nat): (r: Bits)
    requires p < 64
    ensures forall q | 0 <= q < 64 :: r[q] == (q == p || w[q])
  {
    w[p := true]
  }

  /** `w &= (-1ul) ^ (1ul << p)`. */
  function ClearBit(w: Bits, p: nat): (r: Bits)
    requires p < 64
    ensures forall q | 0 <= q < 64 :: r[q] == (q != p && w[q])
  {
    w[p := false]
  }

  /** `get(x)`: `x` is present iff its word is stored and bit `x & (kNumBits - 1)` is set in it. */
  predicate Member(words: seq<Bits>, x: nat) {
    x / 64 < |words| && words[x / 64][x % 64]
  }

  /** The elements a word vector stands for. */
  ghost function Elements(words: seq<Bits>): (r: set<nat>)
    ensures forall x :: x in r <==> Member(words, x)
  {
    set x: nat | x < 64 * |words| && Member(words, x)
  }

  /** `resize(n)` grows a vector with zero words. */
  function Pad(words: seq<Bits>, n: nat): (r: seq<Bits>)
    requires |words| <= n
    ensures |r| == n && r[..|words|] == words
    ensures forall i | |words| <= i < n :: r[i] == Zero()
  {
    words + seq(n - |words|, _ => Zero())
  }

  /** `insert(x)`: grow to cover word `x / 64`, then set bit `x % 64` of it. */
  function InsertWords(words: seq<Bits>, x: nat): (r: seq<Bits>)
    ensures |r| == if x / 64 < |words| then |words| else 1 + x / 64
  {
    var grown := if x / 64 >= |words| then Pad(words, 1 + x / 64) else words;
    grown[x / 64 := SetBit(grown[x / 64], x % 64)]
  }

  /** `erase(x)`: when word `x / 64` is stored, clear bit `x % 64` of it; otherwise nothing. */
  function EraseWords(words: seq<Bits>, x: nat): (r: seq<Bits>)
    ensures |r| == |words|
  {
    if x / 64 < |words| then words[x / 64 := ClearBit(words[x / 64], x % 64)] else words
  }

  /** `insert(other)`: grow to `other`'s length, then OR in every word of `other`. */
  function UnionWords(words: seq<Bits>, other: seq<Bits>): (r: seq<Bits>)
    ensures |r| == if |other| > |words| then |other| else |words|
  {
    var grown := if |other| > |words| then Pad(words, |other|) else words;
    seq(|grown|, i requires 0 <= i < |grown| => if i < |other| then Or(grown[i], other[i]) else grown[i])
  }

  /** Two indices in the same word are equal iff their bit positions are. */
  lemma SameWord(x: nat, y: nat)
    requires x / 64 == y / 64
    ensures x == y <==> x % 64 == y % 64
  {
  }

  /** Growing with zero words adds no element. */
  lemma PadMember(words: seq<Bits>, n: nat, y: nat)
    requires |words| <= n
    ensures Member(Pad(words, n), y) <==> Member(words, y)
  {
    var i := y / 64;
    if |words| <= i < n {
      assert Pad(words, n)[i] == Zero();
    } else if i < |words| {
      assert Pad(words, n)[i] == words[i];
    }
  }

  /** After `insert(x)`, `get(y)` holds iff `y` is `x` or was present before. */
  lemma InsertMember(words: seq<Bits>, x: nat, y: nat)
    ensures Member(InsertWords(words, x), y) <==> y == x || Member(words, y)
  {
    var grown := if x / 64 >= |words| then Pad(words, 1 + x / 64) else words;
    assert Member(grown, y) <==> Member(words, y) by {
      if x / 64 >= |words| {
        PadMember(words, 1 + x / 64, y);
      }
    }
    if y / 64 == x / 64 {
      SameWord(x, y);
    }
  }

  /** After `erase(x)`, `get(y)` holds iff `y` is not `x` and was present before. */
  lemma EraseMember(words: seq<Bits>, x: nat, y: nat)
    ensures Member(EraseWords(words, x), y) <==> y != x && Member(words, y)
  {
    if x / 64 < |words| && y / 64 == x / 64 {
      SameWord(x, y);
    }
  }

  /** Erasing an absent element changes nothing, not even the storage. */
  lemma EraseAbsent(words: seq<Bits>, x: nat)
    requires !Member(words, x)
    ensures EraseWords(words, x) == words
  {
    if x / 64 < |words| {
      var w := words[x / 64];
      assert ClearBit(w, x % 64) == w;
    }
  }

  /** After `insert(other)`, `get(y)` holds iff `y` was in either set. */
  lemma UnionMember(words: seq<Bits>, other: seq<Bits>, y: nat)
    ensures Member(UnionWords(words, other), y) <==> Member(words, y) || Member(other, y)
  {
    var grown := if |other| > |words| then Pad(words, |other|) else words;
    assert Member(grown, y) <==> Member(words, y) by {
      if |other| > |words| {
        PadMember(words, |other|, y);
      }
    }
  }

  /** `!=` compares the stored words, so a set that has grown differs from an equal one that has not. */
  lemma LengthCountsForInequality()
    ensures Elements([Zero()]) == Elements([Zero(), Zero()]) && [Zero()] != [Zero(), Zero()]
  {
    assert forall x :: !Member([Zero()], x);
    assert forall x :: !Member([Zero(), Zero()], x);
    assert |[Zero()]| != |[Zero(), Zero()]|;
  }

  /** The storage of a new set as declared: brace initialisation builds the two-word vector `{32, 0}`. */
  function InitialWordsAsWritten(): (r: seq<Bits>)
    ensures |r| == 2
  {
    [FromNat(32), FromNat(0)]
  }

  /** With that storage a new set already contains 5, although 0 and 123 are absent. */
  lemma NewSetAsWrittenContainsFive()
    ensures Member(InitialWordsAsWritten(), 5)
    ensures !Member(InitialWordsAsWritten(), 0) && !Member(InitialWordsAsWritten(), 123)
  {
    assert Pow2(5) == 32;
    assert 123 / 64 == 1 && 123 % 64 == 59;
  }

  /** `2^p` is at least 64 from `p = 6` on. */
  lemma {:induction false} Pow2AtLeast64(p: nat)
    requires p >= 6
    ensures Pow2(p) >= 64
  {
    if p > 6 {
      Pow2AtLeast64(p - 1);
    }
  }

  /** A number below the divisor has quotient 0. */
  lemma SmallQuotient(n: nat, d: nat)
    requires n < d
    ensures n / d == 0
  {
  }

  /** Bit `p` of 32 is set exactly for `p = 5`. */
  lemma ThirtyTwoBits(p: nat)
    requires p < 64
    ensures (32 / Pow2(p)) % 2 == 1 <==> p == 5
  {
    if p >= 6 {
      Pow2AtLeast64(p);
      SmallQuotient(32, Pow2(p));
    } else if p == 5 {
      assert Pow2(5) == 32;
    } else if p == 4 {
      assert Pow2(4) == 16;
    } else if p == 3 {
      assert Pow2(3) == 8;
    } else if p == 2 {
      assert Pow2(2) == 4;
    } else if p == 1 {
      assert Pow2(1) == 2;
    }
  }

  /** So a new set as declared holds exactly the element 5. */
  lemma NewSetAsWrittenElements()
    ensures Elements(InitialWordsAsWritten()) == {5}
  {
    forall x: nat
      ensures Member(InitialWordsAsWritten(), x) <==> x == 5
    {
      if x < 64 {
        assert x / 64 == 0 && x % 64 == x;
        ThirtyTwoBits(x);
      } else if x < 128 {
        assert x / 64 == 1;
      }
    }
  }

  /** The intended storage of a new set: 32 zero words. */
  function InitialWords(): (r: seq<Bits>)
    ensures |r| == 32
  {
    seq(32, _ => Zero())
  }

  /** With the intended storage a new set is empty. */
  lemma NewSetIsEmpty(x: nat)
    ensures !Member(InitialWords(), x)
  {
    if x / 64 < 32 {
      assert InitialWords()[x / 64] == Zero();
    }
  }

  class IntSet {
    /** `set_`: the storage words. */
    var words: seq<Bits>

    /** A new set, with the intended 32 zero words. */
    constructor ()
      ensures words == InitialWords()
      ensures Elements(words) == {}
    {
      words := InitialWords();
      new;
      forall x ensures !Member(words, x) {
        NewSetIsEmpty(x);
      }
    }

    /** `get(x)`. */
    function Get(x: nat): (b: bool)
      reads this
      ensures b <==> x in Elements(words)
    {
      x / 64 < |words| && words[x / 64][x % 64]
    }

    /** `insert(x)`. */
    method Insert(x: nat)
      modifies this
      ensures words == InsertWords(old(words), x)
      ensures Elements(words) == Elements(old(words)) + {x}
    {
      if x / 64 >= |words| {
        words := words + seq(1 + x / 64 - |words|, _ => Zero());
      }
      words := words[x / 64 := SetBit(words[x / 64], x % 64)];
      forall y ensures Member(words, y) <==> y == x || Member(old(words), y) {
        InsertMember(old(words), x, y);
      }
    }

    /** `erase(x)`. */
    method Erase(x: nat)
      modifies this
      ensures words == EraseWords(old(words), x)
      ensures Elements(words) == Elements(old(words)) - {x}
    {
      if x / 64 < |words| {
        words := words[x / 64 := ClearBit(words[x / 64], x % 64)];
      }
      forall y ensures Member(words, y) <==> y != x && Member(old(words), y) {
        EraseMember(old(words), x, y);
      }
    }

    /** `insert(other)`: this set becomes the union; `other` is left as it was. */
    method InsertAll(other: IntSet)
      modifies this
      ensures words == UnionWords(old(words), old(other.words))
      ensures Elements(words) == Elements(old(words)) + Elements(old(other.words))
      ensures other != this ==> other.words == old(other.words)
    {
      var added := other.words;
      if |added| > |words| {
        words := words + seq(|added| - |words|, _ => Zero());
      }
      ghost var grown := words;
      var i := 0;
      while i < |added|
        invariant 0 <= i <= |added| <= |words| == |grown|
        invariant forall j | 0 <= j < |words| :: words[j] == if j < i then Or(grown[j], added[j]) else grown[j]
      {
        words := words[i := Or(words[i], added[i])];
        i := i + 1;
      }
      assert words == UnionWords(old(words), added);
      forall y ensures Member(words, y) <==> Member(old(words), y) || Member(added, y) {
        UnionMember(old(words), added, y);
      }
    }

    /** `operator!=`: the word vectors differ, length included; sets differing in an element are `!=`. */
    function NotEqual(other: IntSet): (b: bool)
      reads this, other
      ensures !b ==> Elements(words) == Elements(other.words)
      ensures (exists x :: Member(words, x) != Member(other.words, x)) ==> b
    {
      words != other.words
    }
  }
}
