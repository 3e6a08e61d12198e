/** 32-bit words and their bits. */
module Word {
  type word = bv32

  function Mask(i: nat): word
    requires i < 32
  {
    (1 as word) << i
  }

  predicate Bit(w: word, i: nat)
    requires i < 32
  {
    w & Mask(i) != 0
  }

  lemma NoBits(w: word)
    ensures w == 0 <==> forall i :: 0 <= i < 32 ==> !Bit(w, i)
  {
    if forall i :: 0 <= i < 32 ==> !Bit(w, i) {
      assert !Bit(w, 0) && !Bit(w, 1) && !Bit(w, 2) && !Bit(w, 3)
        && !Bit(w, 4) && !Bit(w, 5) && !Bit(w, 6) && !Bit(w, 7);
      assert !Bit(w, 8) && !Bit(w, 9) && !Bit(w, 10) && !Bit(w, 11)
        && !Bit(w, 12) && !Bit(w, 13) && !Bit(w, 14) && !Bit(w, 15);
      assert !Bit(w, 16) && !Bit(w, 17) && !Bit(w, 18) && !Bit(w, 19)
        && !Bit(w, 20) && !Bit(w, 21) && !Bit(w, 22) && !Bit(w, 23);
      assert !Bit(w, 24) && !Bit(w, 25) && !Bit(w, 26) && !Bit(w, 27)
        && !Bit(w, 28) && !Bit(w, 29) && !Bit(w, 30) && !Bit(w, 31);
    }
  }

  lemma OneBit(s: nat, i: nat)
    requires s < 32 && i < 32
    ensures Bit(Mask(s), i) <==> i == s
  {
  }

  /** The mask of a bit is a power of two. */
  lemma MaskOfBit(i: nat)
    requires i < 32
    ensures var m := Mask(i); m != 0 && m & (m - 1) == 0
  {
  }

  lemma OrKeeps(a: word, b: word, i: nat)
    requires i < 32
    ensures Bit(a, i) ==> Bit(a | b, i)
  {
  }

  lemma OrKeepsRight(a: word, b: word, i: nat)
    requires i < 32
    ensures Bit(b, i) ==> Bit(a | b, i)
  {
  }

  lemma OrNothingElse(a: word, b: word, i: nat)
    requires i < 32
    ensures Bit(a | b, i) ==> Bit(a, i) || Bit(b, i)
  {
  }

  lemma OrBit(a: word, b: word, i: nat)
    requires i < 32
    ensures Bit(a | b, i) == (Bit(a, i) || Bit(b, i))
  {
    OrKeeps(a, b, i);
    OrKeepsRight(a, b, i);
    OrNothingElse(a, b, i);
  }

  lemma AndNotLeft(a: word, b: word, i: nat)
    requires i < 32
    ensures Bit(a & !b, i) ==> Bit(a, i)
  {
  }

  lemma AndNotRight(a: word, b: word, i: nat)
    requires i < 32
    ensures Bit(b, i) ==> !Bit(a & !b, i)
  {
  }

  lemma AndNotKeeps(a: word, b: word, i: nat)
    requires i < 32
    ensures Bit(a, i) && !Bit(b, i) ==> Bit(a & !b, i)
  {
  }

  lemma AndNotBit(a: word, b: word, i: nat)
    requires i < 32
    ensures Bit(a & !b, i) == (Bit(a, i) && !Bit(b, i))
  {
    AndNotLeft(a, b, i);
    AndNotRight(a, b, i);
    AndNotKeeps(a, b, i);
  }

  lemma XorBit(a: word, b: word, i: nat)
    requires i < 32
    ensures Bit(a ^ b, i) == (Bit(a, i) != Bit(b, i))
  {
    XorSplit(a, b);
    OrBit(a & !b, b & !a, i);
    AndNotBit(a, b, i);
    AndNotBit(b, a, i);
  }

  lemma XorSplit(a: word, b: word)
    ensures a ^ b == (a & !b) | (b & !a)
    ensures a ^ b == 0 ==> a == b
  {
  }

  /** `w & -w` keeps just the lowest set bit. */
  lemma LowestBit(w: word, i: nat, m: word)
    requires i < 32 && m == Mask(i)
    requires Bit(w, i) && forall j :: 0 <= j < i ==> !Bit(w, j)
    ensures w & (0 - w) == m
  {
    LowPartZero(w, i, w & (m - 1));
    MaskOfBit(i);
    LowestBitWord(w, m);
  }

  lemma LowPartZero(w: word, i: nat, low: word)
    requires i < 32 && low == w & (Mask(i) - 1)
    requires forall j :: 0 <= j < i ==> !Bit(w, j)
    ensures low == 0
  {
    forall j | 0 <= j < 32
      ensures !Bit(low, j)
    {
      if j < i {
        AndLeft(w, Mask(i) - 1, j);
      } else {
        AboveLow(w, i, j);
      }
    }
    NoBits(low);
  }

  lemma AboveLow(w: word, i: nat, j: nat)
    requires i <= j < 32
    ensures !Bit(w & (Mask(i) - 1), j)
  {
    MaskAbove(i, j);
    AndRight(w, Mask(i) - 1, j);
  }

  lemma AndLeft(a: word, b: word, i: nat)
    requires i < 32
    ensures Bit(a & b, i) ==> Bit(a, i)
  {
  }

  lemma AndRight(a: word, b: word, i: nat)
    requires i < 32
    ensures Bit(a & b, i) ==> Bit(b, i)
  {
  }

  lemma MaskAbove(i: nat, j: nat)
    requires i <= j < 32
    ensures !Bit(Mask(i) - 1, j)
  {
  }

  lemma LowestBitWord(w: word, b: word)
    requires b & (b - 1) == 0 && b != 0 && w & b != 0 && w & (b - 1) == 0
    ensures w & (0 - w) == b
  {
  }

  /** A word as the set of its bits, in which the C operators below are set operations. */
  ghost function BitsOf(w: word): (bits: set<nat>)
    ensures forall i: nat :: i in bits <==> i < 32 && Bit(w, i)
  {
    set i: nat | i < 32 && Bit(w, i)
  }

  lemma OrIsUnion(a: word, b: word)
    ensures BitsOf(a | b) == BitsOf(a) + BitsOf(b)
  {
    forall i: nat | i < 32
      ensures Bit(a | b, i) == (Bit(a, i) || Bit(b, i))
    {
      OrBit(a, b, i);
    }
  }

  lemma AndNotIsDifference(a: word, b: word)
    ensures BitsOf(a & !b) == BitsOf(a) - BitsOf(b)
  {
    forall i: nat | i < 32
      ensures Bit(a & !b, i) == (Bit(a, i) && !Bit(b, i))
    {
      AndNotBit(a, b, i);
    }
  }

  lemma XorIsSymmetricDifference(a: word, b: word)
    ensures BitsOf(a ^ b) == (BitsOf(a) - BitsOf(b)) + (BitsOf(b) - BitsOf(a))
  {
    forall i: nat | i < 32
      ensures Bit(a ^ b, i) == (Bit(a, i) != Bit(b, i))
    {
      XorBit(a, b, i);
    }
  }

  lemma MaskIsOne(k: nat)
    requires k < 32
    ensures BitsOf(Mask(k)) == {k}
  {
    forall i: nat | i < 32
      ensures Bit(Mask(k), i) <==> i == k
    {
      OneBit(k, i);
    }
  }

  /** `w | (1 << k)`. */
  method SetBit(w: word, k: nat) returns (r: word)
    requires k < 32
    ensures BitsOf(r) == BitsOf(w) + {k}
  {
    OrIsUnion(w, Mask(k));
    MaskIsOne(k);
    r := w | Mask(k);
  }

  lemma ZeroIsEmpty(w: word)
    ensures w == 0 <==> BitsOf(w) == {}
  {
    NoBits(w);
    if BitsOf(w) == {} {
      assert forall i: nat :: i < 32 ==> (Bit(w, i) <==> i in BitsOf(w));
    }
  }

  /** What the CLZ instruction counts. */
  method LeadingZeros(w: word) returns (n: nat)
    ensures n <= 32 && (n == 32 <==> w == 0)
    ensures n < 32 ==> 31 - n in BitsOf(w)
    ensures forall i :: i in BitsOf(w) ==> i <= 31 - n
  {
    n := 0;
    while n < 32 && !Bit(w, 31 - n)
      invariant n <= 32
      invariant forall i :: i in BitsOf(w) ==> i <= 31 - n
    {
      n := n + 1;
    }
    ZeroIsEmpty(w);
  }

  /** `31 - clz(w & -w)`: the lowest bit of a word. */
  method FirstBit(w: word) returns (i: nat)
    requires w != 0
    ensures i in BitsOf(w) && forall j :: j in BitsOf(w) ==> i <= j
  {
    ghost var k := LowestOf(w);
    LowestBit(w, k, Mask(k));
    MaskIsOne(k);
    var n := LeadingZeros(w & (0 - w));
    i := 31 - n;
  }

  lemma LowestOf(w: word) returns (i: nat)
    requires w != 0
    ensures i < 32 && Bit(w, i) && forall j :: 0 <= j < i ==> !Bit(w, j)
    ensures i in BitsOf(w) && forall j :: j in BitsOf(w) ==> i <= j
  {
    i := 0;
    while i < 32 && !Bit(w, i)
      invariant i <= 32
      invariant forall j :: 0 <= j < i ==> !Bit(w, j)
    {
      i := i + 1;
    }
    NoBits(w);
  }

  /** `w & ~(1 << i)`. */
  method ClearBit(w: word, i: nat) returns (rest: word)
    requires i < 32
    ensures BitsOf(rest) == BitsOf(w) - {i}
  {
    AndNotIsDifference(w, Mask(i));
    MaskIsOne(i);
    rest := w & !Mask(i);
  }

  /** `31 - clz(w)`, and the word without that bit. */
  method TakeLast(w: word) returns (i: nat, rest: word)
    requires w != 0
    ensures i in BitsOf(w) && forall j :: j in BitsOf(w) ==> j <= i
    ensures BitsOf(rest) == BitsOf(w) - {i}
  {
    var n := LeadingZeros(w);
    i := 31 - n;
    rest := ClearBit(w, i);
  }
}
