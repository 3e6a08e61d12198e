/** Bytes and halfwords of a 32-bit word in little-endian memory, as a pointer to them reads and writes. */
module Lanes {
  import opened Word

  datatype Size = ByteAccess | HalfAccess | WordAccess

  function Bits(size: Size): nat {
    match size
    case ByteAccess => 8
    case HalfAccess => 16
    case WordAccess => 32
  }

  /** Where the lane that `offset` selects begins: `p8 += offset & 3`, or `p16 += (offset & 3) >> 1`. */
  function Lane(offset: nat, size: Size): (s: nat)
    ensures IsLane(s, size)
  {
    match size
    case ByteAccess => 8 * (offset % 4)
    case HalfAccess => 16 * (offset % 4 / 2)
    case WordAccess => 0
  }

  predicate IsLane(s: nat, size: Size) {
    (s == 0 || s == 8 || s == 16 || s == 24) && s + Bits(size) <= 32
  }

  predicate InLane(s: nat, size: Size, b: nat) {
    s <= b < s + Bits(size)
  }

  /** The low bits of a value, where they come to lie in the word. */
  function Placed(value: set<nat>, s: nat, size: Size): set<nat> {
    set b | b in value && b < Bits(size) :: s + b
  }

  /** The bits of a word's lane, as a value. */
  function Fetched(w: set<nat>, s: nat, size: Size): set<nat> {
    set b: nat | b < Bits(size) && Above(w, s, b)
  }

  predicate Above(w: set<nat>, s: nat, b: nat) {
    s + b in w
  }

  predicate Below(w: set<nat>, s: nat, b: nat) {
    s <= b && b - s in w
  }

  // ---------------------------------------------------------------- shifts and masks, bit by bit

  lemma MaskUp8(i: nat, j: nat)
    requires i + 8 == j < 32
    ensures Mask(j) == Mask(i) << 8 && Mask(i) <= 0x00FF_FFFF
  {
  }

  lemma MaskUp16(i: nat, j: nat)
    requires i + 16 == j < 32
    ensures Mask(j) == Mask(i) << 16 && Mask(i) <= 0x0000_FFFF
  {
  }

  lemma MaskUp24(i: nat, j: nat)
    requires i + 24 == j < 32
    ensures Mask(j) == Mask(i) << 24 && Mask(i) <= 0x0000_00FF
  {
  }

  lemma UpWord8(w: word, m: word)
    requires m <= 0x00FF_FFFF
    ensures (w << 8) & (m << 8) == 0 <==> w & m == 0
  {
  }

  lemma UpWord16(w: word, m: word)
    requires m <= 0x0000_FFFF
    ensures (w << 16) & (m << 16) == 0 <==> w & m == 0
  {
  }

  lemma UpWord24(w: word, m: word)
    requires m <= 0x0000_00FF
    ensures (w << 24) & (m << 24) == 0 <==> w & m == 0
  {
  }

  lemma DownWord8(w: word, m: word)
    ensures (w >> 8) & m == 0 <==> w & (m << 8) == 0
  {
  }

  lemma DownWord16(w: word, m: word)
    ensures (w >> 16) & m == 0 <==> w & (m << 16) == 0
  {
  }

  lemma DownWord24(w: word, m: word)
    ensures (w >> 24) & m == 0 <==> w & (m << 24) == 0
  {
  }

  lemma UpLow8(w: word, i: nat)
    requires i < 8
    ensures !Bit(w << 8, i)
  {
  }

  lemma UpHigh8(w: word, i: nat, j: nat)
    requires i + 8 == j < 32
    ensures Bit(w << 8, j) <==> Bit(w, i)
  {
    MaskUp8(i, j);
    UpWord8(w, Mask(i));
  }

  lemma UpLow16(w: word, i: nat)
    requires i < 16
    ensures !Bit(w << 16, i)
  {
  }

  lemma UpHigh16(w: word, i: nat, j: nat)
    requires i + 16 == j < 32
    ensures Bit(w << 16, j) <==> Bit(w, i)
  {
    MaskUp16(i, j);
    UpWord16(w, Mask(i));
  }

  lemma UpLow24(w: word, i: nat)
    requires i < 24
    ensures !Bit(w << 24, i)
  {
  }

  lemma UpHigh24(w: word, i: nat, j: nat)
    requires i + 24 == j < 32
    ensures Bit(w << 24, j) <==> Bit(w, i)
  {
    MaskUp24(i, j);
    UpWord24(w, Mask(i));
  }

  lemma Down8(w: word, i: nat)
    requires i < 32
    ensures Bit(w >> 8, i) <==> i + 8 < 32 && Bit(w, i + 8)
  {
    if i + 8 < 32 {
      MaskUp8(i, i + 8);
      DownWord8(w, Mask(i));
    }
  }

  lemma Down16(w: word, i: nat)
    requires i < 32
    ensures Bit(w >> 16, i) <==> i + 16 < 32 && Bit(w, i + 16)
  {
    if i + 16 < 32 {
      MaskUp16(i, i + 16);
      DownWord16(w, Mask(i));
    }
  }

  lemma Down24(w: word, i: nat)
    requires i < 32
    ensures Bit(w >> 24, i) <==> i + 24 < 32 && Bit(w, i + 24)
  {
    if i + 24 < 32 {
      MaskUp24(i, i + 24);
      DownWord24(w, Mask(i));
    }
  }

  lemma LowByte(w: word, i: nat)
    requires i < 32
    ensures Bit(w & 0xFF, i) <==> i < 8 && Bit(w, i)
  {
    ByteMask(i);
  }

  lemma ByteMask(i: nat)
    requires i < 32
    ensures Mask(i) & 0xFF == if i < 8 then Mask(i) else 0
  {
  }

  lemma LowHalf(w: word, i: nat)
    requires i < 32
    ensures Bit(w & 0xFFFF, i) <==> i < 16 && Bit(w, i)
  {
    HalfMask(i);
  }

  lemma HalfMask(i: nat)
    requires i < 32
    ensures Mask(i) & 0xFFFF == if i < 16 then Mask(i) else 0
  {
  }

  // ---------------------------------------------------------------- the operators on words

  method Or(a: word, b: word) returns (r: word)
    ensures BitsOf(r) == BitsOf(a) + BitsOf(b)
  {
    OrIsUnion(a, b);
    r := a | b;
  }

  method AndNot(a: word, b: word) returns (r: word)
    ensures BitsOf(r) == BitsOf(a) - BitsOf(b)
  {
    AndNotIsDifference(a, b);
    r := a & !b;
  }

  method Xor(a: word, b: word) returns (r: word)
    ensures BitsOf(r) == (BitsOf(a) - BitsOf(b)) + (BitsOf(b) - BitsOf(a))
  {
    XorIsSymmetricDifference(a, b);
    r := a ^ b;
  }

  /** `(uint8_t) w`, `(uint16_t) w`, or all of it. */
  method Low(w: word, size: Size) returns (r: word)
    ensures forall b: nat :: b in BitsOf(r) <==> b in BitsOf(w) && b < Bits(size)
  {
    match size
    case ByteAccess =>
      LowBytes(w);
      r := w & 0xFF;
    case HalfAccess =>
      LowHalves(w);
      r := w & 0xFFFF;
    case WordAccess =>
      r := w;
  }

  lemma LowBytes(w: word)
    ensures forall b: nat :: b in BitsOf(w & 0xFF) <==> b in BitsOf(w) && b < 8
  {
    forall b: nat | b < 32
      ensures Bit(w & 0xFF, b) <==> b < 8 && Bit(w, b)
    {
      LowByte(w, b);
    }
  }

  lemma LowHalves(w: word)
    ensures forall b: nat :: b in BitsOf(w & 0xFFFF) <==> b in BitsOf(w) && b < 16
  {
    forall b: nat | b < 32
      ensures Bit(w & 0xFFFF, b) <==> b < 16 && Bit(w, b)
    {
      LowHalf(w, b);
    }
  }

  /** `w << s` for whole bytes. */
  method Up(w: word, s: nat) returns (r: word)
    requires s == 0 || s == 8 || s == 16 || s == 24
    ensures forall b: nat :: b in BitsOf(r) <==> b < 32 && Below(BitsOf(w), s, b)
  {
    if s == 0 {
      r := w;
    } else if s == 8 {
      Ups8(w);
      r := w << 8;
    } else if s == 16 {
      Ups16(w);
      r := w << 16;
    } else {
      Ups24(w);
      r := w << 24;
    }
  }

  lemma Ups8(w: word)
    ensures forall b: nat :: b in BitsOf(w << 8) <==> b < 32 && Below(BitsOf(w), 8, b)
  {
    forall b: nat
      ensures b in BitsOf(w << 8) <==> b < 32 && Below(BitsOf(w), 8, b)
    {
      if b < 8 {
        UpLow8(w, b);
      } else if b < 32 {
        UpHigh8(w, b - 8, b);
      }
    }
  }

  lemma Ups16(w: word)
    ensures forall b: nat :: b in BitsOf(w << 16) <==> b < 32 && Below(BitsOf(w), 16, b)
  {
    forall b: nat
      ensures b in BitsOf(w << 16) <==> b < 32 && Below(BitsOf(w), 16, b)
    {
      if b < 16 {
        UpLow16(w, b);
      } else if b < 32 {
        UpHigh16(w, b - 16, b);
      }
    }
  }

  lemma Ups24(w: word)
    ensures forall b: nat :: b in BitsOf(w << 24) <==> b < 32 && Below(BitsOf(w), 24, b)
  {
    forall b: nat
      ensures b in BitsOf(w << 24) <==> b < 32 && Below(BitsOf(w), 24, b)
    {
      if b < 24 {
        UpLow24(w, b);
      } else if b < 32 {
        UpHigh24(w, b - 24, b);
      }
    }
  }

  /** `w >> s` for whole bytes. */
  method Down(w: word, s: nat) returns (r: word)
    requires s == 0 || s == 8 || s == 16 || s == 24
    ensures forall b: nat :: b in BitsOf(r) <==> Above(BitsOf(w), s, b)
  {
    if s == 0 {
      r := w;
    } else if s == 8 {
      Downs8(w);
      r := w >> 8;
    } else if s == 16 {
      Downs16(w);
      r := w >> 16;
    } else {
      Downs24(w);
      r := w >> 24;
    }
  }

  lemma Downs8(w: word)
    ensures forall b: nat :: b in BitsOf(w >> 8) <==> Above(BitsOf(w), 8, b)
  {
    forall b: nat | b < 32
      ensures Bit(w >> 8, b) <==> Above(BitsOf(w), 8, b)
    {
      Down8(w, b);
    }
  }

  lemma Downs16(w: word)
    ensures forall b: nat :: b in BitsOf(w >> 16) <==> Above(BitsOf(w), 16, b)
  {
    forall b: nat | b < 32
      ensures Bit(w >> 16, b) <==> Above(BitsOf(w), 16, b)
    {
      Down16(w, b);
    }
  }

  lemma Downs24(w: word)
    ensures forall b: nat :: b in BitsOf(w >> 24) <==> Above(BitsOf(w), 24, b)
  {
    forall b: nat | b < 32
      ensures Bit(w >> 24, b) <==> Above(BitsOf(w), 24, b)
    {
      Down24(w, b);
    }
  }

  // ---------------------------------------------------------------- accesses through a pointer

  /** `*p`. */
  method Load(w: word, s: nat, size: Size) returns (r: word)
    requires IsLane(s, size)
    ensures BitsOf(r) == Fetched(BitsOf(w), s, size)
  {
    var d := Down(w, s);
    r := Low(d, size);
  }

  /** `*p = x`: the lane becomes the value's low bits, the rest of the word stays. */
  method Store(w: word, s: nat, size: Size, x: word) returns (r: word)
    requires IsLane(s, size)
    ensures forall b: nat :: b in BitsOf(r) <==> if InLane(s, size, b) then Below(BitsOf(x), s, b) else b in BitsOf(w)
  {
    var ones := Low(0xFFFF_FFFF, size);
    AllBits();
    var hole := Up(ones, s);
    var low := Low(x, size);
    var lane := Up(low, s);
    var rest := AndNot(w, hole);
    r := Or(rest, lane);
  }

  lemma AllBits()
    ensures forall b: nat :: b in BitsOf(0xFFFF_FFFF) <==> b < 32
  {
    forall b: nat | b < 32
      ensures Bit(0xFFFF_FFFF, b)
    {
      AllOnes(b);
    }
  }

  lemma AllOnes(b: nat)
    requires b < 32
    ensures Bit(0xFFFF_FFFF, b)
  {
  }

  /** `*p |= x`: sets exactly the value's bits in the lane. */
  method OrInto(w: word, s: nat, size: Size, x: word) returns (r: word)
    requires IsLane(s, size)
    ensures BitsOf(r) == BitsOf(w) + Placed(BitsOf(x), s, size)
  {
    var was := Load(w, s, size);
    var low := Low(x, size);
    var now := Or(was, low);
    r := Store(w, s, size, now);
    LaneSet(BitsOf(w), BitsOf(x), BitsOf(low), BitsOf(now), BitsOf(r), s, size);
  }

  lemma LaneSet(w: set<nat>, x: set<nat>, low: set<nat>, now: set<nat>, r: set<nat>, s: nat, size: Size)
    requires forall b: nat :: b in low <==> b in x && b < Bits(size)
    requires now == Fetched(w, s, size) + low
    requires forall b: nat :: b in r <==> if InLane(s, size, b) then Below(now, s, b) else b in w
    ensures r == w + Placed(x, s, size)
  {
    PlacedAt(x, s, size);
  }

  /** `*p &= ~x`: clears exactly the value's bits in the lane. */
  method ClearIn(w: word, s: nat, size: Size, x: word) returns (r: word)
    requires IsLane(s, size)
    ensures BitsOf(r) == BitsOf(w) - Placed(BitsOf(x), s, size)
  {
    var was := Load(w, s, size);
    var low := Low(x, size);
    var now := AndNot(was, low);
    r := Store(w, s, size, now);
    LaneCleared(BitsOf(w), BitsOf(x), BitsOf(low), BitsOf(now), BitsOf(r), s, size);
  }

  lemma LaneCleared(w: set<nat>, x: set<nat>, low: set<nat>, now: set<nat>, r: set<nat>, s: nat, size: Size)
    requires forall b: nat :: b in low <==> b in x && b < Bits(size)
    requires now == Fetched(w, s, size) - low
    requires forall b: nat :: b in r <==> if InLane(s, size, b) then Below(now, s, b) else b in w
    ensures r == w - Placed(x, s, size)
  {
    PlacedAt(x, s, size);
  }

  lemma PlacedAt(value: set<nat>, s: nat, size: Size)
    ensures forall b: nat :: b in Placed(value, s, size) <==> InLane(s, size, b) && Below(value, s, b)
  {
    forall b: nat | InLane(s, size, b) && Below(value, s, b)
      ensures b in Placed(value, s, size)
    {
      assert s + (b - s) == b;
    }
  }
}
