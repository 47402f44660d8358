/** The idle task's random numbers bit by bit. */
module DispatcherSeed {
  import opened DispatcherModel
  import opened DispatcherTally

  // ----- bits of numbers

  /** Bit i of n. */
  predicate Bit(n: nat, i: nat)
    decreases i
  {
    if i == 0 then n % 2 == 1 else Bit(n / 2, i - 1)
  }

  /** A bit of x ^ y is set exactly if it is set in one of the two. */
  lemma {:induction false} XorBit(x: nat, y: nat, i: nat)
    ensures Bit(Xor(x, y), i) <==> Bit(x, i) != Bit(y, i)
    decreases i
  {
    if x == 0 {
      ZeroBit(i);
    } else if y == 0 {
      ZeroBit(i);
    } else if i > 0 {
      XorBit(x / 2, y / 2, i - 1);
    }
  }

  lemma {:induction false} ZeroBit(i: nat)
    ensures !Bit(0, i)
    decreases i
  {
    if i > 0 {
      ZeroBit(i - 1);
    }
  }

  /** The bits decide the number. */
  lemma {:induction false} BitsDecide(x: nat, y: nat)
    requires forall i: nat :: Bit(x, i) == Bit(y, i)
    ensures x == y
    decreases x + y
  {
    if x + y > 0 {
      assert Bit(x, 0) == Bit(y, 0);
      forall i: nat ensures Bit(x / 2, i) == Bit(y / 2, i) {
        assert Bit(x, i + 1) == Bit(y, i + 1);
      }
      BitsDecide(x / 2, y / 2);
    }
  }

  // ----- a seed as a word of 16 bits

  predicate WordBit(w: bv16, i: nat) {
    match i
    case 0 => w & 0x1 != 0
    case 1 => w & 0x2 != 0
    case 2 => w & 0x4 != 0
    case 3 => w & 0x8 != 0
    case 4 => w & 0x10 != 0
    case 5 => w & 0x20 != 0
    case 6 => w & 0x40 != 0
    case 7 => w & 0x80 != 0
    case 8 => w & 0x100 != 0
    case 9 => w & 0x200 != 0
    case 10 => w & 0x400 != 0
    case 11 => w & 0x800 != 0
    case 12 => w & 0x1000 != 0
    case 13 => w & 0x2000 != 0
    case 14 => w & 0x4000 != 0
    case 15 => w & 0x8000 != 0
    case _ => false
  }

  function Word(w: bv16): seq<bool> {
    seq(16, i requires 0 <= i < 16 => WordBit(w, i))
  }

  function FromBits(b: seq<bool>): nat {
    if b == [] then 0 else 2 * FromBits(b[1..]) + (if b[0] then 1 else 0)
  }

  lemma {:induction false} FromBitsBit(b: seq<bool>, i: nat)
    ensures Bit(FromBits(b), i) <==> i < |b| && b[i]
    decreases i
  {
    if b == [] {
      ZeroBit(i);
    } else if i > 0 {
      assert FromBits(b) / 2 == FromBits(b[1..]);
      FromBitsBit(b[1..], i - 1);
    }
  }

  function Seed(w: bv16): nat {
    FromBits(Word(w))
  }

  function NextWord(w: bv16): bv16 {
    if w & 1 == 0 then w >> 1 else (w >> 1) ^ 0xD008
  }

  lemma BitAbove(n: nat, i: nat)
    requires i >= 4
    ensures Bit(n, i) == Bit(n / 16, i - 4)
  {
    assert Bit(n, i) == Bit(n / 2, i - 1) == Bit(n / 2 / 2, i - 2) == Bit(n / 2 / 2 / 2, i - 3);
    assert n / 2 / 2 / 2 / 2 == n / 16;
  }

  lemma MaskBit(i: nat)
    ensures Bit(0xD008, i) <==> InMask(i)
  {
    if i >= 16 {
      BitAbove(0xD, i - 12);
      ZeroBit(i - 16);
    }
    if i >= 12 {
      BitAbove(0xD0, i - 8);
    }
    if i >= 8 {
      BitAbove(0xD00, i - 4);
    }
    if i >= 4 {
      BitAbove(0xD008, i);
    }
    match i {
      case 0 | 1 | 2 | 3 | 4 | 5 | 6 | 7 | 8 | 9 | 10 | 11 | 12 | 13 | 14 | 15 =>
      case _ =>
    }
  }

  lemma SeedParity(w: bv16)
    ensures Seed(w) % 2 == 1 <==> w & 1 == 1
  {
    FromBitsBit(Word(w), 0);
    assert (w & 1 != 0) <==> (w & 1 == 1);
  }

  lemma ShiftedWord(w: bv16)
    ensures (w >> 1) & 0x1 != 0 <==> w & 0x2 != 0
    ensures (w >> 1) & 0x2 != 0 <==> w & 0x4 != 0
    ensures (w >> 1) & 0x4 != 0 <==> w & 0x8 != 0
    ensures (w >> 1) & 0x8 != 0 <==> w & 0x10 != 0
    ensures (w >> 1) & 0x10 != 0 <==> w & 0x20 != 0
    ensures (w >> 1) & 0x20 != 0 <==> w & 0x40 != 0
    ensures (w >> 1) & 0x40 != 0 <==> w & 0x80 != 0
    ensures (w >> 1) & 0x80 != 0 <==> w & 0x100 != 0
    ensures (w >> 1) & 0x100 != 0 <==> w & 0x200 != 0
    ensures (w >> 1) & 0x200 != 0 <==> w & 0x400 != 0
    ensures (w >> 1) & 0x400 != 0 <==> w & 0x800 != 0
    ensures (w >> 1) & 0x800 != 0 <==> w & 0x1000 != 0
    ensures (w >> 1) & 0x1000 != 0 <==> w & 0x2000 != 0
    ensures (w >> 1) & 0x2000 != 0 <==> w & 0x4000 != 0
    ensures (w >> 1) & 0x4000 != 0 <==> w & 0x8000 != 0
    ensures (w >> 1) & 0x8000 != 0 <==> false
  {
  }

  lemma MaskedWord(v: bv16)
    ensures (v ^ 0xD008) & 0x1 != 0 <==> v & 0x1 != 0
    ensures (v ^ 0xD008) & 0x2 != 0 <==> v & 0x2 != 0
    ensures (v ^ 0xD008) & 0x4 != 0 <==> v & 0x4 != 0
    ensures (v ^ 0xD008) & 0x8 != 0 <==> v & 0x8 == 0
    ensures (v ^ 0xD008) & 0x10 != 0 <==> v & 0x10 != 0
    ensures (v ^ 0xD008) & 0x20 != 0 <==> v & 0x20 != 0
    ensures (v ^ 0xD008) & 0x40 != 0 <==> v & 0x40 != 0
    ensures (v ^ 0xD008) & 0x80 != 0 <==> v & 0x80 != 0
    ensures (v ^ 0xD008) & 0x100 != 0 <==> v & 0x100 != 0
    ensures (v ^ 0xD008) & 0x200 != 0 <==> v & 0x200 != 0
    ensures (v ^ 0xD008) & 0x400 != 0 <==> v & 0x400 != 0
    ensures (v ^ 0xD008) & 0x800 != 0 <==> v & 0x800 != 0
    ensures (v ^ 0xD008) & 0x1000 != 0 <==> v & 0x1000 == 0
    ensures (v ^ 0xD008) & 0x2000 != 0 <==> v & 0x2000 != 0
    ensures (v ^ 0xD008) & 0x4000 != 0 <==> v & 0x4000 == 0
    ensures (v ^ 0xD008) & 0x8000 != 0 <==> v & 0x8000 == 0
  {
  }

  /** The bits that change places when the lowest bit is set. */
  predicate InMask(i: nat) {
    i == 3 || i == 12 || i == 14 || i == 15
  }

  lemma WordShifted(w: bv16, i: nat)
    ensures WordBit(w >> 1, i) <==> WordBit(w, i + 1)
  {
    ShiftedWord(w);
    match i {
      case 0 | 1 | 2 | 3 | 4 | 5 | 6 | 7 | 8 | 9 | 10 | 11 | 12 | 13 | 14 | 15 =>
      case _ =>
    }
  }

  lemma WordMasked(v: bv16, i: nat)
    ensures WordBit(v ^ 0xD008, i) <==> WordBit(v, i) != InMask(i)
  {
    MaskedWord(v);
    match i {
      case 0 | 1 | 2 | 3 | 4 | 5 | 6 | 7 | 8 | 9 | 10 | 11 | 12 | 13 | 14 | 15 =>
      case _ =>
    }
  }

  lemma SeedBits(w: bv16, i: nat)
    ensures Bit(Seed(w), i) <==> WordBit(w, i)
  {
    FromBitsBit(Word(w), i);
  }

  /** The idle task's seed follows the 16-bit word. */
  lemma SeedFollows(w: bv16)
    ensures Seed(NextWord(w)) == NextSeed(Seed(w))
  {
    hide WordBit, Seed, Xor;
    SeedParity(w);
    assert w & 1 == 0 || w & 1 == 1;
    forall i: nat ensures Bit(Seed(NextWord(w)), i) == Bit(NextSeed(Seed(w)), i) {
      SeedBits(NextWord(w), i);
      SeedBits(w, i + 1);
      WordShifted(w, i);
      WordMasked(w >> 1, i);
      XorBit(Seed(w) / 2, 0xD008, i);
      MaskBit(i);
    }
    BitsDecide(Seed(NextWord(w)), NextSeed(Seed(w)));
  }
}
