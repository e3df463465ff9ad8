/** The population count of count_bits in afl-showmap.c: a recursive
    reference popcount on integers, and the proof that the branch-free
    32-bit SWAR expression computes it. */
module Swar {
  import opened Config

  /** The number of 1 bits in the binary representation of n. */
  function PopCount(n: nat): nat {
    if n == 0 then 0 else n % 2 + PopCount(n / 2)
  }

  function Pow2(k: nat): (r: nat)
    ensures r >= 1
  {
    if k == 0 then 1 else 2 * Pow2(k - 1)
  }

  lemma Pow2Of8()
    ensures Pow2(8) == 256
  {
    assert Pow2(1) == 2 && Pow2(2) == 4 && Pow2(3) == 8 && Pow2(4) == 16;
    assert Pow2(5) == 32 && Pow2(6) == 64 && Pow2(7) == 128;
  }

  /** MAP_SIZE is 1 << MAP_SIZE_POW2, a whole number of 32-bit words. */
  lemma MapSizeIsPow2()
    ensures Pow2(MAP_SIZE_POW2) == MAP_SIZE
    ensures MAP_SIZE % 4 == 0
  {
    Pow2Of8();
    assert Pow2(9) == 512 && Pow2(10) == 1024 && Pow2(11) == 2048;
    assert Pow2(12) == 4096 && Pow2(13) == 8192;
  }

  /** A number has no set bit exactly when it is zero. */
  lemma {:induction false} PopCountZeroIff(n: nat)
    ensures PopCount(n) == 0 <==> n == 0
  {
    if n > 0 && n % 2 == 0 {
      PopCountZeroIff(n / 2);
    }
  }

  /** A number below 2^k has at most k set bits. */
  lemma {:induction false} PopCountBound(n: nat, k: nat)
    requires n < Pow2(k)
    ensures PopCount(n) <= k
  {
    if n > 0 {
      assert k > 0;
      PopCountBound(n / 2, k - 1);
    }
  }

  /** Placing b above the k low bits of a adds their set bits. */
  lemma {:induction false} PopCountConcat(a: nat, b: nat, k: nat)
    requires a < Pow2(k)
    ensures PopCount(a + Pow2(k) * b) == PopCount(a) + PopCount(b)
  {
    if k == 0 {
      assert a == 0;
    } else {
      var n := a + Pow2(k) * b;
      assert Pow2(k) * b == 2 * (Pow2(k - 1) * b);
      assert n % 2 == a % 2 && n / 2 == a / 2 + Pow2(k - 1) * b;
      PopCountConcat(a / 2, b, k - 1);
    }
  }

  /** The set bits of a 32-bit number are those of its four bytes. */
  lemma BytesPopCount(x0: nat, x1: nat, x2: nat, x3: nat)
    requires x0 < 256 && x1 < 256 && x2 < 256
    ensures PopCount(x0 + 256 * (x1 + 256 * (x2 + 256 * x3)))
         == PopCount(x0) + PopCount(x1) + PopCount(x2) + PopCount(x3)
  {
    Pow2Of8();
    PopCountConcat(x2, x3, 8);
    PopCountConcat(x1, x2 + 256 * x3, 8);
    PopCountConcat(x0, x1 + 256 * (x2 + 256 * x3), 8);
  }

  /** A byte has at most 8 set bits. */
  lemma ByteBitsBound(b: u8)
    ensures PopCount(b as int) <= 8
  {
    Pow2Of8();
    PopCountBound(b as int, 8);
  }

  /** Adding a lane count to a small byte does not wrap. */
  lemma AddSmall(a: u8, b: u8)
    requires a <= 24 && b <= 8
    ensures (a + b) as int == a as int + b as int
  {
  }

  /** Four byte lane counts of at most 8 add up without wrapping. */
  lemma SumOfFour(c0: u8, c1: u8, c2: u8, c3: u8)
    requires c0 <= 8 && c1 <= 8 && c2 <= 8 && c3 <= 8
    ensures (c0 + c1 + c2 + c3) as int == c0 as int + c1 as int + c2 as int + c3 as int
  {
    AddSmall(c0, c1);
    AddSmall(c0 + c1, c2);
    AddSmall(c0 + c1 + c2, c3);
  }

  /** The SWAR steps restricted to one byte lane: pairs, then nibbles, then
      the byte. Each lane of the 32-bit computation evolves like this. */
  function LaneSwar(b: u8): u8 {
    var s1 := b - ((b >> 1) & 0x55);
    var s2 := (s1 & 0x33) + ((s1 >> 2) & 0x33);
    (s2 + (s2 >> 4)) & 0x0F
  }

  lemma LaneSwarBound(b: u8)
    ensures LaneSwar(b) <= 8
  {
  }

  /** The lane computation counts the set bits of its byte. */
  lemma {:induction false} LaneSwarIsPopCount(b: u8)
    ensures LaneSwar(b) as int == PopCount(b as int)
    decreases b as int
  {
    if b != 0 {
      var c := b >> 1;
      assert LaneSwar(b) == (b & 1) + LaneSwar(c) && LaneSwar(c) <= 7;
      assert c as int == (b as int) / 2;
      assert (b & 1) as int == (b as int) % 2;
      LaneSwarIsPopCount(c);
    }
  }

  /** The 32-bit word that four consecutive counters form when the map is
      read through a u32 pointer; byte b0 is the lowest (little-endian). */
  function Word(b0: u8, b1: u8, b2: u8, b3: u8): bv32 {
    (b0 as bv32) | ((b1 as bv32) << 8) | ((b2 as bv32) << 16) | ((b3 as bv32) << 24)
  }

  /** The unsigned integer that Word(b0, b1, b2, b3) stands for, written
      by definition as its little-endian base-256 value. That this integer
      equals `Word(b0, b1, b2, b3) as int` is not proved here: the link rests
      on the two definitions placing byte k at weight 256^k. */
  function WordValue(b0: u8, b1: u8, b2: u8, b3: u8): nat {
    b0 as int + 256 * (b1 as int + 256 * (b2 as int + 256 * (b3 as int)))
  }

  /** Byte k of a word, counting from the lowest. */
  function Lane(v: bv32, k: nat): u8
    requires k < 4
  {
    if k == 0 then (v & 0xFF) as u8
    else if k == 1 then ((v >> 8) & 0xFF) as u8
    else if k == 2 then ((v >> 16) & 0xFF) as u8
    else (v >> 24) as u8
  }

  lemma WordLanes(b0: u8, b1: u8, b2: u8, b3: u8)
    ensures Lane(Word(b0, b1, b2, b3), 0) == b0 && Lane(Word(b0, b1, b2, b3), 1) == b1
    ensures Lane(Word(b0, b1, b2, b3), 2) == b2 && Lane(Word(b0, b1, b2, b3), 3) == b3
  {
  }

  lemma LanesWord(v: bv32)
    ensures Word(Lane(v, 0), Lane(v, 1), Lane(v, 2), Lane(v, 3)) == v
  {
  }

  /** The first two SWAR steps and the nibble fold of count_bits: every byte
      lane now holds the number of set bits of that byte. */
  function NibbleStage(v: bv32): bv32 {
    var v1 := v - ((v >> 1) & 0x55555555);
    var v2 := (v1 & 0x33333333) + ((v1 >> 2) & 0x33333333);
    (v2 + (v2 >> 4)) & 0x0F0F0F0F
  }

  /** The last step: multiplying by 0x01010101 adds all byte lanes into the
      top byte, which the shift brings down. */
  function GatherTop(n: bv32): bv32 {
    (n * 0x01010101) >> 24
  }

  /** The per-word expression of count_bits. */
  function SwarPopCount(v: bv32): bv32 {
    GatherTop(NibbleStage(v))
  }

  // No carry crosses a byte boundary: each byte lane of NibbleStage(v) is
  // the lane computation of the same byte of v.

  lemma SwarLane0(v: bv32)
    ensures (NibbleStage(v) & 0xFF) as u8 == LaneSwar((v & 0xFF) as u8)
  {
  }

  lemma SwarLane1(v: bv32)
    ensures ((NibbleStage(v) >> 8) & 0xFF) as u8 == LaneSwar(((v >> 8) & 0xFF) as u8)
  {
  }

  lemma SwarLane2(v: bv32)
    ensures ((NibbleStage(v) >> 16) & 0xFF) as u8 == LaneSwar(((v >> 16) & 0xFF) as u8)
  {
  }

  lemma SwarLane3(v: bv32)
    ensures (NibbleStage(v) >> 24) as u8 == LaneSwar((v >> 24) as u8)
  {
  }

  lemma SwarByteSums(v: bv32)
    ensures NibbleStage(v)
         == Word(LaneSwar(Lane(v, 0)), LaneSwar(Lane(v, 1)), LaneSwar(Lane(v, 2)), LaneSwar(Lane(v, 3)))
  {
    SwarLane0(v);
    SwarLane1(v);
    SwarLane2(v);
    SwarLane3(v);
    LanesWord(NibbleStage(v));
  }

  lemma GatherLanes(n: bv32, c0: u8, c1: u8, c2: u8, c3: u8)
    requires c0 <= 8 && c1 <= 8 && c2 <= 8 && c3 <= 8
    requires n == Word(c0, c1, c2, c3)
    ensures GatherTop(n) == (c0 + c1 + c2 + c3) as bv32
  {
  }

  /** The SWAR expression yields the sum of the lane counts of its word. */
  lemma SwarLaneSum(v: bv32, c0: u8, c1: u8, c2: u8, c3: u8)
    requires c0 == LaneSwar(Lane(v, 0)) && c1 == LaneSwar(Lane(v, 1))
    requires c2 == LaneSwar(Lane(v, 2)) && c3 == LaneSwar(Lane(v, 3))
    ensures c0 <= 8 && c1 <= 8 && c2 <= 8 && c3 <= 8
    ensures SwarPopCount(v) == (c0 + c1 + c2 + c3) as bv32
  {
    LaneSwarBound(Lane(v, 0));
    LaneSwarBound(Lane(v, 1));
    LaneSwarBound(Lane(v, 2));
    LaneSwarBound(Lane(v, 3));
    SwarByteSums(v);
    GatherLanes(NibbleStage(v), c0, c1, c2, c3);
  }

  /** A small 32-bit value equals the byte it was widened from. */
  lemma WidenSmall(x: bv32, s: u8)
    requires s <= 32 && x == s as bv32
    ensures x as int == s as int
  {
  }

  /** Lane counts of at most 8 that are the set bits of their bytes add up,
      as a 32-bit value, to the set bits of the four bytes. */
  lemma LaneCountsSum(x: bv32, b0: u8, b1: u8, b2: u8, b3: u8, c0: u8, c1: u8, c2: u8, c3: u8)
    requires c0 <= 8 && c1 <= 8 && c2 <= 8 && c3 <= 8
    requires c0 as int == PopCount(b0 as int) && c1 as int == PopCount(b1 as int)
    requires c2 as int == PopCount(b2 as int) && c3 as int == PopCount(b3 as int)
    requires x == (c0 + c1 + c2 + c3) as bv32
    ensures x as int == PopCount(b0 as int) + PopCount(b1 as int) + PopCount(b2 as int) + PopCount(b3 as int)
  {
    SumOfFour(c0, c1, c2, c3);
    WidenSmall(x, c0 + c1 + c2 + c3);
  }

  /** On a word whose bytes are b0..b3, the SWAR expression yields the sum of
      the set bits of the four bytes. The result is passed in as x so that
      the context holds nothing about it but the equation. */
  lemma SwarWord(v: bv32, x: bv32, b0: u8, b1: u8, b2: u8, b3: u8)
    requires Lane(v, 0) == b0 && Lane(v, 1) == b1 && Lane(v, 2) == b2 && Lane(v, 3) == b3
    requires x == SwarPopCount(v)
    ensures x as int == PopCount(b0 as int) + PopCount(b1 as int) + PopCount(b2 as int) + PopCount(b3 as int)
  {
    var c0, c1, c2, c3 := LaneSwar(b0), LaneSwar(b1), LaneSwar(b2), LaneSwar(b3);
    SwarLaneSum(v, c0, c1, c2, c3);
    LaneSwarIsPopCount(b0);
    LaneSwarIsPopCount(b1);
    LaneSwarIsPopCount(b2);
    LaneSwarIsPopCount(b3);
    LaneCountsSum(x, b0, b1, b2, b3, c0, c1, c2, c3);
  }

  /** The numeric value of a word has the set bits of its four bytes. */
  lemma WordValueBits(b0: u8, b1: u8, b2: u8, b3: u8)
    ensures PopCount(WordValue(b0, b1, b2, b3))
         == PopCount(b0 as int) + PopCount(b1 as int) + PopCount(b2 as int) + PopCount(b3 as int)
  {
    BytesPopCount(b0 as int, b1 as int, b2 as int, b3 as int);
  }

  lemma SwarIsPopCount(b0: u8, b1: u8, b2: u8, b3: u8, x: bv32)
    requires x == SwarPopCount(Word(b0, b1, b2, b3))
    ensures x as int == PopCount(WordValue(b0, b1, b2, b3))
    ensures x as int == PopCount(b0 as int) + PopCount(b1 as int) + PopCount(b2 as int) + PopCount(b3 as int)
  {
    WordLanes(b0, b1, b2, b3);
    SwarWord(Word(b0, b1, b2, b3), x, b0, b1, b2, b3);
    WordValueBits(b0, b1, b2, b3);
  }

  /** The count of a word does not depend on the order of its bytes, so
      reading the map as big-endian words would give the same total. */
  lemma SwarByteOrderIrrelevant(b0: u8, b1: u8, b2: u8, b3: u8)
    ensures SwarPopCount(Word(b0, b1, b2, b3)) == SwarPopCount(Word(b3, b2, b1, b0))
  {
    WordLanes(b0, b1, b2, b3);
    WordLanes(b3, b2, b1, b0);
    var c0, c1, c2, c3 := LaneSwar(b0), LaneSwar(b1), LaneSwar(b2), LaneSwar(b3);
    SwarLaneSum(Word(b0, b1, b2, b3), c0, c1, c2, c3);
    SwarLaneSum(Word(b3, b2, b1, b0), c3, c2, c1, c0);
  }
}
