/** count_bits in afl-showmap.c: the number of set bits in the trace map,
    summed word by word with the SWAR popcount. */
module BitCount {
  import opened Config
  import opened Swar

  /** The number of set bits over a sequence of bytes. */
  function TotalBits(s: seq<u8>): nat {
    if s == [] then 0 else PopCount(s[0] as int) + TotalBits(s[1..])
  }

  /** Set bits of a concatenation add up. */
  lemma {:induction false} TotalBitsAppend(s: seq<u8>, t: seq<u8>)
    ensures TotalBits(s + t) == TotalBits(s) + TotalBits(t)
  {
    if s == [] {
      assert s + t == t;
    } else {
      assert s + t != [] && (s + t)[0] == s[0] && (s + t)[1..] == s[1..] + t;
      TotalBitsAppend(s[1..], t);
    }
  }

  /** The set bits of a four-byte group. */
  lemma TotalBitsFour(b0: u8, b1: u8, b2: u8, b3: u8)
    ensures TotalBits([b0, b1, b2, b3])
         == PopCount(b0 as int) + PopCount(b1 as int) + PopCount(b2 as int) + PopCount(b3 as int)
  {
    var s := [b0, b1, b2, b3];
    assert s[1..] == [b1, b2, b3] && s[1..][1..] == [b2, b3] && s[1..][1..][1..] == [b3];
    assert TotalBits([b3]) == PopCount(b3 as int) + TotalBits([b3][1..]);
    assert [b3][1..] == [];
    assert TotalBits([b2, b3]) == PopCount(b2 as int) + TotalBits([b3]);
    assert TotalBits([b1, b2, b3]) == PopCount(b1 as int) + TotalBits([b2, b3]);
  }

  /** A byte sequence holds at most eight set bits per byte. */
  lemma {:induction false} TotalBitsBound(s: seq<u8>)
    ensures TotalBits(s) <= 8 * |s|
  {
    if s != [] {
      ByteBitsBound(s[0]);
      TotalBitsBound(s[1..]);
    }
  }

  /** No bit is set exactly when every byte is zero. */
  lemma {:induction false} TotalBitsZeroIff(s: seq<u8>)
    ensures TotalBits(s) == 0 <==> forall i :: 0 <= i < |s| ==> s[i] == 0
  {
    if s != [] {
      PopCountZeroIff(s[0] as int);
      TotalBitsZeroIff(s[1..]);
      if TotalBits(s) == 0 {
        forall i | 0 <= i < |s|
          ensures s[i] == 0
        {
          if i > 0 {
            assert s[i] == s[1..][i - 1];
          }
        }
      } else if PopCount(s[0] as int) == 0 {
        var j :| 0 <= j < |s[1..]| && s[1..][j] != 0;
        assert s[j + 1] != 0;
      }
    }
  }

  /** The loop body of count_bits on one 32-bit word, read from four
      consecutive bytes: the three SWAR steps yield the number of set bits
      of those bytes. */
  method WordPopCount(b0: u8, b1: u8, b2: u8, b3: u8) returns (x: bv32)
    ensures x as int == TotalBits([b0, b1, b2, b3])
  {
    x := SwarPopCount(Word(b0, b1, b2, b3));
    SwarIsPopCount(b0, b1, b2, b3, x);
    TotalBitsFour(b0, b1, b2, b3);
  }

  /** One iteration of the loop: the word at index p adds the set bits of
      its four bytes to the running total, which stays below 32 per word. */
  lemma WordStep(s: seq<u8>, p: nat)
    requires 4 * p + 4 <= |s|
    ensures TotalBits(s[..4 * p + 4]) == TotalBits(s[..4 * p]) + TotalBits([s[4 * p], s[4 * p + 1], s[4 * p + 2], s[4 * p + 3]])
    ensures TotalBits(s[..4 * p + 4]) <= 32 * (p + 1)
  {
    var b0, b1, b2, b3 := s[4 * p], s[4 * p + 1], s[4 * p + 2], s[4 * p + 3];
    assert s[..4 * p + 4] == s[..4 * p] + [b0, b1, b2, b3];
    TotalBitsAppend(s[..4 * p], [b0, b1, b2, b3]);
    TotalBitsBound(s[..4 * p + 4]);
  }

  /** count_bits: reads the map as MAP_SIZE / 4 native 32-bit words and adds
      up their SWAR popcounts in a 32-bit accumulator. The result is the
      number of set bits in the whole map; the accumulator never wraps. */
  method CountBits(traceBits: array<u8>) returns (ret: u32)
    requires traceBits.Length == MAP_SIZE
    ensures ret == TotalBits(traceBits[..])
  {
    var i: u32 := MAP_SIZE / 4;
    var p: nat := 0;
    ret := 0;
    while i != 0
      invariant p + i == MAP_SIZE / 4
      invariant ret == TotalBits(traceBits[..4 * p])
    {
      i := i - 1;
      var w := WordPopCount(traceBits[4 * p], traceBits[4 * p + 1], traceBits[4 * p + 2], traceBits[4 * p + 3]);
      WordStep(traceBits[..], p);
      assert traceBits[..][..4 * p + 4] == traceBits[..4 * p + 4];
      ret := (ret + w as int) % 0x1_0000_0000;
      p := p + 1;
    }
    assert traceBits[..4 * p] == traceBits[..];
  }
}
