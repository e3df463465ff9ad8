/** Hit-count bucketing (classify_counts in afl-showmap.c). */
module Classify {
  import opened Config

  /** The values a counter can hold once it has been bucketed. */
  predicate IsBucketValue(b: u8) {
    b == 0 || b == 1 || b == 2 || b == 4 || b == 8 || b == 16 || b == 32 || b == 64 || b == 128
  }

  /** The raw count `b` as the switch statement rewrites it: 3 and the ranges
      4-7, 8-15, 16-31, 32-127 and 128-255 become one flag bit each, while
      0, 1 and 2 fall through no case and stay as they are. */
  function ClassifyCount(b: u8): (r: u8)
    ensures IsBucketValue(r)
    ensures r == 0 <==> b == 0
  {
    if b == 3 then 4
    else if 4 <= b <= 7 then 8
    else if 8 <= b <= 15 then 16
    else if 16 <= b <= 31 then 32
    else if 32 <= b <= 127 then 64
    else if 128 <= b then 128
    else b
  }

  /** The same mapping written as an ordered table of ranges: a count inside
      [lo, hi] becomes `marker`; a count in no range is kept. */
  datatype Bucket = Bucket(lo: u8, hi: u8, marker: u8)

  const BUCKETS: seq<Bucket> := [
    Bucket(3, 3, 4),
    Bucket(4, 7, 8),
    Bucket(8, 15, 16),
    Bucket(16, 31, 32),
    Bucket(32, 127, 64),
    Bucket(128, 255, 128)
  ]

  /** The marker of the first range of `table` that holds `b`, or `b` itself. */
  function LookupBucket(table: seq<Bucket>, b: u8): u8 {
    if table == [] then b
    else if table[0].lo <= b <= table[0].hi then table[0].marker
    else LookupBucket(table[1..], b)
  }

  /** The switch statement and the range table agree on every count. */
  lemma ClassifyMatchesTable(b: u8)
    ensures ClassifyCount(b) == LookupBucket(BUCKETS, b)
  {
    var t1 := [Bucket(4, 7, 8), Bucket(8, 15, 16), Bucket(16, 31, 32), Bucket(32, 127, 64), Bucket(128, 255, 128)];
    var t2 := [Bucket(8, 15, 16), Bucket(16, 31, 32), Bucket(32, 127, 64), Bucket(128, 255, 128)];
    var t3 := [Bucket(16, 31, 32), Bucket(32, 127, 64), Bucket(128, 255, 128)];
    var t4 := [Bucket(32, 127, 64), Bucket(128, 255, 128)];
    var t5 := [Bucket(128, 255, 128)];
    assert BUCKETS[1..] == t1 && t1[1..] == t2 && t2[1..] == t3 && t3[1..] == t4 && t4[1..] == t5 && t5[1..] == [];
    assert LookupBucket(t5, b) == if 128 <= b then 128 else b;
    assert LookupBucket(t4, b) == if 32 <= b <= 127 then 64 else LookupBucket(t5, b);
    assert LookupBucket(t3, b) == if 16 <= b <= 31 then 32 else LookupBucket(t4, b);
    assert LookupBucket(t2, b) == if 8 <= b <= 15 then 16 else LookupBucket(t3, b);
    assert LookupBucket(t1, b) == if 4 <= b <= 7 then 8 else LookupBucket(t2, b);
  }

  /** Counts 0, 1 and 2 are left as literal counts. */
  lemma ClassifyKeepsSmallCounts(b: u8)
    requires b <= 2
    ensures ClassifyCount(b) == b
  {
  }

  /** Bucketing is monotone: a larger count never gets a smaller marker. */
  lemma ClassifyMonotone(a: u8, b: u8)
    requires a <= b
    ensures ClassifyCount(a) <= ClassifyCount(b)
  {
  }

  /** Bucketing twice equals bucketing once exactly for the counts 0..2 and
      32..255; in particular it is not idempotent (4 -> 8 -> 16). */
  lemma ClassifyTwiceIff(b: u8)
    ensures ClassifyCount(ClassifyCount(b)) == ClassifyCount(b) <==> b <= 2 || 32 <= b
  {
  }

  /** Bucketing of every counter of a map, in index order. */
  function ClassifyMap(s: seq<u8>): (r: seq<u8>)
    ensures |r| == |s|
  {
    if s == [] then [] else [ClassifyCount(s[0])] + ClassifyMap(s[1..])
  }

  /** The classified map has the same length, and its counter at k depends
      only on the raw counter at k. */
  lemma {:induction false} ClassifyMapAt(s: seq<u8>, k: nat)
    requires k < |s|
    ensures |ClassifyMap(s)| == |s|
    ensures ClassifyMap(s)[k] == ClassifyCount(s[k])
  {
    if k > 0 {
      ClassifyMapAt(s[1..], k - 1);
    } else if |s| > 1 {
      ClassifyMapAt(s[1..], 0);
    }
  }

  /** After bucketing every counter holds a bucket value, and exactly the
      counters that were zero are zero. */
  lemma ClassifyMapBuckets(s: seq<u8>)
    ensures |ClassifyMap(s)| == |s|
    ensures forall k :: 0 <= k < |s| ==> IsBucketValue(ClassifyMap(s)[k])
    ensures forall k :: 0 <= k < |s| ==> (ClassifyMap(s)[k] == 0 <==> s[k] == 0)
  {
    if s == [] {
    } else {
      ClassifyMapAt(s, 0);
    }
    forall k | 0 <= k < |s|
      ensures IsBucketValue(ClassifyMap(s)[k]) && (ClassifyMap(s)[k] == 0 <==> s[k] == 0)
    {
      ClassifyMapAt(s, k);
    }
  }

  /** classify_counts: rewrites the first MAP_SIZE counters of `mem` in
      place, walking a pointer from the first counter to the last, and
      touches nothing beyond them. */
  method ClassifyCounts(mem: array<u8>)
    requires mem.Length >= MAP_SIZE
    modifies mem
    ensures mem[..MAP_SIZE] == ClassifyMap(old(mem[..MAP_SIZE]))
    ensures mem[MAP_SIZE..] == old(mem[MAP_SIZE..])
  {
    var i: nat := MAP_SIZE;
    var p: nat := 0;
    while i > 0
      invariant p + i == MAP_SIZE
      invariant forall k :: 0 <= k < p ==> mem[k] == ClassifyCount(old(mem[k]))
      invariant forall k :: p <= k < mem.Length ==> mem[k] == old(mem[k])
    {
      i := i - 1;
      mem[p] := ClassifyCount(mem[p]);
      p := p + 1;
    }
    ghost var raw := old(mem[..MAP_SIZE]);
    forall k | 0 <= k < MAP_SIZE
      ensures |ClassifyMap(raw)| == MAP_SIZE && mem[..MAP_SIZE][k] == ClassifyMap(raw)[k]
    {
      ClassifyMapAt(raw, k);
    }
  }
}
