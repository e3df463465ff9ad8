/** show_tuples in afl-showmap.c: bucket the map, then list every non-zero
    counter with its index, in ascending index order. */
module TupleList {
  import opened Config
  import opened Classify

  /** One reported line: a tuple index and its counter. */
  datatype Tuple = Tuple(index: nat, value: u8)

  /** The entries for the non-zero counters of `s`, in index order. */
  function Tuples(s: seq<u8>): seq<Tuple> {
    if s == [] then []
    else Tuples(s[..|s| - 1]) + (if s[|s| - 1] != 0 then [Tuple(|s| - 1, s[|s| - 1])] else [])
  }

  /** Every entry names an index of the map, carries the counter stored
      there, and that counter is non-zero. */
  lemma {:induction false} TuplesSound(s: seq<u8>)
    ensures forall k :: 0 <= k < |Tuples(s)| ==>
      Tuples(s)[k].index < |s| && s[Tuples(s)[k].index] == Tuples(s)[k].value && Tuples(s)[k].value != 0
  {
    if s != [] {
      var n := |s| - 1;
      TuplesSound(s[..n]);
      var t := Tuples(s[..n]);
      forall k | 0 <= k < |Tuples(s)|
        ensures Tuples(s)[k].index < |s| && s[Tuples(s)[k].index] == Tuples(s)[k].value && Tuples(s)[k].value != 0
      {
        if k < |t| {
          assert Tuples(s)[k] == t[k];
          assert s[..n][t[k].index] == s[t[k].index];
        }
      }
    }
  }

  /** Entries are listed in strictly ascending index order, so no index is
      listed twice. */
  lemma {:induction false} TuplesSorted(s: seq<u8>)
    ensures forall j, k :: 0 <= j < k < |Tuples(s)| ==> Tuples(s)[j].index < Tuples(s)[k].index
  {
    if s != [] {
      var n := |s| - 1;
      TuplesSorted(s[..n]);
      TuplesSound(s[..n]);
    }
  }

  /** Every non-zero counter is listed, with its value. */
  lemma {:induction false} TuplesComplete(s: seq<u8>)
    ensures forall i :: 0 <= i < |s| && s[i] != 0 ==> Tuple(i, s[i]) in Tuples(s)
  {
    if s != [] {
      var n := |s| - 1;
      TuplesComplete(s[..n]);
      forall i | 0 <= i < |s| && s[i] != 0
        ensures Tuple(i, s[i]) in Tuples(s)
      {
        if i < n {
          assert s[..n][i] == s[i];
          assert Tuple(i, s[i]) in Tuples(s[..n]);
        }
      }
    }
  }

  /** The list is empty exactly when every counter is zero. */
  lemma TuplesEmptyIff(s: seq<u8>)
    ensures Tuples(s) == [] <==> forall i :: 0 <= i < |s| ==> s[i] == 0
  {
    TuplesSound(s);
    TuplesComplete(s);
    if Tuples(s) != [] {
      assert s[Tuples(s)[0].index] != 0;
    }
  }

  /** Trailing zero counters add no entries. */
  lemma {:induction false} TuplesZeroSuffix(s: seq<u8>, n: nat)
    requires n <= |s|
    requires forall i :: n <= i < |s| ==> s[i] == 0
    ensures Tuples(s) == Tuples(s[..n])
  {
    if |s| > n {
      var m := |s| - 1;
      assert s[..m][..n] == s[..n];
      TuplesZeroSuffix(s[..m], n);
    } else {
      assert s[..n] == s;
    }
  }

  /** Bucketing keeps the listed indices and buckets the listed values, so
      the entries of the classified map are those of the raw map. */
  lemma {:induction false} TuplesOfClassified(s: seq<u8>)
    ensures |Tuples(ClassifyMap(s))| == |Tuples(s)|
    ensures forall k :: 0 <= k < |Tuples(s)| ==>
      Tuples(ClassifyMap(s))[k] == Tuple(Tuples(s)[k].index, ClassifyCount(Tuples(s)[k].value))
  {
    if s != [] {
      var n := |s| - 1;
      ClassifyMapAt(s, n);
      ClassifyPrefix(s, n);
      TuplesOfClassified(s[..n]);
    }
  }

  /** Classifying a prefix is taking the prefix of the classified map. */
  lemma ClassifyPrefix(s: seq<u8>, n: nat)
    requires n <= |s|
    ensures ClassifyMap(s)[..n] == ClassifyMap(s[..n])
  {
    ClassifyMapBuckets(s);
    ClassifyMapBuckets(s[..n]);
    forall k | 0 <= k < n
      ensures ClassifyMap(s)[k] == ClassifyMap(s[..n])[k]
    {
      ClassifyMapAt(s, k);
      ClassifyMapAt(s[..n], k);
    }
  }

  /** The loop of show_tuples: walks the map from index 0 to MAP_SIZE - 1
      and records an entry for every non-zero counter. */
  method ListTuples(traceBits: array<u8>) returns (tuples: seq<Tuple>)
    requires traceBits.Length == MAP_SIZE
    ensures tuples == Tuples(traceBits[..])
  {
    tuples := [];
    for i := 0 to MAP_SIZE
      invariant tuples == Tuples(traceBits[..i])
    {
      assert traceBits[..i + 1][..i] == traceBits[..i];
      if traceBits[i] != 0 {
        tuples := tuples + [Tuple(i, traceBits[i])];
      }
    }
    assert traceBits[..MAP_SIZE] == traceBits[..];
  }

  /** show_tuples: buckets the map in place, then lists its non-zero
      counters. */
  method ShowTuples(traceBits: array<u8>) returns (tuples: seq<Tuple>)
    requires traceBits.Length == MAP_SIZE
    modifies traceBits
    ensures traceBits[..] == ClassifyMap(old(traceBits[..]))
    ensures tuples == Tuples(ClassifyMap(old(traceBits[..])))
  {
    ClassifyCounts(traceBits);
    assert traceBits[..] == traceBits[..MAP_SIZE];
    assert old(traceBits[..]) == old(traceBits[..MAP_SIZE]);
    tuples := ListTuples(traceBits);
  }
}
