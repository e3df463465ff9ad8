/** The top level of afl-showmap (main in afl-showmap.c): run the target
    through the fork-server handshake, refuse a map with no bit set, then
    bucket the map and report its tuples. */
module ShowMap {
  import opened Config
  import opened Swar
  import opened Classify
  import opened BitCount
  import opened TupleList
  import opened ForkServer

  /** The two fatal conditions after the target has been started. */
  datatype Fatal = NoInstrumentationDetected | NoInstrumentationDataFound

  /** What a successful run reports: the child's pid and wait status, and
      the tuple lines in output order. */
  datatype Report = Report(childPid: s32, status: s32, tuples: seq<Tuple>)

  datatype Result = Success(report: Report) | Failure(error: Fatal)

  /** The outcome of one afl-showmap run whose target left the map `raw`:
      the handshake decides first, then the bit count of the raw map, and
      only then are the bucketed tuples listed. */
  function Showmap(written: int, replies: seq<Reply>, raw: seq<u8>): Result {
    match RunTarget(written, replies).outcome
    case NoInstrumentation => Failure(NoInstrumentationDetected)
    case Ran(pid, status) =>
      if TotalBits(raw) == 0 then Failure(NoInstrumentationDataFound)
      else Success(Report(pid, status, Tuples(ClassifyMap(raw))))
  }

  /** main from the handshake to the end: the map is read only once the
      handshake has been accepted, counted before it is bucketed, and left
      as it was on either fatal path. */
  method RunShowmap(written: int, replies: seq<Reply>, traceBits: array<u8>) returns (r: Result)
    requires traceBits.Length == MAP_SIZE
    modifies traceBits
    ensures r == Showmap(written, replies, old(traceBits[..]))
    ensures r.Success? ==> traceBits[..] == ClassifyMap(old(traceBits[..]))
    ensures r.Failure? ==> traceBits[..] == old(traceBits[..])
  {
    var exchange := RunTarget(written, replies);
    if exchange.outcome.NoInstrumentation? {
      return Failure(NoInstrumentationDetected);
    }
    var bits := CountBits(traceBits);
    if bits == 0 {
      return Failure(NoInstrumentationDataFound);
    }
    var tuples := ShowTuples(traceBits);
    r := Success(Report(exchange.outcome.childPid, exchange.outcome.status, tuples));
  }

  /** "No instrumentation detected" is reported exactly when the handshake
      was incomplete, whatever the map holds. */
  lemma DetectedIff(written: int, replies: seq<Reply>, raw: seq<u8>)
    ensures Showmap(written, replies, raw) == Failure(NoInstrumentationDetected) <==> !Complete(written, replies)
  {
    RunTargetAccepts(written, replies);
  }

  /** After an accepted handshake, "no instrumentation data found" is
      reported exactly when every counter of the map is zero. */
  lemma NoDataIff(written: int, replies: seq<Reply>, raw: seq<u8>)
    requires Complete(written, replies)
    ensures Showmap(written, replies, raw) == Failure(NoInstrumentationDataFound)
        <==> forall i :: 0 <= i < |raw| ==> raw[i] == 0
  {
    RunTargetAccepts(written, replies);
    TotalBitsZeroIff(raw);
  }

  /** Counting set bits before bucketing, as main does, gives the same
      verdict as counting them afterwards: bucketing keeps zero counters
      zero and non-zero counters non-zero. */
  lemma VerdictIndependentOfBucketing(raw: seq<u8>)
    ensures TotalBits(raw) == 0 <==> TotalBits(ClassifyMap(raw)) == 0
  {
    TotalBitsZeroIff(raw);
    TotalBitsZeroIff(ClassifyMap(raw));
    ClassifyMapBuckets(raw);
  }

  /** A successful run lists at least one tuple; its lines are in strictly
      ascending index order, each names a map index holding the bucketed,
      non-zero counter shown, and every non-zero counter is listed. */
  lemma SuccessReport(written: int, replies: seq<Reply>, raw: seq<u8>)
    requires Showmap(written, replies, raw).Success?
    ensures var t := Showmap(written, replies, raw).report.tuples;
      && |t| > 0
      && (forall j, k :: 0 <= j < k < |t| ==> t[j].index < t[k].index)
      && (forall k :: 0 <= k < |t| ==>
            t[k].index < |raw| && t[k].value == ClassifyCount(raw[t[k].index]) && t[k].value != 0)
      && (forall i :: 0 <= i < |raw| && raw[i] != 0 ==> Tuple(i, ClassifyCount(raw[i])) in t)
  {
    var c := ClassifyMap(raw);
    TotalBitsZeroIff(raw);
    ClassifyMapBuckets(raw);
    TuplesEmptyIff(c);
    TuplesSorted(c);
    TuplesSound(c);
    TuplesComplete(c);
    forall k | 0 <= k < |Tuples(c)|
      ensures Tuples(c)[k].value == ClassifyCount(raw[Tuples(c)[k].index])
    {
      ClassifyMapAt(raw, Tuples(c)[k].index);
    }
    forall i | 0 <= i < |raw| && raw[i] != 0
      ensures Tuple(i, ClassifyCount(raw[i])) in Tuples(c)
    {
      ClassifyMapAt(raw, i);
    }
  }

  /** The wait status only travels into the report: a target killed by a
      signal lists the same tuples as one that exited normally. */
  lemma StatusDoesNotAffectTuples(written: int, replies: seq<Reply>, raw: seq<u8>, st: s32)
    requires |replies| >= 3
    ensures var other := replies[2 := Reply(replies[2].count, st)];
      && Showmap(written, other, raw).Success? == Showmap(written, replies, raw).Success?
      && (Showmap(written, replies, raw).Success? ==>
            Showmap(written, other, raw).report.tuples == Showmap(written, replies, raw).report.tuples)
  {
  }

  /** The count reported by count_bits is a number of bits, not of tuples:
      each listed tuple contributes between one and eight set bits. */
  lemma {:induction false} BitsBetweenEntries(s: seq<u8>)
    ensures |Tuples(s)| <= TotalBits(s) <= 8 * |Tuples(s)|
  {
    if s != [] {
      var n := |s| - 1;
      BitsBetweenEntries(s[..n]);
      assert s == s[..n] + [s[n]];
      TotalBitsAppend(s[..n], [s[n]]);
      assert [s[n]][1..] == [];
      PopCountZeroIff(s[n] as int);
      ByteBitsBound(s[n]);
    }
  }

  // End-to-end runs on a map of MAP_SIZE counters.

  /** A map with every counter zero. */
  function Zeros(n: nat): (z: seq<u8>)
    ensures |z| == n && forall i :: 0 <= i < n ==> z[i] == 0
  {
    seq(n, i => 0)
  }

  /** A fork server that completes the handshake for child `pid` and then
      reports wait status `status`. */
  function GoodServer(pid: s32, status: s32): seq<Reply> {
    [Reply(4, 0), Reply(4, pid), Reply(4, status)]
  }

  /** A map whose counters, bucketed or not, are the same. */
  lemma ClassifyFixed(s: seq<u8>)
    requires forall i :: 0 <= i < |s| ==> s[i] <= 2
    ensures ClassifyMap(s) == s
  {
    forall i | 0 <= i < |s|
      ensures ClassifyMap(s)[i] == s[i]
    {
      ClassifyMapAt(s, i);
    }
  }

  /** The target hit tuple 42 once: one line, index 42, count 1 (small
      counts are not bucketed). */
  lemma ScenarioSingleHit(pid: s32)
    requires pid > 0
    ensures Showmap(4, GoodServer(pid, 0), Zeros(MAP_SIZE)[42 := 1])
         == Success(Report(pid, 0, [Tuple(42, 1)]))
  {
    var m := Zeros(MAP_SIZE)[42 := 1];
    TotalBitsZeroIff(m);
    assert m[42] != 0;
    ClassifyFixed(m);
    TuplesZeroSuffix(m, 43);
    assert m[..43][..42] == m[..42];
    TuplesEmptyIff(m[..42]);
  }

  /** The target hit tuple 0 five times and tuple 16383 two hundred times:
      two lines in index order, with the markers of the 4-7 and 128-255
      buckets. */
  lemma ScenarioTwoHits(pid: s32, status: s32)
    requires pid > 0
    ensures Showmap(4, GoodServer(pid, status), Zeros(MAP_SIZE)[0 := 5][16383 := 200])
         == Success(Report(pid, status, [Tuple(0, 8), Tuple(16383, 128)]))
  {
    var m := Zeros(MAP_SIZE)[0 := 5][16383 := 200];
    var c := Zeros(MAP_SIZE)[0 := 8][16383 := 128];
    TotalBitsZeroIff(m);
    assert m[0] != 0;
    forall i | 0 <= i < MAP_SIZE
      ensures ClassifyMap(m)[i] == c[i]
    {
      ClassifyMapAt(m, i);
    }
    assert ClassifyMap(m) == c;
    assert c[..16384][..16383] == c[..16383];
    TuplesZeroSuffix(c[..16383], 1);
    assert c[..16383][..1] == [8];
    assert [8 as u8][..0] == [];
    assert c[..16384] == c;
  }

  /** A target without the fork-server stub closes the status pipe without
      answering: the run fails before the map is looked at. */
  lemma ScenarioNoStub(raw: seq<u8>)
    ensures Showmap(4, [], raw) == Failure(NoInstrumentationDetected)
  {
  }

  /** The handshake completes but the target records nothing. */
  lemma ScenarioEmptyMap(pid: s32, status: s32)
    requires pid > 0
    ensures Showmap(4, GoodServer(pid, status), Zeros(MAP_SIZE)) == Failure(NoInstrumentationDataFound)
  {
    TotalBitsZeroIff(Zeros(MAP_SIZE));
  }
}
