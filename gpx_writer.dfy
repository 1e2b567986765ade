/**
 * The Kafka writer: it reads each test file's track points into a map sorted
 * by file name, then interleaves the files, sending point 0 of every file in
 * name order, then point 1, and so on, each to the partition the key's hash
 * selects. Once every callback has arrived it fails when any send failed and
 * otherwise reports the count per partition and the total.
 *
 * Reading a file, the Kafka producer and its callbacks are parameters: `load`
 * gives a file's points or None when reading or unmarshalling throws, and
 * `delivered(n)` says whether the n-th send succeeded.
 */
module GpxWriter {
  import opened Wrappers
  import opened JavaLang
  import opened Track
  import opened Constants

  // ---------------------------------------------------------------------------
  // The test data: a TreeMap from file name to points

  /** The TreeMap's entries in iteration order. */
  type Entries = seq<(string, seq<TrkPt>)>

  /** Strictly ascending keys, as String.compareTo orders them. */
  predicate Sorted(m: Entries) {
    forall i, j :: 0 <= i < j < |m| ==> Less(m[i].0, m[j].0)
  }

  /** TreeMap.get. */
  function Get(m: Entries, k: string): Option<seq<TrkPt>> {
    if m == [] then None
    else if m[0].0 == k then Some(m[0].1)
    else Get(m[1..], k)
  }

  /** Every key of a sorted map after the first is greater than the first. */
  lemma SortedTail(m: Entries)
    requires Sorted(m) && m != []
    ensures Sorted(m[1..])
    ensures forall j :: 0 <= j < |m[1..]| ==> Less(m[0].0, m[1..][j].0)
  {
    forall j | 0 <= j < |m[1..]|
      ensures Less(m[0].0, m[1..][j].0)
    {
      assert m[1..][j] == m[j + 1];
    }
  }

  /** A key below every key of the map is not in it. */
  lemma {:induction false} BelowAllIsAbsent(m: Entries, k: string)
    requires forall j :: 0 <= j < |m| ==> Less(k, m[j].0)
    ensures Get(m, k).None?
  {
    if m != [] {
      LessIrreflexive(k);
      BelowAllIsAbsent(m[1..], k);
    }
  }

  /** TreeMap.put: the value under `k` is replaced, or a new entry is inserted in key order. */
  function Put(m: Entries, k: string, v: seq<TrkPt>): Entries {
    if m == [] then [(k, v)]
    else if m[0].0 == k then [(k, v)] + m[1..]
    else if Less(k, m[0].0) then [(k, v)] + m
    else [m[0]] + Put(m[1..], k, v)
  }

  /** A key below the new key and below every old key is below every key after put. */
  lemma {:induction false} PutKeepsLowerBound(m: Entries, k: string, v: seq<TrkPt>, b: string)
    requires Less(b, k)
    requires forall j :: 0 <= j < |m| ==> Less(b, m[j].0)
    ensures forall j :: 0 <= j < |Put(m, k, v)| ==> Less(b, Put(m, k, v)[j].0)
  {
    if m != [] && m[0].0 != k && !Less(k, m[0].0) {
      assert forall j :: 0 <= j < |m[1..]| ==> m[1..][j] == m[j + 1];
      PutKeepsLowerBound(m[1..], k, v, b);
      assert forall j :: 0 < j < |Put(m, k, v)| ==> Put(m, k, v)[j] == Put(m[1..], k, v)[j - 1];
    }
  }

  /** Put keeps the keys strictly ascending. */
  lemma {:induction false} PutSorted(m: Entries, k: string, v: seq<TrkPt>)
    requires Sorted(m)
    ensures Sorted(Put(m, k, v))
  {
    var r := Put(m, k, v);
    if m == [] {
    } else if m[0].0 == k {
      assert forall j :: 0 < j < |r| ==> r[j] == m[j];
    } else if Less(k, m[0].0) {
      forall i, j | 0 <= i < j < |r|
        ensures Less(r[i].0, r[j].0)
      {
        if i == 0 && j > 1 { LessTransitive(k, m[0].0, m[j - 1].0); }
      }
    } else {
      SortedTail(m);
      LessTotal(k, m[0].0);
      PutSorted(m[1..], k, v);
      PutKeepsLowerBound(m[1..], k, v, m[0].0);
      var rest := Put(m[1..], k, v);
      assert forall j :: 0 < j < |r| ==> r[j] == rest[j - 1];
    }
  }

  /** After put, get returns the new value under its key and the old value under every other. */
  lemma {:induction false} PutThenGet(m: Entries, k: string, v: seq<TrkPt>, other: string)
    ensures Get(Put(m, k, v), k) == Some(v)
    ensures other != k ==> Get(Put(m, k, v), other) == Get(m, other)
  {
    if m != [] && m[0].0 != k && !Less(k, m[0].0) {
      PutThenGet(m[1..], k, v, other);
    }
  }

  /**
   * loadTestData, specified: the files in order, each put under its name when
   * its resource loads and skipped when it does not.
   */
  function Loaded(fileNames: seq<string>, load: string -> Option<seq<TrkPt>>): (r: Entries)
    ensures Sorted(r)
  {
    if fileNames == [] then []
    else
      var result := Loaded(fileNames[..|fileNames| - 1], load);
      var fileName := fileNames[|fileNames| - 1];
      match load(fileName + ".gpx")
      case None => result
      case Some(trkPts) => PutSorted(result, fileName, trkPts); Put(result, fileName, trkPts)
  }

  /** loadTestData: one list of points per file read successfully, in a sorted map. */
  method LoadTestData(fileNames: seq<string>, load: string -> Option<seq<TrkPt>>) returns (result: Entries)
    ensures result == Loaded(fileNames, load)
  {
    result := [];
    for n := 0 to |fileNames|
      invariant result == Loaded(fileNames[..n], load)
    {
      assert fileNames[..n + 1][..n] == fileNames[..n];
      var fileName := fileNames[n];
      var resourceName := fileName + ".gpx";
      match load(resourceName) {
        case None =>
        case Some(trkPts) => result := Put(result, fileName, trkPts);
      }
    }
    assert fileNames[..|fileNames|] == fileNames;
  }

  /** A file name is in the loaded map exactly when its resource loads, and then with the points it loaded. */
  lemma {:induction false} LoadedGet(fileNames: seq<string>, load: string -> Option<seq<TrkPt>>, k: string)
    ensures Get(Loaded(fileNames, load), k) == if k in fileNames then load(k + ".gpx") else None
  {
    if fileNames == [] {
    } else {
      var init := fileNames[..|fileNames| - 1];
      var fileName := fileNames[|fileNames| - 1];
      assert fileNames == init + [fileName];
      LoadedGet(init, load, k);
      match load(fileName + ".gpx") {
        case None =>
        case Some(trkPts) => PutThenGet(Loaded(init, load), fileName, trkPts, k);
      }
    }
  }

  /** With both demo files readable, the map iterates "fuad" before "neil". */
  lemma DemoFilesInNameOrder(load: string -> Option<seq<TrkPt>>)
    requires load("fuad.gpx").Some? && load("neil.gpx").Some?
    ensures Loaded(FILE_NAMES_GPX, load) == [("fuad", load("fuad.gpx").value), ("neil", load("neil.gpx").value)]
  {
    var fuad := load("fuad.gpx").value;
    var neil := load("neil.gpx").value;
    assert FILE_NAMES_GPX[..1] == ["fuad"] && ["fuad"][..0] == [];
    assert "fuad" + ".gpx" == "fuad.gpx" && "neil" + ".gpx" == "neil.gpx";
    assert Loaded(["fuad"], load) == [("fuad", fuad)];
    assert !Less("neil", "fuad");
    assert Put([("fuad", fuad)], "neil", neil) == [("fuad", fuad)] + Put([], "neil", neil);
  }

  // ---------------------------------------------------------------------------
  // The send schedule

  /** One call of sendDefault: the partition, the key and the point. */
  datatype Send = Send(partition: int, key: string, point: TrkPt)

  /** key.hashCode() % 3, Java's remainder: negative when the hash is. */
  function Partition(key: string): (p: int)
    ensures -TOPIC_NAME_GPX_PARTITION_COUNT < p < TOPIC_NAME_GPX_PARTITION_COUNT
    ensures p < 0 ==> HashCode(key) < 0
  {
    Rem(HashCode(key), TOPIC_NAME_GPX_PARTITION_COUNT)
  }

  /** The two demo files go to different partitions: "fuad" to 2, "neil" to 1. */
  lemma DemoPartitions()
    ensures Partition("fuad") == 2 && Partition("neil") == 1
  {
    assert HashCode("f") == 102 by { assert "f"[..0] == []; }
    assert HashCode("fu") == 3279 by { assert "fu"[..1] == "f"; }
    assert HashCode("fua") == 101746 by { assert "fua"[..2] == "fu"; }
    assert HashCode("fuad") == 3154226 by { assert "fuad"[..3] == "fua"; }
    assert HashCode("n") == 110 by { assert "n"[..0] == []; }
    assert HashCode("ne") == 3511 by { assert "ne"[..1] == "n"; }
    assert HashCode("nei") == 108946 by { assert "nei"[..2] == "ne"; }
    assert HashCode("neil") == 3377434 by { assert "neil"[..3] == "nei"; }
  }

  /** The number of files with more than `i` points. */
  function CountLonger(es: Entries, i: nat): nat {
    if es == [] then 0 else (if i < |es[0].1| then 1 else 0) + CountLonger(es[1..], i)
  }

  /** Round i: point i of every file that has one, in the map's order. */
  function Round(es: Entries, i: nat): (r: seq<Send>)
    ensures |r| == CountLonger(es, i)
  {
    if es == [] then []
    else
      var (key, value) := es[0];
      (if i < |value| then [Send(Partition(key), key, value[i])] else []) + Round(es[1..], i)
  }

  /** The first n rounds. */
  function Rounds(es: Entries, n: nat): seq<Send> {
    if n == 0 then [] else Rounds(es, n - 1) + Round(es, n - 1)
  }

  /** The size of the largest list. */
  function MaxLen(es: Entries): nat {
    if es == [] then 0 else var m := MaxLen(es[1..]); if |es[0].1| > m then |es[0].1| else m
  }

  /** The number of points over all lists. */
  function TotalLen(es: Entries): nat {
    if es == [] then 0 else |es[0].1| + TotalLen(es[1..])
  }

  /** Every send the writer makes, in order. */
  function Schedule(es: Entries): seq<Send> {
    Rounds(es, MaxLen(es))
  }

  /** Every point counted with at most n per list. */
  function ClippedLen(es: Entries, n: nat): nat {
    if es == [] then 0 else (if |es[0].1| < n then |es[0].1| else n) + ClippedLen(es[1..], n)
  }

  lemma {:induction false} ClippedStep(es: Entries, n: nat)
    ensures ClippedLen(es, n + 1) == ClippedLen(es, n) + CountLonger(es, n)
  {
    if es != [] { ClippedStep(es[1..], n); }
  }

  lemma {:induction false} ClippedFull(es: Entries, n: nat)
    requires MaxLen(es) <= n
    ensures ClippedLen(es, n) == TotalLen(es)
  {
    if es != [] { ClippedFull(es[1..], n); }
  }

  lemma {:induction false} RoundsLength(es: Entries, n: nat)
    ensures |Rounds(es, n)| == ClippedLen(es, n)
  {
    if n == 0 {
      ClippedZero(es);
    } else {
      RoundsLength(es, n - 1);
      ClippedStep(es, n - 1);
    }
  }

  lemma {:induction false} ClippedZero(es: Entries)
    ensures ClippedLen(es, 0) == 0
  {
    if es != [] { ClippedZero(es[1..]); }
  }

  /** Every point of every file is sent exactly as many times as there are points: the total. */
  lemma ScheduleLength(es: Entries)
    ensures |Schedule(es)| == TotalLen(es)
  {
    RoundsLength(es, MaxLen(es));
    ClippedFull(es, MaxLen(es));
  }

  /** The points sent under `key`, in send order. */
  function PointsFor(sends: seq<Send>, key: string): seq<TrkPt> {
    if sends == [] then []
    else (if sends[0].key == key then [sends[0].point] else []) + PointsFor(sends[1..], key)
  }

  lemma {:induction false} PointsForConcat(a: seq<Send>, b: seq<Send>, key: string)
    ensures PointsFor(a + b, key) == PointsFor(a, key) + PointsFor(b, key)
  {
    if a != [] {
      assert (a + b)[0] == a[0];
      assert (a + b)[1..] == a[1..] + b;
      PointsForConcat(a[1..], b, key);
    } else {
      assert a + b == b;
    }
  }

  /** Point i of a list, if it has one. */
  function PointAt(o: Option<seq<TrkPt>>, i: nat): seq<TrkPt> {
    match o case None => [] case Some(v) => if i < |v| then [v[i]] else []
  }

  /** The first n points of a list, or all of them when there are fewer. */
  function FirstPoints(o: Option<seq<TrkPt>>, n: nat): seq<TrkPt> {
    match o case None => [] case Some(v) => if n < |v| then v[..n] else v
  }

  lemma FirstPointsStep(o: Option<seq<TrkPt>>, n: nat)
    ensures FirstPoints(o, n + 1) == FirstPoints(o, n) + PointAt(o, n)
  {
    if o.Some? && n < |o.value| { assert o.value[..n + 1] == o.value[..n] + [o.value[n]]; }
  }

  /** In round i a file contributes its point i, if it has one, and no other file sends under its key. */
  lemma {:induction false} RoundPoints(es: Entries, i: nat, key: string)
    requires Sorted(es)
    ensures PointsFor(Round(es, i), key) == PointAt(Get(es, key), i)
  {
    if es != [] {
      SortedTail(es);
      var head := (if i < |es[0].1| then [Send(Partition(es[0].0), es[0].0, es[0].1[i])] else []);
      PointsForConcat(head, Round(es[1..], i), key);
      assert PointsFor(head, key) == if i < |es[0].1| && es[0].0 == key then [es[0].1[i]] else [] by {
        if head != [] { assert head[1..] == []; }
      }
      RoundPoints(es[1..], i, key);
      if es[0].0 == key {
        BelowAllIsAbsent(es[1..], key);
      }
    }
  }

  /** Round n - 1 adds each file's point n - 1 to the points already sent under its name. */
  lemma RoundsPointsStep(es: Entries, n: nat, key: string)
    requires Sorted(es) && n > 0
    requires PointsFor(Rounds(es, n - 1), key) == FirstPoints(Get(es, key), n - 1)
    ensures PointsFor(Rounds(es, n), key) == FirstPoints(Get(es, key), n)
  {
    var before := Rounds(es, n - 1);
    var round := Round(es, n - 1);
    calc {
      PointsFor(Rounds(es, n), key);
      { assert Rounds(es, n) == before + round; }
      PointsFor(before + round, key);
      { PointsForConcat(before, round, key); }
      PointsFor(before, key) + PointsFor(round, key);
      FirstPoints(Get(es, key), n - 1) + PointsFor(round, key);
      { RoundPoints(es, n - 1, key); }
      FirstPoints(Get(es, key), n - 1) + PointAt(Get(es, key), n - 1);
      { FirstPointsStep(Get(es, key), n - 1); }
      FirstPoints(Get(es, key), n);
    }
  }

  /** After n rounds, the points sent under a name are the first n points of that file. */
  lemma {:induction false} RoundsPoints(es: Entries, n: nat, key: string)
    requires Sorted(es)
    ensures PointsFor(Rounds(es, n), key) == FirstPoints(Get(es, key), n)
  {
    if n > 0 {
      RoundsPoints(es, n - 1, key);
      RoundsPointsStep(es, n, key);
    } else {
      assert FirstPoints(Get(es, key), 0) == [];
    }
  }

  lemma {:induction false} MaxLenBound(es: Entries, key: string)
    ensures Get(es, key).Some? ==> |Get(es, key).value| <= MaxLen(es)
  {
    if es != [] { MaxLenBound(es[1..], key); }
  }

  /**
   * Interleaving keeps each file's own order: the points sent under a file's
   * name are exactly that file's points, in order, and nothing is sent under
   * a name that is not in the map.
   */
  lemma PerKeyOrder(es: Entries, key: string)
    requires Sorted(es)
    ensures PointsFor(Schedule(es), key) == match Get(es, key) case None => [] case Some(v) => v
  {
    RoundsPoints(es, MaxLen(es), key);
    MaxLenBound(es, key);
  }

  lemma {:induction false} RoundPartitions(es: Entries, i: nat)
    ensures forall s :: s in Round(es, i) ==> s.partition == Partition(s.key)
  {
    if es != [] { RoundPartitions(es[1..], i); }
  }

  /** Every point of a key goes to the same partition, so Kafka keeps each track in order. */
  lemma {:induction false} KeyFixesPartition(es: Entries, n: nat)
    ensures forall s :: s in Rounds(es, n) ==> s.partition == Partition(s.key)
  {
    if n > 0 {
      KeyFixesPartition(es, n - 1);
      RoundPartitions(es, n - 1);
      var before, round := Rounds(es, n - 1), Round(es, n - 1);
      assert Rounds(es, n) == before + round;
      forall s: Send | s in before + round ensures s.partition == Partition(s.key) {
        if s in before {
          assert s.partition == Partition(s.key);
        } else {
          assert s in round;
        }
      }
    }
  }

  // ---------------------------------------------------------------------------
  // Callbacks and the result

  /** How run ends. */
  datatype Outcome =
    | Reported(perPartition: seq<nat>, total: nat)   // the success counts logged, partition by partition
    | Failed(failures: nat)                          // the RuntimeException after the latch
    | InvalidPartition(key: string, partition: int)  // the producer rejects a negative partition

  /** onFailure calls: the sends whose callback reports a failure. */
  function Failures(sends: seq<Send>, delivered: nat -> bool): nat {
    if sends == [] then 0
    else Failures(sends[..|sends| - 1], delivered) + if delivered(|sends| - 1) then 0 else 1
  }

  /** onSuccess calls for partition p. */
  function Successes(sends: seq<Send>, delivered: nat -> bool, p: int): nat {
    if sends == [] then 0
    else Successes(sends[..|sends| - 1], delivered, p) + if delivered(|sends| - 1) && sends[|sends| - 1].partition == p then 1 else 0
  }

  /** Every send ends in exactly one callback, counted once among the failures or one partition's successes. */
  lemma {:induction false} CallbacksAccount(sends: seq<Send>, delivered: nat -> bool)
    requires forall s :: s in sends ==> 0 <= s.partition < TOPIC_NAME_GPX_PARTITION_COUNT
    ensures Failures(sends, delivered) + Successes(sends, delivered, 0) + Successes(sends, delivered, 1)
            + Successes(sends, delivered, 2) == |sends|
  {
    if sends != [] {
      var init := sends[..|sends| - 1];
      assert forall s :: s in init ==> s in sends;
      assert sends[|sends| - 1] in sends;
      CallbacksAccount(init, delivered);
    }
  }

  /** The outcome after every callback has arrived. */
  function Tally(sends: seq<Send>, delivered: nat -> bool, total: nat): (r: Outcome)
    ensures r.Reported? <==> Failures(sends, delivered) == 0
    ensures r.Reported? ==> |r.perPartition| == TOPIC_NAME_GPX_PARTITION_COUNT && r.total == total
    ensures r.Failed? ==> r.failures == Failures(sends, delivered) > 0
    ensures r.Reported? ==> forall p :: 0 <= p < TOPIC_NAME_GPX_PARTITION_COUNT ==> r.perPartition[p] == Successes(sends, delivered, p)
  {
    var failures := Failures(sends, delivered);
    if failures > 0 then Failed(failures)
    else Reported(seq(TOPIC_NAME_GPX_PARTITION_COUNT, p requires 0 <= p < TOPIC_NAME_GPX_PARTITION_COUNT => Successes(sends, delivered, p)), total)
  }

  predicate IsPrefix(a: seq<Send>, b: seq<Send>) {
    |a| <= |b| && a == b[..|a|]
  }

  lemma {:induction false} RoundsPrefix(es: Entries, n: nat, m: nat)
    requires n <= m
    ensures IsPrefix(Rounds(es, n), Rounds(es, m))
  {
    if n < m {
      RoundsPrefix(es, n, m - 1);
    }
  }

  /** A key below every key of the map is below every key a round sends under. */
  lemma {:induction false} RoundKeysAbove(es: Entries, i: nat, b: string)
    requires forall j :: 0 <= j < |es| ==> Less(b, es[j].0)
    ensures forall a :: 0 <= a < |Round(es, i)| ==> Less(b, Round(es, i)[a].key)
  {
    if es != [] {
      var head := if i < |es[0].1| then [Send(Partition(es[0].0), es[0].0, es[0].1[i])] else [];
      var tail := Round(es[1..], i);
      assert forall j :: 0 <= j < |es[1..]| ==> es[1..][j] == es[j + 1];
      RoundKeysAbove(es[1..], i, b);
      assert Round(es, i) == head + tail;
    }
  }

  /** Within a round the files are visited in ascending key order, as the TreeMap iterates them. */
  lemma {:induction false} RoundKeysAscend(es: Entries, i: nat)
    requires Sorted(es)
    ensures forall a, b :: 0 <= a < b < |Round(es, i)| ==> Less(Round(es, i)[a].key, Round(es, i)[b].key)
  {
    if es != [] {
      var head := if i < |es[0].1| then [Send(Partition(es[0].0), es[0].0, es[0].1[i])] else [];
      var tail := Round(es[1..], i);
      var r := Round(es, i);
      assert r == head + tail;
      SortedTail(es);
      RoundKeysAscend(es[1..], i);
      RoundKeysAbove(es[1..], i, es[0].0);
      forall a, b | 0 <= a < b < |r| ensures Less(r[a].key, r[b].key) {
        if a < |head| {
          assert r[a].key == es[0].0 && r[b] == tail[b - |head|];
        } else {
          assert r[a] == tail[a - |head|] && r[b] == tail[b - |head|];
        }
      }
    }
  }

  /**
   * Point i of every file is sent before point i + 1 of any file: the first
   * n rounds are a prefix of the schedule holding exactly the first n points
   * of every key.
   */
  lemma SchedulePrefixHoldsFirstPoints(es: Entries, n: nat)
    requires Sorted(es) && n <= MaxLen(es)
    ensures IsPrefix(Rounds(es, n), Schedule(es))
    ensures forall key :: PointsFor(Rounds(es, n), key) == FirstPoints(Get(es, key), n)
  {
    RoundsPrefix(es, n, MaxLen(es));
    forall key ensures PointsFor(Rounds(es, n), key) == FirstPoints(Get(es, key), n) {
      RoundsPoints(es, n, key);
    }
  }

  /** A send that comes next in round i comes next in the whole schedule. */
  lemma NextInSchedule(es: Entries, i: nat, sends: seq<Send>, next: Send, rest: seq<Send>)
    requires i < MaxLen(es)
    requires sends + ([next] + rest) == Rounds(es, i + 1)
    ensures |sends| < |Schedule(es)| && IsPrefix(sends, Schedule(es)) && Schedule(es)[|sends|] == next
  {
    RoundsPrefix(es, i + 1, MaxLen(es));
    assert Rounds(es, i + 1)[|sends|] == next;
  }

  /** The first block of run: the size of the largest list and the total number of points. */
  method Sizes(testData: Entries) returns (max: nat, total: nat)
    ensures max == MaxLen(testData) && total == TotalLen(testData)
    ensures forall j :: 0 <= j < |testData| ==> |testData[j].1| <= max
  {
    max := 0;
    total := 0;
    for j := 0 to |testData|
      invariant (if max < MaxLen(testData[j..]) then MaxLen(testData[j..]) else max) == MaxLen(testData)
      invariant total + TotalLen(testData[j..]) == TotalLen(testData)
      invariant forall t :: 0 <= t < j ==> |testData[t].1| <= max
    {
      assert testData[j..][1..] == testData[j + 1..];
      var size := |testData[j].1|;
      if size > max {
        max := size;
      }
      total := total + size;
    }
    assert testData[|testData|..] == [];
  }

  /**
   * One pass of run's inner loop: point i of every file, in the map's order,
   * appended to the sends so far. A negative partition stops the pass before
   * that send; `rejected` is the send refused and `rest` what round i would
   * have sent after it.
   */
  method SendRound(testData: Entries, i: nat, sends0: seq<Send>)
    returns (sends: seq<Send>, rejected: Option<Send>, ghost rest: seq<Send>)
    requires forall s :: s in sends0 ==> 0 <= s.partition < TOPIC_NAME_GPX_PARTITION_COUNT
    ensures forall s :: s in sends ==> 0 <= s.partition < TOPIC_NAME_GPX_PARTITION_COUNT
    ensures rejected.None? ==> sends == sends0 + Round(testData, i)
    ensures rejected.Some? ==> sends + ([rejected.value] + rest) == sends0 + Round(testData, i)
    ensures rejected.Some? ==> rejected.value.partition < 0
  {
    sends := sends0;
    rest := [];
    ghost var todo := testData;
    for k := 0 to |testData|
      invariant todo == testData[k..]
      invariant sends + Round(todo, i) == sends0 + Round(testData, i)
      invariant forall s :: s in sends ==> 0 <= s.partition < TOPIC_NAME_GPX_PARTITION_COUNT
    {
      var (key, value) := testData[k];
      assert todo[0] == (key, value) && todo[1..] == testData[k + 1..];
      if |value| > i {
        var trkPt := value[i];
        var partition := Partition(key);
        if partition < 0 {
          rejected := Some(Send(partition, key, trkPt));
          rest := Round(todo[1..], i);
          return;
        }
        assert sends + Round(todo, i) == (sends + [Send(partition, key, trkPt)]) + Round(todo[1..], i) by {
          assert Round(todo, i) == [Send(partition, key, trkPt)] + Round(todo[1..], i);
        }
        sends := sends + [Send(partition, key, trkPt)];
      } else {
        assert Round(todo, i) == Round(todo[1..], i);
      }
      todo := todo[1..];
    }
    rejected := None;
  }

  /**
   * run: find the largest list and the total, then send point i of every
   * file for i from 0 below the largest list; a negative partition makes the
   * producer throw and ends the run at that send. Otherwise the outcome is
   * decided by the callbacks of all the sends.
   */
  method Run(testData: Entries, delivered: nat -> bool) returns (sends: seq<Send>, outcome: Outcome)
    ensures forall s :: s in sends ==> 0 <= s.partition < TOPIC_NAME_GPX_PARTITION_COUNT
    ensures !outcome.InvalidPartition? ==> sends == Schedule(testData)
    ensures !outcome.InvalidPartition? ==> outcome == Tally(sends, delivered, TotalLen(testData))
    ensures outcome.InvalidPartition? ==>
      && |sends| < |Schedule(testData)| && IsPrefix(sends, Schedule(testData))
      && Schedule(testData)[|sends|].partition < 0
      && outcome == InvalidPartition(Schedule(testData)[|sends|].key, Schedule(testData)[|sends|].partition)
    ensures outcome.Reported? ==>
      outcome.perPartition[0] + outcome.perPartition[1] + outcome.perPartition[2] == outcome.total == TotalLen(testData)
  {
    var max, total := Sizes(testData);
    sends := [];
    for i := 0 to max
      invariant sends == Rounds(testData, i)
      invariant forall s :: s in sends ==> 0 <= s.partition < TOPIC_NAME_GPX_PARTITION_COUNT
    {
      var rejected;
      ghost var rest;
      sends, rejected, rest := SendRound(testData, i, sends);
      if rejected.Some? {
        outcome := InvalidPartition(rejected.value.key, rejected.value.partition);
        NextInSchedule(testData, i, sends, rejected.value, rest);
        return;
      }
    }
    ScheduleLength(testData);
    CallbacksAccount(sends, delivered);
    outcome := Tally(sends, delivered, total);
  }
}
