/**
 * The speed job as a chain of steps: journal events of the "position" map are
 * projected to timestamped entries, each key's entries in a sliding window are
 * reduced by the aggregator, the window timestamp is dropped, stationary
 * results are removed, and what is left is logged and written to the "speed"
 * map. How Jet assigns entries to windows and emits watermarks is not modelled:
 * the windows arrive here already formed, each as the partial inputs of the
 * shards that saw its entries.
 */
module Speedo {
  import opened Wrappers
  import opened Track
  import opened SpeedoAggregation

  const ONE_MINUTE_IN_MS: int := 60 * 1000
  const FIVE_MINUTES_IN_MS: int := 5 * ONE_MINUTE_IN_MS

  /** A sliding window of `windowSize` milliseconds that advances every `slideBy` milliseconds. */
  datatype WindowDefinition = SlidingWindowDef(windowSize: int, slideBy: int)

  const WINDOW_DEFINITION: WindowDefinition := SlidingWindowDef(FIVE_MINUTES_IN_MS, ONE_MINUTE_IN_MS)

  /** Windows are five minutes long and start every minute, so each spans five slides. */
  lemma WindowIsFiveSlides()
    ensures WINDOW_DEFINITION.windowSize == 300_000 && WINDOW_DEFINITION.slideBy == 60_000
    ensures WINDOW_DEFINITION.windowSize == 5 * WINDOW_DEFINITION.slideBy
  {
  }

  /** A change recorded in the journal of the "position" map: the key and the new value. */
  datatype JournalEvent = JournalEvent(key: string, newValue: TrkPt)

  /**
   * Step 2: the event becomes an entry of the same key and value, stamped with
   * the point's own time, so that the windows are cut on the very time the
   * aggregator compares.
   */
  function ProjectEvent(event: JournalEvent): (r: TimestampedEntry<TrkPt>)
    ensures r.key == event.key && r.value == event.newValue
    ensures r.timestamp == TimeOf(r)
  {
    TimestampedEntry(event.newValue.time, event.key, event.newValue)
  }

  /** The result of the aggregation for one key and window: finish's entry. */
  type SpeedEntry = (Option<string>, Speed)

  /** Step 5: the window's timestamp and key are dropped, finish's entry passes on. */
  function DropTimestamp(entry: TimestampedEntry<SpeedEntry>): SpeedEntry {
    entry.value
  }

  /** Step 6, "removeStationary": only entries with a speed above zero pass. */
  predicate IsMoving(entry: SpeedEntry) {
    Positive(entry.1.metresPerSecond)
  }

  /** Steps 5, 6 and 7 in their chain; the logger of step 7 passes every item on unchanged. */
  function ToSink(results: seq<TimestampedEntry<SpeedEntry>>): (r: seq<SpeedEntry>)
    ensures forall e :: e in r ==> IsMoving(e)
    ensures forall e :: e in r ==> exists i :: 0 <= i < |results| && DropTimestamp(results[i]) == e
    ensures forall i :: 0 <= i < |results| && IsMoving(DropTimestamp(results[i])) ==> DropTimestamp(results[i]) in r
  {
    if results == [] then []
    else
      var init := results[..|results| - 1];
      var e := DropTimestamp(results[|results| - 1]);
      var r := ToSink(init) + if IsMoving(e) then [e] else [];
      assert forall i :: 0 <= i < |init| ==> results[i] == init[i];
      r
  }

  /** The number of entries across the partial inputs of a window. */
  function TotalItems(shards: seq<seq<TimestampedEntry<TrkPt>>>): nat {
    if shards == [] then 0 else TotalItems(shards[..|shards| - 1]) + |shards[|shards| - 1]|
  }

  /**
   * Step 4 before finish: every shard creates an empty aggregator and
   * accumulates its entries, then the partials are combined into one.
   */
  function Merge(shards: seq<seq<TimestampedEntry<TrkPt>>>): (r: Acc)
    ensures WellFormed(r)
    ensures r.points == TotalItems(shards)
    ensures r.key.None? <==> TotalItems(shards) == 0
  {
    if shards == [] then EMPTY
    else
      var last := shards[|shards| - 1];
      var partial := Fold(EMPTY, last);
      assert partial.points == |last| && (last != [] ==> partial.key.Some?) by {
        if last != [] { FoldFromEmpty(last); }
      }
      assert last == [] ==> partial == EMPTY;
      Combined(Merge(shards[..|shards| - 1]), partial)
  }

  /** One key's window as Jet hands it to the aggregation: its end, its key and the shards' entries. */
  datatype Window = Window(end: int, key: string, shards: seq<seq<TimestampedEntry<TrkPt>>>)

  /** Step 4: the finished result for one window, stamped with the window's end. */
  function Aggregate(w: Window, distance: (TrkPt, TrkPt) -> real): TimestampedEntry<SpeedEntry> {
    TimestampedEntry(w.end, w.key, Finish(Merge(w.shards), distance))
  }

  /** What the job writes to the "speed" map for a series of closed windows. */
  function SpeedJob(windows: seq<Window>, distance: (TrkPt, TrkPt) -> real): seq<SpeedEntry> {
    ToSink(seq(|windows|, i requires 0 <= i < |windows| => Aggregate(windows[i], distance)))
  }

  /**
   * Whatever reaches the sink has a key, a speed above zero and comes from a
   * window with at least two entries, whatever the distance function.
   */
  lemma SinkGetsOnlyMovingKeyedSpeeds(windows: seq<Window>, distance: (TrkPt, TrkPt) -> real)
    ensures forall e :: e in SpeedJob(windows, distance) ==>
      && e.0.Some? && IsMoving(e)
      && exists i :: 0 <= i < |windows| && TotalItems(windows[i].shards) > 1 && e == Finish(Merge(windows[i].shards), distance)
  {
    var results := seq(|windows|, i requires 0 <= i < |windows| => Aggregate(windows[i], distance));
    forall e | e in SpeedJob(windows, distance)
      ensures e.0.Some? && IsMoving(e)
      ensures exists i :: 0 <= i < |windows| && TotalItems(windows[i].shards) > 1 && e == Finish(Merge(windows[i].shards), distance)
    {
      var i :| 0 <= i < |results| && DropTimestamp(results[i]) == e;
      assert e == Finish(Merge(windows[i].shards), distance);
    }
  }

  /** A window whose entries all reach one shard is that shard's plain fold. */
  lemma SingleShardIsSequentialFold(items: seq<TimestampedEntry<TrkPt>>)
    ensures Merge([items]) == Fold(EMPTY, items)
  {
    assert [items][..0] == [];
    CombineEmptyIsIdentity(Fold(EMPTY, items));
  }

  /** Step 8: each entry is put into the "speed" map under its key. */
  function WriteMap(m: map<string, Speed>, entries: seq<SpeedEntry>): (r: map<string, Speed>)
    requires forall e :: e in entries ==> e.0.Some?
    ensures r.Keys == m.Keys + set e | e in entries :: e.0.value
    ensures forall k :: k in r ==> (k in m && r[k] == m[k]) || (k, r[k]) in set e | e in entries :: (e.0.value, e.1)
  {
    if entries == [] then m
    else
      var init := entries[..|entries| - 1];
      var e := entries[|entries| - 1];
      assert forall x :: x in entries <==> x in init || x == e;
      WriteMap(m, init)[e.0.value := e.1]
  }

  /** No stationary speed is ever written by the job into a map that had none. */
  lemma SpeedMapStaysMoving(m: map<string, Speed>, windows: seq<Window>, distance: (TrkPt, TrkPt) -> real)
    requires forall k :: k in m ==> Positive(m[k].metresPerSecond)
    ensures var out := SpeedJob(windows, distance);
      (forall e :: e in out ==> e.0.Some?) &&
      forall k :: k in WriteMap(m, out) ==> Positive(WriteMap(m, out)[k].metresPerSecond)
  {
    SinkGetsOnlyMovingKeyedSpeeds(windows, distance);
    var out := SpeedJob(windows, distance);
    var r := WriteMap(m, out);
    forall k | k in r
      ensures Positive(r[k].metresPerSecond)
    {
      if !(k in m && r[k] == m[k]) {
        var e :| e in out && (e.0.value, e.1) == (k, r[k]);
      }
    }
  }
}
