/**
 * The per-key, per-window reduction of tracking points to a speed. The
 * accumulator remembers the key, the earliest and the latest point it has seen
 * and how many points it has seen; `finish` turns that into a speed from the
 * first point to the last.
 *
 * `Accumulated`, `Combined` and `Finish` are the specification, on the value
 * `Acc`; the class `Aggregator` is the mutable object the pipeline works on,
 * and its methods are proved to change its fields exactly as the functions say.
 */
module SpeedoAggregation {
  import opened Wrappers
  import opened Track
  import JavaLang

  /** The accumulator's four fields; `None` stands for Java's null. */
  datatype Acc = Acc(key: Option<string>, first: Option<TrkPt>, last: Option<TrkPt>, points: int)

  /** A freshly constructed aggregator. */
  const EMPTY: Acc := Acc(None, None, None, 0)

  /**
   * The shape every reachable accumulator has: empty with no points, or a key,
   * a first and a last point in time order and at least one point.
   */
  predicate WellFormed(a: Acc) {
    if a.key.None? then
      a.first.None? && a.last.None? && a.points == 0
    else
      a.first.Some? && a.last.Some? && a.points >= 1 && a.first.value.time <= a.last.value.time
  }

  function Min(x: int, y: int): int { if x <= y then x else y }
  function Max(x: int, y: int): int { if x >= y then x else y }

  function FirstTime(a: Acc): int requires a.first.Some? { a.first.value.time }
  function LastTime(a: Acc): int requires a.last.Some? { a.last.value.time }

  /**
   * accumulate: the first input sets the key and both ends; every later input
   * adds one point and replaces an end only when strictly earlier or later.
   * The key of a later input is not compared with the stored key.
   */
  function Accumulated(a: Acc, input: TimestampedEntry<TrkPt>): (r: Acc)
    requires WellFormed(a)
    ensures WellFormed(r)
    ensures r.points == a.points + 1
    ensures r.key == if a.key.None? then Some(input.key) else a.key
    ensures FirstTime(r) <= input.value.time <= LastTime(r)
    ensures a.key.Some? ==> FirstTime(r) <= FirstTime(a) && LastTime(a) <= LastTime(r)
  {
    if a.key.None? then
      Acc(Some(input.key), Some(input.value), Some(input.value), 1)
    else
      var first := if a.first.value.time > input.value.time then Some(input.value) else a.first;
      var last := if a.last.value.time < input.value.time then Some(input.value) else a.last;
      Acc(a.key, first, last, a.points + 1)
  }

  /**
   * combine: the counts are added; an empty receiver takes the other side's
   * key and ends, an empty argument leaves the receiver's alone, and otherwise
   * each end becomes the EARLIER of the two candidates, `last` included.
   */
  function Combined(a: Acc, b: Acc): (r: Acc)
    requires WellFormed(a) && WellFormed(b)
    ensures WellFormed(r)
    ensures r.points == a.points + b.points
    ensures r.key == if a.key.None? then b.key else a.key
    ensures a.key.None? ==> r.first == b.first && r.last == b.last
    ensures b.key.None? ==> r == a
  {
    var points := a.points + b.points;
    if a.key.None? then
      Acc(b.key, b.first, b.last, points)
    else if b.key.None? then
      a.(points := points)
    else
      var first := if a.first.value.time > b.first.value.time then b.first else a.first;
      var last := if a.last.value.time > b.last.value.time then b.last else a.last;
      Acc(a.key, first, last, points)
  }

  /** Folding a window's entries into an accumulator, in arrival order. */
  function Fold(a: Acc, items: seq<TimestampedEntry<TrkPt>>): (r: Acc)
    requires WellFormed(a)
    ensures WellFormed(r)
  {
    if items == [] then a else Accumulated(Fold(a, items[..|items| - 1]), items[|items| - 1])
  }

  /** `metres / seconds` with the whole seconds as the divisor. */
  function Divide(metres: real, seconds: int): (r: Rate)
    ensures seconds == 0 <==> r.OverZero?
  {
    if seconds == 0 then OverZero(metres) else Finite(metres / seconds as real)
  }

  /**
   * finish: with fewer than two points the speed is the default one; otherwise
   * the time is the last point's, the speed stays zero when the two ends have
   * the same coordinates, and else is the great-circle distance from the last
   * point to the first over the elapsed whole seconds. `distance` stands for
   * the haversine formula, whose floating-point arithmetic is not modelled.
   */
  function Finish(a: Acc, distance: (TrkPt, TrkPt) -> real): (r: (Option<string>, Speed))
    requires WellFormed(a)
    ensures r.0 == a.key
    ensures a.points <= 1 ==> r.1 == DEFAULT_SPEED
    ensures a.points > 1 ==> r.1.time == LastTime(a)
    ensures (a.points > 1 && a.first.value.latitude == a.last.value.latitude
             && a.first.value.longitude == a.last.value.longitude)
            ==> r.1.metresPerSecond == Finite(0.0)
    ensures Positive(r.1.metresPerSecond) ==> a.points > 1 && r.0.Some?
  {
    if a.points > 1 then
      var first, last := a.first.value, a.last.value;
      var rate :=
        if last.latitude != first.latitude || last.longitude != first.longitude then
          Divide(distance(last, first), JavaLang.Quot(last.time - first.time, 1000))
        else
          Finite(0.0);
      (a.key, Speed(rate, last.time))
    else
      (a.key, DEFAULT_SPEED)
  }

  /** The mutable aggregator Jet creates per key and window. */
  class Aggregator {
    var key: Option<string>
    var first: Option<TrkPt>
    var last: Option<TrkPt>
    var points: int

    function State(): Acc
      reads this
    {
      Acc(key, first, last, points)
    }

    ghost predicate Valid()
      reads this
    {
      WellFormed(State())
    }

    constructor ()
      ensures Valid() && State() == EMPTY
    {
      key, first, last, points := None, None, None, 0;
    }

    method Accumulate(input: TimestampedEntry<TrkPt>)
      requires Valid()
      modifies this
      ensures Valid()
      ensures State() == Accumulated(old(State()), input)
    {
      if key.None? {
        key := Some(input.key);
        points := 1;
        first, last := Some(input.value), Some(input.value);
      } else {
        points := points + 1;
        if first.value.time > input.value.time {
          first := Some(input.value);
        }
        if last.value.time < input.value.time {
          last := Some(input.value);
        }
      }
    }

    /** `that` may be this very aggregator, as in Java. */
    method Combine(that: Aggregator)
      requires Valid() && that.Valid()
      modifies this
      ensures Valid()
      ensures State() == Combined(old(State()), old(that.State()))
    {
      points := points + that.points;
      if key.None? {
        key := that.key;
        first := that.first;
        last := that.last;
      } else {
        if that.key.Some? {
          if first.value.time > that.first.value.time {
            first := that.first;
          }
          if last.value.time > that.last.value.time {
            last := that.last;
          }
        }
      }
    }
  }

  // ---------------------------------------------------------------------------
  // Properties of accumulate

  /** A point whose time ties with a stored end does not replace it. */
  lemma AccumulateKeepsTies(a: Acc, input: TimestampedEntry<TrkPt>)
    requires WellFormed(a) && a.key.Some?
    ensures input.value.time == FirstTime(a) ==> Accumulated(a, input).first == a.first
    ensures input.value.time == LastTime(a) ==> Accumulated(a, input).last == a.last
    ensures FirstTime(a) < input.value.time < LastTime(a) ==> Accumulated(a, input) == a.(points := a.points + 1)
  {
  }

  /** The time of `item`, for stating facts about all items of a window. */
  function TimeOf(item: TimestampedEntry<TrkPt>): int { item.value.time }

  /**
   * Folding a non-empty window from empty: the key is the first item's, the
   * count is the number of items, the first point is an item with the least
   * time and the last point an item with the greatest time.
   */
  lemma {:induction false} FoldFromEmpty(items: seq<TimestampedEntry<TrkPt>>)
    requires |items| > 0
    ensures var r := Fold(EMPTY, items);
      && r.key == Some(items[0].key)
      && r.points == |items|
      && (exists i :: 0 <= i < |items| && items[i].value == r.first.value)
      && (exists i :: 0 <= i < |items| && items[i].value == r.last.value)
      && (forall i :: 0 <= i < |items| ==> FirstTime(r) <= TimeOf(items[i]) <= LastTime(r))
  {
    var n := |items| - 1;
    if n > 0 {
      var init := items[..n];
      FoldFromEmpty(init);
      var p := Fold(EMPTY, init);
      var r := Fold(EMPTY, items);
      assert r == Accumulated(p, items[n]);
      var i :| 0 <= i < |init| && init[i].value == p.first.value;
      var j :| 0 <= j < |init| && init[j].value == p.last.value;
      if r.first == p.first {
        assert items[i].value == r.first.value;
      } else {
        assert items[n].value == r.first.value;
      }
      if r.last == p.last {
        assert items[j].value == r.last.value;
      } else {
        assert items[n].value == r.last.value;
      }
      forall k | 0 <= k < |items|
        ensures FirstTime(r) <= TimeOf(items[k]) <= LastTime(r)
      {
        if k < n {
          assert items[k] == init[k];
        }
      }
    } else {
      assert Fold(EMPTY, items) == Accumulated(EMPTY, items[0]);
    }
  }

  /**
   * Arrival order does not matter for the count or for the times of the two
   * ends: any rearrangement of a window yields the same three numbers.
   */
  lemma FoldOrderIndependent(xs: seq<TimestampedEntry<TrkPt>>, ys: seq<TimestampedEntry<TrkPt>>)
    requires |xs| > 0 && multiset(xs) == multiset(ys)
    ensures Fold(EMPTY, xs).points == Fold(EMPTY, ys).points
    ensures FirstTime(Fold(EMPTY, xs)) == FirstTime(Fold(EMPTY, ys))
    ensures LastTime(Fold(EMPTY, xs)) == LastTime(Fold(EMPTY, ys))
  {
    assert |xs| == |multiset(xs)| == |multiset(ys)| == |ys|;
    FoldFromEmpty(xs);
    FoldFromEmpty(ys);
    var rx, ry := Fold(EMPTY, xs), Fold(EMPTY, ys);
    var i :| 0 <= i < |xs| && xs[i].value == rx.first.value;
    var j :| 0 <= j < |ys| && ys[j].value == ry.first.value;
    var k :| 0 <= k < |xs| && xs[k].value == rx.last.value;
    var l :| 0 <= l < |ys| && ys[l].value == ry.last.value;
    assert xs[i] in multiset(ys);
    var i' :| 0 <= i' < |ys| && ys[i'] == xs[i];
    assert ys[j] in multiset(xs);
    var j' :| 0 <= j' < |xs| && xs[j'] == ys[j];
    assert xs[k] in multiset(ys);
    var k' :| 0 <= k' < |ys| && ys[k'] == xs[k];
    assert ys[l] in multiset(xs);
    var l' :| 0 <= l' < |xs| && xs[l'] == ys[l];
    assert TimeOf(xs[j']) == FirstTime(ry) && TimeOf(ys[i']) == FirstTime(rx);
    assert TimeOf(xs[l']) == LastTime(ry) && TimeOf(ys[k']) == LastTime(rx);
  }

  // ---------------------------------------------------------------------------
  // Properties of combine

  /** Combining with an empty partial, on either side, changes nothing but the count it adds (zero). */
  lemma CombineEmptyIsIdentity(a: Acc)
    requires WellFormed(a)
    ensures Combined(EMPTY, a) == a
    ensures Combined(a, EMPTY) == a
  {
  }

  /** With both sides non-empty, each merged end is the minimum of the two: `last` too. */
  lemma CombineTakesEarlierEnds(a: Acc, b: Acc)
    requires WellFormed(a) && WellFormed(b) && a.key.Some? && b.key.Some?
    ensures var r := Combined(a, b);
      && FirstTime(r) == Min(FirstTime(a), FirstTime(b))
      && LastTime(r) == Min(LastTime(a), LastTime(b))
      && (FirstTime(a) == FirstTime(b) ==> r.first == a.first)
      && (LastTime(a) == LastTime(b) ==> r.last == a.last)
  {
  }

  /** The count and the two end times of a partial; the key is left out. */
  function Summary(a: Acc): (int, Option<int>, Option<int>)
    requires WellFormed(a)
  {
    if a.key.None? then (a.points, None, None) else (a.points, Some(FirstTime(a)), Some(LastTime(a)))
  }

  /** combine is commutative and associative on counts and end times. */
  lemma CombineCommutesAndAssociates(a: Acc, b: Acc, c: Acc)
    requires WellFormed(a) && WellFormed(b) && WellFormed(c)
    ensures Summary(Combined(a, b)) == Summary(Combined(b, a))
    ensures Summary(Combined(Combined(a, b), c)) == Summary(Combined(a, Combined(b, c)))
  {
  }

  /** Folding two runs of items in one go starts at the earlier of the two runs' first times. */
  lemma FoldOfConcatFirst(xs: seq<TimestampedEntry<TrkPt>>, ys: seq<TimestampedEntry<TrkPt>>)
    requires |xs| > 0 && |ys| > 0
    ensures FirstTime(Fold(EMPTY, xs + ys)) == Min(FirstTime(Fold(EMPTY, xs)), FirstTime(Fold(EMPTY, ys)))
  {
    var px, py, whole := Fold(EMPTY, xs), Fold(EMPTY, ys), Fold(EMPTY, xs + ys);
    FoldFromEmpty(xs);
    FoldFromEmpty(ys);
    FoldFromEmpty(xs + ys);
    var zs := xs + ys;
    var i :| 0 <= i < |zs| && zs[i].value == whole.first.value;
    var a :| 0 <= a < |xs| && xs[a].value == px.first.value;
    var b :| 0 <= b < |ys| && ys[b].value == py.first.value;
    assert zs[a] == xs[a] && zs[|xs| + b] == ys[b];
    if i < |xs| { assert zs[i] == xs[i]; } else { assert zs[i] == ys[i - |xs|]; }
  }

  /** Folding two runs of items in one go ends at the later of the two runs' last times. */
  lemma FoldOfConcatLast(xs: seq<TimestampedEntry<TrkPt>>, ys: seq<TimestampedEntry<TrkPt>>)
    requires |xs| > 0 && |ys| > 0
    ensures LastTime(Fold(EMPTY, xs + ys)) == Max(LastTime(Fold(EMPTY, xs)), LastTime(Fold(EMPTY, ys)))
  {
    var px, py, whole := Fold(EMPTY, xs), Fold(EMPTY, ys), Fold(EMPTY, xs + ys);
    FoldFromEmpty(xs);
    FoldFromEmpty(ys);
    FoldFromEmpty(xs + ys);
    var zs := xs + ys;
    var j :| 0 <= j < |zs| && zs[j].value == whole.last.value;
    var c :| 0 <= c < |xs| && xs[c].value == px.last.value;
    var d :| 0 <= d < |ys| && ys[d].value == py.last.value;
    assert zs[c] == xs[c] && zs[|xs| + d] == ys[d];
    if j < |xs| { assert zs[j] == xs[j]; } else { assert zs[j] == ys[j - |xs|]; }
  }

  /**
   * Merging two partials agrees with folding all their items in one go on the
   * count and the first time, but the merged last time is the smaller of the
   * two partial last times, where the one-go fold has the larger.
   */
  lemma CombineVersusSequentialFold(xs: seq<TimestampedEntry<TrkPt>>, ys: seq<TimestampedEntry<TrkPt>>)
    requires |xs| > 0 && |ys| > 0
    ensures var merged, whole, px, py := Combined(Fold(EMPTY, xs), Fold(EMPTY, ys)), Fold(EMPTY, xs + ys), Fold(EMPTY, xs), Fold(EMPTY, ys);
      && merged.points == whole.points
      && FirstTime(merged) == FirstTime(whole)
      && LastTime(merged) == Min(LastTime(px), LastTime(py))
      && LastTime(whole) == Max(LastTime(px), LastTime(py))
  {
    var px, py := Fold(EMPTY, xs), Fold(EMPTY, ys);
    FoldFromEmpty(xs);
    FoldFromEmpty(ys);
    FoldFromEmpty(xs + ys);
    CombineTakesEarlierEnds(px, py);
    FoldOfConcatFirst(xs, ys);
    FoldOfConcatLast(xs, ys);
  }

  /**
   * A window whose three points arrive on two shards, the latest on the first
   * shard: merging the partials ends the window at 60 s, while folding the same
   * points on one shard ends it at 120 s.
   */
  lemma CombineCanLoseTheLatestPoint()
    ensures var p0, p1, p2 := TrkPt(0, 0.0, 0.0), TrkPt(120_000, 0.0, 0.02), TrkPt(60_000, 0.0, 0.01);
      var xs := [TimestampedEntry(0, "neil", p0), TimestampedEntry(120_000, "neil", p1)];
      var ys := [TimestampedEntry(60_000, "neil", p2)];
      && Combined(Fold(EMPTY, xs), Fold(EMPTY, ys)).last == Some(p2)
      && Fold(EMPTY, xs + ys).last == Some(p1)
  {
    var p0, p1, p2 := TrkPt(0, 0.0, 0.0), TrkPt(120_000, 0.0, 0.02), TrkPt(60_000, 0.0, 0.01);
    var xs := [TimestampedEntry(0, "neil", p0), TimestampedEntry(120_000, "neil", p1)];
    var ys := [TimestampedEntry(60_000, "neil", p2)];
    assert xs[..1] == [xs[0]] && [xs[0]][..0] == [];
    assert (xs + ys)[..2] == xs;
    assert Fold(EMPTY, xs[..1]) == Acc(Some("neil"), Some(p0), Some(p0), 1);
    assert Fold(EMPTY, xs) == Acc(Some("neil"), Some(p0), Some(p1), 2);
  }

  // ---------------------------------------------------------------------------
  // Properties of finish

  /** When the two ends differ in either coordinate, the distance is divided by the elapsed time truncated to whole seconds. */
  lemma FinishTruncatesElapsedSeconds(a: Acc, distance: (TrkPt, TrkPt) -> real, seconds: nat)
    requires WellFormed(a) && a.points > 1
    requires a.first.value.latitude != a.last.value.latitude || a.first.value.longitude != a.last.value.longitude
    requires 1000 * seconds <= LastTime(a) - FirstTime(a) < 1000 * (seconds + 1)
    ensures Finish(a, distance).1.metresPerSecond
              == Divide(distance(a.last.value, a.first.value), seconds)
  {
    var q := JavaLang.Quot(LastTime(a) - FirstTime(a), 1000);
    assert q == seconds by {
      var e := LastTime(a) - FirstTime(a);
      assert 0 <= e - q * 1000 < 1000;
      assert -1000 < (q - seconds) * 1000 < 1000;
    }
  }

  /** A window with a single point has speed zero at time zero. */
  lemma SinglePointWindowIsStationary(item: TimestampedEntry<TrkPt>, distance: (TrkPt, TrkPt) -> real)
    ensures Finish(Fold(EMPTY, [item]), distance) == (Some(item.key), DEFAULT_SPEED)
  {
    assert [item][..0] == [];
  }
}
