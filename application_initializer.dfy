/**
 * The server's start-up step: it creates every map the demo uses and, when
 * the "hamlet" map is still empty, loads the test lines into it under the
 * keys 1, 2, 3 and so on. Only the first server of a cluster finds the map
 * empty, so the lines are loaded once per cluster.
 *
 * The cluster is modelled by the two things this step touches: the set of
 * map names that exist and the contents of the "hamlet" map.
 */
module ApplicationInitializer {
  import opened Wrappers
  import opened Constants
  import TestData

  /** The lines keyed 1 to n, in the order given. */
  function Numbered(lines: seq<string>): (m: map<int, string>)
    ensures forall i :: i in m <==> 1 <= i <= |lines|
    ensures forall i :: 1 <= i <= |lines| ==> m[i] == lines[i - 1]
    ensures |m| == |lines|
  {
    if lines == [] then map[]
    else
      var before := Numbered(lines[..|lines| - 1]);
      assert |lines| !in before;
      before[|lines| := lines[|lines| - 1]]
  }

  /** What the "hamlet" map holds after start-up: left alone unless it was empty. */
  function Seeded(hamlet: map<int, string>, lines: seq<string>): (r: map<int, string>)
    ensures |hamlet| != 0 ==> r == hamlet
    ensures |hamlet| == 0 ==> |r| == |lines| && forall i :: 1 <= i <= |lines| ==> i in r && r[i] == lines[i - 1]
  {
    if |hamlet| != 0 then hamlet else Numbered(lines)
  }

  /**
   * run: getMap on every demo map name, then load the lines when the
   * "hamlet" map is empty. `loaded` is the count logged, None when loading
   * is skipped.
   */
  method Run(maps: set<string>, hamlet: map<int, string>, lines: seq<string>)
    returns (maps': set<string>, hamlet': map<int, string>, loaded: Option<nat>)
    ensures maps' == maps + set name | name in IMAP_NAMES
    ensures hamlet' == Seeded(hamlet, lines)
    ensures loaded.Some? <==> |hamlet| == 0
    ensures loaded.Some? ==> loaded.value == |lines| == |hamlet'|
  {
    maps' := maps;
    for n := 0 to |IMAP_NAMES|
      invariant maps' == maps + set i | 0 <= i < n :: IMAP_NAMES[i]
    {
      maps' := maps' + {IMAP_NAMES[n]};
    }
    assert maps' == maps + set name | name in IMAP_NAMES by {
      assert forall name :: name in IMAP_NAMES <==> exists i :: 0 <= i < |IMAP_NAMES| && IMAP_NAMES[i] == name;
    }

    hamlet' := hamlet;
    if |hamlet'| != 0 {
      loaded := None;
    } else {
      var count := 0;
      for n := 0 to |lines|
        invariant count == n
        invariant hamlet' == Numbered(lines[..n])
      {
        assert lines[..n + 1][..n] == lines[..n];
        var line := lines[n];
        count := count + 1;
        hamlet' := hamlet'[count := line];
      }
      assert lines[..|lines|] == lines;
      loaded := Some(count);
    }
  }

  /** A second server finds the lines already there and leaves them alone: start-up is idempotent. */
  lemma SecondServerSkipsLoading(hamlet: map<int, string>, lines: seq<string>)
    ensures Seeded(Seeded(hamlet, lines), lines) == Seeded(hamlet, lines)
  {
  }

  /** A fresh cluster gets all 35 lines of the test data, the first under key 1 and the last under key 35. */
  lemma FreshClusterGetsHamlet()
    ensures |Seeded(map[], TestData.HAMLET)| == 35
    ensures Seeded(map[], TestData.HAMLET)[1] == TestData.HAMLET[0]
    ensures Seeded(map[], TestData.HAMLET)[35] == "Be all my ſinnes remembred."
  {
  }
}
