/**
 * The word-count job: every line of the "hamlet" map is split at runs of
 * non-word characters, each piece is lower-cased, and the pieces are counted
 * per distinct word into the "words" map. The line numbers are not used, and
 * the map is read in no particular order, so the lines arrive here as a
 * sequence in any order.
 *
 * The pattern is `\W+` without Unicode character classes: a word character is
 * an ASCII letter, digit or underscore, so the long s and the curly
 * apostrophe of the First Folio spelling split words.
 */
module WordCount {
  import opened JavaLang

  /** `\w`: an ASCII letter, an ASCII digit or the underscore. */
  predicate IsWordChar(c: char) {
    'a' <= c <= 'z' || 'A' <= c <= 'Z' || '0' <= c <= '9' || c == '_'
  }

  predicate IsWord(s: string) {
    forall i :: 0 <= i < |s| ==> IsWordChar(s[i])
  }

  /** The word characters of s, in order. */
  function WordChars(s: string): string {
    if s == [] then [] else WordChars(s[..|s| - 1]) + if IsWordChar(s[|s| - 1]) then [s[|s| - 1]] else []
  }

  function Flatten(pieces: seq<string>): string {
    if pieces == [] then [] else Flatten(pieces[..|pieces| - 1]) + pieces[|pieces| - 1]
  }

  /** Flattening after a piece with one character more gives one character more. */
  lemma FlattenLastGrows(init: seq<string>, last: string, c: char)
    ensures Flatten(init + [last + [c]]) == Flatten(init + [last]) + [c]
  {
    var q := init + [last + [c]];
    var r := init + [last];
    assert q[..|q| - 1] == init && q[|q| - 1] == last + [c];
    assert r[..|r| - 1] == init && r[|r| - 1] == last;
  }

  /**
   * The text between the matches of `\W+`: the text before the first run of
   * separators, the words between runs, and the text after the last run.
   */
  function Pieces(s: string): (r: seq<string>)
    ensures |r| >= 1
  {
    if s == [] then [""]
    else
      var init := s[..|s| - 1];
      var c := s[|s| - 1];
      var p := Pieces(init);
      if IsWordChar(c) then p[..|p| - 1] + [p[|p| - 1] + [c]]
      else if init == [] || IsWordChar(init[|init| - 1]) then p + [""]
      else p
  }

  /** Pieces(s) is Pieces of s without its last character, with that character placed. */
  lemma PiecesStep(s: string)
    requires s != []
    ensures var init := s[..|s| - 1];
      && init + [s[|s| - 1]] == s
      && (forall i :: 0 <= i < |init| ==> init[i] == s[i])
  {
  }

  /** Every piece is a word. */
  lemma {:induction false} PiecesAreWords(s: string)
    ensures forall i :: 0 <= i < |Pieces(s)| ==> IsWord(Pieces(s)[i])
  {
    if s != [] {
      var init := s[..|s| - 1];
      var c := s[|s| - 1];
      var p := Pieces(init);
      PiecesAreWords(init);
      var r := Pieces(s);
      if IsWordChar(c) {
        assert forall i :: 0 <= i < |r| - 1 ==> r[i] == p[i];
        assert r[|r| - 1] == p[|p| - 1] + [c];
      } else if init == [] || IsWordChar(init[|init| - 1]) {
        assert forall i :: 0 <= i < |p| ==> r[i] == p[i];
      }
    }
  }

  /** The last piece is empty exactly when s ends with a separator. */
  lemma {:induction false} PiecesLast(s: string)
    requires s != []
    ensures var r := Pieces(s); r[|r| - 1] == [] <==> !IsWordChar(s[|s| - 1])
  {
    var init := s[..|s| - 1];
    if init != [] && !IsWordChar(s[|s| - 1]) && !IsWordChar(init[|init| - 1]) {
      PiecesLast(init);
    }
  }

  /** Only the first and the last piece can be empty. */
  lemma {:induction false} PiecesInnerNonEmpty(s: string)
    ensures forall i :: 0 < i < |Pieces(s)| - 1 ==> Pieces(s)[i] != []
  {
    if s != [] {
      var init := s[..|s| - 1];
      var c := s[|s| - 1];
      var p := Pieces(init);
      PiecesInnerNonEmpty(init);
      var r := Pieces(s);
      if IsWordChar(c) {
        assert r == p[..|p| - 1] + [p[|p| - 1] + [c]];
        forall i | 0 < i < |r| - 1 ensures r[i] != [] {
          assert r[i] == p[i];
        }
      } else if init == [] || IsWordChar(init[|init| - 1]) {
        assert r == p + [""];
        if init != [] {
          PiecesLast(init);
        }
        forall i | 0 < i < |r| - 1 ensures r[i] != [] {
          assert r[i] == p[i];
        }
      }
    }
  }

  /** The first piece is empty exactly when s starts with a separator. */
  lemma {:induction false} PiecesFirst(s: string)
    requires s != []
    ensures Pieces(s)[0] == [] <==> !IsWordChar(s[0])
  {
    var init := s[..|s| - 1];
    var c := s[|s| - 1];
    if init != [] {
      PiecesStep(s);
      PiecesFirst(init);
      PiecesSingle(init);
      var p := Pieces(init);
      var r := Pieces(s);
      if IsWordChar(c) && |p| == 1 {
        assert r == p[..0] + [p[0] + [c]];
        assert r[0] == p[0] + [c];
      } else {
        assert r[0] == p[0];
      }
    }
  }

  /** There is one piece, s itself, exactly when nothing matches. */
  lemma {:induction false} PiecesSingle(s: string)
    ensures |Pieces(s)| == 1 <==> IsWord(s)
    ensures |Pieces(s)| == 1 ==> Pieces(s) == [s]
  {
    if s != [] {
      var init := s[..|s| - 1];
      var c := s[|s| - 1];
      PiecesStep(s);
      PiecesSingle(init);
      if IsWordChar(c) {
        assert IsWord(s) <==> IsWord(init);
      } else {
        assert !IsWord(s);
        if init != [] && !IsWordChar(init[|init| - 1]) {
          assert !IsWord(init);
        }
      }
    }
  }

  /**
   * Every piece is a word; only the first and the last piece can be empty,
   * the first exactly when s starts with a separator and the last exactly
   * when it ends with one; and there is one piece exactly when nothing matches.
   */
  lemma PiecesShape(s: string)
    ensures var r := Pieces(s);
      && (forall i :: 0 <= i < |r| ==> IsWord(r[i]))
      && (forall i :: 0 < i < |r| - 1 ==> r[i] != [])
      && (s != [] ==> (r[|r| - 1] == [] <==> !IsWordChar(s[|s| - 1])))
      && (s != [] ==> (r[0] == [] <==> !IsWordChar(s[0])))
      && (|r| == 1 <==> IsWord(s))
      && (|r| == 1 ==> r == [s])
  {
    PiecesAreWords(s);
    PiecesInnerNonEmpty(s);
    PiecesSingle(s);
    if s != [] {
      PiecesLast(s);
      PiecesFirst(s);
    }
  }

  /** Joining the pieces gives back the word characters of s: no word character is lost or added. */
  lemma {:induction false} PiecesKeepWordChars(s: string)
    ensures Flatten(Pieces(s)) == WordChars(s)
  {
    if s != [] {
      var init := s[..|s| - 1];
      var c := s[|s| - 1];
      var p := Pieces(init);
      PiecesKeepWordChars(init);
      if IsWordChar(c) {
        assert p == p[..|p| - 1] + [p[|p| - 1]];
        FlattenLastGrows(p[..|p| - 1], p[|p| - 1], c);
      } else if init == [] || IsWordChar(init[|init| - 1]) {
        var r := p + [""];
        assert r[..|r| - 1] == p;
      }
    }
  }

  /** Pattern.split with limit 0: trailing empty strings are removed unless nothing matched. */
  function DropTrailingEmpty(xs: seq<string>): (r: seq<string>)
    ensures |r| <= |xs| && r == xs[..|r|]
    ensures r != [] ==> r[|r| - 1] != []
    ensures forall i :: |r| <= i < |xs| ==> xs[i] == []
  {
    if xs != [] && xs[|xs| - 1] == [] then DropTrailingEmpty(xs[..|xs| - 1]) else xs
  }

  /** WORDS_PATTERN.split(line). */
  function Split(s: string): seq<string> {
    var p := Pieces(s);
    if |p| == 1 then p else DropTrailingEmpty(p)
  }

  /**
   * The tokens of a split: all words; none empty except the first, which is
   * empty exactly when the line starts with a separator; the whole line when
   * it has no separator; nothing at all when it has nothing but separators.
   */
  lemma SplitShape(s: string)
    ensures forall i :: 0 <= i < |Split(s)| ==> IsWord(Split(s)[i])
    ensures forall i :: 0 < i < |Split(s)| ==> Split(s)[i] != []
    ensures s != [] && Split(s) != [] ==> (Split(s)[0] == [] <==> !IsWordChar(s[0]))
    ensures IsWord(s) ==> Split(s) == [s]
    ensures s != [] && WordChars(s) == [] ==> Split(s) == []
  {
    PiecesShape(s);
    PiecesKeepWordChars(s);
    var p := Pieces(s);
    if s != [] && WordChars(s) == [] && |p| > 1 {
      FlattenEmpty(p);
    }
  }

  /** Pieces that join to nothing are all empty. */
  lemma {:induction false} FlattenEmpty(pieces: seq<string>)
    requires Flatten(pieces) == []
    ensures forall i :: 0 <= i < |pieces| ==> pieces[i] == []
    ensures DropTrailingEmpty(pieces) == []
  {
    if pieces != [] {
      FlattenEmpty(pieces[..|pieces| - 1]);
      assert forall i :: 0 <= i < |pieces| - 1 ==> pieces[i] == pieces[..|pieces| - 1][i];
    }
  }

  /** Separators after a word start exactly one new, still empty piece. */
  lemma {:induction false} PiecesAppendSeparators(s: string, sep: string)
    requires s != [] && IsWordChar(s[|s| - 1])
    requires sep != [] && forall i :: 0 <= i < |sep| ==> !IsWordChar(sep[i])
    ensures Pieces(s + sep) == Pieces(s) + [""]
  {
    var t := s + sep;
    if |sep| == 1 {
      assert t[..|t| - 1] == s;
    } else {
      var init := sep[..|sep| - 1];
      PiecesAppendSeparators(s, init);
      assert t[..|t| - 1] == s + init;
      assert (s + init)[|s + init| - 1] == init[|init| - 1];
    }
  }

  /** A word after separators becomes the last piece. */
  lemma {:induction false} PiecesAppendWord(s: string, w: string)
    requires s != [] && !IsWordChar(s[|s| - 1]) && Pieces(s)[|Pieces(s)| - 1] == []
    requires IsWord(w)
    ensures var p := Pieces(s); Pieces(s + w) == p[..|p| - 1] + [w]
  {
    var p := Pieces(s);
    if w == [] {
      assert s + w == s;
      assert p == p[..|p| - 1] + [[]];
    } else {
      var init := w[..|w| - 1];
      PiecesAppendWord(s, init);
      var t := s + w;
      assert t[..|t| - 1] == s + init;
      assert init + [w[|w| - 1]] == w;
    }
  }

  /** One more separated word adds exactly that word to the pieces. */
  lemma NextWord(s: string, sep: string, w: string)
    requires s != [] && IsWordChar(s[|s| - 1])
    requires sep != [] && forall i :: 0 <= i < |sep| ==> !IsWordChar(sep[i])
    requires IsWord(w)
    ensures Pieces(s + sep + w) == Pieces(s) + [w]
  {
    PiecesAppendSeparators(s, sep);
    assert (s + sep)[|s + sep| - 1] == sep[|sep| - 1];
    PiecesAppendWord(s + sep, w);
  }

  predicate IsSeparator(sep: string) {
    sep != [] && forall i :: 0 <= i < |sep| ==> !IsWordChar(sep[i])
  }

  /** The words joined by one separator. */
  function Join(ws: seq<string>, sep: string): string
    requires ws != []
  {
    if |ws| == 1 then ws[0] else Join(ws[..|ws| - 1], sep) + sep + ws[|ws| - 1]
  }

  /** A word alone is one piece. */
  lemma PiecesOfWord(w: string)
    requires IsWord(w)
    ensures Pieces(w) == [w]
  {
    PiecesShape(w);
  }

  lemma {:induction false} PiecesJoin(ws: seq<string>, sep: string)
    requires ws != [] && IsSeparator(sep)
    requires forall i :: 0 <= i < |ws| ==> ws[i] != [] && IsWord(ws[i])
    ensures Pieces(Join(ws, sep)) == ws
  {
    if |ws| == 1 {
      PiecesOfWord(ws[0]);
    } else {
      var init := ws[..|ws| - 1];
      PiecesJoin(init, sep);
      JoinEndsWithLastWord(init, sep);
      NextWord(Join(init, sep), sep, ws[|ws| - 1]);
      assert init + [ws[|ws| - 1]] == ws;
    }
  }

  /** Splitting words joined by a separator gives back the words: split inverts join. */
  lemma SplitJoin(ws: seq<string>, sep: string)
    requires ws != [] && IsSeparator(sep)
    requires forall i :: 0 <= i < |ws| ==> ws[i] != [] && IsWord(ws[i])
    ensures Split(Join(ws, sep)) == ws
  {
    PiecesJoin(ws, sep);
  }

  lemma JoinEndsWithLastWord(ws: seq<string>, sep: string)
    requires ws != [] && ws[|ws| - 1] != []
    ensures |Join(ws, sep)| >= |ws[|ws| - 1]|
    ensures Join(ws, sep)[|Join(ws, sep)| - 1] == ws[|ws| - 1][|ws[|ws| - 1]| - 1]
  {
  }

  /** A line that starts with separators gives an empty first token, which is counted like any word. */
  lemma {:induction false} LeadingSeparatorGivesEmptyToken(sep: string, w: string)
    requires IsSeparator(sep) && w != [] && IsWord(w)
    ensures Split(sep + w) == ["", w]
  {
    SeparatorsAlone(sep);
    PiecesAppendWord(sep, w);
  }

  /** A line of separators only has two empty pieces, and splits into nothing. */
  lemma {:induction false} SeparatorsAlone(sep: string)
    requires IsSeparator(sep)
    ensures Pieces(sep) == ["", ""]
    ensures Split(sep) == []
  {
    var init := sep[..|sep| - 1];
    if init != [] {
      SeparatorsAlone(init);
    } else {
      assert Pieces(init) == [""];
    }
  }

  /** The worked example of the job's description: six tokens. */
  lemma ToBeOrNotToBe()
    ensures Split("To be or not to be") == ["To", "be", "or", "not", "to", "be"]
  {
    var ws := ["To", "be", "or", "not", "to", "be"];
    SplitJoin(ws, " ");
    assert Join(ws, " ") == "To be or not to be" by {
      assert Join(ws[..1], " ") == "To";
      assert ws[..2][..1] == ws[..1];
      assert Join(ws[..2], " ") == "To be";
      assert ws[..3][..2] == ws[..2];
      assert Join(ws[..3], " ") == "To be or";
      assert ws[..4][..3] == ws[..3];
      assert Join(ws[..4], " ") == "To be or not";
      assert ws[..5][..4] == ws[..4];
      assert Join(ws[..5], " ") == "To be or not to";
      assert ws[..5] == ws[..|ws| - 1];
    }
  }

  /** The long s and the curly apostrophe are separators: "to ſleepe" is two tokens and "’tis" starts with an empty one. */
  lemma FolioLettersSplitWords()
    ensures Split("to \U{017F}leepe") == ["to", "leepe"]
    ensures Split("Whether ’tis") == ["Whether", "tis"]
    ensures Split("’tis") == ["", "tis"]
  {
    SplitJoin(["to", "leepe"], " \U{017F}");
    assert Join(["to", "leepe"], " \U{017F}") == "to \U{017F}leepe" by { assert ["to", "leepe"][..1] == ["to"]; }
    SplitJoin(["Whether", "tis"], " ’");
    assert Join(["Whether", "tis"], " ’") == "Whether ’tis" by { assert ["Whether", "tis"][..1] == ["Whether"]; }
    LeadingSeparatorGivesEmptyToken("’", "tis");
    assert "’" + "tis" == "’tis";
  }

  // ---------------------------------------------------------------------------
  // Lower-casing and counting

  /** String.toLowerCase; exact on tokens, whose characters are all ASCII. */
  function Lower(t: string): (r: string)
    ensures |r| == |t|
    ensures forall i :: 0 <= i < |t| ==> r[i] == LowerChar(t[i])
  {
    seq(|t|, i requires 0 <= i < |t| => LowerChar(t[i]))
  }

  /** Steps 2 and 3 for one line: the line's tokens, lower-cased. */
  function LineTokens(line: string): seq<string> {
    var parts := Split(line);
    seq(|parts|, i requires 0 <= i < |parts| => Lower(parts[i]))
  }

  /** The outputs of f for every item, in order: Jet's flatMap over a finite input. */
  function FlatMap(xs: seq<string>, f: string -> seq<string>): seq<string> {
    if xs == [] then [] else FlatMap(xs[..|xs| - 1], f) + f(xs[|xs| - 1])
  }

  /** Steps 2 and 3 over every line. */
  function Tokens(lines: seq<string>): seq<string> {
    FlatMap(lines, LineTokens)
  }

  lemma {:induction false} FlatMapConcat(a: seq<string>, b: seq<string>, f: string -> seq<string>)
    ensures FlatMap(a + b, f) == FlatMap(a, f) + FlatMap(b, f)
  {
    if b == [] {
      assert a + b == a;
    } else {
      var init := b[..|b| - 1];
      var ab := a + b;
      assert ab[..|ab| - 1] == a + init;
      assert ab[|ab| - 1] == b[|b| - 1];
      FlatMapConcat(a, init, f);
    }
  }

  /** Taking one item out of the middle of the input takes its outputs out of the result. */
  lemma FlatMapWithout(before: seq<string>, x: string, after: seq<string>, f: string -> seq<string>)
    ensures multiset(FlatMap(before + [x] + after, f)) == multiset(FlatMap(before + after, f)) + multiset(f(x))
  {
    FlatMapConcat(before, after, f);
    FlatMapConcat(before + [x], after, f);
    FlatMapConcat(before, [x], f);
    assert [x][..0] == [];
    assert FlatMap([x], f) == f(x);
  }

  /** The same item taken from two permutations of each other leaves permutations of each other. */
  lemma MultisetCancel(init: seq<string>, x: string, before: seq<string>, after: seq<string>)
    requires multiset(init + [x]) == multiset(before + [x] + after)
    ensures multiset(init) == multiset(before + after)
  {
    assert multiset(init + [x]) == multiset(init) + multiset{x};
    assert multiset(before + [x] + after) == multiset(before + after) + multiset{x};
    forall e ensures multiset(init)[e] == multiset(before + after)[e] {
      assert multiset(init + [x])[e] == multiset(before + [x] + after)[e];
    }
  }

  /** The last item of a can be found in any b with the same items; the rest of b holds the rest of a. */
  lemma RemoveFromPermutation(init: seq<string>, x: string, b: seq<string>) returns (before: seq<string>, after: seq<string>)
    requires multiset(init + [x]) == multiset(b)
    ensures b == before + [x] + after
    ensures multiset(init) == multiset(before + after)
  {
    assert x in multiset(init + [x]);
    var j :| 0 <= j < |b| && b[j] == x;
    before, after := b[..j], b[j + 1..];
    assert b == before + [x] + after;
    MultisetCancel(init, x, before, after);
  }

  /** Reordering the input reorders the output of flatMap, and no more. */
  lemma {:induction false} FlatMapPermutation(a: seq<string>, b: seq<string>, f: string -> seq<string>)
    requires multiset(a) == multiset(b)
    ensures multiset(FlatMap(a, f)) == multiset(FlatMap(b, f))
  {
    if a != [] {
      var init := a[..|a| - 1];
      var x := a[|a| - 1];
      assert a == init + [x];
      var before, after := RemoveFromPermutation(init, x, b);
      FlatMapPermutation(init, before + after, f);
      FlatMapWithout(before, x, after, f);
    }
  }

  /** The number of times w occurs in ts. */
  function Occurrences(ts: seq<string>, w: string): nat {
    if ts == [] then 0 else Occurrences(ts[..|ts| - 1], w) + if ts[|ts| - 1] == w then 1 else 0
  }

  /** Step 4: groupBy the whole item with counting. */
  function Count(ts: seq<string>): (m: map<string, nat>)
    ensures forall w :: w in m <==> w in ts
    ensures forall w :: w in m ==> m[w] == Occurrences(ts, w) > 0
  {
    if ts == [] then map[]
    else
      var init := ts[..|ts| - 1];
      var t := ts[|ts| - 1];
      var before := Count(init);
      assert forall w :: w in ts <==> w in init || w == t;
      assert forall w :: w !in init ==> Occurrences(init, w) == 0 by {
        forall w | w !in init ensures Occurrences(init, w) == 0 { OccurrencesAbsent(init, w); }
      }
      before[t := if t in before then before[t] + 1 else 1]
  }

  lemma {:induction false} OccurrencesAbsent(ts: seq<string>, w: string)
    requires w !in ts
    ensures Occurrences(ts, w) == 0
  {
    if ts != [] {
      assert forall x :: x in ts[..|ts| - 1] ==> x in ts;
      OccurrencesAbsent(ts[..|ts| - 1], w);
    }
  }

  /** What the job computes from the lines: each lower-cased token and its number of occurrences. */
  function WordCounts(lines: seq<string>): map<string, nat> {
    Count(Tokens(lines))
  }

  /** Step 5: the counts are put into the "words" map; any other word already there stays. */
  function DrainTo(words: map<string, nat>, lines: seq<string>): (r: map<string, nat>)
    ensures r.Keys == words.Keys + WordCounts(lines).Keys
    ensures forall w :: w in WordCounts(lines) ==> r[w] == WordCounts(lines)[w]
    ensures forall w :: w in words && w !in WordCounts(lines) ==> r[w] == words[w]
  {
    words + WordCounts(lines)
  }

  /** The count of a word depends only on how often it occurs, not on the order. */
  lemma {:induction false} OccurrencesIsMultiplicity(ts: seq<string>, w: string)
    ensures Occurrences(ts, w) == multiset(ts)[w]
  {
    if ts != [] {
      var init := ts[..|ts| - 1];
      assert ts == init + [ts[|ts| - 1]];
      OccurrencesIsMultiplicity(init, w);
    }
  }

  /** The counts do not depend on the order in which the lines are read. */
  lemma LineOrderDoesNotMatter(a: seq<string>, b: seq<string>)
    requires multiset(a) == multiset(b)
    ensures WordCounts(a) == WordCounts(b)
  {
    FlatMapPermutation(a, b, LineTokens);
    var ta, tb := Tokens(a), Tokens(b);
    forall w
      ensures w in ta <==> w in tb
    {
      assert w in ta <==> w in multiset(ta);
      assert w in tb <==> w in multiset(tb);
    }
    forall w | w in Count(ta)
      ensures Count(ta)[w] == Count(tb)[w]
    {
      OccurrencesIsMultiplicity(ta, w);
      OccurrencesIsMultiplicity(tb, w);
    }
  }

  /** Every token that reaches the count is a word without capital letters. */
  lemma LineTokensAreLowerCaseWords(line: string)
    ensures forall i :: 0 <= i < |LineTokens(line)| ==> IsWord(LineTokens(line)[i])
    ensures forall i, j :: 0 <= i < |LineTokens(line)| && 0 <= j < |LineTokens(line)[i]| ==> !('A' <= LineTokens(line)[i][j] <= 'Z')
  {
    SplitShape(line);
    var parts := Split(line);
    forall i | 0 <= i < |parts|
      ensures IsWord(LineTokens(line)[i]) && forall j :: 0 <= j < |LineTokens(line)[i]| ==> !('A' <= LineTokens(line)[i][j] <= 'Z')
    {
      assert LineTokens(line)[i] == Lower(parts[i]);
      LowerWord(parts[i]);
    }
  }

  /** Lower-casing a word gives a word without capitals. */
  lemma LowerWord(t: string)
    requires IsWord(t)
    ensures IsWord(Lower(t)) && forall j :: 0 <= j < |Lower(t)| ==> !('A' <= Lower(t)[j] <= 'Z')
  {
  }

  /** Words that are equal ignoring case, such as "To" and "to", are lower-cased to the same token and so counted as one. */
  lemma {:induction false} CaseIsFolded(a: string, b: string)
    requires IsWord(a) && IsWord(b) && EqualsIgnoreCase(a, b)
    ensures Lower(a) == Lower(b)
  {
    forall i | 0 <= i < |a|
      ensures LowerChar(a[i]) == LowerChar(b[i])
    {
      assert CharEqualsIgnoreCase(a[i], b[i]);
    }
  }

  // ---------------------------------------------------------------------------
  // The sum of the counts

  /** The sum of the values of a map. */
  ghost function Total(m: map<string, nat>): nat
    decreases |m|
  {
    if |m| == 0 then 0
    else
      var k :| k in m;
      m[k] + Total(m - {k})
  }

  /** The sum does not depend on which key is taken first. */
  lemma {:induction false} TotalRemove(m: map<string, nat>, k: string)
    requires k in m
    ensures Total(m) == m[k] + Total(m - {k})
    decreases |m|, 1
  {
    var j :| j in m && Total(m) == m[j] + Total(m - {j});
    if j != k {
      TotalSwap(m, j, k);
    }
  }

  lemma {:induction false} TotalSwap(m: map<string, nat>, j: string, k: string)
    requires j in m && k in m && j != k
    requires Total(m) == m[j] + Total(m - {j})
    ensures Total(m) == m[k] + Total(m - {k})
    decreases |m|, 0
  {
    var withoutJ := m - {j};
    var withoutK := m - {k};
    assert |withoutJ| == |m| - 1 && |withoutK| == |m| - 1;
    TotalRemove(withoutJ, k);
    TotalRemove(withoutK, j);
    assert withoutJ - {k} == withoutK - {j};
  }

  /** The counts add up to the number of tokens. */
  lemma {:induction false} CountsAddUp(ts: seq<string>)
    ensures Total(Count(ts)) == |ts|
  {
    if ts != [] {
      var init := ts[..|ts| - 1];
      var t := ts[|ts| - 1];
      var before := Count(init);
      var after := Count(ts);
      CountsAddUp(init);
      var v := if t in before then before[t] + 1 else 1;
      assert after == before[t := v];
      assert after - {t} == before - {t} by {
        assert before[t := v] - {t} == before - {t};
      }
      TotalRemove(after, t);
      if t in before {
        TotalRemove(before, t);
      } else {
        assert before - {t} == before;
      }
    }
  }

  /** Every token of every line is counted exactly once: the counts add up to the number of tokens. */
  lemma WordCountsAddUp(lines: seq<string>)
    ensures Total(WordCounts(lines)) == |Tokens(lines)|
  {
    CountsAddUp(Tokens(lines));
  }
}
