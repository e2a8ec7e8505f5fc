/**
 * The ordering and dense ranking of `make_quiz_results`: results rows in
 * `solved`-descending order, and places that start at 1 and rise by one
 * exactly where the score changes.
 */
module Ranking {
  import opened Quizzes

  /** Rows in `-solved` order: no row solved more than one before it. */
  predicate SortedBySolved(rows: seq<ResultRow>) {
    forall i, j :: 0 <= i < j < |rows| ==> rows[i].solved >= rows[j].solved
  }

  /** Insert `row` into a `solved`-descending list, before the rows it ties with or beats. */
  function Insert(row: ResultRow, rows: seq<ResultRow>): (r: seq<ResultRow>)
    ensures |r| == |rows| + 1
  {
    if |rows| == 0 || row.solved >= rows[0].solved then [row] + rows
    else [rows[0]] + Insert(row, rows[1..])
  }

  /** Inserting adds exactly the one row. */
  lemma {:induction false} InsertAddsRow(row: ResultRow, rows: seq<ResultRow>)
    ensures multiset(Insert(row, rows)) == multiset(rows) + multiset{row}
  {
    if |rows| > 0 && row.solved < rows[0].solved {
      InsertAddsRow(row, rows[1..]);
      assert rows == [rows[0]] + rows[1..];
    }
  }

  /** Inserting under a bound every row respects keeps every row under it. */
  lemma {:induction false} InsertBounded(row: ResultRow, rows: seq<ResultRow>, bound: int)
    requires row.solved <= bound
    requires forall k :: 0 <= k < |rows| ==> rows[k].solved <= bound
    ensures forall k :: 0 <= k < |Insert(row, rows)| ==> Insert(row, rows)[k].solved <= bound
  {
    if |rows| > 0 && row.solved < rows[0].solved {
      InsertBounded(row, rows[1..], bound);
    }
  }

  /** Inserting into a `solved`-descending list keeps it in order. */
  lemma {:induction false} InsertKeepsOrder(row: ResultRow, rows: seq<ResultRow>)
    requires SortedBySolved(rows)
    ensures SortedBySolved(Insert(row, rows))
  {
    if |rows| > 0 && row.solved < rows[0].solved {
      InsertKeepsOrder(row, rows[1..]);
      InsertBounded(row, rows[1..], rows[0].solved);
    }
  }

  /** The `order_by('-solved')` query: the rows rearranged in `solved`-descending order. */
  function SortBySolved(rows: seq<ResultRow>): (r: seq<ResultRow>)
    ensures |r| == |rows|
    ensures multiset(r) == multiset(rows)
    ensures SortedBySolved(r)
  {
    if |rows| == 0 then []
    else
      assert rows == [rows[0]] + rows[1..];
      var sorted := SortBySolved(rows[1..]);
      InsertAddsRow(rows[0], sorted);
      InsertKeepsOrder(rows[0], sorted);
      Insert(rows[0], sorted)
  }

  /** The `solved` column of the rows, in order. */
  function Scores(rows: seq<ResultRow>): (r: seq<int>)
    ensures |r| == |rows|
    ensures forall i :: 0 <= i < |rows| ==> r[i] == rows[i].solved
  {
    seq(|rows|, i requires 0 <= i < |rows| => rows[i].solved)
  }

  /** A score list in descending order. */
  predicate Descending(s: seq<int>) {
    forall i, j :: 0 <= i < j < |s| ==> s[i] >= s[j]
  }

  /**
   * The places the loop of `make_quiz_results` hands out, one per score:
   * the first is 1, and each later one is its predecessor's, plus one when
   * its score differs from its predecessor's.
   */
  function Places(s: seq<int>): (r: seq<int>)
    ensures |r| == |s|
  {
    if |s| == 0 then []
    else
      var p := Places(s[..|s| - 1]);
      if |s| == 1 then [1]
      else if s[|s| - 1] != s[|s| - 2] then p + [p[|p| - 1] + 1]
      else p + [p[|p| - 1]]
  }

  /** The loop of `make_quiz_results`, written as the source writes it. */
  method AssignPlaces(s: seq<int>) returns (places: seq<int>)
    ensures places == Places(s)
  {
    places := [];
    var curPlace := 1;
    var i := 0;
    while i < |s|
      invariant 0 <= i <= |s|
      invariant places == Places(s[..i])
      invariant i == 0 ==> curPlace == 1
      invariant i > 0 ==> curPlace == places[i - 1]
    {
      if i != 0 && s[i] != s[i - 1] {
        curPlace := curPlace + 1;
      }
      PlacesSnoc(s, i);
      places := places + [curPlace];
      i := i + 1;
    }
    assert s[..i] == s;
  }

  /** The places of one more score extend the places of the shorter prefix. */
  lemma PlacesSnoc(s: seq<int>, i: nat)
    requires i < |s|
    ensures i == 0 ==> Places(s[..i + 1]) == [1]
    ensures i > 0 ==>
      Places(s[..i + 1]) == Places(s[..i]) + [Places(s[..i])[i - 1] + (if s[i] != s[i - 1] then 1 else 0)]
  {
    assert s[..i + 1][..i] == s[..i];
  }

  /** The distinct scores among the first `n`. */
  function ScoresUpTo(s: seq<int>, n: nat): set<int>
    requires n <= |s|
  {
    set k | 0 <= k < n :: s[k]
  }

  /** One more score adds one distinct value exactly when it is new. */
  lemma ScoresUpToStep(s: seq<int>, n: nat)
    requires n < |s|
    ensures s[n] in ScoresUpTo(s, n) ==> ScoresUpTo(s, n + 1) == ScoresUpTo(s, n)
    ensures s[n] !in ScoresUpTo(s, n) ==> ScoresUpTo(s, n + 1) == ScoresUpTo(s, n) + {s[n]}
  {
  }

  /** On a descending list, a score is new exactly when it differs from its predecessor. */
  lemma NewScoreIffChanged(s: seq<int>, n: nat)
    requires Descending(s) && 0 < n < |s|
    ensures s[n] !in ScoresUpTo(s, n) <==> s[n] != s[n - 1]
  {
    if s[n] != s[n - 1] {
      forall k | 0 <= k < n ensures s[k] != s[n] {
        assert s[k] >= s[n - 1];
      }
    }
  }

  /** On a descending list, the count of distinct scores grows exactly where the score changes. */
  lemma DistinctStep(s: seq<int>, i: nat)
    requires Descending(s) && 0 < i < |s|
    ensures |ScoresUpTo(s, i + 1)| == |ScoresUpTo(s, i)| + (if s[i] != s[i - 1] then 1 else 0)
  {
    NewScoreIffChanged(s, i);
    ScoresUpToStep(s, i);
  }

  /**
   * Dense ranking: on a descending score list, each place is the number of
   * distinct scores at or above it.
   */
  lemma {:induction false} PlacesCountDistinct(s: seq<int>, i: nat)
    requires Descending(s) && i < |s|
    ensures Places(s)[i] == |ScoresUpTo(s, i + 1)|
  {
    if i == 0 {
      FirstPlaceIsOne(s);
      assert ScoresUpTo(s, 1) == {s[0]};
    } else {
      PlacesCountDistinct(s, i - 1);
      PlacesStep(s, i);
      DistinctStep(s, i);
    }
  }

  /** The first participant takes place 1. */
  lemma FirstPlaceIsOne(s: seq<int>)
    requires |s| > 0
    ensures Places(s)[0] == 1
  {
    if |s| > 1 {
      FirstPlaceIsOne(s[..|s| - 1]);
    }
  }

  /** Each later place is its predecessor's, plus one exactly when the score changes. */
  lemma {:induction false} PlacesStep(s: seq<int>, i: nat)
    requires 0 < i < |s|
    ensures Places(s)[i] == Places(s)[i - 1] + (if s[i] != s[i - 1] then 1 else 0)
    decreases |s|
  {
    if i < |s| - 1 {
      var t := s[..|s| - 1];
      PlacesStep(t, i);
      assert Places(s)[i] == Places(t)[i] && Places(s)[i - 1] == Places(t)[i - 1];
    }
  }

  /** Places never decrease down the list. */
  lemma {:induction false} PlacesMonotone(s: seq<int>, i: nat, j: nat)
    requires i <= j < |s|
    ensures Places(s)[i] <= Places(s)[j]
    decreases j - i
  {
    if i < j {
      PlacesMonotone(s, i, j - 1);
      PlacesStep(s, j);
    }
  }

  /** On a descending list, equal scores share a place. */
  lemma TiesShareAPlace(s: seq<int>, i: nat, j: nat)
    requires Descending(s) && i <= j < |s| && s[i] == s[j]
    ensures Places(s)[i] == Places(s)[j]
  {
    PlacesCountDistinct(s, i);
    PlacesCountDistinct(s, j);
    assert ScoresUpTo(s, j + 1) == ScoresUpTo(s, i + 1) by {
      forall k | i <= k <= j ensures s[k] == s[i] {
        assert s[i] >= s[k] >= s[j];
      }
    }
  }

  /** On a descending list, a lower score has a strictly later place. */
  lemma {:induction false} LowerScoreLaterPlace(s: seq<int>, i: nat, j: nat)
    requires Descending(s) && i < j < |s| && s[i] != s[j]
    ensures Places(s)[i] < Places(s)[j]
    decreases j - i
  {
    PlacesStep(s, j);
    if s[j - 1] != s[j] {
      PlacesMonotone(s, i, j - 1);
    } else {
      LowerScoreLaterPlace(s, i, j - 1);
    }
  }

  /** The last place equals the number of distinct scores. */
  lemma LastPlaceCountsScores(s: seq<int>)
    requires Descending(s) && |s| > 0
    ensures Places(s)[|s| - 1] == |set v | v in s|
  {
    PlacesCountDistinct(s, |s| - 1);
    assert ScoresUpTo(s, |s|) == set v | v in s;
  }

  /** Scores of a `solved`-sorted list are descending. */
  lemma SortedScoresDescend(rows: seq<ResultRow>)
    requires SortedBySolved(rows)
    ensures Descending(Scores(rows))
  {
  }

  /** Scores 5, 5, 3, 1 take places 1, 1, 2, 3. */
  lemma PlacesExampleTie()
    ensures Places([5, 5, 3, 1]) == [1, 1, 2, 3]
  {
    assert [5, 5, 3, 1][..3] == [5, 5, 3];
    assert [5, 5, 3][..2] == [5, 5];
    assert [5, 5][..1] == [5];
  }
}
