/**
 * Ranking and the total (report.py:91-93): `user_scores.sort(key=score,
 * reverse=True)` orders the records by score, highest first, and is stable,
 * so records with equal scores keep their relative order; the total is the
 * sum of the kept scores.
 */
module Ranking {
  import opened Scoring

  /** Scores never increase along the sequence. */
  predicate SortedDesc(s: seq<UserScore>) {
    forall i, j :: 0 <= i < j < |s| ==> s[i].scaled >= s[j].scaled
  }

  /** The records whose score is `v`, in their order in `s`. */
  function WithScore(s: seq<UserScore>, v: int): seq<UserScore> {
    if s == [] then []
    else WithScore(s[..|s| - 1], v) + (if s[|s| - 1].scaled == v then [s[|s| - 1]] else [])
  }

  /** Inserts `x` after every trailing record that does not score less than it. */
  function Insert(s: seq<UserScore>, x: UserScore): seq<UserScore> {
    if s == [] then [x]
    else if s[|s| - 1].scaled < x.scaled then Insert(s[..|s| - 1], x) + [s[|s| - 1]]
    else s + [x]
  }

  /** A stable sort by descending score: insertion of each record, left to right. */
  function SortByScore(s: seq<UserScore>): seq<UserScore> {
    if s == [] then [] else Insert(SortByScore(s[..|s| - 1]), s[|s| - 1])
  }

  /** The sum `sum(u["score"] for u in user_scores)`, left to right from 0. */
  function Total(s: seq<UserScore>): int {
    if s == [] then 0 else Total(s[..|s| - 1]) + s[|s| - 1].scaled
  }

  lemma {:induction false} WithScoreAppend(s: seq<UserScore>, t: seq<UserScore>, v: int)
    ensures WithScore(s + t, v) == WithScore(s, v) + WithScore(t, v)
  {
    if t != [] {
      assert (s + t)[..|s + t| - 1] == s + t[..|t| - 1];
      WithScoreAppend(s, t[..|t| - 1], v);
    } else {
      assert s + t == s;
    }
  }

  lemma {:induction false} InsertContents(s: seq<UserScore>, x: UserScore)
    ensures multiset(Insert(s, x)) == multiset(s) + multiset{x}
  {
    if s != [] && s[|s| - 1].scaled < x.scaled {
      var init, last := s[..|s| - 1], s[|s| - 1];
      assert s == init + [last];
      InsertContents(init, x);
    }
  }

  lemma {:induction false} InsertGroups(s: seq<UserScore>, x: UserScore, v: int)
    ensures WithScore(Insert(s, x), v) == WithScore(s, v) + (if x.scaled == v then [x] else [])
  {
    if s == [] {
      assert WithScore([x], v) == WithScore([], v) + (if x.scaled == v then [x] else []);
    } else if s[|s| - 1].scaled < x.scaled {
      var init, last := s[..|s| - 1], s[|s| - 1];
      assert s == init + [last];
      InsertGroups(init, x, v);
      WithScoreAppend(Insert(init, x), [last], v);
      WithScoreAppend(init, [last], v);
    } else {
      WithScoreAppend(s, [x], v);
    }
  }

  lemma {:induction false} InsertSorted(s: seq<UserScore>, x: UserScore)
    requires SortedDesc(s)
    ensures SortedDesc(Insert(s, x))
  {
    if s != [] && s[|s| - 1].scaled < x.scaled {
      var init, last := s[..|s| - 1], s[|s| - 1];
      InsertSorted(init, x);
      InsertContents(init, x);
      var r := Insert(init, x);
      forall k | 0 <= k < |r| ensures r[k].scaled >= last.scaled {
        assert r[k] in multiset(r);
      }
    }
  }

  /** The sorted records are sorted by descending score. */
  lemma {:induction false} SortByScoreSorted(s: seq<UserScore>)
    ensures SortedDesc(SortByScore(s))
  {
    if s != [] {
      SortByScoreSorted(s[..|s| - 1]);
      InsertSorted(SortByScore(s[..|s| - 1]), s[|s| - 1]);
    }
  }

  /** The sorted records are a permutation of the input. */
  lemma {:induction false} SortByScorePermutes(s: seq<UserScore>)
    ensures multiset(SortByScore(s)) == multiset(s)
  {
    if s != [] {
      var init := s[..|s| - 1];
      assert s == init + [s[|s| - 1]];
      SortByScorePermutes(init);
      InsertContents(SortByScore(init), s[|s| - 1]);
    }
  }

  /** Stability: for every score, the records with that score keep their relative order. */
  lemma {:induction false} SortByScoreStable(s: seq<UserScore>, v: int)
    ensures WithScore(SortByScore(s), v) == WithScore(s, v)
  {
    if s != [] {
      SortByScoreStable(s[..|s| - 1], v);
      InsertGroups(SortByScore(s[..|s| - 1]), s[|s| - 1], v);
    }
  }

  lemma {:induction false} WithScoreMembers(s: seq<UserScore>, v: int)
    ensures forall y :: y in WithScore(s, v) <==> y in s && y.scaled == v
  {
    if s != [] {
      var init := s[..|s| - 1];
      assert s == init + [s[|s| - 1]];
      WithScoreMembers(init, v);
    }
  }

  lemma WithScoreSnoc(s: seq<UserScore>, x: UserScore, v: int)
    ensures WithScore(s + [x], v) == WithScore(s, v) + (if x.scaled == v then [x] else [])
  {
    assert (s + [x])[..|s|] == s;
  }

  /** A non-empty list has a non-empty group for the score of its first record. */
  lemma FirstGroupNonEmpty(s: seq<UserScore>)
    requires s != []
    ensures WithScore(s, s[0].scaled) != []
  {
    WithScoreMembers(s, s[0].scaled);
    assert s[0] in s;
  }

  /** Two lists sorted by descending score that agree on the records of every score are equal. */
  lemma {:induction false} SortedWithSameGroupsEqual(t: seq<UserScore>, u: seq<UserScore>)
    requires SortedDesc(t) && SortedDesc(u)
    requires forall v :: WithScore(t, v) == WithScore(u, v)
    ensures t == u
  {
    if t == [] && u == [] {
    } else if t == [] {
      FirstGroupNonEmpty(u);
    } else if u == [] {
      FirstGroupNonEmpty(t);
    } else {
      var ti, ui := t[..|t| - 1], u[..|u| - 1];
      var lt, lu := t[|t| - 1], u[|u| - 1];
      assert t == ti + [lt];
      assert u == ui + [lu];
      LastIsLowest(t, u, lu);
      LastIsLowest(u, t, lt);
      assert lt.scaled == lu.scaled;
      forall v ensures WithScore(ti, v) == WithScore(ui, v) {
        WithScoreSnoc(ti, lt, v);
        WithScoreSnoc(ui, lu, v);
        var w := WithScore(t, v);
        assert w == WithScore(u, v);
        if lt.scaled == v {
          assert WithScore(ti, v) == w[..|w| - 1] == WithScore(ui, v);
        } else {
          assert WithScore(ti, v) + [] == WithScore(ti, v);
          assert WithScore(ui, v) + [] == WithScore(ui, v);
        }
      }
      WithScoreSnoc(ti, lt, lt.scaled);
      WithScoreSnoc(ui, lu, lt.scaled);
      var w := WithScore(t, lt.scaled);
      assert w == WithScore(u, lt.scaled);
      assert lt == w[|w| - 1] == lu;
      SortedWithSameGroupsEqual(ti, ui);
    }
  }

  /** The last record of a sorted list scores no more than any record of a list with the same groups. */
  lemma LastIsLowest(t: seq<UserScore>, u: seq<UserScore>, y: UserScore)
    requires SortedDesc(t) && t != []
    requires forall v :: WithScore(t, v) == WithScore(u, v)
    requires y in u
    ensures t[|t| - 1].scaled <= y.scaled
  {
    WithScoreMembers(u, y.scaled);
    WithScoreMembers(t, y.scaled);
    assert y in WithScore(u, y.scaled);
    assert y in WithScore(t, y.scaled);
    var k :| 0 <= k < |t| && t[k] == y;
  }

  /**
   * Any stable sort by descending score gives exactly SortByScore: a list
   * sorted by descending score that keeps, for every score, the input's
   * records of that score in their input order is SortByScore's result.
   */
  lemma StableSortIsUnique(s: seq<UserScore>, t: seq<UserScore>)
    requires SortedDesc(t)
    requires forall v :: WithScore(t, v) == WithScore(s, v)
    ensures t == SortByScore(s)
  {
    SortByScoreSorted(s);
    forall v ensures WithScore(t, v) == WithScore(SortByScore(s), v) {
      SortByScoreStable(s, v);
    }
    SortedWithSameGroupsEqual(t, SortByScore(s));
  }

  /** The total of an empty list is 0; each positive record adds to it. */
  lemma {:induction false} TotalPositive(s: seq<UserScore>)
    requires forall i :: 0 <= i < |s| ==> s[i].scaled > 0
    ensures Total(s) >= 0
    ensures Total(s) == 0 <==> s == []
  {
    if s != [] {
      TotalPositive(s[..|s| - 1]);
    }
  }

  lemma {:induction false} TotalAppend(s: seq<UserScore>, t: seq<UserScore>)
    ensures Total(s + t) == Total(s) + Total(t)
  {
    if t != [] {
      assert (s + t)[..|s + t| - 1] == s + t[..|t| - 1];
      TotalAppend(s, t[..|t| - 1]);
    } else {
      assert s + t == s;
    }
  }

  lemma {:induction false} TotalInsert(s: seq<UserScore>, x: UserScore)
    ensures Total(Insert(s, x)) == Total(s) + x.scaled
  {
    if s != [] && s[|s| - 1].scaled < x.scaled {
      var init, last := s[..|s| - 1], s[|s| - 1];
      TotalInsert(init, x);
      TotalAppend(Insert(init, x), [last]);
    } else if s != [] {
      TotalAppend(s, [x]);
    }
  }

  /** Sorting does not change the total. */
  lemma {:induction false} TotalOfSorted(s: seq<UserScore>)
    ensures Total(SortByScore(s)) == Total(s)
  {
    if s != [] {
      TotalOfSorted(s[..|s| - 1]);
      TotalInsert(SortByScore(s[..|s| - 1]), s[|s| - 1]);
    }
  }

  /** In a list sorted by descending score, a strictly higher score comes strictly earlier. */
  lemma HigherScoreFirst(s: seq<UserScore>, i: int, j: int)
    requires SortedDesc(s)
    requires 0 <= i < |s| && 0 <= j < |s|
    requires s[i].scaled > s[j].scaled
    ensures i < j
  {
  }

  /** Inserting into the gap at `j`, where everything from `j` on scores less than `x`. */
  lemma {:induction false} InsertAt(s: seq<UserScore>, x: UserScore, j: nat)
    requires j <= |s|
    requires forall k :: j <= k < |s| ==> s[k].scaled < x.scaled
    requires j > 0 ==> s[j - 1].scaled >= x.scaled
    ensures Insert(s, x) == s[..j] + [x] + s[j..]
  {
    if j < |s| {
      var init := s[..|s| - 1];
      InsertAt(init, x, j);
      assert init[..j] == s[..j];
      assert init[j..] + [s[|s| - 1]] == s[j..];
    }
  }

  /** One step of the insertion sort: `a[i]` moves left past the records of lower score in `a[..i]`. */
  method InsertLast(a: array<UserScore>, i: nat)
    requires i < a.Length
    modifies a
    ensures a[..i + 1] == Insert(old(a[..i]), old(a[i]))
    ensures a[i + 1..] == old(a[i + 1..])
  {
    var x := a[i];
    ghost var sorted := a[..i];
    ghost var rest := a[i + 1..];
    var j := i;
    while j > 0 && a[j - 1].scaled < x.scaled
      invariant 0 <= j <= i
      invariant Shifted(a[..], sorted, rest, i, j)
      invariant forall k :: j <= k < i ==> sorted[k].scaled < x.scaled
    {
      ghost var before := a[..];
      a[j] := a[j - 1];
      assert a[..] == before[j := before[j - 1]];
      ShiftStep(before, sorted, rest, i, j);
      j := j - 1;
    }
    ghost var hole := a[..];
    a[j] := x;
    assert a[..] == hole[j := x];
    FillHole(hole, sorted, rest, x, i, j);
    InsertAt(sorted, x, j);
  }

  /** The array during an insertion step: `sorted` with a hole at `j` opened by shifting, then `rest`. */
  ghost predicate Shifted(cur: seq<UserScore>, sorted: seq<UserScore>, rest: seq<UserScore>, i: nat, j: nat) {
    && j <= i < |cur| && |sorted| == i
    && cur[..j] == sorted[..j]
    && cur[j + 1..i + 1] == sorted[j..]
    && cur[i + 1..] == rest
  }

  /** Moving the record before the hole into it moves the hole one place left. */
  lemma ShiftStep(cur: seq<UserScore>, sorted: seq<UserScore>, rest: seq<UserScore>, i: nat, j: nat)
    requires Shifted(cur, sorted, rest, i, j) && j > 0
    ensures Shifted(cur[j := cur[j - 1]], sorted, rest, i, j - 1)
  {
    var next := cur[j := cur[j - 1]];
    assert next[..j - 1] == cur[..j - 1];
    assert cur[j - 1] == sorted[j - 1];
    assert next[j..i + 1] == [cur[j - 1]] + cur[j + 1..i + 1];
    assert next[i + 1..] == cur[i + 1..];
  }

  /** Writing `x` into the hole at `j` gives the prefix with `x` inserted at `j`. */
  lemma FillHole(hole: seq<UserScore>, sorted: seq<UserScore>, rest: seq<UserScore>, x: UserScore, i: nat, j: nat)
    requires Shifted(hole, sorted, rest, i, j)
    ensures hole[j := x][..i + 1] == sorted[..j] + [x] + sorted[j..]
    ensures hole[j := x][i + 1..] == rest
  {
    var filled := hole[j := x];
    assert filled[..i + 1] == filled[..j] + [x] + filled[j + 1..i + 1];
    assert filled[..j] == hole[..j];
    assert filled[j + 1..i + 1] == hole[j + 1..i + 1];
  }

  /**
   * `user_scores.sort(key=score, reverse=True)` in place: an insertion sort
   * that never moves a record past one with an equal score.
   */
  method SortInPlace(a: array<UserScore>)
    modifies a
    ensures a[..] == SortByScore(old(a[..]))
  {
    ghost var input := a[..];
    var i := 0;
    while i < a.Length
      invariant 0 <= i <= a.Length
      invariant a[..i] == SortByScore(input[..i])
      invariant a[i..] == input[i..]
    {
      assert input[..i + 1] == input[..i] + [input[i]];
      InsertLast(a, i);
      i := i + 1;
    }
    assert input[..a.Length] == input;
  }
}
