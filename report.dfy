/**
 * One run of the report between the fetches and the e-mail: aggregate the
 * five metrics, rank the kept users, total their scores and lay out the rows.
 */
module Report {
  import opened Scoring
  import opened Ranking
  import opened Rows

  /** The ranked records, their total (scaled like the scores) and the table rows. */
  datatype ReportResult = ReportResult(users: seq<UserScore>, total: int, rows: seq<Row>)

  /** Any permutation of an aggregated list is an aggregated list. */
  lemma PermutedAggregate(agg: seq<UserScore>, ranked: seq<UserScore>, m: Metrics)
    requires Aggregated(agg, m)
    requires multiset(ranked) == multiset(agg)
    ensures Aggregated(ranked, m)
  {
    PermutedRecords(agg, ranked, m);
    PermutedCovers(agg, ranked, m);
    PermutedDistinct(agg, ranked, m);
  }

  lemma PermutedRecords(agg: seq<UserScore>, ranked: seq<UserScore>, m: Metrics)
    requires Aggregated(agg, m)
    requires multiset(ranked) == multiset(agg)
    ensures forall i :: 0 <= i < |ranked| ==> Describes(ranked[i], ranked[i].fullId, m) && ranked[i].scaled > 0
    ensures forall i :: 0 <= i < |ranked| ==> ranked[i].fullId in AllUsers(m)
  {
    forall i | 0 <= i < |ranked|
      ensures Describes(ranked[i], ranked[i].fullId, m) && ranked[i].scaled > 0
      ensures ranked[i].fullId in AllUsers(m)
    {
      assert ranked[i] in multiset(agg);
    }
  }

  lemma PermutedCovers(agg: seq<UserScore>, ranked: seq<UserScore>, m: Metrics)
    requires Aggregated(agg, m)
    requires multiset(ranked) == multiset(agg)
    ensures forall uid :: uid in AllUsers(m) && Kept(m, uid) ==> exists i :: 0 <= i < |ranked| && ranked[i].fullId == uid
  {
    forall uid | uid in AllUsers(m) && Kept(m, uid)
      ensures exists i :: 0 <= i < |ranked| && ranked[i].fullId == uid
    {
      var k :| 0 <= k < |agg| && agg[k].fullId == uid;
      assert agg[k] in multiset(ranked);
    }
  }

  lemma PermutedDistinct(agg: seq<UserScore>, ranked: seq<UserScore>, m: Metrics)
    requires Aggregated(agg, m)
    requires multiset(ranked) == multiset(agg)
    ensures DistinctUsers(ranked)
  {
    forall i, j | 0 <= i < j < |ranked| ensures ranked[i].fullId != ranked[j].fullId {
      if ranked[i].fullId == ranked[j].fullId {
        assert ranked[i] in multiset(agg) && ranked[j] in multiset(agg);
        SameIdSameRecord(agg, m, ranked[i], ranked[j]);
        TwiceInMultiset(ranked, i, j);
        OnceInMultiset(agg, ranked[i]);
      }
    }
  }

  /** Two aggregated records with the same full id are the same record. */
  lemma SameIdSameRecord(agg: seq<UserScore>, m: Metrics, x: UserScore, y: UserScore)
    requires Aggregated(agg, m)
    requires x in agg && y in agg && x.fullId == y.fullId
    ensures x == y
  {
  }

  lemma TwiceInMultiset(s: seq<UserScore>, i: nat, j: nat)
    requires i < j < |s| && s[i] == s[j]
    ensures multiset(s)[s[i]] >= 2
  {
    assert s == s[..i] + [s[i]] + s[i + 1..j] + [s[j]] + s[j + 1..];
  }

  lemma {:induction false} OnceInMultiset(s: seq<UserScore>, x: UserScore)
    requires DistinctUsers(s)
    ensures multiset(s)[x] <= 1
  {
    if s != [] {
      var init, last := s[..|s| - 1], s[|s| - 1];
      assert s == init + [last];
      OnceInMultiset(init, x);
      if last == x {
        assert forall k :: 0 <= k < |init| ==> init[k].fullId != x.fullId;
      }
    }
  }

  /**
   * report.py:76-113 after the fetches: the ranked records are exactly the
   * kept users of the union, each described faithfully, sorted by descending
   * exact score; the total is their sum and
   * there is one row per record, in order.
   */
  method RunReport(m: Metrics) returns (r: ReportResult)
    ensures Aggregated(r.users, m)
    ensures SortedDesc(r.users)
    ensures exists visited :: Aggregated(visited, m) && r.users == SortByScore(visited)
    ensures r.total == Total(r.users)
    ensures |r.rows| == |r.users| && forall i :: 0 <= i < |r.rows| ==> r.rows[i] == RowFor(i, r.users[i])
    ensures AllUsers(m) == {} ==> r.users == [] && r.total == 0 && r.rows == []
  {
    var scores := Aggregate(m);
    var a := new UserScore[|scores|](k requires 0 <= k < |scores| => scores[k]);
    assert a[..] == scores;
    SortInPlace(a);
    var ranked := a[..];
    SortByScoreSorted(scores);
    SortByScorePermutes(scores);
    PermutedAggregate(scores, ranked, m);
    var total := Total(ranked);
    var rows := BuildRows(ranked);
    r := ReportResult(ranked, total, rows);
  }
}
