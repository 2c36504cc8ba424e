/**
 * Score aggregation (report.py:76-89): the five per-event count maps are
 * merged over the union of their user ids, each user's weighted score is
 * computed, and the users with a strictly positive score are kept as records.
 *
 * The score is kept exactly, as an integer in units of 1/10000: the weights
 * 1.1, 0.9, 1.09 and 1 and the factor 0.90 become 110, 90, 109, 100 (over
 * 100) and 90 (over 100).
 */
module Scoring {
  /** The five per-user count maps, one per tracked event (A to E). */
  datatype Metrics = Metrics(a: map<string, int>, b: map<string, int>, c: map<string, int>,
                             d: map<string, int>, e: map<string, int>)

  /** One kept user: display id, full id, scaled score and the five counts. */
  datatype UserScore = UserScore(id: string, fullId: string, scaled: int,
                                 a: int, b: int, c: int, d: int, e: int)

  /** `m.get(uid, 0)`: a metric without an entry for the user contributes 0. */
  function CountFor(m: map<string, int>, uid: string): int {
    if uid in m then m[uid] else 0
  }

  /** Ten thousand times `((A + B) * 1.1 + C * 0.9 + D * 1.09 + E * 1) * 0.90`. */
  function ScaledScore(a: int, b: int, c: int, d: int, e: int): int {
    ((a + b) * 110 + c * 90 + d * 109 + e * 100) * 90
  }

  /** The scaled score is the decimal formula of report.py:87, computed exactly. */
  lemma ScaledScoreIsFormula(a: int, b: int, c: int, d: int, e: int)
    ensures ScaledScore(a, b, c, d, e) as real / 10000.0
         == ((a + b) as real * 1.1 + c as real * 0.9 + d as real * 1.09 + e as real * 1.0) * 0.90
  {
  }

  /** With non-negative counts, the score is strictly positive exactly when some count is. */
  lemma PositiveScoreIffSomeCount(a: int, b: int, c: int, d: int, e: int)
    requires a >= 0 && b >= 0 && c >= 0 && d >= 0 && e >= 0
    ensures ScaledScore(a, b, c, d, e) > 0 <==> a + b + c + d + e > 0
  {
  }

  /** A=10, B=0, C=5, D=2, E=1 scores 16.812 before rounding. */
  lemma WorkedExample()
    ensures ScaledScore(10, 0, 5, 2, 1) == 168120
  {
  }

  /** The display id `uid[:8] + "..."`: the first eight characters, then an ellipsis. */
  function DisplayId(uid: string): (r: string)
    ensures |r| == (if |uid| < 8 then |uid| else 8) + 3
    ensures r[..|r| - 3] == uid[..|r| - 3]
    ensures r[|r| - 3..] == "..."
  {
    (if |uid| <= 8 then uid else uid[..8]) + "..."
  }

  /** `set(A) | set(B) | set(C) | set(D) | set(E)`. */
  function AllUsers(m: Metrics): set<string> {
    m.a.Keys + m.b.Keys + m.c.Keys + m.d.Keys + m.e.Keys
  }

  /** The user's scaled score over the looked-up counts. */
  function UserScaled(m: Metrics, uid: string): int {
    ScaledScore(CountFor(m.a, uid), CountFor(m.b, uid), CountFor(m.c, uid), CountFor(m.d, uid), CountFor(m.e, uid))
  }

  /** The user is kept: the guard `score > 0` of report.py:88. */
  predicate Kept(m: Metrics, uid: string) {
    UserScaled(m, uid) > 0
  }

  /** `r` is the record report.py:89 builds for `uid`. */
  predicate Describes(r: UserScore, uid: string, m: Metrics) {
    && r.fullId == uid
    && r.id == DisplayId(uid)
    && r.a == CountFor(m.a, uid) && r.b == CountFor(m.b, uid) && r.c == CountFor(m.c, uid)
    && r.d == CountFor(m.d, uid) && r.e == CountFor(m.e, uid)
    && r.scaled == ScaledScore(r.a, r.b, r.c, r.d, r.e)
  }

  /** No two records share a full id. */
  predicate DistinctUsers(users: seq<UserScore>) {
    forall i, j :: 0 <= i < j < |users| ==> users[i].fullId != users[j].fullId
  }

  /** What aggregation produces: one faithful record per kept user of the union, and nothing else. */
  predicate Aggregated(users: seq<UserScore>, m: Metrics) {
    && (forall i :: 0 <= i < |users| ==> Describes(users[i], users[i].fullId, m) && users[i].scaled > 0)
    && (forall i :: 0 <= i < |users| ==> users[i].fullId in AllUsers(m))
    && (forall uid :: uid in AllUsers(m) && Kept(m, uid) ==> exists i :: 0 <= i < |users| && users[i].fullId == uid)
    && DistinctUsers(users)
  }

  /** With non-negative counts, a user is kept exactly when one of its five counts is positive. */
  lemma KeptIffSomeEvent(m: Metrics, uid: string)
    requires forall u :: u in m.a ==> m.a[u] >= 0
    requires forall u :: u in m.b ==> m.b[u] >= 0
    requires forall u :: u in m.c ==> m.c[u] >= 0
    requires forall u :: u in m.d ==> m.d[u] >= 0
    requires forall u :: u in m.e ==> m.e[u] >= 0
    ensures Kept(m, uid) <==>
      CountFor(m.a, uid) > 0 || CountFor(m.b, uid) > 0 || CountFor(m.c, uid) > 0 ||
      CountFor(m.d, uid) > 0 || CountFor(m.e, uid) > 0
  {
    PositiveScoreIffSomeCount(CountFor(m.a, uid), CountFor(m.b, uid), CountFor(m.c, uid),
                              CountFor(m.d, uid), CountFor(m.e, uid));
  }

  /** A user in none of the five maps has all counts 0 and is never kept. */
  lemma AbsentUserDropped(m: Metrics, uid: string)
    requires uid !in AllUsers(m)
    ensures !Kept(m, uid)
  {
  }

  /** The users visited so far, `done`, are aggregated into `users`. */
  predicate AggregatedOver(users: seq<UserScore>, done: set<string>, m: Metrics) {
    && (forall i :: 0 <= i < |users| ==> Describes(users[i], users[i].fullId, m) && users[i].scaled > 0)
    && (forall i :: 0 <= i < |users| ==> users[i].fullId in done)
    && (forall uid :: uid in done && Kept(m, uid) ==> exists i :: 0 <= i < |users| && users[i].fullId == uid)
    && DistinctUsers(users)
  }

  /** Visiting a dropped user changes nothing. */
  lemma SkipStep(users: seq<UserScore>, done: set<string>, uid: string, m: Metrics)
    requires AggregatedOver(users, done, m) && !Kept(m, uid)
    ensures AggregatedOver(users, done + {uid}, m)
  {
  }

  /** Visiting a new kept user and appending its record keeps the aggregation. */
  lemma AppendStep(users: seq<UserScore>, done: set<string>, uid: string, r: UserScore, m: Metrics)
    requires AggregatedOver(users, done, m) && uid !in done
    requires Describes(r, uid, m) && r.scaled > 0
    ensures AggregatedOver(users + [r], done + {uid}, m)
  {
    AppendRecords(users, done, uid, r, m);
    AppendCovers(users, done, uid, r, m);
  }

  lemma AppendRecords(users: seq<UserScore>, done: set<string>, uid: string, r: UserScore, m: Metrics)
    requires AggregatedOver(users, done, m) && uid !in done
    requires Describes(r, uid, m) && r.scaled > 0
    ensures forall i :: 0 <= i < |users + [r]| ==>
      Describes((users + [r])[i], (users + [r])[i].fullId, m) && (users + [r])[i].scaled > 0 && (users + [r])[i].fullId in done + {uid}
    ensures DistinctUsers(users + [r])
  {
    var next := users + [r];
    forall i | 0 <= i < |next|
      ensures Describes(next[i], next[i].fullId, m) && next[i].scaled > 0 && next[i].fullId in done + {uid}
    {
      if i < |users| {
        assert next[i] == users[i];
      }
    }
  }

  lemma AppendCovers(users: seq<UserScore>, done: set<string>, uid: string, r: UserScore, m: Metrics)
    requires forall u :: u in done && Kept(m, u) ==> exists i :: 0 <= i < |users| && users[i].fullId == u
    requires r.fullId == uid
    ensures forall u :: u in done + {uid} && Kept(m, u) ==> exists i :: 0 <= i < |users + [r]| && (users + [r])[i].fullId == u
  {
    var next := users + [r];
    forall u | u in done + {uid} && Kept(m, u)
      ensures exists i :: 0 <= i < |next| && next[i].fullId == u
    {
      if u == uid {
        assert next[|next| - 1].fullId == uid;
      } else {
        var i :| 0 <= i < |users| && users[i].fullId == u;
        assert next[i] == users[i];
      }
    }
  }

  /**
   * The aggregation loop of report.py:80-89. It visits the union of user ids
   * in an arbitrary order (Python's set order) and appends a record for each
   * user whose score is strictly positive.
   */
  method Aggregate(m: Metrics) returns (users: seq<UserScore>)
    ensures Aggregated(users, m)
  {
    var allUsers := AllUsers(m);
    var remaining := allUsers;
    users := [];
    while remaining != {}
      invariant remaining <= allUsers
      invariant AggregatedOver(users, allUsers - remaining, m)
      decreases remaining
    {
      var uid :| uid in remaining;
      ghost var done := allUsers - remaining;
      remaining := remaining - {uid};
      assert allUsers - remaining == done + {uid};
      var a := CountFor(m.a, uid);
      var b := CountFor(m.b, uid);
      var c := CountFor(m.c, uid);
      var d := CountFor(m.d, uid);
      var e := CountFor(m.e, uid);
      var score := ScaledScore(a, b, c, d, e);
      if score > 0 {
        var r := UserScore(DisplayId(uid), uid, score, a, b, c, d, e);
        AppendStep(users, done, uid, r, m);
        users := users + [r];
      } else {
        SkipStep(users, done, uid, m);
      }
    }
  }
}
