/**
 * The response parser of `fetch_event` (report.py:49-59): it turns the
 * `data.values` mapping of user id to a bucket-to-count dictionary into a
 * mapping of user id to total count.
 */
module Insights {
  import opened Wrappers
  import opened Json

  /** A bucket value as Python's `sum` sees it: an int, or a bool (which counts as 0 or 1); anything else raises TypeError. */
  function BucketValue(v: Json): Option<int> {
    match v
    case JInt(n) => Some(n)
    case JBool(b) => Some(if b then 1 else 0)
    case _ => None
  }

  /** `sum(buckets.values())`, left to right from 0; None where the sum raises. */
  function SumBuckets(buckets: seq<(string, Json)>): (r: Option<int>)
    ensures r.Some? <==> forall i :: 0 <= i < |buckets| ==> BucketValue(buckets[i].1).Some?
  {
    if buckets == [] then Some(0)
    else
      var init := buckets[..|buckets| - 1];
      var last := BucketValue(buckets[|buckets| - 1].1);
      assert forall i :: 0 <= i < |init| ==> init[i] == buckets[i];
      match SumBuckets(init)
      case None => None
      case Some(s) => if last.None? then None else Some(s + last.value)
  }

  /** A single bucket sums to its own value. */
  lemma SumBucketsSingle(bucket: (string, Json))
    ensures SumBuckets([bucket]) == BucketValue(bucket.1)
  {
    assert [bucket][..0] == [];
  }

  /**
   * Summing two runs of buckets: the sum succeeds exactly when both parts do,
   * and its value is the sum of the parts' values. With SumBucketsSingle this
   * fixes the value of every bucket sum.
   */
  lemma {:induction false} SumBucketsAppend(s: seq<(string, Json)>, t: seq<(string, Json)>)
    ensures SumBuckets(s + t).Some? <==> SumBuckets(s).Some? && SumBuckets(t).Some?
    ensures SumBuckets(s + t).Some? ==> SumBuckets(s + t).value == SumBuckets(s).value + SumBuckets(t).value
  {
    if t == [] {
      assert s + t == s;
    } else {
      var init := t[..|t| - 1];
      assert (s + t)[..|s + t| - 1] == s + init;
      assert (s + t)[|s + t| - 1] == t[|t| - 1];
      SumBucketsAppend(s, init);
    }
  }

  /** The count the loop stores for one user (report.py:55): the bucket sum of a dictionary, 0 for any other value. */
  function CountOf(userData: Json): Option<int> {
    match userData
    case JObject(buckets) => SumBuckets(buckets)
    case _ => Some(0)
  }

  /**
   * The entries of `data["data"]["values"]` as lines 52-54 reach them; None
   * where one of those lines raises: `data` or `data["data"]` is not a
   * dictionary (`.get` fails) or `values` is not one (`.items()` fails).
   * A missing key yields the empty dictionary.
   */
  function UserEntries(data: Json): Option<seq<(string, Json)>> {
    match GetOrEmpty(data, "data")
    case None => None
    case Some(inner) =>
      match GetOrEmpty(inner, "series")
      case None => None
      case Some(_) =>
        match GetOrEmpty(inner, "values")
        case Some(JObject(entries)) => Some(entries)
        case _ => None
  }

  /** How many entries the loop stores before the first one whose count raises. */
  function Processed(entries: seq<(string, Json)>): (k: nat)
    ensures k <= |entries|
    ensures forall i :: 0 <= i < k ==> CountOf(entries[i].1).Some?
    ensures k < |entries| ==> CountOf(entries[k].1).None?
  {
    if entries == [] then 0
    else if CountOf(entries[0].1).None? then 0
    else 1 + Processed(entries[1..])
  }

  /** Entry `i` is the last one among the first `k` with its user id, so its count is the one the dictionary keeps. */
  ghost predicate LastBefore(entries: seq<(string, Json)>, i: nat, k: nat)
    requires i < k <= |entries|
  {
    forall j :: i < j < k ==> entries[j].0 != entries[i].0
  }

  /**
   * `result` is what storing the first `k` entries gives: exactly their user
   * ids are keys, each mapped to the count of its last entry among them.
   */
  ghost predicate Stores(entries: seq<(string, Json)>, k: nat, result: map<string, int>)
    requires k <= |entries|
  {
    && (forall i :: 0 <= i < k ==> entries[i].0 in result)
    && (forall u :: u in result ==> exists i :: 0 <= i < k && entries[i].0 == u)
    && (forall i :: 0 <= i < k && LastBefore(entries, i, k) ==> CountOf(entries[i].1) == Some(result[entries[i].0]))
  }

  /** Storing entry `k` with its count extends what the first `k` entries gave. */
  lemma StoresStep(entries: seq<(string, Json)>, k: nat, result: map<string, int>, count: int)
    requires k < |entries| && Stores(entries, k, result)
    requires CountOf(entries[k].1) == Some(count)
    ensures Stores(entries, k + 1, result[entries[k].0 := count])
  {
    StoresStepKeys(entries, k, result, result[entries[k].0 := count], count);
    StoresStepCounts(entries, k, result, result[entries[k].0 := count], count);
  }

  lemma StoresStepKeys(entries: seq<(string, Json)>, k: nat, result: map<string, int>, next: map<string, int>, count: int)
    requires k < |entries| && next == result[entries[k].0 := count]
    requires forall i :: 0 <= i < k ==> entries[i].0 in result
    requires forall u :: u in result ==> exists i :: 0 <= i < k && entries[i].0 == u
    ensures forall i :: 0 <= i < k + 1 ==> entries[i].0 in next
    ensures forall u :: u in next ==> exists i :: 0 <= i < k + 1 && entries[i].0 == u
  {
    forall u | u in next ensures exists i :: 0 <= i < k + 1 && entries[i].0 == u {
      if u != entries[k].0 {
        var i :| 0 <= i < k && entries[i].0 == u;
      }
    }
  }

  lemma StoresStepCounts(entries: seq<(string, Json)>, k: nat, result: map<string, int>, next: map<string, int>, count: int)
    requires k < |entries| && next == result[entries[k].0 := count]
    requires forall i :: 0 <= i < k ==> entries[i].0 in result
    requires forall i :: 0 <= i < k && LastBefore(entries, i, k) ==> CountOf(entries[i].1) == Some(result[entries[i].0])
    requires CountOf(entries[k].1) == Some(count)
    ensures forall i :: 0 <= i < k + 1 && LastBefore(entries, i, k + 1) ==>
      CountOf(entries[i].1) == Some(next[entries[i].0])
  {
    forall i | 0 <= i < k + 1 && LastBefore(entries, i, k + 1)
      ensures CountOf(entries[i].1) == Some(next[entries[i].0])
    {
      if i < k {
        assert entries[k].0 != entries[i].0;
        assert LastBefore(entries, i, k);
      }
    }
  }

  /** No bucket of a user dictionary is a negative integer. */
  predicate NoNegativeBucket(userData: Json) {
    userData.JObject? ==>
      forall i :: 0 <= i < |userData.entries| ==> !(userData.entries[i].1.JInt? && userData.entries[i].1.n < 0)
  }

  lemma {:induction false} SumBucketsNonNegative(buckets: seq<(string, Json)>)
    requires NoNegativeBucket(JObject(buckets))
    ensures SumBuckets(buckets).Some? ==> SumBuckets(buckets).value >= 0
  {
    if buckets != [] {
      var init := buckets[..|buckets| - 1];
      assert forall i :: 0 <= i < |init| ==> init[i] == buckets[i];
      SumBucketsNonNegative(init);
    }
  }

  /** The loop stops at `k`, having stored every entry before it, exactly when `k` is Processed. */
  lemma {:induction false} ProcessedAt(entries: seq<(string, Json)>, k: nat)
    requires k <= |entries|
    requires forall j :: 0 <= j < k ==> CountOf(entries[j].1).Some?
    requires k < |entries| ==> CountOf(entries[k].1).None?
    ensures Processed(entries) == k
  {
    if k > 0 {
      ProcessedAt(entries[1..], k - 1);
    }
  }

  /** No stored count is negative. */
  ghost predicate NonNegativeCounts(result: map<string, int>) {
    forall u :: u in result ==> result[u] >= 0
  }

  lemma NonNegativeStep(result: map<string, int>, userId: string, userData: Json, count: int)
    requires NonNegativeCounts(result) && NoNegativeBucket(userData)
    requires CountOf(userData) == Some(count)
    ensures NonNegativeCounts(result[userId := count])
  {
    if userData.JObject? {
      SumBucketsNonNegative(userData.entries);
    }
  }

  /**
   * The loop of report.py:54-56 under the handler of lines 57-58: entries are
   * stored in order until one whose bucket sum raises; later entries are
   * never reached and earlier ones stay.
   */
  method StoreCounts(entries: seq<(string, Json)>) returns (result: map<string, int>)
    ensures Stores(entries, Processed(entries), result)
    ensures (forall i :: 0 <= i < |entries| ==> NoNegativeBucket(entries[i].1)) ==> NonNegativeCounts(result)
  {
    result := map[];
    ghost var nonNegative := forall i :: 0 <= i < |entries| ==> NoNegativeBucket(entries[i].1);
    var i := 0;
    while i < |entries|
      invariant i <= |entries|
      invariant forall j :: 0 <= j < i ==> CountOf(entries[j].1).Some?
      invariant Stores(entries, i, result)
      invariant nonNegative ==> NonNegativeCounts(result)
    {
      var (userId, userData) := entries[i];
      var count := CountOf(userData);
      if count.None? {
        // `sum` raised: the handler keeps what was stored so far.
        ProcessedAt(entries, i);
        return;
      }
      StoresStep(entries, i, result, count.value);
      if nonNegative {
        NonNegativeStep(result, userId, userData, count.value);
      }
      result := result[userId := count.value];
      i := i + 1;
    }
    ProcessedAt(entries, i);
  }

  /**
   * The parse block of `fetch_event` (report.py:50-59). When the response has
   * no usable `values` dictionary the result is empty; otherwise it is what
   * storing the entries before the first failing one gives, and no count is
   * negative when no bucket is.
   */
  method ParseCounts(data: Json) returns (result: map<string, int>)
    ensures UserEntries(data).None? ==> result == map[]
    ensures UserEntries(data).Some? ==> Stores(UserEntries(data).value, Processed(UserEntries(data).value), result)
    ensures UserEntries(data).Some? && (forall i :: 0 <= i < |UserEntries(data).value| ==> NoNegativeBucket(UserEntries(data).value[i].1)) ==>
      NonNegativeCounts(result)
  {
    var values := UserEntries(data);
    if values.None? {
      result := map[];
    } else {
      result := StoreCounts(values.value);
    }
  }
}
