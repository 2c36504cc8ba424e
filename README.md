# Daily productivity digest: parsing, scoring and ranking

This project models the logic of `report.py` between the Mixpanel fetches and
the e-mail. It has three parts:

- **Parsing an insights response.** The `data.values` mapping of user id to a
  bucket-to-count dictionary becomes a map of user id to total count.
- **Scoring.** The five per-event count maps (A to E) are merged over the
  union of their user ids. Each user gets the weighted productivity score.
  Users whose score is not strictly positive are dropped. The rest are sorted
  by descending score with Python's stable sort, and their scores are totalled.
- **Table rows.** Each ranked record gets a rank label (medal or `"{i+1}."`),
  an alternating background, and the cells rank, display id, A, C, D, E and
  score.

The score is exact. `ScaledScore` is ten thousand times
`((A+B)*1.1 + C*0.9 + D*1.09 + E*1) * 0.90`, written as the integer
`((A+B)*110 + C*90 + D*109 + E*100) * 90`. `ScaledScoreIsFormula` proves that
it equals the decimal formula in exact real arithmetic. Totals use the same
unit.

Modules, one per part of the script:

- `Json` holds the decoded response. An object keeps its entries in the
  dictionary's iteration order. `GetOrEmpty` is Python's `d.get(k, {})`.
- `Insights` holds the parse block of `fetch_event`, as a loop that fills the
  result map step by step.
- `Scoring` holds the metrics, the score, the display id and the aggregation
  loop.
- `Ranking` holds a stable insertion sort. It is given both as a
  specification function (`SortByScore`) and as an in-place array method
  (`SortInPlace`). It also holds the total.
- `Decimal` and `Rows` hold the rank labels, the backgrounds, the row cells
  and the loop that builds the rows.
- `Report` holds one end-to-end run over five given metric maps.

Behaviour of the code that the model keeps:

- A user whose value is not a dictionary is stored with count 0
  (report.py:55-56), so such a user is a key of the parsed map.
- When the bucket sum raises, the handler swallows the exception and the
  entries stored before it are kept (report.py:54-58); later entries are
  not reached.
- `list.sort` is stable even with `reverse=True` (report.py:92): records
  whose sort keys are equal keep their order. The model's sort key is the
  exact score, not the rounded one (see `Ranking.SortInPlace` under
  "## Left out").

## Model

Rows for definitions that carry no `ensures` clause (the medal labels, the weights, the
`.get(uid, 0)` default, the parser's failure points) say what the definition computes;
the lemmas and methods listed beside them state its properties.

| member | source | states |
|---|---|---|
| Json.Lookup | report.py:52-53 | finds a key exactly when some entry has it, and returns the value of the first entry with that key |
| Json.GetOrEmpty | report.py:52-53 | `d.get(key, {})` fails exactly when `d` is not a dictionary; a missing key gives the empty dictionary |
| Insights.BucketValue | report.py:55 | a bucket as `sum` adds it: an int is itself, a bool is 0 or 1, and null, a string, a list or a dictionary make the sum raise (no value) |
| Insights.SumBuckets | report.py:55 | `sum(user_data.values())` fails exactly when some bucket is not an int or bool |
| Insights.SumBucketsSingle | report.py:55 | one bucket sums to its own value (an int, or 0/1 for a bool) |
| Insights.SumBucketsAppend | report.py:55 | the sum of two runs of buckets succeeds exactly when both do, and equals the sum of their sums; with SumBucketsSingle this fixes every bucket sum's value |
| Insights.CountOf | report.py:55 | the count stored for one user: the bucket sum when the value is a dictionary (raising when that sum raises), 0 for any other value |
| Insights.UserEntries | report.py:52-54 | the entries of `data["data"]["values"]`, a missing key read as `{}`; no entries where `data` or `data["data"]` is not a dictionary (`.get` raises) or `values` is not one (`.items()` raises) |
| Insights.Processed | report.py:54-58 | the loop stores exactly the entries before the first one whose count raises: all earlier ones succeed, and that one fails |
| Insights.SumBucketsNonNegative | report.py:55 | buckets with no negative integer sum to a non-negative count |
| Insights.StoresStep | report.py:56 | storing one more entry's count extends the map of the entries before it: its user id becomes a key with this count and other ids keep theirs |
| Insights.ProcessedAt | report.py:54-58 | a loop that stored every entry before k and stops at k (end or a failing count) stopped at Processed |
| Insights.StoreCounts | report.py:54-58 | the keys are exactly the user ids of the entries before the first failing one, each mapped to the count of its last such entry (bucket sum for a dictionary, 0 otherwise); no count is negative when no bucket is |
| Insights.ParseCounts | report.py:50-59 | an unusable response (a `.get` or `.items()` that raises) gives the empty map; otherwise the result is what StoreCounts states for the `values` entries |
| Decimal.NatToString | report.py:103 | `str(n)` is a non-empty string of decimal digits with no leading zero |
| Decimal.DigitsRoundTrip | report.py:103 | reading the decimal text of n back gives n |
| Decimal.NatToStringInjective | report.py:103 | different numbers have different decimal texts |
| Scoring.CountFor | report.py:82-86 | `m.get(uid, 0)`: the user's count in one metric, 0 when the metric has no entry for the user |
| Scoring.ScaledScore | report.py:87 | ten thousand times `((A + B) * 1.1 + C * 0.9 + D * 1.09 + E * 1) * 0.90`, as an exact integer with weights 110, 90, 109, 100 and factor 90 |
| Scoring.ScaledScoreIsFormula | report.py:87 | the integer score divided by 10000 equals the weighted decimal formula exactly |
| Scoring.PositiveScoreIffSomeCount | report.py:87-88 | with non-negative counts the score is strictly positive iff A+B+C+D+E > 0 |
| Scoring.WorkedExample | report.py:87 | a test vector: A=10, B=0, C=5, D=2, E=1 scores 16.812 before rounding |
| Scoring.DisplayId | report.py:89 | the display id has length min(len(uid), 8) + 3, begins with that prefix of uid and ends with "..." |
| Scoring.AllUsers | report.py:76 | the union of the user ids of the five metrics |
| Scoring.Kept | report.py:88 | the guard `score > 0` on the user's score over its looked-up counts |
| Scoring.KeptIffSomeEvent | report.py:82-88 | with non-negative counts a user is kept iff one of its five looked-up counts (default 0) is positive |
| Scoring.AbsentUserDropped | report.py:76-88 | a user in none of the five maps is never kept |
| Scoring.SkipStep | report.py:88 | visiting a user that is not kept leaves the aggregation of the visited users intact |
| Scoring.AppendStep | report.py:88-89 | appending the record of a new kept user aggregates the visited users plus that one |
| Scoring.Aggregate | report.py:76-89 | every record holds its full id, the display id, the five looked-up counts and the formula's score, which is positive; every record's user is in the union; every kept user of the union has a record; no user appears twice |
| Ranking.Insert | report.py:92 | inserts a record after every trailing record that does not score less than it, so it lands at the end of its score's run |
| Ranking.SortByScore | report.py:92 | the stable descending sort by score: insertion of each record in input order |
| Ranking.Total | report.py:93 | the sum of the records' scores, from 0 |
| Ranking.InsertContents | report.py:92 | inserting a record adds exactly that record to the multiset |
| Ranking.InsertGroups | report.py:92 | inserting a record appends it to the end of its score's group and leaves every other group unchanged |
| Ranking.InsertSorted | report.py:92 | inserting into a list sorted by descending score keeps it sorted |
| Ranking.SortByScoreSorted | report.py:92 | the sorted list has non-increasing scores |
| Ranking.SortByScorePermutes | report.py:92 | the sorted list is a permutation of the input |
| Ranking.SortByScoreStable | report.py:92 | for every score, the records with that score keep their relative input order |
| Ranking.SortedWithSameGroupsEqual | report.py:92 | two lists sorted by descending score with the same records, in the same order, for every score are equal |
| Ranking.StableSortIsUnique | report.py:92 | any list sorted by descending score that is stable with respect to the input equals SortByScore, so every stable sort agrees with it |
| Ranking.HigherScoreFirst | report.py:92 | in a list sorted by descending score, a strictly higher exact score appears strictly earlier; it is the contrapositive of SortedDesc and adds nothing beyond it (the source compares rounded scores; see "## Left out") |
| Ranking.TotalPositive | report.py:93 | the total of positive scores is non-negative and is 0 exactly for the empty list |
| Ranking.TotalOfSorted | report.py:92-93 | sorting does not change the total |
| Ranking.InsertAt | report.py:92 | inserting into the gap after the last record that does not score less gives the specification's insertion |
| Ranking.InsertLast | report.py:92 | one insertion step in place leaves the prefix equal to the specification's insertion and the rest unchanged |
| Ranking.SortInPlace | report.py:92 | the in-place sort leaves the array equal to the stable sort of its old contents |
| Rows.Medal | report.py:103 | the rank label: 🥇/🥈/🥉 for rows 0/1/2, `str(i+1)` followed by "." after that |
| Rows.Background | report.py:102 | `#f9f9f9` on even rows, `#ffffff` on odd ones |
| Rows.RowFor | report.py:104-113 | the row for record u at index i: its background, then the cells medal, display id, A, C, D, E and score |
| Rows.NumberedLabel | report.py:103 | from row 3 on (counting from 0), the label is the 1-based rank i+1 in decimal followed by "."; it reads back as i+1 |
| Rows.LabelsDistinct | report.py:103 | different rows have different rank labels (medals for rows 0-2, numbers after) |
| Rows.BackgroundAlternates | report.py:102 | neighbouring rows differ in background and rows two apart share it |
| Rows.RowHidesB | report.py:104-113 | the row does not depend on the B count |
| Rows.BuildRows | report.py:100-113 | exactly one row per record, in order; row i has background by parity, label by rank and cells medal, id, A, C, D, E, score |
| Report.PermutedAggregate | report.py:92 | any permutation of an aggregated list is still an aggregated list |
| Report.SameIdSameRecord | report.py:89 | two aggregated records for the same user are the same record |
| Report.RunReport | report.py:76-113 | the ranked records are exactly the kept users of the union, each described faithfully, sorted by descending exact score (which, by Ranking.StableSortIsUnique, makes them SortByScore of some aggregation order); the total is their sum, and there is one row per record; with no users at all there are no rows and the total is 0. Because the set's visiting order is arbitrary, stability is stated for a given order by Ranking.SortInPlace and Ranking.SortByScoreStable, not here |

## Left out

- Reading credentials from the environment, the Basic-auth header and the current date (report.py:11-25, 98) are environment and clock input.
- The HTTP POST, `raise_for_status` and `resp.json()` (report.py:41-47) are network and JSON-decoding library calls. The parser starts from an already decoded `Json` value.
- The five `fetch_event` calls (report.py:65-73), including the repeated "Rejected Review" query for A and B, are data-source calls. `Report.RunReport` takes the five count maps as given.
- JSON text with a repeated object key is not modelled. A `Json` object stands for the decoded dictionary, whose keys are unique, and `Json.Lookup` takes the first matching entry.
- Float buckets are not modelled: the `Json` value has no case for a number with a fraction or an exponent (such as `1e2`), so buckets and counts are integers. In the code, `sum` adds a float bucket without raising and stores a float count; the model cannot represent such a response. Among the values it does represent, only an int or a bool is added, and null, a string, a list or a dictionary makes the sum raise.
- Ranking.SortInPlace, Ranking.SortByScore, Ranking.HigherScoreFirst and Report.RunReport sort by the exact score, not by `round(score, 1)`, which is the source's actual sort key (report.py:89, 92). In the source, records whose exact scores differ but round to the same tenth are ties, and `list.sort` keeps them in aggregation order. The model orders them by exact score. For example, A=1 gives 0.99 and D=1 gives 0.981; both round to 1.0 in the source, but the model puts the A=1 record first.
- Floating point is not modelled: `round(score, 1)` (report.py:89) and the float sum and `round` of the total (report.py:93). Scores and totals are exact integers in units of 1/10000, so the model does not reproduce float rounding or the float comparison `score > 0`: for the model, `score > 0` means the exact score is positive.
- The static HTML template, the row markup text, the number formatting of the score cell and the MIME/SMTP sending (report.py:104-113, 115-188) are fixed text and library I/O. Rows are modelled as their background and ordered cells.
- Python's set iteration order over the union (report.py:81) is arbitrary. `Scoring.Aggregate` visits users in an unspecified order.
- Python's Timsort (report.py:92) is replaced by a stable insertion sort. `Ranking.StableSortIsUnique` shows that every stable descending sort gives the same list.
