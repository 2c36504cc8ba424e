/**
 * The table rows of the report (report.py:100-113): one row per ranked
 * record, with a rank label, an alternating background and the cells
 * rank, display id, A, C, D, E and score (B is never shown).
 */
module Rows {
  import Decimal
  import opened Scoring

  /** The rank label of row `i`: a medal for the first three rows, `"{i+1}."` after that. */
  function Medal(i: nat): string {
    if i == 0 then "\U{1F947}"
    else if i == 1 then "\U{1F948}"
    else if i == 2 then "\U{1F949}"
    else Decimal.NatToString(i + 1) + "."
  }

  /** The background of row `i`: `#f9f9f9` on even rows, `#ffffff` on odd ones. */
  function Background(i: nat): string {
    if i % 2 == 0 then "#f9f9f9" else "#ffffff"
  }

  /** A table cell: a text, a count or a (scaled) score. */
  datatype Cell = Text(text: string) | Count(n: int) | Score(scaled: int)

  datatype Row = Row(background: string, cells: seq<Cell>)

  /** The row report.py:104-113 renders for record `u` at index `i`. */
  function RowFor(i: nat, u: UserScore): Row {
    Row(Background(i), [Text(Medal(i)), Text(u.id), Count(u.a), Count(u.c), Count(u.d), Count(u.e), Score(u.scaled)])
  }

  /** Rows from four on are labelled with their 1-based rank, and the label reads back as that rank. */
  lemma NumberedLabel(i: nat)
    requires i >= 3
    ensures |Medal(i)| >= 2 && Medal(i)[|Medal(i)| - 1] == '.'
    ensures Decimal.DigitsValue(Medal(i)[..|Medal(i)| - 1]) == i + 1
  {
    var digits := Decimal.NatToString(i + 1);
    assert Medal(i)[..|Medal(i)| - 1] == digits;
    Decimal.DigitsRoundTrip(i + 1);
  }

  /** Every row has its own rank label. */
  lemma LabelsDistinct(i: nat, j: nat)
    requires i != j
    ensures Medal(i) != Medal(j)
  {
    if i >= 3 && j >= 3 {
      if Medal(i) == Medal(j) {
        var si, sj := Decimal.NatToString(i + 1), Decimal.NatToString(j + 1);
        assert si == Medal(i)[..|Medal(i)| - 1];
        assert sj == Medal(j)[..|Medal(j)| - 1];
        Decimal.NatToStringInjective(i + 1, j + 1);
      }
    } else if i >= 3 {
      assert |Medal(i)| >= 2;
    } else if j >= 3 {
      assert |Medal(j)| >= 2;
    }
  }

  /** Neighbouring rows have different backgrounds, and rows two apart the same one. */
  lemma BackgroundAlternates(i: nat)
    ensures Background(i) != Background(i + 1)
    ensures Background(i) == Background(i + 2)
  {
  }

  /** The B count is not shown: two records that differ only in B give the same row. */
  lemma RowHidesB(i: nat, u: UserScore, b: int)
    ensures RowFor(i, u) == RowFor(i, u.(b := b))
  {
  }

  /** The `rows +=` loop: one row per record, in the records' order. */
  method BuildRows(users: seq<UserScore>) returns (rows: seq<Row>)
    ensures |rows| == |users|
    ensures forall i :: 0 <= i < |rows| ==> rows[i] == RowFor(i, users[i])
  {
    rows := [];
    var i := 0;
    while i < |users|
      invariant i <= |users|
      invariant |rows| == i
      invariant forall k :: 0 <= k < i ==> rows[k] == RowFor(k, users[k])
    {
      rows := rows + [RowFor(i, users[i])];
      i := i + 1;
    }
  }
}
