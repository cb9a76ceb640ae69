/**
  * `filterCounts` of components/Dashboard.tsx: for every categorical column, how
  * many filtered rows show each value. A count record is a multiset: `m[v]` is
  * the count of `v` and `|m|` the sum of all counts.
  */
module Counts {
  import opened Cells
  import opened Seqs
  import opened Roles
  import opened Filters

  /** The values a column shows over the rows, in row order. */
  function ColumnValues(rows: seq<Row>, col: string, roles: Roles): (vals: seq<string>)
    ensures |vals| == |rows|
    ensures forall k :: 0 <= k < |rows| ==> vals[k] == CategoryValue(rows[k], col, roles)
  {
    seq(|rows|, k requires 0 <= k < |rows| => CategoryValue(rows[k], col, roles))
  }

  /** `n` copies of every element of `m`. */
  function Times(m: multiset<string>, n: nat): multiset<string> {
    if n == 0 then multiset{} else Times(m, n - 1) + m
  }

  /** Each value occurs `n` times as often in `Times(m, n)`, so the total is `n` times as large. */
  lemma {:induction false} TimesCounts(m: multiset<string>, n: nat)
    ensures forall v :: Times(m, n)[v] == n * m[v]
    ensures |Times(m, n)| == n * |m|
  {
    if n > 0 {
      TimesCounts(m, n - 1);
      forall v
        ensures Times(m, n)[v] == n * m[v]
      {
        assert Times(m, n)[v] == Times(m, n - 1)[v] + m[v];
        assert (n - 1) * m[v] + m[v] == n * m[v];
      }
      assert |Times(m, n)| == |Times(m, n - 1)| + |m|;
      assert (n - 1) * |m| + |m| == n * |m|;
    }
  }

  /** No copies of nothing is nothing. */
  lemma {:induction false} TimesEmpty(n: nat)
    ensures Times(multiset{}, n) == multiset{}
  {
    if n > 0 {
      TimesEmpty(n - 1);
    }
  }

  /** `Times` distributes over union. */
  lemma {:induction false} TimesUnion(a: multiset<string>, b: multiset<string>, n: nat)
    ensures Times(a + b, n) == Times(a, n) + Times(b, n)
  {
    if n > 0 {
      TimesUnion(a, b, n - 1);
    }
  }

  /** The counts `filterCounts` is meant to produce: each column's values, once per listing of the column. */
  function CountsSpec(rows: seq<Row>, cols: seq<string>, roles: Roles): map<string, multiset<string>> {
    map c | c in cols :: Times(multiset(ColumnValues(rows, c, roles)), Count(cols, c))
  }

  /** One more row adds its value to each column's values. */
  lemma ColumnValuesStep(rows: seq<Row>, i: nat, col: string, roles: Roles)
    requires i < |rows|
    ensures multiset(ColumnValues(rows[..i + 1], col, roles)) ==
      multiset(ColumnValues(rows[..i], col, roles)) + multiset{CategoryValue(rows[i], col, roles)}
  {
    assert ColumnValues(rows[..i + 1], col, roles) == ColumnValues(rows[..i], col, roles) + [CategoryValue(rows[i], col, roles)];
  }

  /** One more listing of a column counts once more. */
  lemma CountStep(cols: seq<string>, j: nat, c: string)
    requires j < |cols|
    ensures Count(cols[..j + 1], c) == Count(cols[..j], c) + if cols[j] == c then 1 else 0
  {
    assert cols[..j + 1] == cols[..j] + [cols[j]];
  }

  /**
    * `filterCounts`: an empty record per categorical column, then every filtered
    * row adds one to the count of its value in every categorical column.
    */
  method FilterCounts(rows: seq<Row>, cols: seq<string>, roles: Roles) returns (counts: map<string, multiset<string>>)
    ensures counts == CountsSpec(rows, cols, roles)
  {
    counts := map[];
    for j := 0 to |cols|
      invariant counts.Keys == set c | c in cols[..j]
      invariant forall c :: c in counts ==> counts[c] == multiset{}
    {
      counts := counts[cols[j] := multiset{}];
    }
    CountedNone(counts, rows, cols, roles);
    for i := 0 to |rows|
      invariant counts.Keys == set c | c in cols
      invariant CountedUpTo(counts, rows, cols, roles, i)
    {
      var next := CountRow(counts, rows[i], cols, roles);
      CountedStep(counts, next, rows, cols, roles, i);
      counts := next;
    }
    CountedAll(counts, rows, cols, roles);
  }

  /** After the first `i` rows: each column's counts are its values over those rows, once per listing. */
  ghost predicate CountedUpTo(counts: map<string, multiset<string>>, rows: seq<Row>, cols: seq<string>, roles: Roles, i: nat)
    requires i <= |rows|
  {
    forall c :: c in cols ==> (c in counts &&
      counts[c] == Times(multiset(ColumnValues(rows[..i], c, roles)), Count(cols, c)))
  }

  lemma CountedNone(counts: map<string, multiset<string>>, rows: seq<Row>, cols: seq<string>, roles: Roles)
    requires counts.Keys == set c | c in cols[..|cols|]
    requires forall c :: c in counts ==> counts[c] == multiset{}
    ensures counts.Keys == set c | c in cols
    ensures CountedUpTo(counts, rows, cols, roles, 0)
  {
    assert cols[..|cols|] == cols;
    forall c | c in cols
      ensures counts[c] == Times(multiset(ColumnValues(rows[..0], c, roles)), Count(cols, c))
    {
      TimesEmpty(Count(cols, c));
    }
  }

  /** Counting row `i` in every column keeps `CountedUpTo`. */
  lemma CountedStep(counts: map<string, multiset<string>>, next: map<string, multiset<string>>,
                    rows: seq<Row>, cols: seq<string>, roles: Roles, i: nat)
    requires i < |rows| && CountedUpTo(counts, rows, cols, roles, i)
    requires forall c :: c in cols ==> (c in next &&
      next[c] == counts[c] + Times(multiset{CategoryValue(rows[i], c, roles)}, Count(cols, c)))
    ensures CountedUpTo(next, rows, cols, roles, i + 1)
  {
    forall c | c in cols
      ensures next[c] == Times(multiset(ColumnValues(rows[..i + 1], c, roles)), Count(cols, c))
    {
      ColumnValuesStep(rows, i, c, roles);
      TimesUnion(multiset(ColumnValues(rows[..i], c, roles)), multiset{CategoryValue(rows[i], c, roles)}, Count(cols, c));
    }
  }

  lemma CountedAll(counts: map<string, multiset<string>>, rows: seq<Row>, cols: seq<string>, roles: Roles)
    requires counts.Keys == set c | c in cols
    requires CountedUpTo(counts, rows, cols, roles, |rows|)
    ensures counts == CountsSpec(rows, cols, roles)
  {
    assert rows[..|rows|] == rows;
  }

  /** The inner loop of `filterCounts`: one row counted in every listed column. */
  method CountRow(counts: map<string, multiset<string>>, row: Row, cols: seq<string>, roles: Roles)
    returns (updated: map<string, multiset<string>>)
    requires counts.Keys == set c | c in cols
    ensures updated.Keys == counts.Keys
    ensures forall c :: c in cols ==> updated[c] == counts[c] + Times(multiset{CategoryValue(row, c, roles)}, Count(cols, c))
  {
    updated := counts;
    RowCountedNone(counts, row, cols, roles);
    for j := 0 to |cols|
      invariant updated.Keys == counts.Keys
      invariant RowCountedUpTo(counts, updated, row, cols, roles, j)
    {
      var next := updated[cols[j] := updated[cols[j]] + multiset{CategoryValue(row, cols[j], roles)}];
      CountRowStep(counts, updated, next, row, cols, roles, j);
      updated := next;
    }
    RowCountedAll(counts, updated, row, cols, roles);
  }

  lemma RowCountedNone(counts: map<string, multiset<string>>, row: Row, cols: seq<string>, roles: Roles)
    requires counts.Keys == set c | c in cols
    ensures RowCountedUpTo(counts, counts, row, cols, roles, 0)
  {
    assert cols[..0] == [];
  }

  lemma RowCountedAll(counts: map<string, multiset<string>>, updated: map<string, multiset<string>>,
                      row: Row, cols: seq<string>, roles: Roles)
    requires RowCountedUpTo(counts, updated, row, cols, roles, |cols|)
    ensures forall c :: c in cols ==> updated[c] == counts[c] + Times(multiset{CategoryValue(row, c, roles)}, Count(cols, c))
  {
    assert cols[..|cols|] == cols;
  }

  /** After the first `j` columns: every column holds the row's value once per listing among them. */
  ghost predicate RowCountedUpTo(counts: map<string, multiset<string>>, updated: map<string, multiset<string>>,
                                 row: Row, cols: seq<string>, roles: Roles, j: nat)
    requires j <= |cols|
  {
    forall c :: c in cols ==> (c in counts && c in updated &&
      updated[c] == counts[c] + Times(multiset{CategoryValue(row, c, roles)}, Count(cols[..j], c)))
  }

  /** One pass of the inner loop keeps `RowCountedUpTo`. */
  lemma CountRowStep(counts: map<string, multiset<string>>, updated: map<string, multiset<string>>,
                     next: map<string, multiset<string>>, row: Row, cols: seq<string>, roles: Roles, j: nat)
    requires j < |cols| && RowCountedUpTo(counts, updated, row, cols, roles, j)
    requires next == updated[cols[j] := updated[cols[j]] + multiset{CategoryValue(row, cols[j], roles)}]
    ensures RowCountedUpTo(counts, next, row, cols, roles, j + 1)
  {
    forall c | c in cols
      ensures next[c] == counts[c] + Times(multiset{CategoryValue(row, c, roles)}, Count(cols[..j + 1], c))
    {
      CountStep(cols, j, c);
    }
  }

  /** Each count is the number of rows showing that value, times the column's listings. */
  lemma CountsAreOccurrences(rows: seq<Row>, cols: seq<string>, roles: Roles, c: string, v: string)
    requires c in cols
    ensures CountsSpec(rows, cols, roles)[c][v] == Count(cols, c) * Count(ColumnValues(rows, c, roles), v)
  {
    TimesCounts(multiset(ColumnValues(rows, c, roles)), Count(cols, c));
  }

  /** A column listed once has counts summing to the number of rows. */
  lemma CountsSumToRows(rows: seq<Row>, cols: seq<string>, roles: Roles, c: string)
    requires c in cols
    ensures |CountsSpec(rows, cols, roles)[c]| == Count(cols, c) * |rows|
    ensures Count(cols, c) == 1 ==> |CountsSpec(rows, cols, roles)[c]| == |rows|
  {
    TimesCounts(multiset(ColumnValues(rows, c, roles)), Count(cols, c));
  }
}
