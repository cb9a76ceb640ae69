/**
  * The filter state and the row filter of components/Dashboard.tsx: multi-select
  * filters per categorical column (`toggleFilter`, `clearAllFilters`) and the
  * categorical and search tests of `filteredRows`. The clock-dependent date
  * presets are a parameter: `inWindow` says whether a row's date lies in the
  * window the active preset selects.
  */
module Filters {
  import opened Wrappers
  import opened Text
  import opened Cells
  import opened Seqs
  import opened Roles

  datatype DatePreset = All | Today | Days7 | Days15 | Days30 | Custom

  /** The selected values per column (`Record<string, string[]>`). */
  type Selection = map<string, seq<string>>

  /** The filter part of the dashboard state. */
  datatype FilterState = FilterState(
    filters: Selection, searchTerm: string, datePreset: DatePreset, activeHeaderFilter: Option<string>)

  /** `prev[column] || []`. */
  function Selected(filters: Selection, column: string): seq<string> {
    if column in filters then filters[column] else []
  }

  /** No value is selected twice. */
  ghost predicate NoDuplicates(values: seq<string>) {
    forall v :: multiset(values)[v] <= 1
  }

  /** The test `v => v !== value`. */
  function Other(value: string): string -> bool {
    v => v != value
  }

  /** The new selection of one column: `value` dropped when present, appended when absent. */
  function ToggledValues(current: seq<string>, value: string): (updated: seq<string>)
    ensures value in updated <==> value !in current
    ensures forall v :: v != value ==> (v in updated <==> v in current)
    ensures NoDuplicates(current) ==> NoDuplicates(updated)
  {
    if value in current then
      FilterSpec(current, Other(value));
      var kept := Filter(current, Other(value));
      assert forall v :: (v in kept <==> multiset(kept)[v] > 0) && (v in current <==> multiset(current)[v] > 0);
      kept
    else
      current + [value]
  }

  /** `toggleFilter(column, value)`: only the column's selection changes. */
  function ToggleFilter(filters: Selection, column: string, value: string): (r: Selection)
    ensures r.Keys == filters.Keys + {column}
    ensures forall c :: c in filters && c != column ==> r[c] == filters[c]
    ensures value in r[column] <==> value !in Selected(filters, column)
    ensures forall v :: v != value ==> (v in r[column] <==> v in Selected(filters, column))
    ensures NoDuplicates(Selected(filters, column)) ==> NoDuplicates(r[column])
  {
    filters[column := ToggledValues(Selected(filters, column), value)]
  }

  /** Toggling a value twice gives the column back the values it had selected. */
  lemma ToggleTwice(filters: Selection, column: string, value: string)
    ensures forall v :: (v in Selected(ToggleFilter(ToggleFilter(filters, column, value), column, value), column)
      <==> v in Selected(filters, column))
    ensures forall c :: c in filters && c != column ==> ToggleFilter(ToggleFilter(filters, column, value), column, value)[c] == filters[c]
  {
  }

  /** Toggling a value not yet selected twice gives the column back exactly its selection. */
  lemma ToggleTwiceRestores(filters: Selection, column: string, value: string)
    requires column in filters && value !in filters[column]
    ensures ToggleFilter(ToggleFilter(filters, column, value), column, value) == filters
  {
    var current := filters[column];
    var once := ToggleFilter(filters, column, value);
    assert once[column] == current + [value];
    assert value in current + [value];
    FilterAppendDropsValue(current, value);
  }

  /** Dropping a value from a list it was appended to gives the list back. */
  lemma FilterAppendDropsValue(s: seq<string>, value: string)
    requires value !in s
    ensures Filter(s + [value], Other(value)) == s
  {
    FilterAppend(s, [value], Other(value));
    FilterKeepsAll(s, Other(value));
    assert [value][1..] == [];
  }

  /** `clearAllFilters`: no selection, no search term, the whole period, no open menu. */
  function ClearAllFilters(state: FilterState): (r: FilterState)
    ensures r.filters == map[] && r.searchTerm == "" && r.datePreset == All && r.activeHeaderFilter == None
  {
    FilterState(map[], "", All, None)
  }

  /** `rowsWithIndex`: each row gets its position under `_id`. */
  function WithIndex(rows: seq<Row>): (r: seq<Row>)
    ensures |r| == |rows|
    ensures forall i :: 0 <= i < |r| ==> r[i] == rows[i]["_id" := Num(i as real)]
  {
    seq(|rows|, i requires 0 <= i < |rows| => rows[i]["_id" := Num(i as real)])
  }

  /** Indexed rows are pairwise different, because their `_id` differs. */
  lemma WithIndexDistinct(rows: seq<Row>)
    ensures forall i, j :: 0 <= i < j < |WithIndex(rows)| ==> WithIndex(rows)[i] != WithIndex(rows)[j]
  {
    var r := WithIndex(rows);
    forall i, j | 0 <= i < j < |r|
      ensures r[i] != r[j]
    {
      assert r[i]["_id"] != r[j]["_id"];
    }
  }

  /**
    * The value a row shows in a categorical column: `String(row[col] ?? 'N/A')`,
    * put through `cleanUTMSource` when the column is the source column and then
    * through `cleanUTMCampaign` when it is the campaign column.
    */
  function CategoryValue(row: Row, col: string, roles: Roles): string {
    var raw := TextOrIfMissing(Get(row, col), "N/A");
    var s := if roles.source == Some(col) then CleanUTMSource(raw) else raw;
    if roles.campaign == Some(col) then CleanUTMCampaign(s) else s
  }

  /** Every column with a non-empty selection has the row's value among the selected ones. */
  predicate MatchesFilters(row: Row, filters: Selection, roles: Roles) {
    forall col :: col in filters ==> filters[col] == [] || CategoryValue(row, col, roles) in filters[col]
  }

  /** An empty search term matches; otherwise some header's text contains it, ignoring case. */
  predicate MatchesSearch(row: Row, headers: seq<string>, term: string) {
    term == "" || exists h :: h in headers && Contains(Lower(Stringify(Get(row, h))), Lower(term))
  }

  /** The date test only applies when a date column exists and a preset other than `all` is active. */
  predicate MatchesDate(row: Row, state: FilterState, roles: Roles, inWindow: Row -> bool) {
    roles.data.None? || roles.data.value == "" || state.datePreset == All || inWindow(row)
  }

  predicate Keep(row: Row, headers: seq<string>, state: FilterState, roles: Roles, inWindow: Row -> bool) {
    MatchesDate(row, state, roles, inWindow) && MatchesFilters(row, state.filters, roles) &&
    MatchesSearch(row, headers, state.searchTerm)
  }

  /** `filteredRows`: the indexed rows passing the date, categorical and search tests, in order. */
  function FilteredRows(rows: seq<Row>, headers: seq<string>, state: FilterState, roles: Roles, inWindow: Row -> bool): (r: seq<Row>)
    ensures IsSubseq(r, rows)
    ensures forall x :: x in r ==> Keep(x, headers, state, roles, inWindow)
    ensures forall x :: x in rows && Keep(x, headers, state, roles, inWindow) ==> x in r
  {
    var keep := (x: Row) => Keep(x, headers, state, roles, inWindow);
    FilterSpec(rows, keep);
    var r := Filter(rows, keep);
    assert forall x :: x in r ==> multiset(r)[x] > 0;
    assert forall x :: x in rows ==> multiset(rows)[x] > 0;
    r
  }

  /** After `clearAllFilters` every row is shown. */
  lemma ClearedFiltersKeepEveryRow(rows: seq<Row>, headers: seq<string>, state: FilterState, roles: Roles, inWindow: Row -> bool)
    ensures FilteredRows(rows, headers, ClearAllFilters(state), roles, inWindow) == rows
  {
    FilterKeepsAll(rows, (x: Row) => Keep(x, headers, ClearAllFilters(state), roles, inWindow));
  }

  /** Toggling a value twice shows the same rows as before. */
  lemma ToggleTwiceSameRows(rows: seq<Row>, headers: seq<string>, state: FilterState, roles: Roles, inWindow: Row -> bool,
                            column: string, value: string)
    ensures var toggled := state.(filters := ToggleFilter(ToggleFilter(state.filters, column, value), column, value));
      FilteredRows(rows, headers, toggled, roles, inWindow) == FilteredRows(rows, headers, state, roles, inWindow)
  {
    var f := ToggleFilter(ToggleFilter(state.filters, column, value), column, value);
    var toggled := state.(filters := f);
    ToggleTwice(state.filters, column, value);
    forall row | row in rows
      ensures MatchesFilters(row, f, roles) == MatchesFilters(row, state.filters, roles)
    {
      SameSelectionsSameMatch(row, f, state.filters, roles);
    }
    FilterSameTest(rows, (x: Row) => Keep(x, headers, toggled, roles, inWindow), (x: Row) => Keep(x, headers, state, roles, inWindow));
  }

  /** Selections that hold the same values decide a row the same way. */
  lemma SameSelectionsSameMatch(row: Row, f: Selection, g: Selection, roles: Roles)
    requires forall c :: c in f && c !in g ==> f[c] == []
    requires forall c :: c in g && c !in f ==> g[c] == []
    requires forall c, v :: c in f && c in g ==> (v in f[c] <==> v in g[c])
    ensures MatchesFilters(row, f, roles) == MatchesFilters(row, g, roles)
  {
    forall c | c in f && c in g
      ensures f[c] == [] <==> g[c] == []
    {
      if f[c] != [] {
        assert f[c][0] in g[c];
      }
      if g[c] != [] {
        assert g[c][0] in f[c];
      }
    }
  }
}
