/**
  * `getTop5` of components/Dashboard.tsx: the five most frequent values of a
  * column over the filtered rows, each with the number of rows showing it.
  */
module Top5 {
  import opened Wrappers
  import opened Text
  import opened Cells
  import opened Seqs
  import opened Roles
  import opened Grouping
  import Filters

  /** One bar of a top-five chart: `{ name, value }`. */
  datatype Entry = Entry(name: string, value: nat)

  function Value(e: Entry): int {
    e.value
  }

  function Name(e: Entry): string {
    e.name
  }

  /** The most entries a chart shows. */
  const Shown: nat := 5

  /**
    * `String(row[colName] || 'N/A').trim()`, then cleaned as a source when the
    * column is the source column and as a campaign when it is the campaign column.
    */
  function TopValue(row: Row, col: string, roles: Roles): (v: string)
    ensures roles.source != Some(col) && roles.campaign != Some(col) && !Truthy(Get(row, col)) ==> v == "N/A"
    ensures roles.source != Some(col) && roles.campaign != Some(col) && Truthy(Get(row, col))
            ==> v == Trim(CellText(row[col]))
    ensures roles.source != Some(col) && roles.campaign != Some(col)
            ==> v == [] || (!IsSpace(v[0]) && !IsSpace(v[|v| - 1]))
    ensures roles.source == Some(col) && roles.campaign != Some(col)
            ==> v != "" && (v in Sources || v == Trim(TextOr(Get(row, col), "N/A")))
    ensures roles.campaign == Some(col) ==> '|' !in v
  {
    TrimUnchanged("N/A");
    var raw := Trim(TextOr(Get(row, col), "N/A"));
    var s := if roles.source == Some(col) then CleanUTMSource(raw) else raw;
    if roles.campaign == Some(col) then CleanUTMCampaign(s) else s
  }

  /**
    * An empty cell shows as `N/A` in a chart, where `String(row[col] || 'N/A')`
    * falls back, but as the empty text in the filter menus, where `??` does not.
    */
  lemma EmptyCellShowsNA(row: Row, col: string, roles: Roles)
    requires roles.source != Some(col) && roles.campaign != Some(col)
    requires col in row && row[col] == Str("")
    ensures TopValue(row, col, roles) == "N/A"
    ensures Filters.CategoryValue(row, col, roles) == ""
  {
  }

  /** The reader of a column's values. */
  function Reader(col: string, roles: Roles): Row -> string {
    row => TopValue(row, col, roles)
  }

  /** The value of every row, in row order. */
  function Values(rows: seq<Row>, read: Row -> string): (vs: seq<string>)
    ensures |vs| == |rows|
    ensures forall i :: 0 <= i < |rows| ==> vs[i] == read(rows[i])
  {
    seq(|rows|, i requires 0 <= i < |rows| => read(rows[i]))
  }

  /** The empty count and the increment, as `Grouping` takes them. */

  function NoneYet(): Row -> nat {
    row => 0
  }

  function PlusOne(): (nat, Row) -> nat {
    (n, row) => n + 1
  }

  /** `Object.entries(counts)`: every value that occurs, with the number of rows showing it. */
  function Tally(rows: seq<Row>, read: Row -> string): seq<Entry> {
    var ks := KeysInOrder(rows, read);
    seq(|ks|, j requires 0 <= j < |ks| => Entry(ks[j], Count(Values(rows, read), ks[j])))
  }

  /** `.slice(0, 5)`. */
  function Take(s: seq<Entry>): (r: seq<Entry>)
    ensures |r| == if |s| < Shown then |s| else Shown
    ensures r == s[..|r|]
  {
    if |s| <= Shown then s else s[..Shown]
  }

  /** What `getTop5(colName)` returns: nothing without a column, else the tally sorted by count, first five. */
  function Top(rows: seq<Row>, col: Option<string>, roles: Roles): seq<Entry> {
    if col.None? || col.value == "" then []
    else Take(SortDescending(Tally(rows, Reader(col.value, roles)), Value))
  }

  /** Counting from zero, one per element, counts the elements. */
  lemma {:induction false} FoldCounts(rs: seq<Row>)
    requires rs != []
    ensures Fold(rs, NoneYet(), PlusOne()) == |rs|
    decreases |rs|
  {
    if |rs| > 1 {
      FoldCounts(rs[..|rs| - 1]);
    }
  }

  /** The rows with a value are as many as the times the value occurs. */
  lemma {:induction false} MembersAreOccurrences(rows: seq<Row>, read: Row -> string, v: string)
    ensures |Members(rows, v, read)| == Count(Values(rows, read), v)
  {
    if rows != [] {
      var front := rows[..|rows| - 1];
      MembersAreOccurrences(front, read, v);
      assert Values(rows, read) == Values(front, read) + [read(rows[|rows| - 1])];
    }
  }

  /** The counts the loop builds are the tally. */
  lemma CountsAreTally(rows: seq<Row>, read: Row -> string)
    ensures var ks, ns := KeysInOrder(rows, read), GroupsInOrder(rows, read, NoneYet(), PlusOne());
      forall j :: 0 <= j < |ks| ==> Tally(rows, read)[j] == Entry(ks[j], ns[j])
  {
    var ks, ns := KeysInOrder(rows, read), GroupsInOrder(rows, read, NoneYet(), PlusOne());
    forall j | 0 <= j < |ks|
      ensures Tally(rows, read)[j] == Entry(ks[j], ns[j])
    {
      ListedKeyHasMembers(rows, ks[j], read);
      FoldCounts(Members(rows, ks[j], read));
      MembersAreOccurrences(rows, read, ks[j]);
    }
  }

  /**
    * `getTop5`: count every filtered row's value into a record, list the record's
    * entries, sort them by count, most first, and keep five.
    */
  method GetTop5(rows: seq<Row>, col: Option<string>, roles: Roles) returns (top: seq<Entry>)
    ensures top == Top(rows, col, roles)
  {
    if col.None? || col.value == "" {
      return [];
    }
    var entries := CountValues(rows, Reader(col.value, roles));
    top := Take(SortDescending(entries, Value));
  }

  /** The `forEach` that fills the count record, and `Object.entries` of the record. */
  method CountValues(rows: seq<Row>, read: Row -> string) returns (entries: seq<Entry>)
    ensures entries == Tally(rows, read)
  {
    var zero, inc := NoneYet(), PlusOne();
    var counts: map<string, nat> := map[];
    var order: seq<string> := [];
    TableStart(rows, read, zero, inc);
    for i := 0 to |rows|
      invariant TableInv(counts, order, rows[..i], read, zero, inc)
    {
      var row := rows[i];
      var val := read(row);
      var current: nat;
      TableStep(counts, order, rows, i, read, zero, inc);
      if val in counts {
        current := counts[val];
      } else {
        current := zero(row);
        order := order + [val];
      }
      counts := counts[val := inc(current, row)];
    }
    TableDone(counts, order, rows, read, zero, inc);
    EntriesAreTally(counts, order, rows, read);
    entries := Entries(counts, order);
  }

  /** `Object.entries(counts)` for a record whose keys were inserted in `order`. */
  function Entries(counts: map<string, nat>, order: seq<string>): (es: seq<Entry>)
    requires forall k :: k in order ==> k in counts
    ensures |es| == |order|
    ensures forall j :: 0 <= j < |order| ==> es[j] == Entry(order[j], counts[order[j]])
  {
    seq(|order|, j requires 0 <= j < |order| => Entry(order[j], counts[order[j]]))
  }

  lemma EntriesAreTally(counts: map<string, nat>, order: seq<string>, rows: seq<Row>, read: Row -> string)
    requires order == KeysInOrder(rows, read)
    requires forall k :: k in order ==> k in counts
    requires Listed(counts, order) == GroupsInOrder(rows, read, NoneYet(), PlusOne())
    ensures Entries(counts, order) == Tally(rows, read)
  {
    CountsAreTally(rows, read);
    var es := Entries(counts, order);
    forall j | 0 <= j < |order|
      ensures es[j] == Tally(rows, read)[j]
    {
      assert Listed(counts, order)[j] == counts[order[j]];
    }
  }

  /** Every tallied value occurs, with its number of occurrences; every value that occurs is tallied once. */
  lemma TallySpec(rows: seq<Row>, read: Row -> string)
    ensures DistinctBy(Tally(rows, read), Name)
    ensures forall e :: e in Tally(rows, read) ==>
      e.name in Values(rows, read) && e.value == Count(Values(rows, read), e.name)
    ensures forall v :: v in Values(rows, read) ==> Entry(v, Count(Values(rows, read), v)) in Tally(rows, read)
  {
    KeysInOrderSpec(rows, read);
    TallyDistinct(rows, read);
    TallyOccurs(rows, read);
    TallyComplete(rows, read);
  }

  lemma TallyDistinct(rows: seq<Row>, read: Row -> string)
    requires forall a, b :: 0 <= a < b < |KeysInOrder(rows, read)| ==> KeysInOrder(rows, read)[a] != KeysInOrder(rows, read)[b]
    ensures DistinctBy(Tally(rows, read), Name)
  {
    var t, ks := Tally(rows, read), KeysInOrder(rows, read);
    forall a, b | 0 <= a < b < |t|
      ensures Name(t[a]) != Name(t[b])
    {
      assert t[a].name == ks[a] && t[b].name == ks[b];
    }
  }

  lemma TallyOccurs(rows: seq<Row>, read: Row -> string)
    requires forall k :: k in KeysInOrder(rows, read) ==> exists j :: 0 <= j < |rows| && read(rows[j]) == k
    ensures forall e :: e in Tally(rows, read) ==> e.name in Values(rows, read)
  {
    var t, vs, ks := Tally(rows, read), Values(rows, read), KeysInOrder(rows, read);
    forall e | e in t
      ensures e.name in vs
    {
      var j :| 0 <= j < |t| && t[j] == e;
      assert ks[j] in ks;
      var i :| 0 <= i < |rows| && read(rows[i]) == ks[j];
      assert vs[i] == e.name;
    }
  }

  lemma TallyComplete(rows: seq<Row>, read: Row -> string)
    requires forall j :: 0 <= j < |rows| ==> read(rows[j]) in KeysInOrder(rows, read)
    ensures forall v :: v in Values(rows, read) ==> Entry(v, Count(Values(rows, read), v)) in Tally(rows, read)
  {
    var t, vs, ks := Tally(rows, read), Values(rows, read), KeysInOrder(rows, read);
    forall v | v in vs
      ensures Entry(v, Count(vs, v)) in t
    {
      var i :| 0 <= i < |vs| && vs[i] == v;
      assert read(rows[i]) in ks;
      var j :| 0 <= j < |ks| && ks[j] == v;
      assert t[j] == Entry(v, Count(vs, v));
    }
  }

  /**
    * The chart: at most five entries, most frequent first, each a value that
    * occurs with its exact count, no value twice; a value left out occurs no
    * more often than the fifth entry.
    */
  lemma TopSpec(rows: seq<Row>, col: string, roles: Roles)
    requires col != ""
    ensures var top, vs := Top(rows, Some(col), roles), Values(rows, Reader(col, roles));
      |top| <= Shown && NonIncreasing(top, Value) && DistinctBy(top, Name) &&
      (forall e :: e in top ==> e.name in vs && e.value == Count(vs, e.name)) &&
      (forall v :: v in vs && (forall e :: e in top ==> e.name != v) ==>
        |top| == Shown && Count(vs, v) <= top[Shown - 1].value)
  {
    TopOfTally(rows, Reader(col, roles));
  }

  lemma TopOfTally(rows: seq<Row>, read: Row -> string)
    ensures var top, vs := Take(SortDescending(Tally(rows, read), Value)), Values(rows, read);
      |top| <= Shown && NonIncreasing(top, Value) && DistinctBy(top, Name) &&
      (forall e :: e in top ==> e.name in vs && e.value == Count(vs, e.name)) &&
      (forall v :: v in vs && (forall e :: e in top ==> e.name != v) ==>
        |top| == Shown && Count(vs, v) <= top[Shown - 1].value)
  {
    var t, vs := Tally(rows, read), Values(rows, read);
    var sorted := SortDescending(t, Value);
    TallySpec(rows, read);
    SortDistinctBy(t, Value, Name);
    SameElements(t, sorted);
    TakeSpec(sorted, vs);
  }

  lemma SameElements(t: seq<Entry>, sorted: seq<Entry>)
    requires multiset(sorted) == multiset(t)
    ensures forall e :: e in sorted <==> e in t
  {
    assert forall e :: (e in sorted <==> e in multiset(sorted)) && (e in t <==> e in multiset(t));
  }

  /** The first five of a tally sorted by count are the five most frequent values. */
  lemma TakeSpec(sorted: seq<Entry>, vs: seq<string>)
    requires NonIncreasing(sorted, Value) && DistinctBy(sorted, Name)
    requires forall e :: e in sorted ==> e.name in vs && e.value == Count(vs, e.name)
    requires forall v :: v in vs ==> Entry(v, Count(vs, v)) in sorted
    ensures var top := Take(sorted);
      |top| <= Shown && NonIncreasing(top, Value) && DistinctBy(top, Name) &&
      (forall e :: e in top ==> e.name in vs && e.value == Count(vs, e.name)) &&
      (forall v :: v in vs && (forall e :: e in top ==> e.name != v) ==>
        |top| == Shown && Count(vs, v) <= top[Shown - 1].value)
  {
    var top := Take(sorted);
    assert forall e :: e in top ==> e in sorted;
    forall v | v in vs && (forall e :: e in top ==> e.name != v)
      ensures |top| == Shown && Count(vs, v) <= top[Shown - 1].value
    {
      var e := Entry(v, Count(vs, v));
      var i :| 0 <= i < |sorted| && sorted[i] == e;
      NonIncreasingAt(sorted, Value, Shown - 1, i);
    }
  }
}
