/**
  * The import history of App.tsx: a newest-first list of at most ten imported
  * tables (`addToHistory`, `deleteFromHistory`). The id and the timestamp come
  * from `crypto.randomUUID()` and `Date.now()` and are parameters here.
  */
module History {
  import opened Wrappers
  import opened Text
  import opened Cells
  import opened Csv
  import opened Seqs

  /** The summary kept with each entry: sales count and revenue. */
  datatype HistoryStats = HistoryStats(vendas: nat, faturamento: real)

  /** `HistoryEntry` of types.ts. */
  datatype HistoryEntry = HistoryEntry(id: string, name: string, timestamp: int, data: Table, stats: HistoryStats)

  /** The history keeps at most this many entries. */
  const MaxEntries: nat := 10

  /** A header that names the revenue column: its lower case mentions `valor` or `faturamento`. */
  predicate IsRevenueHeader(h: string) {
    Contains(Lower(h), "valor") || Contains(Lower(h), "faturamento")
  }

  /** `headers.find(IsRevenueHeader)`: the first revenue header, if any. */
  function RevenueColumn(headers: seq<string>): (col: Option<string>)
    ensures col.None? <==> forall j :: 0 <= j < |headers| ==> !IsRevenueHeader(headers[j])
    ensures col.Some? ==> exists i :: (0 <= i < |headers| && headers[i] == col.value &&
      IsRevenueHeader(headers[i]) && forall j :: 0 <= j < i ==> !IsRevenueHeader(headers[j]))
  {
    match FindIndex(headers, IsRevenueHeader)
    case None => None
    case Some(i) => Some(headers[i])
  }

  /**
    * The revenue total as App.tsx writes it: the header falls back to `''`, so
    * without a revenue header the column named `''` is summed.
    */
  function RevenueAsWritten(t: Table): (r: real)
    ensures RevenueColumn(t.headers).Some? ==> r == Revenue(t)
  {
    ColumnSum(t.rows, RevenueColumn(t.headers).GetOr(""))
  }

  /** The revenue total: the numeric sum of the revenue column, 0 when there is none. */
  function Revenue(t: Table): (r: real)
    ensures RevenueColumn(t.headers).None? ==> r == 0.0
  {
    match RevenueColumn(t.headers)
    case None => 0.0
    case Some(h) => ColumnSum(t.rows, h)
  }

  /** A column that no row holds sums to 0. */
  lemma {:induction false} ColumnSumAbsent(rows: seq<Row>, key: string)
    requires forall i :: 0 <= i < |rows| ==> key !in rows[i]
    ensures ColumnSum(rows, key) == 0.0
  {
    if rows != [] {
      ColumnSumAbsent(rows[..|rows| - 1], key);
    }
  }

  /** The two totals differ only when a row holds a column named `''`. */
  lemma AsWrittenAgreesWithoutBlankColumn(t: Table)
    requires forall i :: 0 <= i < |t.rows| ==> "" !in t.rows[i]
    ensures RevenueAsWritten(t) == Revenue(t)
  {
    if RevenueColumn(t.headers).None? {
      ColumnSumAbsent(t.rows, "");
    }
  }

  /**
    * The text `a,` then `1,5` imports as headers `a` and `''` and one row; no header
    * names revenue, yet the written total is 5 where 0 is meant.
    */
  lemma AsWrittenSumsBlankColumn()
    ensures var t := Table(["a", ""], [map["a" := Num(1.0), "" := Num(5.0)]], map["a" := NumberColumn, "" := NumberColumn]);
      RevenueAsWritten(t) == 5.0 && Revenue(t) == 0.0
  {
    var t := Table(["a", ""], [map["a" := Num(1.0), "" := Num(5.0)]], map["a" := NumberColumn, "" := NumberColumn]);
    assert !IsRevenueHeader(t.headers[0]) && !IsRevenueHeader(t.headers[1]);
    assert RevenueColumn(t.headers) == None;
    assert t.rows[..0] == [];
  }

  /**
    * The entry recorded for an import: its sales count and the sum of its revenue
    * column. Without a revenue column the corrected total 0 is recorded.
    */
  function NewEntry(data: Table, name: string, id: string, timestamp: int): (e: HistoryEntry)
    ensures e.id == id && e.name == name && e.timestamp == timestamp && e.data == data
    ensures e.stats.vendas == |data.rows|
    ensures RevenueColumn(data.headers).Some? ==> e.stats.faturamento == ColumnSum(data.rows, RevenueColumn(data.headers).value)
    ensures RevenueColumn(data.headers).None? ==> e.stats.faturamento == 0.0
    ensures RevenueColumn(data.headers).Some? ==> e.stats.faturamento == RevenueAsWritten(data)
  {
    HistoryEntry(id, name, timestamp, data, HistoryStats(|data.rows|, Revenue(data)))
  }

  /** `[newEntry, ...prev].slice(0, 10)`. */
  function AddToHistory(prev: seq<HistoryEntry>, data: Table, name: string, id: string, timestamp: int): (r: seq<HistoryEntry>)
    ensures |r| == if |prev| < MaxEntries then |prev| + 1 else MaxEntries
    ensures r[0] == NewEntry(data, name, id, timestamp)
    ensures forall i :: 1 <= i < |r| ==> r[i] == prev[i - 1]
  {
    var all := [NewEntry(data, name, id, timestamp)] + prev;
    if |all| <= MaxEntries then all else all[..MaxEntries]
  }

  /** `prev.filter(item => item.id !== id)`. */
  function DeleteFromHistory(prev: seq<HistoryEntry>, id: string): (r: seq<HistoryEntry>)
    ensures IsSubseq(r, prev)
    ensures forall e :: multiset(r)[e] == if e.id == id then 0 else multiset(prev)[e]
  {
    FilterSpec(prev, (e: HistoryEntry) => e.id != id);
    Filter(prev, (e: HistoryEntry) => e.id != id)
  }

  /** Deleting an id that no entry has changes nothing. */
  lemma DeleteAbsent(prev: seq<HistoryEntry>, id: string)
    requires forall i :: 0 <= i < |prev| ==> prev[i].id != id
    ensures DeleteFromHistory(prev, id) == prev
  {
    FilterKeepsAll(prev, (e: HistoryEntry) => e.id != id);
  }

  /** Deleting twice is deleting once. */
  lemma DeleteIdempotent(prev: seq<HistoryEntry>, id: string)
    ensures DeleteFromHistory(DeleteFromHistory(prev, id), id) == DeleteFromHistory(prev, id)
  {
    FilterIdempotent(prev, (e: HistoryEntry) => e.id != id);
  }

  /** Adding an entry with a fresh id and deleting it again restores a list that was not full. */
  lemma AddThenDelete(prev: seq<HistoryEntry>, data: Table, name: string, id: string, timestamp: int)
    requires |prev| < MaxEntries
    requires forall i :: 0 <= i < |prev| ==> prev[i].id != id
    ensures DeleteFromHistory(AddToHistory(prev, data, name, id, timestamp), id) == prev
  {
    var r := AddToHistory(prev, data, name, id, timestamp);
    assert r[1..] == prev;
    DeleteAbsent(prev, id);
  }

  /** A full history drops its oldest entry. */
  lemma AddEvictsOldest(prev: seq<HistoryEntry>, data: Table, name: string, id: string, timestamp: int)
    requires |prev| == MaxEntries
    ensures AddToHistory(prev, data, name, id, timestamp) == [NewEntry(data, name, id, timestamp)] + prev[..MaxEntries - 1]
  {
    var r := AddToHistory(prev, data, name, id, timestamp);
    assert r == [r[0]] + r[1..];
  }

  /** With a fresh id, entry ids stay distinct. */
  lemma AddKeepsIdsDistinct(prev: seq<HistoryEntry>, data: Table, name: string, id: string, timestamp: int)
    requires DistinctBy(prev, (e: HistoryEntry) => e.id)
    requires forall i :: 0 <= i < |prev| ==> prev[i].id != id
    ensures DistinctBy(AddToHistory(prev, data, name, id, timestamp), (e: HistoryEntry) => e.id)
  {
  }

  /** With a clock that does not go back, the list stays newest first. */
  lemma AddKeepsNewestFirst(prev: seq<HistoryEntry>, data: Table, name: string, id: string, timestamp: int)
    requires NonIncreasing(prev, (e: HistoryEntry) => e.timestamp)
    requires prev != [] ==> prev[0].timestamp <= timestamp
    ensures NonIncreasing(AddToHistory(prev, data, name, id, timestamp), (e: HistoryEntry) => e.timestamp)
  {
  }
}
