/**
  * `groupedPerformance` of components/Dashboard.tsx: the filtered rows grouped by
  * cleaned source and campaign, each group summing its sales, revenue, products,
  * statuses and ad contents and keeping its earliest and latest date, the groups
  * then sorted by sales, most first. `parseBrazilianDate` is a parameter
  * `dateKey`: the comparable value of a date text, `None` where JavaScript gets
  * `null` or a date whose comparisons are all false.
  */
module Groups {
  import opened Wrappers
  import opened Text
  import opened Cells
  import opened Seqs
  import opened Roles
  import opened Grouping

  /** One row of the performance table; the JavaScript count records are multisets. */
  datatype Group = Group(
    source: string, campanha: string, vendas: nat, faturamento: real,
    minDate: string, maxDate: string,
    products: multiset<string>, statuses: multiset<string>, contents: set<string>,
    key: string)

  function Vendas(g: Group): int {
    g.vendas
  }

  function GroupKey(g: Group): string {
    g.key
  }

  /**
    * How a row is read into a group: the cleaned source and campaign, the product,
    * status and content names, the date text and the revenue.
    */
  datatype Projections = Projections(
    source: Row -> string, campaign: Row -> string,
    product: Row -> string, status: Row -> string, content: Row -> string,
    date: Row -> string, revenue: Row -> real)

  /** `cleanUTMSource(String(row[colSource || ''] || ''))`. */
  function SourceOf(row: Row, roles: Roles): string {
    CleanUTMSource(TextOr(Get(row, roles.source.GetOr("")), ""))
  }

  /** `cleanUTMCampaign(String(row[colCampaign || ''] || ''))`; it never holds a `|`. */
  function CampaignOf(row: Row, roles: Roles): (c: string)
    ensures '|' !in c
  {
    CleanUTMCampaign(TextOr(Get(row, roles.campaign.GetOr("")), ""))
  }

  /** `String(row[col || ''] || 'N/A')`. */
  function NameOf(row: Row, col: Option<string>): string {
    TextOr(Get(row, col.GetOr("")), "N/A")
  }

  /** `String(row[colData || '']).split(' ')[0]`. */
  function DateOf(row: Row, roles: Roles): string {
    SplitOn(Stringify(Get(row, roles.data.GetOr(""))), ' ')[0]
  }

  /** `Number(row[colFaturamento || '']) || 0`. */
  function RevenueOf(row: Row, roles: Roles): real {
    NumberOrZero(Get(row, roles.faturamento.GetOr("")))
  }

  /** The readers `groupedPerformance` uses for the resolved columns. */
  function ProjectionsOf(roles: Roles): Projections {
    Projections(
      row => SourceOf(row, roles), row => CampaignOf(row, roles),
      row => NameOf(row, roles.produto), row => NameOf(row, roles.status), row => NameOf(row, roles.content),
      row => DateOf(row, roles), row => RevenueOf(row, roles))
  }

  /** The group key `${s}|${c}`. */
  function JoinKey(s: string, c: string): string {
    s + "|" + c
  }

  function KeyOf(row: Row, p: Projections): string {
    JoinKey(p.source(row), p.campaign(row))
  }

  /** The text after the last `|`: the campaign part of a key. */
  function AfterLastBar(k: string): (c: string)
    ensures |c| <= |k| && '|' !in c
  {
    if k == [] then []
    else if k[|k| - 1] == '|' then []
    else AfterLastBar(k[..|k| - 1]) + [k[|k| - 1]]
  }

  /** The campaign part of a key. */
  function CampaignOfKey(k: string): string {
    AfterLastBar(k)
  }

  /** The source part of a key: what comes before the last `|`. */
  function SourceOfKey(k: string): string {
    var c := AfterLastBar(k);
    if |c| < |k| then k[..|k| - |c| - 1] else k
  }

  lemma {:induction false} AfterLastBarJoin(s: string, c: string)
    requires '|' !in c
    ensures AfterLastBar(JoinKey(s, c)) == c
    decreases |c|
  {
    var k := JoinKey(s, c);
    if c == [] {
      assert k[|k| - 1] == '|';
    } else {
      var front := c[..|c| - 1];
      assert k[..|k| - 1] == JoinKey(s, front);
      assert '|' !in front by {
        assert forall x :: x in front ==> x in c;
      }
      AfterLastBarJoin(s, front);
      assert c == front + [c[|c| - 1]];
    }
  }

  /** A key splits back into the source and the campaign it was made of. */
  lemma KeyRoundTrip(s: string, c: string)
    requires '|' !in c
    ensures SourceOfKey(JoinKey(s, c)) == s && CampaignOfKey(JoinKey(s, c)) == c
  {
    AfterLastBarJoin(s, c);
    var k := JoinKey(s, c);
    assert k[..|k| - |c| - 1] == s;
  }

  /** Rows share a key exactly when they share both the cleaned source and the cleaned campaign. */
  lemma SameKeyIffSameParts(a: Row, b: Row, roles: Roles)
    ensures KeyOf(a, ProjectionsOf(roles)) == KeyOf(b, ProjectionsOf(roles)) <==>
      SourceOf(a, roles) == SourceOf(b, roles) && CampaignOf(a, roles) == CampaignOf(b, roles)
  {
    KeyRoundTrip(SourceOf(a, roles), CampaignOf(a, roles));
    KeyRoundTrip(SourceOf(b, roles), CampaignOf(b, roles));
  }

  /** A new group as the row with this key first creates it. */
  function Fresh(row: Row, p: Projections): (g: Group)
    ensures g.vendas == 0 && g.products == multiset{} && g.statuses == multiset{} && g.contents == {}
    ensures g.key == JoinKey(g.source, g.campanha)
  {
    var d := p.date(row);
    Group(p.source(row), p.campaign(row), 0, 0.0, d, d, multiset{}, multiset{}, {}, KeyOf(row, p))
  }

  /**
    * A row counted into its group. Both date bounds are compared with the bounds
    * as they stood before the row, and a bound moves only when both dates parse.
    */
  function AddRow(g: Group, row: Row, p: Projections, dateKey: string -> Option<int>): Group {
    var d := p.date(row);
    var dCurr := dateKey(d);
    var dMin := dateKey(g.minDate);
    var dMax := dateKey(g.maxDate);
    g.(vendas := g.vendas + 1,
       faturamento := g.faturamento + p.revenue(row),
       products := g.products + multiset{p.product(row)},
       statuses := g.statuses + multiset{p.status(row)},
       contents := g.contents + {p.content(row)},
       minDate := if dCurr.Some? && dMin.Some? && dCurr.value < dMin.value then d else g.minDate,
       maxDate := if dCurr.Some? && dMax.Some? && dCurr.value > dMax.value then d else g.maxDate)
  }

  /** The key, the new group and the update, as `Grouping` takes them. */
  function Keyer(p: Projections): Row -> string {
    row => KeyOf(row, p)
  }

  function Creator(p: Projections): Row -> Group {
    row => Fresh(row, p)
  }

  function Adder(p: Projections, dateKey: string -> Option<int>): (Group, Row) -> Group {
    (g, row) => AddRow(g, row, p, dateKey)
  }

  /** The group built from its rows in order. */
  function Summarise(rs: seq<Row>, p: Projections, dateKey: string -> Option<int>): Group
    requires rs != []
  {
    Fold(rs, Creator(p), Adder(p, dateKey))
  }

  /** Summarising is adding the last row to the summary of the ones before it. */
  lemma SummariseLast(rs: seq<Row>, p: Projections, dateKey: string -> Option<int>)
    requires |rs| >= 2
    ensures Summarise(rs, p, dateKey) == AddRow(Summarise(rs[..|rs| - 1], p, dateKey), rs[|rs| - 1], p, dateKey)
  {
  }

  lemma SummariseFirst(rs: seq<Row>, p: Projections, dateKey: string -> Option<int>)
    requires |rs| == 1
    ensures Summarise(rs, p, dateKey) == AddRow(Fresh(rs[0], p), rs[0], p, dateKey)
  {
  }

  /** The values a reader gives for the rows, in order. */
  function Names(rs: seq<Row>, f: Row -> string): (ns: seq<string>)
    ensures |ns| == |rs|
    ensures forall j :: 0 <= j < |rs| ==> ns[j] == f(rs[j])
  {
    seq(|rs|, j requires 0 <= j < |rs| => f(rs[j]))
  }

  lemma NamesLast(rs: seq<Row>, f: Row -> string)
    requires rs != []
    ensures Names(rs, f) == Names(rs[..|rs| - 1], f) + [f(rs[|rs| - 1])]
  {
  }

  /** The sum of a reader's values over the rows. */
  function Total(rs: seq<Row>, f: Row -> real): real {
    if rs == [] then 0.0 else Total(rs[..|rs| - 1], f) + f(rs[|rs| - 1])
  }

  /** A group counts its rows and one product and one status per row, and keeps the first row's source, campaign and key. */
  lemma {:induction false} SummariseCounts(rs: seq<Row>, p: Projections, dateKey: string -> Option<int>)
    requires rs != []
    ensures var g := Summarise(rs, p, dateKey);
      g.vendas == |rs| && |g.products| == |rs| && |g.statuses| == |rs| &&
      g.source == p.source(rs[0]) && g.campanha == p.campaign(rs[0]) && g.key == KeyOf(rs[0], p)
    decreases |rs|
  {
    if |rs| == 1 {
      SummariseFirst(rs, p, dateKey);
    } else {
      SummariseLast(rs, p, dateKey);
      SummariseCounts(rs[..|rs| - 1], p, dateKey);
    }
  }

  /** A group's revenue is the sum of its rows' revenues. */
  lemma {:induction false} SummariseRevenue(rs: seq<Row>, p: Projections, dateKey: string -> Option<int>)
    requires rs != []
    ensures Summarise(rs, p, dateKey).faturamento == Total(rs, p.revenue)
    decreases |rs|
  {
    if |rs| == 1 {
      SummariseFirst(rs, p, dateKey);
      assert rs[..0] == [];
    } else {
      SummariseLast(rs, p, dateKey);
      SummariseRevenue(rs[..|rs| - 1], p, dateKey);
    }
  }

  /** A group counts each product and each status as often as its rows show it, and collects every content. */
  lemma {:induction false} SummariseNames(rs: seq<Row>, p: Projections, dateKey: string -> Option<int>)
    requires rs != []
    ensures var g := Summarise(rs, p, dateKey);
      g.products == multiset(Names(rs, p.product)) && g.statuses == multiset(Names(rs, p.status)) &&
      g.contents == set x | x in Names(rs, p.content)
    decreases |rs|
  {
    NamesLast(rs, p.product);
    NamesLast(rs, p.status);
    NamesLast(rs, p.content);
    if |rs| == 1 {
      SummariseFirst(rs, p, dateKey);
    } else {
      SummariseLast(rs, p, dateKey);
      SummariseNames(rs[..|rs| - 1], p, dateKey);
    }
  }

  /** The date bounds are dates of the group's rows. */
  lemma {:induction false} SummariseDatesFromRows(rs: seq<Row>, p: Projections, dateKey: string -> Option<int>)
    requires rs != []
    ensures var g := Summarise(rs, p, dateKey);
      (exists j :: 0 <= j < |rs| && g.minDate == p.date(rs[j])) &&
      (exists j :: 0 <= j < |rs| && g.maxDate == p.date(rs[j]))
    decreases |rs|
  {
    var last := |rs| - 1;
    if |rs| == 1 {
      SummariseFirst(rs, p, dateKey);
      assert Summarise(rs, p, dateKey).minDate == p.date(rs[0]);
      assert Summarise(rs, p, dateKey).maxDate == p.date(rs[0]);
    } else {
      var front := rs[..last];
      SummariseLast(rs, p, dateKey);
      SummariseDatesFromRows(front, p, dateKey);
      var g0 := Summarise(front, p, dateKey);
      var i0 :| 0 <= i0 < |front| && g0.minDate == p.date(front[i0]);
      var i1 :| 0 <= i1 < |front| && g0.maxDate == p.date(front[i1]);
      var g := Summarise(rs, p, dateKey);
      assert g.minDate == p.date(rs[i0]) || g.minDate == p.date(rs[last]);
      assert g.maxDate == p.date(rs[i1]) || g.maxDate == p.date(rs[last]);
    }
  }

  /** Every row's date parses. */
  ghost predicate AllDatesParse(rs: seq<Row>, p: Projections, dateKey: string -> Option<int>) {
    forall j :: 0 <= j < |rs| ==> dateKey(p.date(rs[j])).Some?
  }

  /** When every date parses, the bounds are the earliest and the latest date of the group. */
  lemma {:induction false} SummariseDatesBound(rs: seq<Row>, p: Projections, dateKey: string -> Option<int>)
    requires rs != [] && AllDatesParse(rs, p, dateKey)
    ensures var g := Summarise(rs, p, dateKey);
      dateKey(g.minDate).Some? && dateKey(g.maxDate).Some? &&
      forall j :: 0 <= j < |rs| ==>
        dateKey(g.minDate).value <= dateKey(p.date(rs[j])).value <= dateKey(g.maxDate).value
    decreases |rs|
  {
    var last := |rs| - 1;
    if |rs| == 1 {
      SummariseFirst(rs, p, dateKey);
    } else {
      var front := rs[..last];
      assert AllDatesParse(front, p, dateKey) by {
        assert forall j :: 0 <= j < |front| ==> front[j] == rs[j];
      }
      SummariseLast(rs, p, dateKey);
      SummariseDatesBound(front, p, dateKey);
      assert forall j :: 0 <= j < |front| ==> front[j] == rs[j];
    }
  }

  /**
    * The table `groupedPerformance` returns: one summary per key, listed in
    * creation order and then sorted by sales, most first, with a stable sort.
    */
  function Performance(rows: seq<Row>, p: Projections, dateKey: string -> Option<int>): seq<Group> {
    SortDescending(GroupsInOrder(rows, Keyer(p), Creator(p), Adder(p, dateKey)), Vendas)
  }

  /** Before sorting, the `j`-th summary is that of the `j`-th key's rows and carries that key. */
  lemma GroupsInOrderSummaries(rows: seq<Row>, p: Projections, dateKey: string -> Option<int>)
    ensures var gs, ks := GroupsInOrder(rows, Keyer(p), Creator(p), Adder(p, dateKey)), KeysInOrder(rows, Keyer(p));
      forall j :: 0 <= j < |gs| ==> (Members(rows, ks[j], Keyer(p)) != [] &&
        gs[j] == Summarise(Members(rows, ks[j], Keyer(p)), p, dateKey) &&
        gs[j].key == ks[j] && gs[j].vendas == |Members(rows, ks[j], Keyer(p))|)
  {
    var gs, ks := GroupsInOrder(rows, Keyer(p), Creator(p), Adder(p, dateKey)), KeysInOrder(rows, Keyer(p));
    forall j | 0 <= j < |gs|
      ensures Members(rows, ks[j], Keyer(p)) != [] && gs[j] == Summarise(Members(rows, ks[j], Keyer(p)), p, dateKey)
      ensures gs[j].key == ks[j] && gs[j].vendas == |Members(rows, ks[j], Keyer(p))|
    {
      var m := Members(rows, ks[j], Keyer(p));
      ListedKeyHasMembers(rows, ks[j], Keyer(p));
      SummariseCounts(m, p, dateKey);
      assert Keyer(p)(m[0]) == ks[j];
    }
  }

  /** No two groups share a key, and each is the summary of exactly the rows with its key. */
  lemma PerformanceGroupsAreSummaries(rows: seq<Row>, p: Projections, dateKey: string -> Option<int>)
    ensures DistinctBy(Performance(rows, p, dateKey), GroupKey)
    ensures forall g :: g in Performance(rows, p, dateKey) ==>
      g.key in KeysInOrder(rows, Keyer(p)) && Members(rows, g.key, Keyer(p)) != [] &&
      g == Summarise(Members(rows, g.key, Keyer(p)), p, dateKey)
  {
    var gs, ks := GroupsInOrder(rows, Keyer(p), Creator(p), Adder(p, dateKey)), KeysInOrder(rows, Keyer(p));
    GroupsInOrderSummaries(rows, p, dateKey);
    KeysInOrderSpec(rows, Keyer(p));
    assert DistinctBy(gs, GroupKey) by {
      forall a, b | 0 <= a < b < |gs|
        ensures GroupKey(gs[a]) != GroupKey(gs[b])
      {
        assert gs[a].key == ks[a] && gs[b].key == ks[b];
      }
    }
    SortDistinctBy(gs, Vendas, GroupKey);
    forall g | g in Performance(rows, p, dateKey)
      ensures g.key in ks && Members(rows, g.key, Keyer(p)) != [] && g == Summarise(Members(rows, g.key, Keyer(p)), p, dateKey)
    {
      assert g in multiset(Performance(rows, p, dateKey));
      var j :| 0 <= j < |gs| && gs[j] == g;
    }
  }

  /** Every row's key has its group. */
  lemma PerformanceCoversRows(rows: seq<Row>, p: Projections, dateKey: string -> Option<int>)
    ensures forall i :: 0 <= i < |rows| ==> exists g :: g in Performance(rows, p, dateKey) && g.key == KeyOf(rows[i], p)
  {
    var gs, ks := GroupsInOrder(rows, Keyer(p), Creator(p), Adder(p, dateKey)), KeysInOrder(rows, Keyer(p));
    GroupsInOrderSummaries(rows, p, dateKey);
    KeysInOrderSpec(rows, Keyer(p));
    forall i | 0 <= i < |rows|
      ensures exists g :: g in Performance(rows, p, dateKey) && g.key == KeyOf(rows[i], p)
    {
      assert Keyer(p)(rows[i]) in ks;
      var j :| 0 <= j < |ks| && ks[j] == KeyOf(rows[i], p);
      assert gs[j] in multiset(gs);
      assert gs[j] in Performance(rows, p, dateKey);
    }
  }

  /** The groups' sales add up to the number of rows: each row is counted in exactly one group. */
  lemma PerformanceSalesTotal(rows: seq<Row>, p: Projections, dateKey: string -> Option<int>)
    ensures SumBy(Performance(rows, p, dateKey), Vendas) == |rows|
  {
    var gs, ks := GroupsInOrder(rows, Keyer(p), Creator(p), Adder(p, dateKey)), KeysInOrder(rows, Keyer(p));
    GroupsInOrderSummaries(rows, p, dateKey);
    SortSum(gs, Vendas);
    SumByPointwise(gs, Vendas, ks, Sizes(rows, Keyer(p)));
    MembersPartition(rows, Keyer(p));
  }

  /** With the dashboard's readers, a group's revenue is the column sum of its rows' revenue column. */
  lemma {:induction false} RevenueIsColumnSum(rs: seq<Row>, roles: Roles)
    ensures Total(rs, ProjectionsOf(roles).revenue) == ColumnSum(rs, roles.faturamento.GetOr(""))
  {
    if rs != [] {
      RevenueIsColumnSum(rs[..|rs| - 1], roles);
    }
  }

  method GroupedPerformance(rows: seq<Row>, p: Projections, dateKey: string -> Option<int>) returns (groups: seq<Group>)
    ensures groups == Performance(rows, p, dateKey)
  {
    var keyOf, create, add := Keyer(p), Creator(p), Adder(p, dateKey);
    var table: map<string, Group> := map[];
    var order: seq<string> := [];
    TableStart(rows, keyOf, create, add);
    for i := 0 to |rows|
      invariant TableInv(table, order, rows[..i], keyOf, create, add)
    {
      var row := rows[i];
      var key := keyOf(row);
      var current: Group;
      TableStep(table, order, rows, i, keyOf, create, add);
      if key in table {
        current := table[key];
      } else {
        current := create(row);
        order := order + [key];
      }
      table := table[key := add(current, row)];
    }
    TableDone(table, order, rows, keyOf, create, add);
    groups := SortDescending(Listed(table, order), Vendas);
  }
}
