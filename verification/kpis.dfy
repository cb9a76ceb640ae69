/**
  * The money figures of components/Dashboard.tsx: the headline `stats` over the
  * filtered rows and the cost, ROI and profit flags of each row of the
  * performance table. Amounts are reals; a tax of 6% of revenue is charged.
  */
module Kpis {
  import opened Wrappers
  import opened Cells
  import opened Roles
  import opened Groups

  /** The tax rate applied to revenue, `0.06`. */
  const TaxRate: real := 0.06

  /** The headline figures: revenue, ad spend, taxes, profit, ROAS, sales, frozen balance, CPA and average ticket. */
  datatype Stats = Stats(
    fat: real, gas: real, imp: real, luc: real, roas: real, vds: nat, frz: real, cpa: real, ticket: real)

  /** The figures derived from the revenue `fat`, the sales `vds`, the spend `gas` and the frozen balance `frz`. */
  function Figures(fat: real, vds: nat, gas: real, frz: real): (s: Stats)
    ensures s.fat == fat && s.vds == vds && s.gas == gas && s.frz == frz
    ensures s.imp == fat * TaxRate
  {
    var imp := fat * TaxRate;
    var luc := fat - gas - imp - frz;
    var totalCosts := gas + frz + imp;
    var roas := if totalCosts > 0.0 then fat / totalCosts else 0.0;
    var cpa := if vds > 0 then (gas + imp) / vds as real else 0.0;
    var ticket := if vds > 0 then fat / vds as real else 0.0;
    Stats(fat, gas, imp, luc, roas, vds, frz, cpa, ticket)
  }

  /** Everything spent: ad spend, frozen balance and taxes. */
  function TotalCosts(s: Stats): real {
    s.gas + s.frz + s.imp
  }

  /**
    * `stats`: the loop sums `Number(row[colFaturamento || '']) || 0` over the
    * filtered rows; the other figures follow from the sum and the row count.
    */
  method ComputeStats(rows: seq<Row>, roles: Roles, manualInvestment: real, frozenBalance: real) returns (s: Stats)
    ensures s == Figures(ColumnSum(rows, roles.faturamento.GetOr("")), |rows|, manualInvestment, frozenBalance)
  {
    var col := roles.faturamento.GetOr("");
    var fat := 0.0;
    for i := 0 to |rows|
      invariant fat == ColumnSum(rows[..i], col)
    {
      assert rows[..i + 1][..i] == rows[..i];
      fat := fat + NumberOrZero(Get(rows[i], col));
    }
    assert rows[..|rows|] == rows;
    var vds := |rows|;
    var imp := fat * TaxRate;
    var gas := manualInvestment;
    var frz := frozenBalance;
    var luc := fat - gas - imp - frz;
    var totalCosts := gas + frz + imp;
    var roas := if totalCosts > 0.0 then fat / totalCosts else 0.0;
    var cpa := if vds > 0 then (gas + imp) / vds as real else 0.0;
    var ticket := if vds > 0 then fat / vds as real else 0.0;
    s := Stats(fat, gas, imp, luc, roas, vds, frz, cpa, ticket);
  }

  /** Profit is revenue less every cost, so the figures balance. */
  lemma ProfitBalances(fat: real, vds: nat, gas: real, frz: real)
    ensures var s := Figures(fat, vds, gas, frz);
      s.luc == s.fat - TotalCosts(s) && s.luc + s.gas + s.imp + s.frz == s.fat
  {
  }

  /** With costs, ROAS is revenue over costs; without, it shows 0. */
  lemma RoasIsReturnOnCosts(fat: real, vds: nat, gas: real, frz: real)
    ensures var s := Figures(fat, vds, gas, frz);
      (TotalCosts(s) > 0.0 ==> s.roas * TotalCosts(s) == s.fat) && (TotalCosts(s) <= 0.0 ==> s.roas == 0.0)
  {
  }

  /** With costs, there is a profit exactly when ROAS is above 1. */
  lemma ProfitIffRoasAboveOne(fat: real, vds: nat, gas: real, frz: real)
    ensures var s := Figures(fat, vds, gas, frz);
      TotalCosts(s) > 0.0 ==> (s.luc > 0.0 <==> s.roas > 1.0)
  {
    var s := Figures(fat, vds, gas, frz);
    if TotalCosts(s) > 0.0 {
      RatioAboveOne(s.fat, TotalCosts(s));
    }
  }

  /** Over a positive divisor, a ratio is above 1 exactly when the dividend exceeds the divisor. */
  lemma RatioAboveOne(a: real, c: real)
    requires c > 0.0
    ensures a / c > 1.0 <==> a > c
  {
    var r := a / c;
    assert r * c == a;
    if r > 1.0 {
      assert (r - 1.0) * c > 0.0;
    } else {
      assert (1.0 - r) * c >= 0.0;
    }
  }

  /** With sales, CPA times sales is spend plus taxes and the ticket times sales is revenue; without, both show 0. */
  lemma PerSaleFigures(fat: real, vds: nat, gas: real, frz: real)
    ensures var s := Figures(fat, vds, gas, frz);
      (vds > 0 ==> s.cpa * vds as real == s.gas + s.imp && s.ticket * vds as real == s.fat) &&
      (vds == 0 ==> s.cpa == 0.0 && s.ticket == 0.0)
  {
  }

  /** The cost figures and flags of one row of the performance table. */
  datatype GroupCosts = GroupCosts(
    investment: real, rowTaxes: real, totalRowCost: real, cpa: real, roi: real, hasProfit: bool, isLoss: bool)

  /** `groupInvestments[group.key] || 0`: a group without an entered investment has none. */
  function Investment(investments: map<string, real>, key: string): (r: real)
    ensures key !in investments ==> r == 0.0
    ensures key in investments ==> r == investments[key]
  {
    if key in investments then investments[key] else 0.0
  }

  /** The figures the table shows for a group given the investments entered per group key. */
  function CostsOf(g: Group, investments: map<string, real>): (c: GroupCosts)
    ensures c.investment == Investment(investments, g.key)
    ensures c.totalRowCost == c.investment + g.faturamento * TaxRate
  {
    var investment := Investment(investments, g.key);
    var rowTaxes := g.faturamento * TaxRate;
    var totalRowCost := investment + rowTaxes;
    var cpa := if g.vendas > 0 then totalRowCost / g.vendas as real else 0.0;
    var roi := if totalRowCost > 0.0 then g.faturamento / totalRowCost else 0.0;
    var hasProfit := investment > 0.0 && totalRowCost > 0.0 && g.faturamento > totalRowCost;
    var isLoss := investment > 0.0 && totalRowCost > 0.0 && g.faturamento <= totalRowCost;
    GroupCosts(investment, rowTaxes, totalRowCost, cpa, roi, hasProfit, isLoss)
  }

  /**
    * A group is never both in profit and at a loss; without an investment it is
    * neither; with an investment and a revenue that is not negative it is exactly one.
    */
  lemma ProfitFlags(g: Group, investments: map<string, real>)
    ensures var c := CostsOf(g, investments);
      !(c.hasProfit && c.isLoss) &&
      (c.investment <= 0.0 ==> !c.hasProfit && !c.isLoss) &&
      (c.investment > 0.0 && g.faturamento >= 0.0 ==> c.hasProfit != c.isLoss)
  {
  }

  /** With an investment and costs, a group is in profit exactly when its ROI is above 1. */
  lemma ProfitIffRoiAboveOne(g: Group, investments: map<string, real>)
    ensures var c := CostsOf(g, investments);
      c.investment > 0.0 && c.totalRowCost > 0.0 ==> (c.hasProfit <==> c.roi > 1.0)
  {
    var c := CostsOf(g, investments);
    if c.totalRowCost > 0.0 {
      RatioAboveOne(g.faturamento, c.totalRowCost);
    }
  }

  /** With sales, CPA times sales is the group's total cost. */
  lemma GroupCpa(g: Group, investments: map<string, real>)
    ensures var c := CostsOf(g, investments);
      (g.vendas > 0 ==> c.cpa * g.vendas as real == c.totalRowCost) && (g.vendas == 0 ==> c.cpa == 0.0)
  {
  }

  /** The ROI cell of the table: pending without an investment, else a green or a red badge. */
  datatype Badge = Pending | Gain | Shortfall

  /** `investment === 0 ? 'Pendente' : roi >= 1 ? green : red`. */
  function RoiBadge(c: GroupCosts): (b: Badge)
    ensures b == Pending <==> c.investment == 0.0
    ensures c.investment != 0.0 ==> (b == Gain <==> c.roi >= 1.0)
    ensures c.investment != 0.0 ==> (b == Shortfall <==> c.roi < 1.0)
  {
    if c.investment == 0.0 then Pending else if c.roi >= 1.0 then Gain else Shortfall
  }

  /** Except at an ROI of exactly 1, the row colour and the ROI badge agree. */
  lemma BadgeAgreesWithFlags(g: Group, investments: map<string, real>)
    ensures var c := CostsOf(g, investments);
      c.investment > 0.0 && c.totalRowCost > 0.0 && c.roi != 1.0 ==>
        (c.hasProfit <==> RoiBadge(c) == Gain) && (c.isLoss <==> RoiBadge(c) == Shortfall)
  {
    ProfitIffRoiAboveOne(g, investments);
  }

  /** A group that exactly breaks even gets the loss colour and the green badge. */
  lemma BreakEvenShowsBoth()
    ensures var g := Group("s", "c", 1, 100.0, "", "", multiset{}, multiset{}, {}, "s|c");
      var c := CostsOf(g, map["s|c" := 94.0]);
      c.isLoss && !c.hasProfit && RoiBadge(c) == Gain
  {
    var g := Group("s", "c", 1, 100.0, "", "", multiset{}, multiset{}, {}, "s|c");
    var c := CostsOf(g, map["s|c" := 94.0]);
    assert c.totalRowCost == 100.0;
  }
}
