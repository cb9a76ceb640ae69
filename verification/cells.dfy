/**
  * Table cells and the JavaScript conversions the dashboard applies to them:
  * `Number(x)`, `String(x)`, truthiness and the `x || d` / `x ?? d` fallbacks.
  */
module Cells {
  import opened Wrappers
  import opened Text

  /** A parsed cell (`DataRow` value): a number or a text. */
  datatype Cell = Num(n: real) | Str(s: string)

  /** A parsed row (`DataRow`): header name to cell. */
  type Row = map<string, Cell>

  predicate IsDigit(c: char) {
    '0' <= c <= '9'
  }

  predicate AllDigits(s: string) {
    forall i :: 0 <= i < |s| ==> IsDigit(s[i])
  }

  /** The value of a run of decimal digits, most significant first. */
  function DigitsValue(s: string): nat
    requires AllDigits(s)
  {
    if s == [] then 0 else DigitsValue(s[..|s| - 1]) * 10 + (s[|s| - 1] as int - '0' as int)
  }

  function Pow10(k: nat): (p: nat)
    ensures p >= 1
  {
    if k == 0 then 1 else 10 * Pow10(k - 1)
  }

  /**
    * An unsigned decimal literal: digits, optionally a point and more digits,
    * at least one digit in all (`12`, `12.`, `.5`, `1234.56`).
    */
  function ParseUnsigned(s: string): (r: Option<real>)
    ensures r.Some? ==> forall i :: 0 <= i < |s| ==> IsDigit(s[i]) || s[i] == '.'
    ensures r.Some? ==> r.value >= 0.0
  {
    var i := IndexOf(s, ".").GetOr(|s|);
    var whole := s[..i];
    var frac := if i < |s| then s[i + 1..] else [];
    if |whole| + |frac| > 0 && AllDigits(whole) && AllDigits(frac) then
      OccursChar(s, '.', i);
      DecimalShape(s, i);
      Some(DecimalValue(whole, frac))
    else None
  }

  /** The value of `whole.frac`. */
  function DecimalValue(whole: string, frac: string): (v: real)
    requires AllDigits(whole) && AllDigits(frac)
    ensures v >= DigitsValue(whole) as real
  {
    DigitsValue(whole) as real + DigitsValue(frac) as real / Pow10(|frac|) as real
  }

  lemma DecimalShape(s: string, i: nat)
    requires i <= |s| && (i < |s| ==> s[i] == '.')
    requires AllDigits(s[..i]) && AllDigits(if i < |s| then s[i + 1..] else [])
    ensures forall j :: 0 <= j < |s| ==> IsDigit(s[j]) || s[j] == '.'
  {
    forall j | 0 <= j < |s|
      ensures IsDigit(s[j]) || s[j] == '.'
    {
      if j < i {
        assert s[j] == s[..i][j];
      } else if i < j {
        assert s[j] == s[i + 1..][j - i - 1];
      }
    }
  }

  predicate IsNumeral(c: char) {
    IsDigit(c) || c == '.' || c == '-' || c == '+'
  }

  /**
    * JavaScript's `Number(s)` on decimal text: surrounding white space is ignored,
    * blank text is 0, otherwise an optional sign and an unsigned decimal literal.
    * `None` stands for `NaN`.
    */
  function JsNumber(s: string): (r: Option<real>)
    ensures IsBlank(s) ==> r == Some(0.0)
    ensures r.Some? && !IsBlank(s) ==> forall i :: 0 <= i < |Trim(s)| ==> IsNumeral(Trim(s)[i])
  {
    var t := Trim(s);
    TrimEmptyIffBlank(s);
    if t == [] then Some(0.0)
    else if t[0] == '-' then
      match ParseUnsigned(t[1..])
      case Some(v) => Some(-v)
      case None => None
    else if t[0] == '+' then ParseUnsigned(t[1..])
    else ParseUnsigned(t)
  }

  /** The decimal digits of `n`, without leading zeros. */
  function NatText(n: nat): (s: string)
    ensures |s| >= 1 && AllDigits(s)
    ensures DigitsValue(s) == n
  {
    if n < 10 then [('0' as int + n) as char]
    else
      var s := NatText(n / 10) + [('0' as int + n % 10) as char];
      assert s[..|s| - 1] == NatText(n / 10);
      s
  }

  /** Printing a natural number and reading it back gives the number. */
  lemma NatTextRoundTrip(n: nat)
    ensures JsNumber(NatText(n)) == Some(n as real)
  {
    var s := NatText(n);
    TrimUnchanged(s);
    ParseDigits(s);
    assert s[0] != '-' && s[0] != '+';
  }

  lemma ParseDigits(s: string)
    requires s != [] && AllDigits(s)
    ensures ParseUnsigned(s) == Some(DigitsValue(s) as real)
  {
    NoPointInDigits(s);
    assert s[..|s|] == s;
    assert DigitsValue([]) == 0;
    assert Pow10(0) == 1;
  }

  lemma NoPointInDigits(s: string)
    requires AllDigits(s)
    ensures IndexOf(s, ".") == None
  {
    forall j | 0 <= j <= |s|
      ensures !OccursAt(s, ".", j)
    {
      OccursChar(s, '.', j);
    }
  }

  function PadZeros(s: string, width: nat): (r: string)
    ensures |r| >= width
    decreases width - |s|
  {
    if |s| >= width then s else PadZeros("0" + s, width)
  }

  function DropTrailingZeros(s: string): (r: string)
    ensures r == [] || r[|r| - 1] != '0'
  {
    if s != [] && s[|s| - 1] == '0' then DropTrailingZeros(s[..|s| - 1]) else s
  }

  /** Fractional digits kept when a number is printed. */
  const FractionDigits: nat := 15

  /** `String(n)` for `n >= 0`: integer part, then the fraction without trailing zeros. */
  function NonNegativeText(r: real): (s: string)
    requires r >= 0.0
    ensures |s| >= 1
  {
    var whole: nat := r.Floor;
    var scaled: nat := ((r - whole as real) * Pow10(FractionDigits) as real).Floor;
    var digits := DropTrailingZeros(PadZeros(NatText(scaled), FractionDigits));
    NatText(whole) + (if digits == [] then [] else "." + digits)
  }

  /** `String(n)` for a number cell. */
  function NumText(r: real): (s: string)
    ensures |s| >= 1
  {
    if r < 0.0 then "-" + NonNegativeText(-r) else NonNegativeText(r)
  }

  /** `row[key]`: `None` is `undefined`. */
  function Get(row: Row, key: string): (v: Option<Cell>)
    ensures v.Some? <==> key in row
  {
    if key in row then Some(row[key]) else None
  }

  function CellText(c: Cell): string {
    match c
    case Num(n) => NumText(n)
    case Str(s) => s
  }

  /** `String(x)`: a missing value prints as `undefined`. */
  function Stringify(v: Option<Cell>): string {
    match v
    case None => "undefined"
    case Some(c) => CellText(c)
  }

  /** JavaScript truthiness: `undefined`, `0` and `''` are false. */
  predicate Truthy(v: Option<Cell>) {
    match v
    case None => false
    case Some(Num(n)) => n != 0.0
    case Some(Str(s)) => s != []
  }

  /** `String(x || fallback)`. */
  function TextOr(v: Option<Cell>, fallback: string): (s: string)
    ensures !Truthy(v) ==> s == fallback
    ensures Truthy(v) ==> v.Some? && s == CellText(v.value)
  {
    if Truthy(v) then Stringify(v) else fallback
  }

  /** `String(x ?? fallback)`: only a missing value falls back. */
  function TextOrIfMissing(v: Option<Cell>, fallback: string): (s: string)
    ensures v.None? ==> s == fallback
    ensures v.Some? ==> s == CellText(v.value)
  {
    if v.Some? then CellText(v.value) else fallback
  }

  /** `Number(x) || 0`: `NaN` and a missing value count as 0. */
  function NumberOrZero(v: Option<Cell>): (r: real)
    ensures v.None? ==> r == 0.0
    ensures v.Some? && v.value.Num? ==> r == v.value.n
    ensures v.Some? && v.value.Str? && JsNumber(v.value.s).Some? ==> r == JsNumber(v.value.s).value
    ensures v.Some? && v.value.Str? && JsNumber(v.value.s).None? ==> r == 0.0
  {
    match v
    case None => 0.0
    case Some(Num(n)) => n
    case Some(Str(s)) => JsNumber(s).GetOr(0.0)
  }

  /** `rows.reduce((acc, row) => acc + (Number(row[key]) || 0), 0)`. */
  function ColumnSum(rows: seq<Row>, key: string): real {
    if rows == [] then 0.0
    else ColumnSum(rows[..|rows| - 1], key) + NumberOrZero(Get(rows[|rows| - 1], key))
  }

  /** The column sum of two blocks of rows is the sum of their column sums. */
  lemma {:induction false} ColumnSumAppend(a: seq<Row>, b: seq<Row>, key: string)
    ensures ColumnSum(a + b, key) == ColumnSum(a, key) + ColumnSum(b, key)
    decreases |b|
  {
    if b != [] {
      assert (a + b)[..|a + b| - 1] == a + b[..|b| - 1];
      ColumnSumAppend(a, b[..|b| - 1], key);
    } else {
      assert a + b == a;
    }
  }

  /** A literal with its decimal point at `i` reads as whole part plus fraction. */
  lemma ParsePointAt(s: string, i: nat)
    requires i < |s| && s[i] == '.' && |s| >= 2
    requires AllDigits(s[..i]) && AllDigits(s[i + 1..])
    ensures ParseUnsigned(s) == Some(DecimalValue(s[..i], s[i + 1..]))
  {
    forall j | 0 <= j < i
      ensures s[j] != '.'
    {
      assert IsDigit(s[..i][j]);
    }
    IndexOfChar(s, '.', i);
  }

  /** `Number` reads `whole.frac` as its decimal value. */
  lemma ReadDecimal(whole: string, frac: string)
    requires whole != [] && frac != [] && AllDigits(whole) && AllDigits(frac)
    ensures JsNumber(whole + "." + frac) == Some(DecimalValue(whole, frac))
  {
    var u := whole + "." + frac;
    assert u[|u| - 1] == frac[|frac| - 1];
    TrimUnchanged(u);
    assert u[..|whole|] == whole;
    assert u[|whole| + 1..] == frac;
    ParsePointAt(u, |whole|);
  }
}
