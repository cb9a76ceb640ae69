/**
  * The CSV importer of the dashboard (`parseCSV` in App.tsx): line splitting, the
  * header line, the quote-aware field split, the cell normaliser `cleanAndParse`
  * and the per-column type inference.
  */
module Csv {
  import opened Wrappers
  import opened Text
  import opened Cells
  import Seqs

  /** `'number' | 'string'` in the `types` record. */
  datatype ColumnType = NumberColumn | StringColumn

  /** `DashboardData`: the imported table. */
  datatype Table = Table(headers: seq<string>, rows: seq<Row>, types: map<string, ColumnType>)

  // ----- lines -----

  function DropCarriageReturn(s: string): (r: string)
    ensures r == s || (s == r + "\r")
  {
    if |s| > 0 && s[|s| - 1] == '\r' then s[..|s| - 1] else s
  }

  /** `text.split(/\r?\n/)`: a carriage return right before a line feed belongs to the separator. */
  function SplitLines(text: string): (lines: seq<string>)
    ensures |lines| >= 1
  {
    var parts := SplitOn(text, '\n');
    seq(|parts|, k requires 0 <= k < |parts| =>
      if k < |parts| - 1 then DropCarriageReturn(parts[k]) else parts[k])
  }

  /** `lines.filter(line => line.trim() !== '')`. */
  function NonBlank(lines: seq<string>): (r: seq<string>)
  {
    if lines == [] then []
    else if Trim(lines[0]) != [] then [lines[0]] + NonBlank(lines[1..])
    else NonBlank(lines[1..])
  }

  function NonBlankLines(text: string): seq<string> {
    NonBlank(SplitLines(text))
  }

  lemma {:induction false} BlankJoin(parts: seq<string>, c: char)
    requires |parts| >= 1 && IsSpace(c)
    ensures IsBlank(Join(parts, c)) <==> forall k :: 0 <= k < |parts| ==> IsBlank(parts[k])
  {
    if |parts| > 1 {
      BlankJoin(parts[1..], c);
      var rest := Join(parts[1..], c);
      assert Join(parts, c) == parts[0] + [c] + rest;
      assert forall i :: 0 <= i < |parts[0]| ==> Join(parts, c)[i] == parts[0][i];
      assert forall i :: 0 <= i < |rest| ==> Join(parts, c)[|parts[0]| + 1 + i] == rest[i];
      assert forall k :: 1 <= k < |parts| ==> parts[k] == parts[1..][k - 1];
    }
  }

  lemma {:induction false} NonBlankEmpty(lines: seq<string>)
    ensures NonBlank(lines) == [] <==> forall k :: 0 <= k < |lines| ==> IsBlank(lines[k])
  {
    if lines != [] {
      NonBlankEmpty(lines[1..]);
      TrimEmptyIffBlank(lines[0]);
      assert forall k :: 1 <= k < |lines| ==> lines[k] == lines[1..][k - 1];
    }
  }

  /** Text has no non-blank line exactly when the whole text is white space. */
  lemma NoLinesIffBlank(text: string)
    ensures NonBlankLines(text) == [] <==> IsBlank(text)
  {
    var parts := SplitOn(text, '\n');
    var lines := SplitLines(text);
    SplitOnJoin(text, '\n');
    BlankJoin(parts, '\n');
    NonBlankEmpty(lines);
    forall k | 0 <= k < |parts|
      ensures IsBlank(parts[k]) <==> IsBlank(lines[k])
    {
      if k < |parts| - 1 {
        DropCarriageReturnBlank(parts[k]);
      }
    }
  }

  /** Dropping a final carriage return keeps text blank or non-blank. */
  lemma DropCarriageReturnBlank(s: string)
    ensures IsBlank(DropCarriageReturn(s)) <==> IsBlank(s)
  {
    var r := DropCarriageReturn(s);
    if r != s {
      assert forall i :: 0 <= i < |r| ==> r[i] == s[i];
    }
  }

  // ----- fields -----

  /** The number of double quotes in `s`. */
  function Quotes(s: string): nat {
    if s == [] then 0 else (if s[0] == '"' then 1 else 0) + Quotes(s[1..])
  }

  /**
    * The comma at `i` separates two fields when an even number of double quotes
    * follows it: the lookahead of `/,(?=(?:(?:[^"]*"){2})*[^"]*$)/`.
    */
  predicate IsSplitComma(s: string, i: nat)
    requires i < |s|
  {
    s[i] == ',' && Quotes(s[i + 1..]) % 2 == 0
  }

  function FirstSplitComma(s: string, from: nat): (i: nat)
    requires from <= |s|
    ensures from <= i <= |s|
    ensures i < |s| ==> IsSplitComma(s, i)
    ensures forall j :: from <= j < i ==> !IsSplitComma(s, j)
    decreases |s| - from
  {
    if from == |s| || IsSplitComma(s, from) then from else FirstSplitComma(s, from + 1)
  }

  /** `line.split(/,(?=(?:(?:[^"]*"){2})*[^"]*$)/)`. */
  function SplitQuoted(s: string): (fields: seq<string>)
    ensures |fields| >= 1
    decreases |s|
  {
    var i := FirstSplitComma(s, 0);
    if i == |s| then [s] else [s[..i]] + SplitQuoted(s[i + 1..])
  }

  /** Whether a comma separates fields depends only on the text after it. */
  lemma SplitCommaShift(s: string, i: nat, j: nat)
    requires i < |s| && i + 1 + j < |s|
    ensures IsSplitComma(s, i + 1 + j) <==> IsSplitComma(s[i + 1..], j)
  {
    assert s[i + 1 + j + 1..] == s[i + 1..][j + 1..];
  }

  /** The positions of the separators between consecutive fields. */
  function Separators(fields: seq<string>): set<nat>
    requires |fields| >= 1
  {
    if |fields| == 1 then {}
    else {|fields[0]|} + set p | p in Separators(fields[1..]) :: p + |fields[0]| + 1
  }

  function SplitCommas(s: string): set<nat> {
    set i: nat | i < |s| && IsSplitComma(s, i)
  }

  /** The separators after the first field are those of the remaining fields, shifted. */
  lemma SeparatorsCons(fields: seq<string>, p: nat)
    requires |fields| >= 2
    ensures p in Separators(fields) <==>
      p == |fields[0]| || (p > |fields[0]| && p - |fields[0]| - 1 in Separators(fields[1..]))
  {
  }

  /** The split commas after a split comma at `i` are those of the rest of the line, shifted. */
  lemma SplitCommasCons(s: string, i: nat, p: nat)
    requires i < |s| && p > i
    ensures p in SplitCommas(s) <==> p - i - 1 in SplitCommas(s[i + 1..])
  {
    if p < |s| {
      SplitCommaShift(s, i, p - i - 1);
    }
  }

  /** A data line is cut at exactly the commas followed by an even number of double quotes. */
  lemma {:induction false} SplitQuotedSeparators(s: string)
    ensures Separators(SplitQuoted(s)) == SplitCommas(s)
    decreases |s|
  {
    var i := FirstSplitComma(s, 0);
    var fields := SplitQuoted(s);
    if i < |s| {
      var t := s[i + 1..];
      SplitQuotedSeparators(t);
      assert fields[0] == s[..i] && fields[1..] == SplitQuoted(t);
      forall p: nat
        ensures p in Separators(fields) <==> p in SplitCommas(s)
      {
        SeparatorsCons(fields, p);
        if p > i {
          SplitCommasCons(s, i, p);
        }
      }
    } else {
      assert fields == [s];
    }
  }

  /** Joining the fields with commas gives the line back. */
  lemma {:induction false} SplitQuotedJoin(s: string)
    ensures Join(SplitQuoted(s), ',') == s
    decreases |s|
  {
    var i := FirstSplitComma(s, 0);
    if i < |s| {
      SplitQuotedJoin(s[i + 1..]);
      assert s == s[..i] + [','] + s[i + 1..];
    }
  }

  lemma {:induction false} NoQuotesCount(s: string)
    requires '"' !in s
    ensures Quotes(s) == 0
  {
    if s != [] {
      assert s[1..] == s[1..] && forall c :: c in s[1..] ==> c in s;
      NoQuotesCount(s[1..]);
    }
  }

  /** A line without double quotes is cut at every comma, like the header line. */
  lemma {:induction false} SplitQuotedWithoutQuotes(s: string)
    requires '"' !in s
    ensures SplitQuoted(s) == SplitOn(s, ',')
    decreases |s|
  {
    var i := FirstSplitComma(s, 0);
    forall j | 0 <= j < |s|
      ensures IsSplitComma(s, j) <==> s[j] == ','
    {
      assert forall c :: c in s[j + 1..] ==> c in s;
      NoQuotesCount(s[j + 1..]);
    }
    var k := IndexOf(s, [',']);
    if k.Some? {
      OccursChar(s, ',', k.value);
      forall j | 0 <= j < k.value
        ensures s[j] != ','
      {
        OccursChar(s, ',', j);
      }
      assert i == k.value;
      assert forall c :: c in s[i + 1..] ==> c in s;
      SplitQuotedWithoutQuotes(s[i + 1..]);
    } else {
      forall j | 0 <= j < |s|
        ensures s[j] != ','
      {
        OccursChar(s, ',', j);
      }
    }
  }

  /** `line.split(...).map(v => v.trim())`: the trimmed fields of a data line. */
  function Fields(line: string): (values: seq<string>)
    ensures |values| == |SplitQuoted(line)|
  {
    var parts := SplitQuoted(line);
    seq(|parts|, k requires 0 <= k < |parts| => Trim(parts[k]))
  }

  /** `lines[0].split(',').map(h => h.trim().replace(/^"|"$/g, ''))`. */
  function HeaderNames(line: string): (headers: seq<string>)
    ensures |headers| == |SplitOn(line, ',')|
  {
    var parts := SplitOn(line, ',');
    seq(|parts|, k requires 0 <= k < |parts| => StripQuotes(Trim(parts[k])))
  }

  /** Each field is the trimmed piece of the quote-aware split at its position. */
  lemma FieldsTrimmed(line: string)
    ensures |Fields(line)| == |SplitQuoted(line)|
    ensures forall k :: 0 <= k < |Fields(line)| ==> Fields(line)[k] == Trim(SplitQuoted(line)[k])
  {
  }

  /** Each header is the trimmed, unquoted piece of the header line at its position. */
  lemma HeaderNamesClean(line: string)
    ensures |HeaderNames(line)| == |SplitOn(line, ',')|
    ensures forall k :: 0 <= k < |HeaderNames(line)| ==> HeaderNames(line)[k] == StripQuotes(Trim(SplitOn(line, ',')[k]))
  {
  }

  // ----- cells -----

  /** `/^-?[\d\.]+,[\d]+$/`: digits and dots, one comma, then digits to the end. */
  predicate LooksBrazilian(s: string) {
    var t := if |s| > 0 && s[0] == '-' then s[1..] else s;
    match IndexOf(t, ",")
    case None => false
    case Some(i) =>
      0 < i && i + 1 < |t|
      && (forall j :: 0 <= j < i ==> IsDigit(t[j]) || t[j] == '.')
      && AllDigits(t[i + 1..])
  }

  /** The `if` block of `cleanAndParse`: currency, percent, white space and Brazilian separators. */
  function Normalise(cleaned: string): string {
    if Contains(cleaned, "R$") || Contains(cleaned, "%") || LooksBrazilian(cleaned) then
      var t := Seqs.Filter(ReplaceFirst(ReplaceFirst(cleaned, "R$", ""), "%", ""), c => !IsSpace(c));
      if Contains(t, ",") && Contains(t, ".") then ReplaceFirst(Seqs.Filter(t, c => c != '.'), ",", ".")
      else if Contains(t, ",") then ReplaceFirst(t, ",", ".")
      else t
    else cleaned
  }

  /** What `cleanAndParse(val)` returns. */
  function CleanCell(val: string): Cell {
    if Trim(val) == [] then Str([])
    else
      var cleaned := Normalise(StripQuotes(Trim(val)));
      match JsNumber(cleaned)
      case Some(n) => if cleaned != [] then Num(n) else Str(cleaned)
      case None => Str(cleaned)
  }

  /** `cleanAndParse`, reassigning the working text step by step as the source does. */
  method CleanAndParse(val: string) returns (cell: Cell)
    ensures cell == CleanCell(val)
  {
    if Trim(val) == [] {
      return Str([]);
    }
    var cleaned := StripQuotes(Trim(val));
    if Contains(cleaned, "R$") || Contains(cleaned, "%") || LooksBrazilian(cleaned) {
      cleaned := ReplaceFirst(cleaned, "R$", "");
      cleaned := ReplaceFirst(cleaned, "%", "");
      cleaned := Seqs.Filter(cleaned, c => !IsSpace(c));
      if Contains(cleaned, ",") && Contains(cleaned, ".") {
        cleaned := Seqs.Filter(cleaned, c => c != '.');
        cleaned := ReplaceFirst(cleaned, ",", ".");
      } else if Contains(cleaned, ",") {
        cleaned := ReplaceFirst(cleaned, ",", ".");
      }
    }
    var num := JsNumber(cleaned);
    if num.Some? && cleaned != [] {
      cell := Num(num.value);
    } else {
      cell := Str(cleaned);
    }
  }

  /** A blank cell becomes the empty text. */
  lemma CleanBlank(val: string)
    requires IsBlank(val)
    ensures CleanCell(val) == Str([])
  {
    TrimEmptyIffBlank(val);
  }

  /** A text result never reads as a number: the normaliser keeps a text only when `Number` gives `NaN`. */
  lemma CleanTextIsNotNumeric(val: string)
    requires CleanCell(val).Str?
    ensures CleanCell(val).s == [] || JsNumber(CleanCell(val).s).None?
  {
  }

  lemma BrazilianChars(s: string)
    requires LooksBrazilian(s)
    ensures forall j :: 0 <= j < |s| ==> IsNumeral(s[j]) || s[j] == ','
  {
    var t := if |s| > 0 && s[0] == '-' then s[1..] else s;
    var i := IndexOf(t, ",").value;
    assert t[i..i + 1] == ",";
    forall j | 0 <= j < |t|
      ensures IsNumeral(t[j]) || t[j] == ','
    {
      if i < j {
        assert t[j] == t[i + 1..][j - i - 1];
      }
    }
    forall j | 0 <= j < |s|
      ensures IsNumeral(s[j]) || s[j] == ','
    {
      if |s| > 0 && s[0] == '-' && j > 0 {
        assert s[j] == t[j - 1];
      }
    }
  }

  /** Text without currency or percent markers that does not look like `1.234,56` is not normalised. */
  lemma NormaliseLeavesWords(w: string, k: nat)
    requires k < |w| && !IsNumeral(w[k]) && w[k] != ','
    requires !Contains(w, "R$") && !Contains(w, "%")
    ensures Normalise(w) == w
  {
    if LooksBrazilian(w) {
      BrazilianChars(w);
      assert false;
    }
  }

  /**
    * A word is kept as it is: a trimmed text without surrounding quotes, currency
    * or percent markers, holding a character that is neither a numeral nor a comma.
    */
  lemma CleanKeepsWords(val: string, k: nat)
    requires Trim(val) != [] && k < |Trim(val)|
    requires !IsNumeral(Trim(val)[k]) && Trim(val)[k] != ','
    requires Trim(val)[0] != '"' && Trim(val)[|Trim(val)| - 1] != '"'
    requires !Contains(Trim(val), "R$") && !Contains(Trim(val), "%")
    ensures CleanCell(val) == Str(Trim(val))
  {
    TrimIdempotent(val);
    var w := Trim(val);
    assert StripQuotes(w) == w;
    NormaliseLeavesWords(w, k);
    NotANumber(w, k);
  }

  lemma NotANumber(w: string, k: nat)
    requires w != [] && k < |w| && !IsNumeral(w[k]) && Trim(w) == w
    ensures JsNumber(w).None?
  {
    TrimEmptyIffBlank(w);
  }

  /** `1234,56`: a whole part, a decimal comma and a fraction, nothing else. */
  predicate CommaDecimal(s: string, whole: string, frac: string) {
    whole != [] && frac != [] && AllDigits(whole) && AllDigits(frac) && s == whole + "," + frac
  }

  lemma CommaDecimalChars(s: string, whole: string, frac: string)
    requires CommaDecimal(s, whole, frac)
    ensures forall j :: 0 <= j < |s| ==> IsDigit(s[j]) || s[j] == ','
    ensures IndexOf(s, ",") == Some(|whole|)
  {
    forall j | 0 <= j < |s|
      ensures IsDigit(s[j]) || s[j] == ','
    {
      if j < |whole| {
        assert s[j] == whole[j];
      } else if j > |whole| {
        assert s[j] == frac[j - |whole| - 1];
      }
    }
    IndexOfChar(s, ',', |whole|);
  }

  /** `1234,56` carries no currency, percent or thousands marker and matches the Brazilian pattern. */
  lemma CommaDecimalMarkers(s: string, whole: string, frac: string)
    requires CommaDecimal(s, whole, frac)
    ensures !Contains(s, "R$") && !Contains(s, "%") && !Contains(s, ".")
    ensures LooksBrazilian(s)
  {
    CommaDecimalChars(s, whole, frac);
    NoOccurrence(s, "R$", '$');
    NoOccurrence(s, "%", '%');
    NoOccurrence(s, ".", '.');
    assert s[|whole| + 1..] == frac;
  }

  /** Once markers and spaces are gone, a decimal comma becomes a decimal point. */
  lemma NormaliseCommaDecimal(s: string, whole: string, frac: string)
    requires CommaDecimal(s, whole, frac)
    ensures Seqs.Filter(s, c => !IsSpace(c)) == s
    ensures Contains(s, ",") && !Contains(s, ".")
    ensures ReplaceFirst(s, ",", ".") == whole + "." + frac
  {
    CommaDecimalChars(s, whole, frac);
    CommaDecimalMarkers(s, whole, frac);
    Seqs.FilterKeepsAll(s, c => !IsSpace(c));
    assert s[..|whole|] == whole;
    assert s[|whole| + 1..] == frac;
  }

  /** `1234,56` is a Brazilian number and cleans to 1234.56. */
  lemma CleanCommaDecimal(s: string, whole: string, frac: string)
    requires CommaDecimal(s, whole, frac)
    ensures CleanCell(s) == Num(DecimalValue(whole, frac))
  {
    CommaDecimalChars(s, whole, frac);
    CommaDecimalMarkers(s, whole, frac);
    assert s[|s| - 1] == frac[|frac| - 1];
    TrimUnchanged(s);
    assert StripQuotes(s) == s;
    NormaliseCommaDecimal(s, whole, frac);
    assert ReplaceFirst(ReplaceFirst(s, "R$", ""), "%", "") == s;
    var u := whole + "." + frac;
    assert Normalise(StripQuotes(Trim(s))) == u;
    ReadDecimal(whole, frac);
    assert u != [];
  }

  /** `45,5%` cleans to 45.5: the percent sign is dropped, not applied. */
  lemma CleanPercent(s: string, whole: string, frac: string)
    requires CommaDecimal(s, whole, frac)
    ensures CleanCell(s + "%") == Num(DecimalValue(whole, frac))
  {
    var p := s + "%";
    CommaDecimalChars(s, whole, frac);
    assert p[0] == s[0];
    TrimUnchanged(p);
    NoOccurrence(p, "R$", '$');
    IndexOfChar(p, '%', |s|);
    assert ReplaceFirst(p, "%", "") == s;
    NormaliseCommaDecimal(s, whole, frac);
    ReadDecimal(whole, frac);
  }

  /** `R$ 1234,56` cleans to 1234.56. */
  lemma CleanCurrency(s: string, whole: string, frac: string)
    requires CommaDecimal(s, whole, frac)
    ensures CleanCell("R$ " + s) == Num(DecimalValue(whole, frac))
  {
    var p := "R$ " + s;
    CommaDecimalChars(s, whole, frac);
    assert p[|p| - 1] == s[|s| - 1];
    TrimUnchanged(p);
    assert StripQuotes(p) == p;
    StripCurrency(s);
    NormaliseCommaDecimal(s, whole, frac);
    assert Normalise(p) == whole + "." + frac;
    ReadDecimal(whole, frac);
  }

  /** Digits and dots, the whole part of `1.234,56`. */
  predicate DigitsAndDots(whole: string) {
    forall j :: 0 <= j < |whole| ==> IsDigit(whole[j]) || whole[j] == '.'
  }

  /** The whole part of `1.234,56` without its thousands dots: digits and dots leave digits. */
  function Undotted(whole: string): (d: string)
    ensures DigitsAndDots(whole) ==> AllDigits(d)
  {
    if DigitsAndDots(whole) then
      UndottedDigits(whole);
      Seqs.Filter(whole, c => c != '.')
    else Seqs.Filter(whole, c => c != '.')
  }

  /**
    * `1.234,56`: digits grouped by thousands dots (at least one dot, at least
    * one digit), a decimal comma and a fraction, nothing else.
    */
  predicate ThousandsDecimal(s: string, whole: string, frac: string) {
    frac != [] && AllDigits(frac) && '.' in whole && DigitsAndDots(whole) && Undotted(whole) != []
    && s == whole + "," + frac
  }

  /** Dropping the dots from digits and dots leaves digits. */
  lemma UndottedDigits(whole: string)
    requires DigitsAndDots(whole)
    ensures AllDigits(Seqs.Filter(whole, c => c != '.'))
  {
    var d := Seqs.Filter(whole, c => c != '.');
    Seqs.FilterSpec(whole, c => c != '.');
    forall i | 0 <= i < |d|
      ensures IsDigit(d[i])
    {
      assert multiset(d)[d[i]] > 0;
      assert d[i] in whole;
    }
  }

  /** `1.234,56` is made of digits, dots and one comma, the first comma ending the whole part. */
  lemma ThousandsChars(s: string, whole: string, frac: string)
    requires ThousandsDecimal(s, whole, frac)
    ensures forall j :: 0 <= j < |s| ==> IsDigit(s[j]) || s[j] == '.' || s[j] == ','
    ensures IndexOf(s, ",") == Some(|whole|)
  {
    forall j | 0 <= j < |s|
      ensures IsDigit(s[j]) || s[j] == '.' || s[j] == ','
      ensures j < |whole| ==> s[j] != ','
    {
      if j < |whole| {
        assert s[j] == whole[j];
      } else if j > |whole| {
        assert s[j] == frac[j - |whole| - 1];
      }
    }
    IndexOfChar(s, ',', |whole|);
  }

  /** `1.234,56` has a dot, no currency or percent marker, and matches the Brazilian pattern. */
  lemma ThousandsMarkers(s: string, whole: string, frac: string)
    requires ThousandsDecimal(s, whole, frac)
    ensures Contains(s, ".")
    ensures !Contains(s, "R$") && !Contains(s, "%")
    ensures LooksBrazilian(s)
  {
    ThousandsChars(s, whole, frac);
    var k :| 0 <= k < |whole| && whole[k] == '.';
    assert s[k] == '.';
    OccursChar(s, '.', k);
    NoOccurrence(s, "R$", '$');
    NoOccurrence(s, "%", '%');
    assert s[|whole| + 1..] == frac;
  }

  /** Once white space is gone, the dots are dropped and the decimal comma becomes a point. */
  lemma NormaliseThousands(s: string, whole: string, frac: string)
    requires ThousandsDecimal(s, whole, frac)
    ensures Seqs.Filter(s, c => !IsSpace(c)) == s
    ensures Contains(s, ",") && Contains(s, ".")
    ensures ReplaceFirst(Seqs.Filter(s, c => c != '.'), ",", ".") == Undotted(whole) + "." + frac
  {
    ThousandsChars(s, whole, frac);
    ThousandsMarkers(s, whole, frac);
    Seqs.FilterKeepsAll(s, c => !IsSpace(c));
    Seqs.FilterKeepsAll(frac, c => c != '.');
    assert s == (whole + ",") + frac;
    Seqs.FilterAppend(whole + ",", frac, c => c != '.');
    Seqs.FilterAppend(whole, ",", c => c != '.');
    assert Seqs.Filter(",", c => c != '.') == ",";
    var d := Undotted(whole);
    NormaliseCommaDecimal(d + "," + frac, d, frac);
  }

  /** The normaliser turns `1.234,56` into `1234.56`. */
  lemma NormaliseThousandsResult(s: string, whole: string, frac: string)
    requires ThousandsDecimal(s, whole, frac)
    ensures Normalise(s) == Undotted(whole) + "." + frac
  {
    ThousandsMarkers(s, whole, frac);
    NormaliseThousands(s, whole, frac);
    assert ReplaceFirst(ReplaceFirst(s, "R$", ""), "%", "") == s;
  }

  /** A trimmed, unquoted text that normalises to a non-empty numeral cleans to its number. */
  lemma CleanToNumber(s: string, u: string, v: real)
    requires s != [] && Trim(s) == s && StripQuotes(s) == s
    requires Normalise(s) == u && u != [] && JsNumber(u) == Some(v)
    ensures CleanCell(s) == Num(v)
  {
  }

  /** `1.234,56` cleans to 1234.56: the thousands dots go and the comma is the decimal point. */
  lemma CleanThousands(s: string, whole: string, frac: string)
    requires ThousandsDecimal(s, whole, frac)
    ensures CleanCell(s) == Num(DecimalValue(Undotted(whole), frac))
  {
    ThousandsChars(s, whole, frac);
    assert s[0] == whole[0];
    assert s[|s| - 1] == frac[|frac| - 1];
    TrimUnchanged(s);
    assert StripQuotes(s) == s;
    NormaliseThousandsResult(s, whole, frac);
    ReadDecimal(Undotted(whole), frac);
    CleanToNumber(s, Undotted(whole) + "." + frac, DecimalValue(Undotted(whole), frac));
  }

  /** `R$ 1.234,56` cleans to 1234.56. */
  lemma CleanCurrencyThousands(s: string, whole: string, frac: string)
    requires ThousandsDecimal(s, whole, frac)
    ensures CleanCell("R$ " + s) == Num(DecimalValue(Undotted(whole), frac))
  {
    var p := "R$ " + s;
    ThousandsChars(s, whole, frac);
    assert p[|p| - 1] == s[|s| - 1];
    TrimUnchanged(p);
    assert StripQuotes(p) == p;
    StripCurrency(s);
    NormaliseThousands(s, whole, frac);
    var u := Undotted(whole) + "." + frac;
    assert Normalise(p) == u;
    ReadDecimal(Undotted(whole), frac);
    CleanToNumber(p, u, DecimalValue(Undotted(whole), frac));
  }

  /** The price `R$ 1.234,56` reads as 1234.56. */
  lemma CleanBrazilianPrice(price: string, s: string, whole: string)
    requires s == "1.234,56" && whole == "1.234" && price == "R$ " + s
    ensures CleanCell(price) == Num(1234.56)
  {
    PriceShape(s, whole);
    CleanCurrencyThousands(s, whole, "56");
    PriceValue();
  }

  /** `1.234,56` has the thousands shape, with `1234` as its undotted whole part. */
  lemma PriceShape(s: string, whole: string)
    requires s == "1.234,56" && whole == "1.234"
    ensures ThousandsDecimal(s, whole, "56")
    ensures Undotted(whole) == "1234"
  {
    PriceUndotted(whole);
    assert whole[1] == '.';
    assert s == whole + "," + "56";
  }

  /** Dropping the dot from `1.234` leaves `1234`. */
  lemma PriceUndotted(whole: string)
    requires whole == "1.234"
    ensures Seqs.Filter(whole, c => c != '.') == "1234"
    ensures DigitsAndDots(whole)
  {
    assert whole == ['1'] + ".234" && ".234" == ['.'] + "234";
    Seqs.FilterCons('1', ".234", c => c != '.');
    Seqs.FilterCons('.', "234", c => c != '.');
    Seqs.FilterKeepsAll("234", c => c != '.');
  }

  /** `1234` and `56` read as 1234.56. */
  lemma PriceValue()
    ensures DecimalValue("1234", "56") == 1234.56
  {
    assert DigitsValue("1234") == 1234 by {
      assert "1234"[..3] == "123" && "123"[..2] == "12" && "12"[..1] == "1" && "1"[..0] == "";
    }
    assert DigitsValue("56") == 56 by {
      assert "56"[..1] == "5" && "5"[..0] == "";
    }
    assert Pow10(|"56"|) == 100 by {
      assert Pow10(2) == 10 * Pow10(1) && Pow10(1) == 10 * Pow10(0);
    }
  }

  /** Dropping `R$`, then `%`, then white space from `R$ ` followed by a plain text leaves the text. */
  lemma StripCurrency(s: string)
    requires forall j :: 0 <= j < |s| ==> !IsSpace(s[j]) && s[j] != '%'
    ensures Contains("R$ " + s, "R$")
    ensures Seqs.Filter(ReplaceFirst(ReplaceFirst("R$ " + s, "R$", ""), "%", ""), c => !IsSpace(c)) == s
  {
    var p := "R$ " + s;
    assert OccursAt(p, "R$", 0);
    assert IndexOf(p, "R$") == Some(0);
    var a := p[2..];
    assert ReplaceFirst(p, "R$", "") == a;
    assert a == [' '] + s;
    NoOccurrence(a, "%", '%');
    Seqs.FilterKeepsAll(s, c => !IsSpace(c));
    assert Seqs.Filter(a, c => !IsSpace(c)) == Seqs.Filter(s, c => !IsSpace(c));
  }

  // ----- rows and types -----

  /** `values[index] || ''`. */
  function FieldAt(values: seq<string>, i: nat): string {
    if i < |values| then values[i] else []
  }

  /** The index of the last occurrence of `h` in `headers`. */
  function LastIndex(headers: seq<string>, h: string): (k: nat)
    requires h in headers
    ensures k < |headers| && headers[k] == h
    ensures forall j :: k < j < |headers| ==> headers[j] != h
  {
    if headers[|headers| - 1] == h then |headers| - 1
    else
      assert h in headers[..|headers| - 1] by {
        var j :| 0 <= j < |headers| && headers[j] == h;
        assert headers[..|headers| - 1][j] == h;
      }
      LastIndex(headers[..|headers| - 1], h)
  }

  /** `cleanAndParse` applied to every field of a line. */
  function CleanFields(values: seq<string>): (cells: seq<Cell>)
    ensures |cells| == |values|
  {
    seq(|values|, k requires 0 <= k < |values| => CleanCell(values[k]))
  }

  /** The cell of column `k`; the empty text past the end of a short line. */
  function CellAt(cells: seq<Cell>, k: nat): Cell {
    if k < |cells| then cells[k] else Str([])
  }

  /**
    * The row built from the cleaned fields of one data line: every header gets the
    * cell of its column, the last column winning when a header name repeats.
    */
  function RowSpec(headers: seq<string>, cells: seq<Cell>): (row: Row)
    ensures row.Keys == set h | h in headers
  {
    map h | h in headers :: CellAt(cells, LastIndex(headers, h))
  }

  /** A line that is too short leaves the empty text in the missing columns. */
  lemma ShortLineGivesEmpty(headers: seq<string>, values: seq<string>, h: string)
    requires h in headers && LastIndex(headers, h) >= |values|
    ensures RowSpec(headers, CleanFields(values))[h] == Str([])
  {
  }

  lemma RowSpecStep(headers: seq<string>, cells: seq<Cell>, i: nat)
    requires i < |headers|
    ensures RowSpec(headers[..i + 1], cells) == RowSpec(headers[..i], cells)[headers[i] := CellAt(cells, i)]
  {
    var prefix := headers[..i + 1];
    assert prefix[..i] == headers[..i];
    var a := RowSpec(prefix, cells);
    var b := RowSpec(headers[..i], cells)[headers[i] := CellAt(cells, i)];
    assert prefix == headers[..i] + [headers[i]];
    assert a.Keys == b.Keys;
    forall h | h in a.Keys
      ensures a[h] == b[h]
    {
      if h == headers[i] {
        assert LastIndex(prefix, h) == i;
      } else {
        assert LastIndex(prefix, h) == LastIndex(headers[..i], h);
      }
    }
  }

  /** The inner `headers.forEach` of `parseCSV`, filling one row. */
  method BuildRow(headers: seq<string>, values: seq<string>) returns (row: Row)
    ensures row == RowSpec(headers, CleanFields(values))
  {
    row := map[];
    var i := 0;
    while i < |headers|
      invariant 0 <= i <= |headers|
      invariant row == RowSpec(headers[..i], CleanFields(values))
    {
      var cell := CleanAndParse(FieldAt(values, i));
      if i >= |values| {
        assert Trim([]) == [];
      }
      assert cell == CellAt(CleanFields(values), i);
      RowSpecStep(headers, CleanFields(values), i);
      row := row[headers[i] := cell];
      i := i + 1;
    }
    assert headers[..i] == headers;
  }

  /** Some row holds a number in column `h`. */
  predicate HasNumber(rows: seq<Row>, h: string) {
    exists r: Row :: r in rows && h in r && r[h].Num?
  }

  /** The `types` record: `number` exactly for the columns with a numeric cell. */
  function TypesSpec(headers: seq<string>, rows: seq<Row>): (types: map<string, ColumnType>)
    ensures types.Keys == set h | h in headers
  {
    map h | h in headers :: if HasNumber(rows, h) then NumberColumn else StringColumn
  }

  /** The `headers.forEach` that infers the column types, with the `rows.find` it calls. */
  method InferTypes(headers: seq<string>, rows: seq<Row>) returns (types: map<string, ColumnType>)
    ensures types == TypesSpec(headers, rows)
  {
    types := map[];
    var i := 0;
    while i < |headers|
      invariant 0 <= i <= |headers|
      invariant types == TypesSpec(headers[..i], rows)
    {
      var h := headers[i];
      var j := 0;
      while j < |rows| && !(h in rows[j] && rows[j][h].Num?)
        invariant 0 <= j <= |rows|
        invariant forall k :: 0 <= k < j ==> !(h in rows[k] && rows[k][h].Num?)
      {
        j := j + 1;
      }
      assert j < |rows| ==> rows[j] in rows;
      types := types[h := if j < |rows| then NumberColumn else StringColumn];
      assert headers[..i + 1] == headers[..i] + [h];
      i := i + 1;
    }
    assert headers[..i] == headers;
  }

  /** `lines.slice(1).map(...)`: one row per data line. */
  function DataRows(headers: seq<string>, dataLines: seq<string>): (rows: seq<Row>)
    ensures |rows| == |dataLines|
  {
    seq(|dataLines|, k requires 0 <= k < |dataLines| => RowSpec(headers, CleanFields(Fields(dataLines[k]))))
  }

  lemma DataRowsStep(headers: seq<string>, dataLines: seq<string>, line: string)
    ensures DataRows(headers, dataLines + [line])
         == DataRows(headers, dataLines) + [RowSpec(headers, CleanFields(Fields(line)))]
  {
    var a := DataRows(headers, dataLines + [line]);
    var b := DataRows(headers, dataLines) + [RowSpec(headers, CleanFields(Fields(line)))];
    assert |a| == |b|;
    forall k | 0 <= k < |a|
      ensures a[k] == b[k]
    {
      if k < |dataLines| {
        assert (dataLines + [line])[k] == dataLines[k];
      }
    }
  }

  /** What `parseCSV(text)` returns; `None` is `null`. */
  function ParseCsvSpec(text: string): Option<Table> {
    var lines := NonBlankLines(text);
    if lines == [] then None
    else
      var headers := HeaderNames(lines[0]);
      var rows := DataRows(headers, lines[1..]);
      Some(Table(headers, rows, TypesSpec(headers, rows)))
  }

  /** `parseCSV`. */
  method ParseCsv(text: string) returns (result: Option<Table>)
    ensures result == ParseCsvSpec(text)
  {
    var lines := NonBlankLines(text);
    if |lines| == 0 {
      return None;
    }
    var headers := HeaderNames(lines[0]);
    var rows: seq<Row> := [];
    var i := 1;
    while i < |lines|
      invariant 1 <= i <= |lines|
      invariant rows == DataRows(headers, lines[1..i])
    {
      var row := BuildRow(headers, Fields(lines[i]));
      assert lines[1..i + 1] == lines[1..i] + [lines[i]];
      DataRowsStep(headers, lines[1..i], lines[i]);
      rows := rows + [row];
      i := i + 1;
    }
    assert lines[1..i] == lines[1..];
    var types := InferTypes(headers, rows);
    return Some(Table(headers, rows, types));
  }

  /** `parseCSV` gives `null` exactly when the text is white space only. */
  lemma ParseFailsIffBlank(text: string)
    ensures ParseCsvSpec(text).None? <==> IsBlank(text)
  {
    NoLinesIffBlank(text);
  }

  /**
    * One row per non-blank line after the header line, each with an entry for
    * every header, and a type for every header.
    */
  lemma ParseShape(text: string)
    requires ParseCsvSpec(text).Some?
    ensures var t := ParseCsvSpec(text).value;
      && |t.rows| == |NonBlankLines(text)| - 1
      && t.headers == HeaderNames(NonBlankLines(text)[0])
      && (forall k :: 0 <= k < |t.rows| ==> t.rows[k].Keys == set h | h in t.headers)
      && t.types.Keys == set h | h in t.headers
  {
  }

  /** A column is typed `number` exactly when some row holds a number in it. */
  lemma TypesSpecNumber(headers: seq<string>, rows: seq<Row>, h: string)
    requires h in headers
    ensures TypesSpec(headers, rows)[h] == NumberColumn
        <==> exists k :: 0 <= k < |rows| && h in rows[k] && rows[k][h].Num?
  {
    if HasNumber(rows, h) {
      var r: Row :| r in rows && h in r && r[h].Num?;
      var k :| 0 <= k < |rows| && rows[k] == r;
    }
  }

  /** In the parsed table, a column is typed `number` exactly when some row holds a number in it. */
  lemma ParseTypes(text: string, h: string)
    requires ParseCsvSpec(text).Some? && h in ParseCsvSpec(text).value.headers
    ensures var t := ParseCsvSpec(text).value;
      t.types[h] == NumberColumn <==> exists k :: 0 <= k < |t.rows| && h in t.rows[k] && t.rows[k][h].Num?
  {
    var t := ParseCsvSpec(text).value;
    TypesSpecNumber(t.headers, t.rows, h);
  }
}
