/**
  * The JavaScript string operations the importer and the dashboard use, over `seq<char>`:
  * `trim`, `toLowerCase`, `includes`, `indexOf`, `replace` with a string pattern,
  * `split` on one character and the quote-stripping `replace(/^"|"$/g, '')`.
  */
module Text {
  import opened Wrappers

  /** JavaScript's WhiteSpace and LineTerminator characters: what `trim` strips and `\s` matches. */
  predicate IsSpace(c: char) {
    c == ' ' || c == '\t' || c == '\n' || c == '\r' || c == '\U{000B}' || c == '\U{000C}'
    || c == '\U{00A0}' || c == '\U{1680}' || ('\U{2000}' <= c <= '\U{200A}')
    || c == '\U{2028}' || c == '\U{2029}' || c == '\U{202F}' || c == '\U{205F}'
    || c == '\U{3000}' || c == '\U{FEFF}'
  }

  /** A string that `trim` turns into the empty string. */
  predicate IsBlank(s: string) {
    forall i :: 0 <= i < |s| ==> IsSpace(s[i])
  }

  function TrimStart(s: string): (r: string)
    ensures |r| <= |s|
    ensures r == [] || !IsSpace(r[0])
  {
    if |s| > 0 && IsSpace(s[0]) then TrimStart(s[1..]) else s
  }

  /** `TrimStart` drops a blank prefix and keeps the rest. */
  lemma {:induction false} TrimStartSpec(s: string)
    ensures TrimStart(s) == s[|s| - |TrimStart(s)|..]
    ensures IsBlank(s[..|s| - |TrimStart(s)|])
  {
    if |s| > 0 && IsSpace(s[0]) {
      TrimStartSpec(s[1..]);
      var r := TrimStart(s);
      assert s[..|s| - |r|] == [s[0]] + s[1..][..|s| - 1 - |r|];
    }
  }

  function TrimEnd(s: string): (r: string)
    ensures |r| <= |s|
    ensures r == [] || !IsSpace(r[|r| - 1])
  {
    if |s| > 0 && IsSpace(s[|s| - 1]) then TrimEnd(s[..|s| - 1]) else s
  }

  /** `TrimEnd` drops a blank suffix and keeps the rest. */
  lemma {:induction false} TrimEndSpec(s: string)
    ensures TrimEnd(s) == s[..|TrimEnd(s)|]
    ensures IsBlank(s[|TrimEnd(s)|..])
  {
    if |s| > 0 && IsSpace(s[|s| - 1]) {
      TrimEndSpec(s[..|s| - 1]);
      var r := TrimEnd(s);
      assert s[|r|..] == s[..|s| - 1][|r|..] + [s[|s| - 1]];
    }
  }

  /** `s.trim()`: the infix of `s` left after dropping the white space at both ends. */
  function Trim(s: string): (r: string)
    ensures r == [] || (!IsSpace(r[0]) && !IsSpace(r[|r| - 1]))
    ensures |r| <= |s|
  {
    var t := TrimStart(s);
    TrimEndSpec(t);
    TrimEnd(t)
  }

  /** `trim` keeps the infix of `s` between a blank prefix and a blank suffix, and that infix neither starts nor ends with white space. */
  lemma TrimInfix(s: string)
    ensures Trim(s) == [] || (!IsSpace(Trim(s)[0]) && !IsSpace(Trim(s)[|Trim(s)| - 1]))
    ensures exists a :: (0 <= a <= |s| - |Trim(s)| && Trim(s) == s[a..a + |Trim(s)|]
                         && IsBlank(s[..a]) && IsBlank(s[a + |Trim(s)|..]))
  {
    var t := TrimStart(s);
    var r := TrimEnd(t);
    TrimStartSpec(s);
    TrimEndSpec(t);
    var a := |s| - |t|;
    assert s[a..a + |r|] == t[..|r|];
    assert s[a + |r|..] == t[|r|..];
  }

  /** Every character `trim` keeps comes from the text. */
  lemma TrimChars(s: string)
    ensures forall i :: 0 <= i < |Trim(s)| ==> Trim(s)[i] in s
  {
    var t := TrimStart(s);
    var r := TrimEnd(t);
    TrimStartSpec(s);
    TrimEndSpec(t);
    forall i | 0 <= i < |r|
      ensures r[i] in s
    {
      assert r[i] == t[i] == s[|s| - |t| + i];
    }
  }

  /** `trim` gives the empty string exactly on blank text. */
  lemma TrimEmptyIffBlank(s: string)
    ensures Trim(s) == [] <==> IsBlank(s)
  {
    var t := TrimStart(s);
    TrimStartSpec(s);
    TrimEndSpec(t);
    if TrimEnd(t) == [] {
      assert IsBlank(t);
      assert s == s[..|s| - |t|] + t;
    } else {
      assert !IsSpace(TrimEnd(t)[0]);
    }
  }

  /** Text that is already trimmed is left alone. */
  lemma TrimIdempotent(s: string)
    ensures Trim(Trim(s)) == Trim(s)
  {
  }

  /** `toLowerCase` on one character: ASCII and Latin-1 capitals. */
  function LowerChar(c: char): (d: char)
    ensures ('A' <= c <= 'Z') ==> 'a' <= d <= 'z' && d as int == c as int + 32
    ensures ('\U{00C0}' <= c <= '\U{00DE}' && c != '\U{00D7}') ==> d as int == c as int + 32
    ensures !('A' <= c <= 'Z') && !('\U{00C0}' <= c <= '\U{00DE}' && c != '\U{00D7}') ==> d == c
  {
    if 'A' <= c <= 'Z' || ('\U{00C0}' <= c <= '\U{00DE}' && c != '\U{00D7}')
    then (c as int + 32) as char
    else c
  }

  function Lower(s: string): (r: string)
    ensures |r| == |s|
    ensures forall i :: 0 <= i < |s| ==> r[i] == LowerChar(s[i])
  {
    seq(|s|, i requires 0 <= i < |s| => LowerChar(s[i]))
  }

  /** `sub` occurs in `s` starting at index `i`. */
  predicate OccursAt(s: string, sub: string, i: nat) {
    i + |sub| <= |s| && forall k :: 0 <= k < |sub| ==> s[i + k] == sub[k]
  }

  /** A one-character pattern occurs exactly where that character is. */
  lemma OccursChar(s: string, c: char, j: nat)
    ensures OccursAt(s, [c], j) <==> j < |s| && s[j] == c
  {
    if j < |s| {
      assert [c][0] == c && s[j + 0] == s[j];
    }
  }

  /** An occurrence is a slice equal to the pattern. */
  lemma OccursAtSlice(s: string, sub: string, i: nat)
    requires i + |sub| <= |s|
    ensures OccursAt(s, sub, i) <==> s[i..i + |sub|] == sub
  {
    if OccursAt(s, sub, i) {
      assert s[i..i + |sub|] == sub;
    }
  }

  /** `s.indexOf(sub)`: the first index where `sub` occurs, if any. */
  function IndexOf(s: string, sub: string): (r: Option<nat>)
    ensures r.Some? ==> OccursAt(s, sub, r.value)
    ensures r.Some? ==> forall j :: 0 <= j < r.value ==> !OccursAt(s, sub, j)
    ensures r.None? ==> forall j :: 0 <= j <= |s| ==> !OccursAt(s, sub, j)
    decreases |s|
  {
    if OccursAt(s, sub, 0) then Some(0)
    else if |s| == 0 then None
    else
      var rest := IndexOf(s[1..], sub);
      OccursShift(s, sub);
      if rest.Some? then Some(rest.value + 1) else None
  }

  /** An occurrence in `s` past index 0 is an occurrence in `s[1..]`, one index earlier. */
  lemma OccursShift(s: string, sub: string)
    requires |s| > 0
    ensures forall j :: 1 <= j <= |s| ==> (OccursAt(s, sub, j) <==> OccursAt(s[1..], sub, j - 1))
  {
  }

  /** `s.includes(sub)`. */
  predicate Contains(s: string, sub: string) {
    IndexOf(s, sub).Some?
  }

  /** `s.replace(pat, rep)` with a string pattern: only the first occurrence is replaced. */
  function ReplaceFirst(s: string, pat: string, rep: string): (r: string)
    ensures !Contains(s, pat) ==> r == s
    ensures Contains(s, pat) ==> r == s[..IndexOf(s, pat).value] + rep + s[IndexOf(s, pat).value + |pat|..]
  {
    match IndexOf(s, pat)
    case None => s
    case Some(i) => s[..i] + rep + s[i + |pat|..]
  }

  /** `s.replace(/^"|"$/g, '')`: a leading and a trailing double quote are removed, each on its own. */
  function StripQuotes(s: string): (r: string)
    ensures |s| >= 2 && s[0] == '"' && s[|s| - 1] == '"' ==> r == s[1..|s| - 1]
    ensures (s == [] || s[0] != '"') && (s == [] || s[|s| - 1] != '"') ==> r == s
    ensures |s| >= 1 && s[0] == '"' && (|s| == 1 || s[|s| - 1] != '"') ==> r == s[1..]
    ensures |s| >= 1 && s[0] != '"' && s[|s| - 1] == '"' ==> r == s[..|s| - 1]
  {
    var t := if |s| > 0 && s[0] == '"' then s[1..] else s;
    if |t| > 0 && t[|t| - 1] == '"' then t[..|t| - 1] else t
  }

  /** The index of the first `c` in `s`, or `|s|` when there is none. */
  function FindChar(s: string, c: char): (i: nat)
    ensures i <= |s| && (i < |s| ==> s[i] == c)
    ensures forall j :: 0 <= j < i ==> s[j] != c
  {
    if s == [] || s[0] == c then 0 else 1 + FindChar(s[1..], c)
  }

  /** `FindChar` is `indexOf` for a one-character pattern. */
  lemma FindCharIndexOf(s: string, c: char)
    ensures IndexOf(s, [c]) == if FindChar(s, c) < |s| then Some(FindChar(s, c)) else None
  {
    var i := FindChar(s, c);
    if i < |s| {
      IndexOfChar(s, c, i);
    } else {
      forall j | 0 <= j <= |s|
        ensures !OccursAt(s, [c], j)
      {
        OccursChar(s, c, j);
      }
    }
  }

  /** `s.split(c)` for a one-character separator: the pieces between the occurrences of `c`. */
  function SplitOn(s: string, c: char): (parts: seq<string>)
    ensures |parts| >= 1
    decreases |s|
  {
    var i := FindChar(s, c);
    if i == |s| then [s] else [s[..i]] + SplitOn(s[i + 1..], c)
  }

  /** No piece of `s.split(c)` holds `c`. */
  lemma {:induction false} SplitOnParts(s: string, c: char)
    ensures forall k :: 0 <= k < |SplitOn(s, c)| ==> c !in SplitOn(s, c)[k]
    decreases |s|
  {
    var i := FindChar(s, c);
    if i < |s| {
      SplitOnParts(s[i + 1..], c);
      var rest := SplitOn(s[i + 1..], c);
      assert SplitOn(s, c) == [s[..i]] + rest;
      assert c !in s[..i];
      forall k | 1 <= k < |SplitOn(s, c)|
        ensures c !in SplitOn(s, c)[k]
      {
        assert SplitOn(s, c)[k] == rest[k - 1];
      }
    }
  }

  /** `parts.join(c)`. */
  function Join(parts: seq<string>, c: char): string
    requires |parts| >= 1
  {
    if |parts| == 1 then parts[0] else parts[0] + [c] + Join(parts[1..], c)
  }

  /** Splitting on `c` and joining back with `c` gives the text back. */
  lemma {:induction false} SplitOnJoin(s: string, c: char)
    ensures Join(SplitOn(s, c), c) == s
    decreases |s|
  {
    var i := FindChar(s, c);
    if i < |s| {
      var rest := SplitOn(s[i + 1..], c);
      SplitOnJoin(s[i + 1..], c);
      JoinCons(s[..i], rest, c);
      CutAt(s, i);
    }
  }

  lemma JoinCons(first: string, rest: seq<string>, c: char)
    requires |rest| >= 1
    ensures Join([first] + rest, c) == first + [c] + Join(rest, c)
  {
    assert ([first] + rest)[1..] == rest;
  }

  lemma CutAt(s: string, i: nat)
    requires i < |s|
    ensures s == s[..i] + [s[i]] + s[i + 1..]
  {
  }

  /** The first occurrence of a single character. */
  lemma IndexOfChar(s: string, c: char, i: nat)
    requires i < |s| && s[i] == c
    requires forall j :: 0 <= j < i ==> s[j] != c
    ensures IndexOf(s, [c]) == Some(i)
  {
    OccursChar(s, c, i);
    forall j | 0 <= j < i
      ensures !OccursAt(s, [c], j)
    {
      OccursChar(s, c, j);
    }
  }

  /** A pattern holding a character that the text lacks does not occur in it. */
  lemma NoOccurrence(s: string, sub: string, c: char)
    requires c in sub && c !in s
    ensures IndexOf(s, sub) == None
  {
    var k :| 0 <= k < |sub| && sub[k] == c;
    forall j | 0 <= j <= |s|
      ensures !OccursAt(s, sub, j)
    {
      if j + |sub| <= |s| {
        assert s[j + k] != sub[k];
      }
    }
  }

  /** Text that starts and ends with a non-space character is already trimmed. */
  lemma TrimUnchanged(s: string)
    requires s != [] && !IsSpace(s[0]) && !IsSpace(s[|s| - 1])
    ensures Trim(s) == s
  {
    assert TrimStart(s) == s;
    assert TrimEnd(s) == s;
  }
}
