/**
  * The Google Sheets link rewrite of `loadFromUrl` in App.tsx: an `/edit` link is
  * turned into its CSV export link with `replace(/\/edit.*$/, '/export?format=csv')`.
  */
module SheetUrl {
  import opened Wrappers
  import opened Text

  const Edit: string := "/edit"
  const Export: string := "/export?format=csv"

  /** The characters JavaScript's `.` does not match. */
  predicate IsLineTerminator(c: char) {
    c == '\n' || c == '\r' || c == '\U{2028}' || c == '\U{2029}'
  }

  predicate SingleLine(s: string) {
    forall k :: 0 <= k < |s| ==> !IsLineTerminator(s[k])
  }

  /**
    * `/\/edit.*$/` matches at `i`: `/edit` is there and no line terminator follows
    * it, since `.` stops at one and `$` (without the `m` flag) is the end of the text.
    */
  predicate EditTailAt(url: string, i: nat) {
    OccursAt(url, Edit, i) && forall k :: i + |Edit| <= k < |url| ==> !IsLineTerminator(url[k])
  }

  /** The leftmost match of the pattern at or after `from`. */
  function EditTailFrom(url: string, from: nat): (r: Option<nat>)
    requires from <= |url|
    ensures r.Some? ==> from <= r.value <= |url| && EditTailAt(url, r.value)
    ensures r.Some? ==> forall j :: from <= j < r.value ==> !EditTailAt(url, j)
    ensures r.None? ==> forall j :: from <= j <= |url| ==> !EditTailAt(url, j)
    decreases |url| - from
  {
    if EditTailAt(url, from) then Some(from)
    else if from == |url| then None
    else EditTailFrom(url, from + 1)
  }

  /**
    * `if (url.includes('/edit')) url = url.replace(/\/edit.*$/, '/export?format=csv')`:
    * the matched tail becomes the export suffix; a link without a match is kept.
    */
  function ExportUrl(url: string): (r: string)
    ensures !Contains(url, Edit) ==> r == url
    ensures EditTailFrom(url, 0).None? ==> r == url
    ensures EditTailFrom(url, 0).Some? ==> r == url[..EditTailFrom(url, 0).value] + Export
  {
    if !Contains(url, Edit) then url
    else
      match EditTailFrom(url, 0)
      case None => url
      case Some(i) => url[..i] + Export
  }

  /** On a one-line link everything from the first `/edit` on becomes the export suffix. */
  lemma SingleLineRewrite(url: string)
    requires SingleLine(url) && Contains(url, Edit)
    ensures ExportUrl(url) == url[..IndexOf(url, Edit).value] + Export
  {
    var i := IndexOf(url, Edit).value;
    assert EditTailAt(url, i);
    var m := EditTailFrom(url, 0);
    assert forall j :: 0 <= j < i ==> !EditTailAt(url, j);
    assert m == Some(i);
  }

  /** The export suffix holds no `/` after its first character. */
  lemma ExportSlashes()
    ensures Export[0] == '/' && Export[1] == 'e' && Export[2] == 'x'
    ensures forall k :: 1 <= k < |Export| ==> Export[k] != '/'
  {
  }

  /** After the rewrite no match of the pattern is left. */
  lemma NoMatchAfterRewrite(url: string, i: nat)
    requires i <= |url| && EditTailAt(url, i)
    requires forall j :: 0 <= j < i ==> !EditTailAt(url, j)
    ensures forall j :: 0 <= j <= |url[..i] + Export| ==> !EditTailAt(url[..i] + Export, j)
  {
    var r := url[..i] + Export;
    ExportSlashes();
    forall j | 0 <= j <= |r|
      ensures !EditTailAt(r, j)
    {
      if j > i {
        if j < |r| {
          assert r[j] == Export[j - i] != Edit[0];
        }
      } else if j == i {
        assert r[i + 2] == Export[2] != Edit[2];
      } else if i < j + |Edit| {
        assert r[j + (i - j)] == Export[0] != Edit[i - j];
      } else if OccursAt(r, Edit, j) {
        assert OccursAt(url, Edit, j) by {
          forall k | 0 <= k < |Edit|
            ensures url[j + k] == Edit[k]
          {
            assert r[j + k] == url[j + k];
          }
        }
        assert !EditTailAt(url, j);
        var k :| j + |Edit| <= k < |url| && IsLineTerminator(url[k]);
        if i <= k {
          EditNotTerminator(url, i, k);
        }
        assert r[k] == url[k];
      }
    }
  }

  /** No line terminator sits inside a match or after it. */
  lemma EditNotTerminator(url: string, i: nat, k: nat)
    requires EditTailAt(url, i) && i <= k < |url|
    ensures !IsLineTerminator(url[k])
  {
    if k < i + |Edit| {
      assert url[i + (k - i)] == Edit[k - i];
    }
  }

  /** Rewriting an export link again leaves it alone. */
  lemma ExportUrlIdempotent(url: string)
    ensures ExportUrl(ExportUrl(url)) == ExportUrl(url)
  {
    if Contains(url, Edit) {
      var m := EditTailFrom(url, 0);
      if m.Some? {
        NoMatchAfterRewrite(url, m.value);
        var r := url[..m.value] + Export;
        assert EditTailFrom(r, 0).None?;
      }
    }
  }
}
