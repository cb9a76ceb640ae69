/**
  * Column roles and UTM value normalisation of components/Dashboard.tsx: which
  * header holds the date, status, product, revenue and UTM fields
  * (`findHeader`), and the canonical forms of `utm_source` and `utm_campaign`.
  */
module Roles {
  import opened Wrappers
  import opened Text
  import opened Seqs

  /** `h.toLowerCase() === k.toLowerCase() || h.toLowerCase().includes(k.toLowerCase())`. */
  predicate KeyMatches(h: string, k: string) {
    Lower(h) == Lower(k) || Contains(Lower(h), Lower(k))
  }

  /** Equality of the lower-case forms is already covered by containment. */
  lemma KeyMatchesIsContainment(h: string, k: string)
    ensures KeyMatches(h, k) <==> Contains(Lower(h), Lower(k))
  {
    if Lower(h) == Lower(k) {
      assert OccursAt(Lower(h), Lower(k), 0);
    }
  }

  /** `keys.some(k => KeyMatches(h, k))`. */
  predicate MatchesSomeKey(keys: seq<string>, h: string) {
    exists k :: k in keys && KeyMatches(h, k)
  }

  /**
    * `findHeader(keys, hint)`: the header at the hinted index when it exists and
    * is not empty, otherwise the first header matching one of the keys.
    */
  function FindHeader(headers: seq<string>, keys: seq<string>, hint: Option<nat>): (col: Option<string>)
    ensures hint.Some? && hint.value < |headers| && headers[hint.value] != "" ==> col == Some(headers[hint.value])
    ensures col.Some? ==> col.value in headers
  {
    if hint.Some? && hint.value < |headers| && headers[hint.value] != "" then Some(headers[hint.value])
    else
      match FindIndex(headers, h => MatchesSomeKey(keys, h))
      case None => None
      case Some(i) => Some(headers[i])
  }

  /** Without a usable hint, the search finds the first header matching a key, and only fails when none does. */
  lemma FindHeaderSearch(headers: seq<string>, keys: seq<string>, hint: Option<nat>)
    requires !(hint.Some? && hint.value < |headers| && headers[hint.value] != "")
    ensures FindHeader(headers, keys, hint).None? <==> forall j :: 0 <= j < |headers| ==> !MatchesSomeKey(keys, headers[j])
    ensures FindHeader(headers, keys, hint).Some? ==> exists i :: (0 <= i < |headers| && headers[i] == FindHeader(headers, keys, hint).value &&
      MatchesSomeKey(keys, headers[i]) && forall j :: 0 <= j < i ==> !MatchesSomeKey(keys, headers[j]))
  {
    var r := FindIndex(headers, h => MatchesSomeKey(keys, h));
    if r.Some? {
      assert headers[r.value] == FindHeader(headers, keys, hint).value;
    }
  }

  /** A header found by its keys is never empty, because no key is. */
  lemma FoundHeaderNotEmpty(headers: seq<string>, keys: seq<string>, hint: Option<nat>)
    requires forall k :: k in keys ==> k != ""
    ensures FindHeader(headers, keys, hint) != Some("")
  {
    var r := FindHeader(headers, keys, hint);
    if r.Some? && !(hint.Some? && hint.value < |headers| && headers[hint.value] != "") {
      FindHeaderSearch(headers, keys, hint);
      var i :| 0 <= i < |headers| && headers[i] == r.value && MatchesSomeKey(keys, headers[i]);
      var k :| k in keys && KeyMatches(headers[i], k);
      KeyMatchesIsContainment(headers[i], k);
      assert |Lower(k)| > 0;
    }
  }

  /** The columns the dashboard looks up, with their keys and their usual positions. */
  datatype Roles = Roles(
    data: Option<string>, status: Option<string>, produto: Option<string>, faturamento: Option<string>,
    source: Option<string>, campaign: Option<string>, content: Option<string>)

  function ResolveRoles(headers: seq<string>): (roles: Roles)
    ensures roles.data.Some? ==> roles.data.value in headers
    ensures roles.status.Some? ==> roles.status.value in headers
    ensures roles.produto.Some? ==> roles.produto.value in headers
    ensures roles.faturamento.Some? ==> roles.faturamento.value in headers
    ensures roles.source.Some? ==> roles.source.value in headers
    ensures roles.campaign.Some? ==> roles.campaign.value in headers
    ensures roles.content.Some? ==> roles.content.value in headers
  {
    Roles(
      FindHeader(headers, ["data venda", "data"], Some(1)),
      FindHeader(headers, ["status"], Some(5)),
      FindHeader(headers, ["produto"], Some(8)),
      FindHeader(headers, ["valor da venda", "valor"], Some(12)),
      FindHeader(headers, ["utm_source", "source"], Some(29)),
      FindHeader(headers, ["utm_campaign", "campanha"], Some(31)),
      FindHeader(headers, ["utm_content", "conte\U{00FA}do"], Some(33)))
  }

  /** `[colStatus, colProduto, colSource, colCampaign, colContent].filter(Boolean)`. */
  function CategoricalCols(roles: Roles): (cols: seq<string>)
    ensures |cols| <= 5
    ensures forall c :: c in cols ==> c != ""
    ensures forall c :: c in cols ==> Some(c) in [roles.status, roles.produto, roles.source, roles.campaign, roles.content]
  {
    Present(roles.status) + Present(roles.produto) + Present(roles.source) + Present(roles.campaign) + Present(roles.content)
  }

  /** A resolved, non-empty column as a one-element list. */
  function Present(col: Option<string>): (r: seq<string>)
    ensures |r| <= 1 && forall c :: c in r ==> c != "" && col == Some(c)
  {
    if col.Some? && col.value != "" then [col.value] else []
  }

  /** A categorical column is a header of the table. */
  lemma CategoricalColsAreHeaders(headers: seq<string>)
    ensures forall c :: c in CategoricalCols(ResolveRoles(headers)) ==> c in headers
  {
    var roles := ResolveRoles(headers);
  }

  /** The canonical traffic sources. */
  const Sources: set<string> := {"tiktok", "facebook", "instagram", "google", "kwai", "organic"}

  /** The lower-cased source names tiktok, facebook (or `fb`) or instagram (or `ig`). */
  predicate MentionsNetworkBeforeGoogle(s: string) {
    Contains(s, "tiktok") || Contains(s, "facebook") || Contains(s, "fb") || Contains(s, "instagram") || Contains(s, "ig")
  }

  /**
    * `cleanUTMSource`: an empty source is organic traffic; a source mentioning a
    * known network (checked in the order tiktok, facebook/fb, instagram/ig, google,
    * kwai) becomes that network's name; anything else is kept as it is.
    */
  function CleanUTMSource(val: string): (r: string)
    ensures r != ""
    ensures val == "" ==> r == "organic"
    ensures r in Sources || r == val
    ensures val != "" && Contains(Lower(val), "tiktok") ==> r == "tiktok"
    ensures (val != "" && !Contains(Lower(val), "tiktok")
             && (Contains(Lower(val), "facebook") || Contains(Lower(val), "fb"))) ==> r == "facebook"
    ensures (val != "" && !Contains(Lower(val), "tiktok") && !Contains(Lower(val), "facebook") && !Contains(Lower(val), "fb")
             && (Contains(Lower(val), "instagram") || Contains(Lower(val), "ig"))) ==> r == "instagram"
    ensures val != "" && !MentionsNetworkBeforeGoogle(Lower(val)) && Contains(Lower(val), "google") ==> r == "google"
    ensures (val != "" && !MentionsNetworkBeforeGoogle(Lower(val)) && !Contains(Lower(val), "google")
             && Contains(Lower(val), "kwai")) ==> r == "kwai"
    ensures (val != "" && !MentionsNetworkBeforeGoogle(Lower(val)) && !Contains(Lower(val), "google")
             && !Contains(Lower(val), "kwai")) ==> r == val
  {
    if val == "" then "organic"
    else
      var s := Lower(val);
      if Contains(s, "tiktok") then "tiktok"
      else if Contains(s, "facebook") || Contains(s, "fb") then "facebook"
      else if Contains(s, "instagram") || Contains(s, "ig") then "instagram"
      else if Contains(s, "google") then "google"
      else if Contains(s, "kwai") then "kwai"
      else val
  }

  /** Text already in lower case is its own lower case. */
  lemma LowerOfLower(s: string)
    requires forall i :: 0 <= i < |s| ==> 'a' <= s[i] <= 'z'
    ensures Lower(s) == s
  {
  }

  /** `sub` does not occur in `s` when one of its characters is missing from `s`. */
  lemma MissingChar(s: string, sub: string, c: char)
    requires c in sub && c !in s
    ensures !Contains(s, sub)
  {
    var k :| 0 <= k < |sub| && sub[k] == c;
    forall j | 0 <= j <= |s|
      ensures !OccursAt(s, sub, j)
    {
      if j + |sub| <= |s| {
        assert s[j + k] in s;
      }
    }
  }

  /** `sub` does not occur in `s` when no position of `s` holds its first two characters in a row. */
  lemma MissingPair(s: string, sub: string)
    requires |sub| >= 2
    requires forall j :: 0 <= j < |s| - 1 ==> !(s[j] == sub[0] && s[j + 1] == sub[1])
    ensures !Contains(s, sub)
  {
    forall j | 0 <= j <= |s|
      ensures !OccursAt(s, sub, j)
    {
      if j + |sub| <= |s| {
        assert !(s[j] == sub[0] && s[j + 1] == sub[1]);
        assert s[j + 0] == s[j];
      }
    }
  }

  /** Every text contains itself. */
  lemma ContainsSelf(s: string)
    ensures Contains(s, s)
  {
    assert OccursAt(s, s, 0);
  }

  /** `tiktok` is cleaned to itself. */
  lemma SourceTiktokFixed(w: string)
    requires w == "tiktok"
    ensures CleanUTMSource(w) == w
  {
    LowerOfLower(w);
    ContainsSelf(w);
  }

  /** The aliases checked before `facebook` do not occur in it. */
  lemma FacebookMisses(w: string)
    requires w == "facebook"
    ensures !Contains(w, "tiktok")
  {
    MissingChar(w, "tiktok", 't');
  }

  /** `facebook` is cleaned to itself. */
  lemma SourceFacebookFixed(w: string)
    requires w == "facebook"
    ensures CleanUTMSource(w) == w
  {
    LowerOfLower(w);
    FacebookMisses(w);
    ContainsSelf(w);
  }

  /** The aliases checked before `instagram` do not occur in it. */
  lemma InstagramMisses(w: string)
    requires w == "instagram"
    ensures !Contains(w, "tiktok") && !Contains(w, "facebook") && !Contains(w, "fb")
  {
    MissingChar(w, "tiktok", 'k');
    MissingChar(w, "facebook", 'f');
    MissingChar(w, "fb", 'f');
  }

  /** `instagram` is cleaned to itself. */
  lemma SourceInstagramFixed(w: string)
    requires w == "instagram"
    ensures CleanUTMSource(w) == w
  {
    LowerOfLower(w);
    InstagramMisses(w);
    ContainsSelf(w);
  }

  /** The aliases checked before `google` do not occur in it. */
  lemma GoogleMisses(w: string)
    requires w == "google"
    ensures !Contains(w, "tiktok") && !Contains(w, "facebook") && !Contains(w, "fb") && !Contains(w, "instagram") && !Contains(w, "ig")
  {
    MissingChar(w, "tiktok", 't');
    MissingChar(w, "facebook", 'f');
    MissingChar(w, "fb", 'f');
    MissingChar(w, "instagram", 'i');
    MissingChar(w, "ig", 'i');
  }

  /** `google` is cleaned to itself. */
  lemma SourceGoogleFixed(w: string)
    requires w == "google"
    ensures CleanUTMSource(w) == w
  {
    LowerOfLower(w);
    GoogleMisses(w);
    ContainsSelf(w);
  }

  /** The aliases checked before `kwai` do not occur in it. */
  lemma KwaiMisses(w: string)
    requires w == "kwai"
    ensures !Contains(w, "tiktok") && !Contains(w, "facebook") && !Contains(w, "fb") && !Contains(w, "instagram") && !Contains(w, "ig") && !Contains(w, "google")
  {
    MissingChar(w, "tiktok", 't');
    MissingChar(w, "facebook", 'f');
    MissingChar(w, "fb", 'f');
    MissingChar(w, "instagram", 'n');
    MissingChar(w, "ig", 'g');
    MissingChar(w, "google", 'g');
  }

  /** `kwai` is cleaned to itself. */
  lemma SourceKwaiFixed(w: string)
    requires w == "kwai"
    ensures CleanUTMSource(w) == w
  {
    LowerOfLower(w);
    KwaiMisses(w);
    ContainsSelf(w);
  }

  /** The first aliases do not occur in `organic`. */
  lemma OrganicMisses(w: string)
    requires w == "organic"
    ensures !Contains(w, "tiktok") && !Contains(w, "facebook") && !Contains(w, "fb")
  {
    MissingChar(w, "tiktok", 't');
    MissingChar(w, "facebook", 'f');
    MissingChar(w, "fb", 'f');
  }

  /** Nor do the later names. */
  lemma OrganicMissesLater(w: string)
    requires w == "organic"
    ensures !Contains(w, "instagram") && !Contains(w, "google") && !Contains(w, "kwai")
  {
    MissingChar(w, "instagram", 's');
    MissingChar(w, "google", 'l');
    MissingChar(w, "kwai", 'k');
  }

  /** `organic` holds both `i` and `g`, but never next to each other. */
  lemma OrganicMissesIg(w: string)
    requires w == "organic"
    ensures !Contains(w, "ig")
  {
    MissingPair(w, "ig");
  }

  /** `organic` is cleaned to itself. */
  lemma SourceOrganicFixed(w: string)
    requires w == "organic"
    ensures CleanUTMSource(w) == w
  {
    LowerOfLower(w);
    OrganicMisses(w);
    OrganicMissesLater(w);
    OrganicMissesIg(w);
  }

  /** Cleaning a cleaned source changes nothing. */
  lemma CleanUTMSourceIdempotent(val: string)
    ensures CleanUTMSource(CleanUTMSource(val)) == CleanUTMSource(val)
  {
    var r := CleanUTMSource(val);
    if r == "tiktok" { SourceTiktokFixed(r); }
    else if r == "facebook" { SourceFacebookFixed(r); }
    else if r == "instagram" { SourceInstagramFixed(r); }
    else if r == "google" { SourceGoogleFixed(r); }
    else if r == "kwai" { SourceKwaiFixed(r); }
    else if r == "organic" { SourceOrganicFixed(r); }
  }

  /**
    * `cleanUTMCampaign`: an empty campaign is `n/a`; otherwise the part before the
    * first `|`, trimmed.
    */
  function CleanUTMCampaign(val: string): (r: string)
    ensures val == "" ==> r == "n/a"
    ensures val != "" ==> '|' !in r
    ensures val != "" ==> r == Trim(val[..FindChar(val, '|')])
  {
    if val == "" then "n/a"
    else
      var first := SplitOn(val, '|')[0];
      assert first == val[..FindChar(val, '|')];
      TrimChars(first);
      Trim(first)
  }

  /** A campaign name that cleaning left non-empty is cleaned to itself. */
  lemma CleanUTMCampaignIdempotent(val: string)
    requires CleanUTMCampaign(val) != ""
    ensures CleanUTMCampaign(CleanUTMCampaign(val)) == CleanUTMCampaign(val)
  {
    var r := CleanUTMCampaign(val);
    if val != "" {
      assert FindChar(r, '|') == |r|;
      assert r[..|r|] == r;
      TrimIdempotent(val[..FindChar(val, '|')]);
    }
  }

  /** A campaign without `|` is only trimmed. */
  lemma CampaignWithoutBar(val: string)
    requires val != "" && '|' !in val
    ensures CleanUTMCampaign(val) == Trim(val)
  {
    assert FindChar(val, '|') == |val|;
    assert val[..|val|] == val;
  }
}
