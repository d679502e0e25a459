/**
 Host names: labels, subdomains, the base domain of a host, and the mapping of same-site URLs to their paths.
 A label is a maximal run of characters other than dots.
 */
module Hosts {
  import opened Strings
  import opened UrlParser
  import opened Wrappers

  // ----- Labels -----

  predicate IsLabel(host: string, i: int, j: int) {
    && 0 <= i < j <= |host|
    && (forall k :: i <= k < j ==> host[k] != '.')
    && (i == 0 || host[i - 1] == '.')
    && (j == |host| || host[j] == '.')
  }

  predicate IsMatch(host: string, lbl: string, i: int, j: int) {
    IsLabel(host, i, j) && EqIgnoreAsciiCase(host[i..j], lbl)
  }

  /** Some label of the host equals the trimmed one, ignoring ASCII case. */
  predicate HasLabel(host: string, lbl: string) {
    exists i, j :: 0 <= i < j <= |host| && IsMatch(host, TrimDots(lbl), i, j)
  }

  lemma TrimKeepsLabels(host: string, lbl: string, i: int, j: int)
    ensures IsMatch(host, lbl, i, j) <==> IsMatch(TrimEndDots(host), lbl, i, j)
  {
    var h := TrimEndDots(host);
    assert forall k :: 0 <= k < |h| ==> h[k] == host[k];
    if IsLabel(host, i, j) {
      assert host[j - 1] != '.';
      assert host[i..j] == h[i..j];
    }
    if IsLabel(h, i, j) {
      assert host[i..j] == h[i..j];
    }
  }

  /** No match starts before `start`, which is the end, or the first character of a label. */
  ghost predicate ScannedTo(host: string, lbl: string, start: int) {
    && 0 <= start
    && (start < |host| ==> host[start] != '.' && (start == 0 || host[start - 1] == '.'))
    && forall i, j :: 0 <= i < start ==> !IsMatch(host, lbl, i, j)
  }

  /** Labels do not overlap. */
  lemma SameLabel(host: string, i: int, j: int, k: int, n: int)
    requires IsLabel(host, i, j) && IsLabel(host, k, n)
    ensures k < j && i < n ==> i == k && j == n
    ensures host[k] != '.'
  {
  }

  lemma ScanLabel(host: string, lbl: string, start: int, end: int, next: int)
    requires ScannedTo(host, lbl, start) && IsLabel(host, start, end)
    requires end - start != |lbl| || !EqIgnoreAsciiCase(host[start..end], lbl)
    requires end <= next && (forall k :: end + 1 <= k < next && k < |host| ==> host[k] == '.')
    requires next < |host| ==> host[next] != '.'
    ensures ScannedTo(host, lbl, next)
  {
    forall i, j | 0 <= i < next ensures !IsMatch(host, lbl, i, j) {
      if IsLabel(host, i, j) && start <= i {
        SameLabel(host, start, end, i, j);
      }
    }
  }

  lemma NothingScanned(host: string, lbl: string, start: int)
    requires 0 <= start <= |host| && (forall k :: 0 <= k < start ==> host[k] == '.')
    requires start < |host| ==> host[start] != '.'
    ensures ScannedTo(host, lbl, start)
  {
    forall i, j | 0 <= i < start ensures !IsMatch(host, lbl, i, j) {
      if IsLabel(host, i, j) {
        SameLabel(host, i, j, i, j);
      }
    }
  }

  /** Skips a run of dots. */
  method SkipDots(host: string, from: nat) returns (start: nat)
    ensures from <= start && (forall k :: from <= k < start && k < |host| ==> host[k] == '.')
    ensures start < |host| ==> host[start] != '.'
    ensures from <= |host| ==> start <= |host|
  {
    start := from;
    while start < |host| && host[start] == '.'
      invariant from <= start && (from <= |host| ==> start <= |host|)
      invariant forall k :: from <= k < start && k < |host| ==> host[k] == '.'
    {
      start := start + 1;
    }
  }

  /** The end of the label that starts at `start`: the next dot, or the end of the host. */
  function LabelEnd(host: string, start: nat): (end: nat)
    requires start < |host| && host[start] != '.' && (start == 0 || host[start - 1] == '.')
    ensures start < end <= |host| && IsLabel(host, start, end)
  {
    var dot := IndexOf(host[start..], '.');
    var end := if dot.Some? then start + dot.value else |host|;
    assert forall k :: start <= k < end ==> host[k] == host[start..][k - start];
    end
  }

  lemma LabelFound(host: string, lbl: string, i: int, j: int)
    requires IsLabel(TrimEndDots(host), i, j) && EqIgnoreAsciiCase(TrimEndDots(host)[i..j], TrimDots(lbl))
    ensures HasLabel(host, lbl)
  {
    hide EqIgnoreAsciiCase;
    TrimKeepsLabels(host, TrimDots(lbl), i, j);
  }

  /** The search that jumps from dot to dot. */
  method HostContainsLabelIcase(host: string, lbl: string) returns (found: bool)
    ensures found <==> HasLabel(host, lbl)
  {
    hide HasLabel, IsLabel, IsMatch, EqIgnoreAsciiCase;
    var h, l := TrimEndDots(host), TrimDots(lbl);
    if h == [] || l == [] {
      NoLabelIn(host, lbl, 0);
      return false;
    }
    var start := SkipDots(h, 0);
    NothingScanned(h, l, start);
    while start < |h|
      invariant ScannedTo(h, l, start)
      decreases |h| - start
    {
      var end := LabelEnd(h, start);
      if end - start == |l| && EqIgnoreAsciiCase(h[start..end], l) {
        LabelFound(host, lbl, start, end);
        return true;
      }
      var next := SkipDots(h, end + 1);
      ScanLabel(h, l, start, end, next);
      start := next;
    }
    NoLabelIn(host, lbl, start);
    found := false;
  }

  /** Walks to the end of the label that starts at `start`. */
  method WalkLabel(host: string, start: nat) returns (end: nat)
    requires start < |host| && host[start] != '.' && (start == 0 || host[start - 1] == '.')
    ensures start < end <= |host| && IsLabel(host, start, end)
  {
    end := start;
    while end < |host| && host[end] != '.'
      invariant start <= end <= |host|
      invariant forall k :: start <= k < end ==> host[k] != '.'
    {
      end := end + 1;
    }
  }

  /** The search that walks every character. */
  method HostContainsLabelByScan(host: string, lbl: string) returns (found: bool)
    ensures found <==> HasLabel(host, lbl)
  {
    hide HasLabel, IsLabel, IsMatch, EqIgnoreAsciiCase;
    var h, l := TrimEndDots(host), TrimDots(lbl);
    if h == [] || l == [] {
      NoLabelIn(host, lbl, 0);
      return false;
    }
    var i := SkipDots(h, 0);
    NothingScanned(h, l, i);
    while i < |h|
      invariant ScannedTo(h, l, i)
      decreases |h| - i
    {
      var start := i;
      var end := WalkLabel(h, start);
      if end - start == |l| && EqIgnoreAsciiCase(h[start..end], l) {
        LabelFound(host, lbl, start, end);
        return true;
      }
      i := SkipDots(h, end);
      ScanLabel(h, l, start, end, i);
    }
    NoLabelIn(host, lbl, i);
    found := false;
  }

  lemma NoMatch(h: string, lbl: string, start: int, i: int, j: int)
    requires h == [] || lbl == [] || (|h| <= start && ScannedTo(h, lbl, start))
    ensures !IsMatch(h, lbl, i, j)
  {
  }

  lemma NoLabelIn(host: string, lbl: string, start: int)
    requires var h, l := TrimEndDots(host), TrimDots(lbl);
      h == [] || l == [] || (|h| <= start && ScannedTo(h, l, start))
    ensures !HasLabel(host, lbl)
  {
    hide IsMatch, ScannedTo;
    var h, l := TrimEndDots(host), TrimDots(lbl);
    forall i, j | 0 <= i < j <= |host| ensures !IsMatch(host, l, i, j) {
      NoMatch(h, l, start, i, j);
      TrimKeepsLabels(host, l, i, j);
    }
  }

  function FirstLabel(host: string): string {
    var h := TrimEndDots(host);
    match IndexOf(h, '.')
    case Some(i) => h[..i]
    case None => h
  }

  /** The first label of a host is its label at the front, and is empty only if there is none there. */
  lemma FirstLabelIsLabel(host: string)
    ensures var l := FirstLabel(host); l <= host && if l == [] then !IsLabelStart(host) else IsLabel(host, 0, |l|)
  {
    var h := TrimEndDots(host);
    assert forall k :: 0 <= k < |h| ==> h[k] == host[k];
  }

  predicate IsLabelStart(host: string) {
    host != [] && host[0] != '.'
  }

  // ----- Subdomains -----

  predicate EndsWithIgnoreAsciiCase(hay: string, suffix: string) {
    |suffix| <= |hay| && EqIgnoreAsciiCase(hay[|hay| - |suffix|..], suffix)
  }

  predicate HostIsSubdomainOf(host: string, base: string) {
    var h, b := TrimEndDots(host), TrimEndDots(base);
    if b == [] then false
    else if EqIgnoreAsciiCase(h, b) then true
    else if |h| <= |b| then false
    else h[|h| - |b| - 1] == '.' && EndsWithIgnoreAsciiCase(h, b)
  }

  /** `h` is `b`, or ends in `b` behind a dot. */
  predicate Under(h: string, b: string) {
    EqIgnoreAsciiCase(h, b) || (|b| < |h| && h[|h| - |b| - 1] == '.' && EndsWithIgnoreAsciiCase(h, b))
  }

  /** Subdomain means: equal to a non-empty base or, behind some prefix and a dot, ending in it; case is ignored. */
  lemma SubdomainIff(host: string, base: string)
    ensures var h, b := TrimEndDots(host), TrimEndDots(base);
      HostIsSubdomainOf(host, base) <==>
        b != [] && (EqIgnoreAsciiCase(h, b) || exists n :: 0 <= n <= |h| && IsDottedSuffix(h, n, b))
  {
    var h, b := TrimEndDots(host), TrimEndDots(base);
    hide EqIgnoreAsciiCase;
    if b != [] && |b| < |h| && h[|h| - |b| - 1] == '.' && EndsWithIgnoreAsciiCase(h, b) {
      assert IsDottedSuffix(h, |h| - |b|, b);
    }
  }

  predicate IsDottedSuffix(h: string, n: nat, b: string) {
    0 < n && n + |b| == |h| && h[n - 1] == '.' && EqIgnoreAsciiCase(h[n..], b)
  }

  lemma UnderAt(h: string, b: string, i: nat)
    requires Under(h, b) && i < |b|
    ensures |b| <= |h| && Lower(h[|h| - |b| + i]) == Lower(b[i])
  {
    if !EqIgnoreAsciiCase(h, b) {
      assert h[|h| - |b|..][i] == h[|h| - |b| + i];
    }
  }

  lemma UnderTransitive(h: string, b: string, c: string)
    requires Under(h, b) && Under(b, c)
    ensures Under(h, c)
  {
    forall i | 0 <= i < |c| ensures |c| <= |h| && Lower(h[|h| - |c|..][i]) == Lower(c[i]) {
      UnderAt(b, c, i);
      UnderAt(h, b, |b| - |c| + i);
    }
    if |c| < |b| {
      UnderAt(h, b, |b| - |c| - 1);
    }
  }

  lemma SubdomainIsUnder(host: string, base: string)
    ensures HostIsSubdomainOf(host, base) <==> TrimEndDots(base) != [] && Under(TrimEndDots(host), TrimEndDots(base))
  {
    hide EqIgnoreAsciiCase;
  }

  /** A subdomain of a subdomain is a subdomain. */
  lemma SubdomainIsTransitive(host: string, middle: string, base: string)
    requires HostIsSubdomainOf(host, middle) && HostIsSubdomainOf(middle, base)
    ensures HostIsSubdomainOf(host, base)
  {
    SubdomainIsUnder(host, middle);
    SubdomainIsUnder(middle, base);
    SubdomainIsUnder(host, base);
    UnderTransitive(TrimEndDots(host), TrimEndDots(middle), TrimEndDots(base));
  }

  // ----- The base domain -----

  const COMMON_SUBDOMAIN_LABELS: set<string> := {
    "www", "m", "amp", "api", "cdn", "static", "assets", "img", "images", "media", "files",
    "login", "auth", "sso", "id", "account", "accounts",
    "app", "apps", "dashboard", "admin", "portal", "console",
    "status", "support", "help", "docs", "blog",
    "dev", "staging", "stage", "test", "qa", "uat", "beta", "alpha", "preview", "demo", "sandbox",
    "uploads", "download", "storage", "origin", "edge", "cache",
    "mail", "email", "smtp", "mx", "webmail",
    "graphql", "rpc", "ws"
  }

  const COMMON_CC_SLDS: set<string> := {
    "co", "ac", "go", "or", "ne", "ed", "gr", "lg", "ad",
    "com", "net", "org", "gov", "edu", "mil", "nic", "sch", "gob", "gouv"
  }

  predicate IsCommonSubdomainLabel(lbl: string) {
    lbl != [] && ToLower(lbl) in COMMON_SUBDOMAIN_LABELS
  }

  predicate IsCommonCcSld(sld: string) {
    ToLower(sld) in COMMON_CC_SLDS
  }

  /** The host without its trailing dots and a leading "www." or "m.". */
  function Unprefixed(host: string): string {
    StripPrefix(StripPrefix(TrimEndDots(host), "www."), "m.")
  }

  /** Where the last two labels start, or three behind a country-code second level; none with fewer than two dots. */
  function SiteStart(h: string): (r: Option<nat>)
    ensures r.Some? ==> 0 < r.value <= |h| && h[r.value - 1] == '.'
  {
    match LastIndexOf(h, '.')
    case None => None
    case Some(lastDot) =>
      match LastIndexOf(h[..lastDot], '.')
      case None => None
      case Some(prevDot) =>
        if |h| - lastDot - 1 == 2 && IsCommonCcSld(h[prevDot + 1..lastDot]) && LastIndexOf(h[..prevDot], '.').Some?
        then Some(LastIndexOf(h[..prevDot], '.').value + 1)
        else Some(prevDot + 1)
  }

  /** Where the label in front of the dot before `start` starts. */
  function LabelBefore(h: string, start: nat): (r: nat)
    requires 0 < start <= |h|
    ensures r < start && (r == 0 || h[r - 1] == '.')
  {
    match LastIndexOf(h[..start - 1], '.')
    case Some(p) => p + 1
    case None => 0
  }

  /** One more label than the site's is kept when it looks like a tenant of the site. */
  function BaseOf(h: string): string {
    match SiteStart(h)
    case None => h
    case Some(start) =>
      var tenant := LabelBefore(h, start);
      var lbl := h[tenant..start - 1];
      if lbl != [] && !IsCommonSubdomainLabel(lbl) then h[tenant..] else h[start..]
  }

  function BaseDomain(host: string): string {
    BaseOf(Unprefixed(host))
  }

  method StripCommonPrefixes(host: string) returns (h: string)
    ensures h == Unprefixed(host)
  {
    h := TrimEndDots(host);
    if "www." <= h {
      h := h[4..];
    }
    if "m." <= h {
      h := h[2..];
    }
  }

  method BaseDomainFromHost(host: string) returns (r: string)
    ensures r == BaseDomain(host)
  {
    hide Unprefixed, SiteStart, LabelBefore, IsCommonSubdomainLabel;
    var h := StripCommonPrefixes(host);
    var base := SiteOf(h);
    if base.None? {
      return h;
    }
    ghost var start := SiteStart(h).value;
    assert |h| - |base.value| == start;
    r := KeepTenant(h, base.value);
  }

  /** The last two labels, or three behind a country-code second level. */
  method SiteOf(h: string) returns (site: Option<string>)
    ensures SiteStart(h).None? ==> site.None?
    ensures SiteStart(h).Some? ==> site == Some(h[SiteStart(h).value..])
  {
    hide IsCommonCcSld;
    var lastDot := LastIndexOf(h, '.');
    if lastDot.None? {
      return None;
    }
    var prevDot := LastIndexOf(h[..lastDot.value], '.');
    if prevDot.None? {
      return None;
    }
    var tld, sld := h[lastDot.value + 1..], h[prevDot.value + 1..lastDot.value];
    var base := h[prevDot.value + 1..];
    if |tld| == 2 && IsCommonCcSld(sld) {
      var prev2Dot := LastIndexOf(h[..prevDot.value], '.');
      if prev2Dot.Some? {
        base := h[prev2Dot.value + 1..];
      }
    }
    site := Some(base);
  }

  /** The label in front of the base is kept unless it is empty or a common one. */
  method KeepTenant(h: string, base: string) returns (r: string)
    requires |base| < |h| && base == h[|h| - |base|..] && h[|h| - |base| - 1] == '.'
    ensures var start := |h| - |base|;
      var tenant := LabelBefore(h, start);
      var lbl := h[tenant..start - 1];
      r == if lbl != [] && !IsCommonSubdomainLabel(lbl) then h[tenant..] else base
  {
    hide IsCommonSubdomainLabel;
    if |h| > |base| + 1 {
      var boundary := |h| - |base| - 1;
      if h[boundary] == '.' {
        var left := h[..boundary];
        var dot := LastIndexOf(left, '.');
        var lblStart := if dot.Some? then dot.value + 1 else 0;
        var lbl := left[lblStart..];
        if lbl != [] && !IsCommonSubdomainLabel(lbl) {
          return h[lblStart..];
        }
      }
    }
    r := base;
  }

  /** `s` is `h` or what follows one of its dots. */
  predicate IsDomainSuffix(s: string, h: string) {
    |s| <= |h| && h[|h| - |s|..] == s && (|s| == |h| || h[|h| - |s| - 1] == '.')
  }

  lemma StripIsDomainSuffix(h: string, prefix: string)
    requires h != [] && h[|h| - 1] != '.' && prefix != [] && prefix[|prefix| - 1] == '.'
    ensures var s := StripPrefix(h, prefix); IsDomainSuffix(s, h) && s != [] && s[|s| - 1] != '.'
  {
    if prefix <= h {
      assert h[|prefix| - 1] == '.';
    }
  }

  lemma SuffixTransitive(s: string, t: string, h: string)
    requires IsDomainSuffix(s, t) && IsDomainSuffix(t, h)
    ensures IsDomainSuffix(s, h)
  {
    assert h[|h| - |s|..] == t[|t| - |s|..];
    assert |s| < |t| ==> h[|h| - |s| - 1] == t[|t| - |s| - 1];
  }

  lemma UnprefixedIsSuffix(host: string)
    requires TrimEndDots(host) != []
    ensures var h := Unprefixed(host); IsDomainSuffix(h, TrimEndDots(host)) && h != [] && h[|h| - 1] != '.'
  {
    var h := TrimEndDots(host);
    StripIsDomainSuffix(h, "www.");
    StripIsDomainSuffix(StripPrefix(h, "www."), "m.");
    SuffixTransitive(Unprefixed(host), StripPrefix(h, "www."), h);
  }

  lemma SiteIsSuffix(h: string)
    requires h != [] && h[|h| - 1] != '.'
    ensures SiteStart(h).Some? ==>
      var start := SiteStart(h).value;
      start < |h| && IsDomainSuffix(h[start..], h) && IsDomainSuffix(h[LabelBefore(h, start)..], h)
  {
    hide IsCommonCcSld;
  }

  /** Some character is not a dot. */
  predicate HasNonDot(host: string) {
    exists i :: 0 <= i < |host| && host[i] != '.'
  }

  lemma BaseOfIsSuffix(h: string)
    requires h != [] && h[|h| - 1] != '.'
    ensures IsDomainSuffix(BaseOf(h), h) && BaseOf(h) != []
  {
    SiteIsSuffix(h);
    hide SiteStart, LabelBefore, IsCommonSubdomainLabel;
  }

  /**
   The base domain of a host with a character other than a dot is a non-empty suffix of it that starts at a label
   boundary and ends in no dot.
   */
  lemma BaseDomainIsSuffix(host: string)
    ensures var base := BaseDomain(host);
      && IsDomainSuffix(base, TrimEndDots(host)) && TrimEndDots(base) == base
      && (base != [] <==> HasNonDot(host))
  {
    var h := TrimEndDots(host);
    if h == [] {
      BaseDomainOfDots(host);
    } else {
      assert host[|h| - 1] != '.';
      UnprefixedIsSuffix(host);
      hide BaseOf, Unprefixed;
      BaseOfIsSuffix(Unprefixed(host));
      SuffixTransitive(BaseDomain(host), Unprefixed(host), h);
      SuffixIsTrimmed(BaseDomain(host), h);
    }
  }

  lemma BaseDomainOfDots(host: string)
    requires TrimEndDots(host) == []
    ensures BaseDomain(host) == []
  {
    assert Unprefixed(host) == [];
    hide Unprefixed;
    assert SiteStart([]) == None;
  }

  lemma SuffixIsTrimmed(s: string, h: string)
    requires IsDomainSuffix(s, h) && h != [] && h[|h| - 1] != '.'
    ensures TrimEndDots(s) == s
  {
    if s != [] {
      assert s[|s| - 1] == h[|h| - 1];
    }
  }

  // ----- Same-site URLs -----

  lemma SuffixIsSubdomain(host: string, base: string)
    requires IsDomainSuffix(base, TrimEndDots(host)) && base != [] && TrimEndDots(base) == base
    ensures HostIsSubdomainOf(host, base)
  {
  }

  /** `rel_for_ignore_script`: the path of a URL of the same site, any other URL as it is. */
  function RelForIgnoreScript(main: string, url: string): string {
    if "/" <= url then url
    else
      var base := TrimEndDots(BaseDomain(TrimEndDots(main)));
      if base == [] then url
      else
        match HostAndRest(url)
        case None => url
        case Some((host, rest)) =>
          if HostIsSubdomainOf(host, base) || HasLabel(host, FirstLabel(base)) then PathOf(rest) else url
  }

  function PathOf(rest: string): string {
    if "/" <= rest then rest else "/"
  }

  lemma TrimIsIdempotent(host: string)
    ensures TrimEndDots(TrimEndDots(host)) == TrimEndDots(host)
  {
  }

  /**
   Every URL that does not start with a slash and whose host is the page's own, or a subdomain of it, becomes its path,
   or "/" where it has none.
   */
  lemma OwnHostBecomesPath(main: string, u: Url)
    requires WellFormed(u) && !("/" <= Print(u)) && HostIsSubdomainOf(HostText(u.host), main)
    ensures RelForIgnoreScript(main, Print(u)) == PathOf(u.rest)
  {
    var trimmed := TrimEndDots(main);
    var base := BaseDomain(trimmed);
    ParsePrinted(u);
    TrimIsIdempotent(main);
    BaseDomainIsSuffix(trimmed);
    assert trimmed[|trimmed| - 1] != '.';
    hide BaseDomain, Print, WellFormed;
    SuffixIsSubdomain(main, base);
    SubdomainIsTransitive(HostText(u.host), main, base);
  }

  /** A host is a subdomain of itself and of its base domain if and only if it has a character other than a dot. */
  lemma SubdomainOfBaseIff(host: string)
    ensures HostIsSubdomainOf(host, host) <==> HasNonDot(host)
    ensures HostIsSubdomainOf(host, BaseDomain(host)) <==> HasNonDot(host)
  {
    var h := TrimEndDots(host);
    if h != [] {
      assert host[|h| - 1] != '.';
    }
    BaseDomainIsSuffix(host);
    hide BaseDomain;
    if BaseDomain(host) != [] {
      SuffixIsSubdomain(host, BaseDomain(host));
    }
  }

  /** The page's own URLs become their paths. */
  lemma OwnUrlBecomesPath(u: Url)
    requires WellFormed(u) && !("/" <= Print(u)) && HasNonDot(HostText(u.host))
    ensures RelForIgnoreScript(HostText(u.host), Print(u)) == PathOf(u.rest)
  {
    hide WellFormed, Print, RelForIgnoreScript, HostIsSubdomainOf, BaseDomain;
    SubdomainOfBaseIff(HostText(u.host));
    OwnHostBecomesPath(HostText(u.host), u);
  }

  /** What becomes of a URL given by its components: its path if it is of the same site or carries the brand label. */
  lemma RelOfPrinted(main: string, u: Url)
    requires WellFormed(u) && !("/" <= Print(u))
    ensures var base := TrimEndDots(BaseDomain(TrimEndDots(main)));
      var sameSite := HostIsSubdomainOf(HostText(u.host), base) || HasLabel(HostText(u.host), FirstLabel(base));
      RelForIgnoreScript(main, Print(u)) == if base != [] && sameSite then PathOf(u.rest) else Print(u)
  {
    ParsePrinted(u);
    hide BaseDomain, HostAndRest, HasLabel, HostIsSubdomainOf, Print, WellFormed, FirstLabel, TrimEndDots, PathOf;
  }

  /** What is mapped once stays as it is. */
  lemma RelIsIdempotent(main: string, url: string)
    ensures var rel := RelForIgnoreScript(main, url);
      RelForIgnoreScript(main, rel) == rel && (rel == url || "/" <= rel)
  {
    hide BaseDomain, HostAndRest, HasLabel, HostIsSubdomainOf;
  }

  /**
   A host of two labels is its own base domain unless the first is "www" or "m": that one is stripped first, which
   leaves the bare last label, and every host under that label counts as the same site.
   */
  lemma TwoLabelsKeptIff(first: string, last: string)
    requires first != [] && last != [] && Without(first, '.') && Without(last, '.')
    ensures var host := first + "." + last;
      && BaseDomain(host) == (if first == "www" || first == "m" then last else host)
      && (BaseDomain(host) == host <==> first != "www" && first != "m")
  {
    var host := first + "." + last;
    assert host[|host| - 1] == last[|last| - 1];
    assert TrimEndDots(host) == host;
    TwoLabelsStripped(first, last);
    hide Unprefixed, IsCommonSubdomainLabel, IsCommonCcSld;
    if first == "www" || first == "m" {
      NowhereIs(last, '.');
    } else {
      LastIs(host, '.', |first|);
      assert host[..|first|] == first;
      NowhereIs(first, '.');
    }
  }

  lemma PrefixShowsLast(prefix: string, s: string)
    requires prefix != []
    ensures prefix <= s ==> s[|prefix| - 1] == prefix[|prefix| - 1]
  {
  }

  lemma TwoLabelsStripped(first: string, last: string)
    requires first != [] && last != [] && Without(first, '.') && Without(last, '.')
    ensures Unprefixed(first + "." + last) == if first == "www" || first == "m" then last else first + "." + last
  {
    var host := first + "." + last;
    assert host[|host| - 1] == last[|last| - 1];
    assert TrimEndDots(host) == host;
    DotFreePrefix(first, last, "www");
    DotFreePrefix(first, last, "m");
    if first == "www" {
      assert host[4..] == last;
      PrefixShowsLast("m.", last);
    } else if first == "m" {
      assert host[2..] == last;
    }
  }

  lemma DotFreePrefix(first: string, last: string, name: string)
    requires Without(first, '.') && Without(last, '.') && Without(name, '.')
    ensures name + "." <= first + "." + last <==> first == name
  {
    var host, prefix := first + "." + last, name + ".";
    FirstIs(host, '.', |first|);
    if prefix <= host {
      assert forall i :: 0 <= i < |prefix| ==> host[i] == prefix[i];
      FirstIs(host, '.', |name|);
      assert host[..|name|] == name && host[..|first|] == first;
    }
  }
}
