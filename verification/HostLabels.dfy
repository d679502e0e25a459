/**
 The base domain in terms of labels. A host is split at every dot; the base domain keeps a number of its last labels
 that depends only on the labels themselves.
 */
module HostLabels {
  import opened Hosts
  import opened Strings
  import opened Wrappers

  /** The pieces between the dots, empty ones included. */
  function Labels(h: string): (ls: seq<string>)
    ensures |ls| > 0
    decreases |h|
  {
    match LastIndexOf(h, '.')
    case None => [h]
    case Some(p) => Labels(h[..p]) + [h[p + 1..]]
  }

  /** The labels without a leading "www" and then a leading "m", each only if something follows. */
  function DropCommonPrefixes(ls: seq<string>): seq<string> {
    DropFirst(DropFirst(ls, "www"), "m")
  }

  function DropFirst(ls: seq<string>, name: string): seq<string> {
    if |ls| >= 2 && ls[0] == name then ls[1..] else ls
  }

  /** The labels of the site: the last two, or the last three of at least four behind a country-code second level. */
  function SiteCount(ls: seq<string>): nat
    requires |ls| >= 3
  {
    if |ls| >= 4 && |ls[|ls| - 1]| == 2 && IsCommonCcSld(ls[|ls| - 2]) then 3 else 2
  }

  /** How many of the last labels are the base domain: one more than the site's for what looks like a tenant. */
  function BaseCount(ls: seq<string>): (n: nat)
    ensures n <= |ls|
  {
    if |ls| < 3 then |ls|
    else
      var n := SiteCount(ls);
      var lbl := ls[|ls| - n - 1];
      if lbl != [] && !IsCommonSubdomainLabel(lbl) then n + 1 else n
  }

  function LastLabels(ls: seq<string>, n: nat): seq<string>
    requires n <= |ls|
  {
    ls[|ls| - n..]
  }

  // ----- Splitting at a dot -----

  lemma LabelsAtLastDot(h: string, p: nat)
    requires p < |h| && h[p] == '.' && forall j :: p < j < |h| ==> h[j] != '.'
    ensures Labels(h) == Labels(h[..p]) + [h[p + 1..]]
  {
    LastIs(h, '.', p);
  }

  lemma {:induction false} LabelsAtDot(h: string, d: nat)
    requires d < |h| && h[d] == '.'
    ensures Labels(h) == Labels(h[..d]) + Labels(h[d + 1..])
    decreases |h|
  {
    var p := LastIndexOf(h, '.').value;
    var after := h[d + 1..];
    if p == d {
      NowhereIs(after, '.');
    } else {
      assert d < p;
      LabelsAtDot(h[..p], d);
      assert h[..p][..d] == h[..d];
      assert h[..p][d + 1..] == after[..p - d - 1];
      LabelsAtLastDot(after, p - d - 1);
      assert after[p - d - 1 + 1..] == h[p + 1..];
      hide Labels;
      assert Labels(h[..d]) + (Labels(after[..p - d - 1]) + [h[p + 1..]])
        == (Labels(h[..d]) + Labels(after[..p - d - 1])) + [h[p + 1..]];
    }
  }

  /** What follows a dot has the last labels, as many as it has. */
  lemma LabelsOfSuffix(h: string, start: nat)
    requires 0 < start <= |h| && h[start - 1] == '.'
    ensures var n := |Labels(h[start..])|;
      n < |Labels(h)| && Labels(h[start..]) == LastLabels(Labels(h), n)
  {
    LabelsAtDot(h, start - 1);
  }

  lemma {:induction false} FirstLabelIsPrefix(h: string)
    requires |Labels(h)| >= 2
    ensures Labels(h)[0] + "." <= h
    decreases |h|
  {
    var p := LastIndexOf(h, '.').value;
    var before := h[..p];
    if |Labels(before)| >= 2 {
      FirstLabelIsPrefix(before);
    } else {
      assert LastIndexOf(before, '.').None?;
      assert h[..p + 1] == before + ".";
    }
  }

  lemma DropFirstOf(h: string, name: string)
    requires Without(name, '.')
    ensures Labels(StripPrefix(h, name + ".")) == DropFirst(Labels(h), name)
  {
    var prefix := name + ".";
    if prefix <= h {
      assert h[..|prefix|] == prefix;
      assert h[|name|] == prefix[|name|] == '.';
      assert h[..|name|] == name;
      LabelsAtDot(h, |name|);
      NowhereIs(name, '.');
      assert Labels(name) == [name];
    } else if |Labels(h)| >= 2 {
      FirstLabelIsPrefix(h);
    }
  }

  lemma LabelsOfUnprefixed(host: string)
    ensures Labels(Unprefixed(host)) == DropCommonPrefixes(Labels(TrimEndDots(host)))
  {
    var h := TrimEndDots(host);
    assert "www" + "." == "www." && "m" + "." == "m.";
    DropFirstOf(h, "www");
    DropFirstOf(StripPrefix(h, "www."), "m");
  }

  // ----- The site and its tenant -----

  lemma PeelLast(h: string)
    ensures match LastIndexOf(h, '.')
      case None => Labels(h) == [h]
      case Some(p) => Labels(h) == Labels(h[..p]) + [h[p + 1..]]
  {
  }

  lemma OneLabelIff(h: string)
    ensures |Labels(h)| == 1 <==> LastIndexOf(h, '.').None?
    ensures |Labels(h)| == 1 ==> Labels(h) == [h]
  {
  }

  /** The last two labels, seen from the last two dots. */
  lemma LastTwo(h: string, lastDot: nat, prevDot: nat)
    requires LastIndexOf(h, '.') == Some(lastDot) && LastIndexOf(h[..lastDot], '.') == Some(prevDot)
    ensures var ls, n := Labels(h), |Labels(h[..prevDot])|;
      && |ls| == n + 2 && ls[n] == h[prevDot + 1..lastDot] && ls[n + 1] == h[lastDot + 1..]
      && |Labels(h[prevDot + 1..])| == 2
  {
    var front := h[..lastDot];
    PeelLast(h);
    PeelLast(front);
    assert front[..prevDot] == h[..prevDot] && front[prevDot + 1..] == h[prevDot + 1..lastDot];
    hide Labels;
    LabelsAtDot(h, prevDot);
  }

  /** One label more, seen from the dot before those. */
  lemma LastThree(h: string, prevDot: nat, prev2Dot: nat)
    requires prevDot < |h| && h[prevDot] == '.' && LastIndexOf(h[..prevDot], '.') == Some(prev2Dot)
    ensures |Labels(h[prev2Dot + 1..])| == |Labels(h[prevDot + 1..])| + 1
  {
    PeelLast(h[..prevDot]);
    assert h[..prevDot][..prev2Dot] == h[..prev2Dot];
    hide Labels;
    LabelsAtDot(h, prevDot);
    LabelsAtDot(h, prev2Dot);
  }

  lemma SiteStartByLabels(h: string)
    ensures var ls := Labels(h);
      if |ls| < 3 then SiteStart(h).None?
      else SiteStart(h).Some? && |Labels(h[SiteStart(h).value..])| == SiteCount(ls)
  {
    hide IsCommonCcSld, Labels;
    PeelLast(h);
    if LastIndexOf(h, '.').Some? {
      var lastDot := LastIndexOf(h, '.').value;
      PeelLast(h[..lastDot]);
      if LastIndexOf(h[..lastDot], '.').Some? {
        var prevDot := LastIndexOf(h[..lastDot], '.').value;
        LastTwo(h, lastDot, prevDot);
        OneLabelIff(h[..prevDot]);
        if LastIndexOf(h[..prevDot], '.').Some? {
          LastThree(h, prevDot, LastIndexOf(h[..prevDot], '.').value);
        }
      }
    }
  }

  lemma LabelBeforeByLabels(h: string, start: nat)
    requires 0 < start <= |h| && h[start - 1] == '.'
    ensures var ls, n, tenant := Labels(h), |Labels(h[start..])|, LabelBefore(h, start);
      && n < |ls| && h[tenant..start - 1] == ls[|ls| - n - 1]
      && |Labels(h[tenant..])| == n + 1
  {
    hide Labels;
    var front := h[..start - 1];
    var tenant := LabelBefore(h, start);
    LabelsAtDot(h, start - 1);
    PeelLast(front);
    assert h[tenant..start - 1] == front[tenant..];
    assert front[0..] == front && h[0..] == h;
    assert Labels(front)[|Labels(front)| - 1] == front[tenant..];
    if LastIndexOf(front, '.').Some? {
      assert tenant == LastIndexOf(front, '.').value + 1;
      hide LabelBefore;
      LastThree(h, start - 1, tenant - 1);
    }
  }

  lemma BaseOfCut(h: string) returns (k: nat)
    ensures k <= |h| && BaseOf(h) == h[k..] && (k == 0 || h[k - 1] == '.')
    ensures |Labels(h[k..])| == BaseCount(Labels(h))
  {
    hide IsCommonSubdomainLabel, Labels, SiteStart, LabelBefore, SiteCount;
    SiteStartByLabels(h);
    assert h[0..] == h;
    if SiteStart(h).None? {
      k := 0;
    } else {
      var start := SiteStart(h).value;
      var tenant := LabelBefore(h, start);
      LabelBeforeByLabels(h, start);
      k := if h[tenant..start - 1] != [] && !IsCommonSubdomainLabel(h[tenant..start - 1]) then tenant else start;
    }
  }

  lemma BaseOfByLabels(h: string)
    ensures Labels(BaseOf(h)) == LastLabels(Labels(h), BaseCount(Labels(h)))
  {
    hide BaseOf, Labels, BaseCount;
    var k := BaseOfCut(h);
    if k > 0 {
      LabelsOfSuffix(h, k);
    } else {
      assert h[0..] == h;
    }
  }

  /** The base domain is made of the last labels of the host, in the number the labels call for. */
  lemma BaseDomainByLabels(host: string)
    ensures var ls := DropCommonPrefixes(Labels(TrimEndDots(host)));
      Labels(BaseDomain(host)) == LastLabels(ls, BaseCount(ls))
  {
    hide BaseOf, Labels, DropCommonPrefixes, BaseCount;
    LabelsOfUnprefixed(host);
    BaseOfByLabels(Unprefixed(host));
  }

  /** A host is determined by its labels. */
  lemma {:induction false} LabelsAreInjective(g: string, h: string)
    requires Labels(g) == Labels(h)
    ensures g == h
    decreases |g|
  {
    OneLabelIff(g);
    OneLabelIff(h);
    if |Labels(g)| > 1 {
      var p, q := LastIndexOf(g, '.').value, LastIndexOf(h, '.').value;
      assert Labels(g)[..|Labels(g)| - 1] == Labels(g[..p]);
      assert Labels(h)[..|Labels(h)| - 1] == Labels(h[..q]);
      assert Labels(g)[|Labels(g)| - 1] == g[p + 1..] && Labels(h)[|Labels(h)| - 1] == h[q + 1..];
      LabelsAreInjective(g[..p], h[..q]);
      assert g == g[..p] + "." + g[p + 1..];
      assert h == h[..q] + "." + h[q + 1..];
    }
  }

  /**
   Of three labels all are kept if and only if the first looks like a tenant: it is neither "www" nor "m", nor empty,
   nor common. Otherwise the last two are left, or only the last of "www.m" and one label. Whether the second is a
   country-code second level makes no difference, so that "api.co.uk" is cut to "co.uk".
   */
  lemma ThreeLabelsKeptIff(a: string, b: string, c: string)
    requires Without(a, '.') && Without(b, '.') && Without(c, '.') && c != []
    ensures var host := a + "." + (b + "." + c);
      var isTenant := a != "www" && a != "m" && a != [] && !IsCommonSubdomainLabel(a);
      && Labels(BaseDomain(host)) ==
           (if isTenant then [a, b, c] else if a == "www" && b == "m" then [c] else [b, c])
      && (Labels(BaseDomain(host)) == Labels(host) <==> isTenant)
  {
    ThreePieces(a, b, c);
    BaseDomainByLabels(a + "." + (b + "." + c));
    hide *;
    LastOfThree(a, b, c);
  }

  lemma LastOfThree(a: string, b: string, c: string)
    ensures var ls := DropCommonPrefixes([a, b, c]);
      var isTenant := a != "www" && a != "m" && a != [] && !IsCommonSubdomainLabel(a);
      LastLabels(ls, BaseCount(ls)) == if isTenant then [a, b, c] else if a == "www" && b == "m" then [c] else [b, c]
  {
    DropOfThree(a, b, c);
    hide IsCommonSubdomainLabel, IsCommonCcSld, DropCommonPrefixes;
  }

  lemma DropOfThree(a: string, b: string, c: string)
    ensures DropCommonPrefixes([a, b, c]) ==
      if a == "www" then (if b == "m" then [c] else [b, c]) else if a == "m" then [b, c] else [a, b, c]
  {
    assert [a, b, c][1..] == [b, c] && [b, c][1..] == [c];
  }

  lemma ThreePieces(a: string, b: string, c: string)
    requires Without(a, '.') && Without(b, '.') && Without(c, '.') && c != []
    ensures var host := a + "." + (b + "." + c); Labels(host) == [a, b, c] && TrimEndDots(host) == host
  {
    hide Labels;
    var tail := b + "." + c;
    var host := a + "." + tail;
    assert host[|host| - 1] == c[|c| - 1];
    TwoPieces(a, tail);
    TwoPieces(b, c);
    OneLabel(a);
    OneLabel(b);
    OneLabel(c);
    assert [a] + ([b] + [c]) == [a, b, c];
  }

  lemma TwoPieces(a: string, b: string)
    ensures Labels(a + "." + b) == Labels(a) + Labels(b)
  {
    var h := a + "." + b;
    LabelsAtDot(h, |a|);
    assert h[..|a|] == a && h[|a| + 1..] == b;
  }

  lemma OneLabel(a: string)
    requires Without(a, '.')
    ensures Labels(a) == [a]
  {
    NowhereIs(a, '.');
  }
}
