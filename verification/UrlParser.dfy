/**
 Splitting a URL into its host and what follows the authority. The printer composes a URL from the components of
 section 3.2 of RFC 3986; the parser accepts exactly what it prints.
 */
module UrlParser {
  import opened Strings
  import opened Wrappers

  // ----- The parser -----

  function StripSpecialSchemes(url: string): string {
    StripPrefix(StripPrefix(url, "blob:"), "filesystem:")
  }

  predicate OpensAt(url: string, pos: nat) {
    pos + 2 < |url| && url[pos] == ':' && url[pos + 1] == '/' && url[pos + 2] == '/'
  }

  /** The first colon opens a "://". */
  predicate OpensScheme(url: string) {
    var colon := IndexOf(url, ':');
    colon.Some? && OpensAt(url, colon.value)
  }

  /** Where the authority starts. */
  function HostStart(url: string): (r: Option<nat>)
    ensures r.Some? ==> r.value <= |url|
  {
    if OpensScheme(url) then Some(IndexOf(url, ':').value + 3)
    else if "//" <= url then Some(2)
    else None
  }

  predicate IsDelimiter(c: char) {
    c == '/' || c == '?' || c == '#'
  }

  predicate NoDelimiter(s: string) {
    forall i :: 0 <= i < |s| ==> !IsDelimiter(s[i])
  }

  /** `memchr3`: the length of the text before the first of the three delimiters. */
  function AuthorityLength(s: string): (n: nat)
    ensures n <= |s| && (forall i :: 0 <= i < n ==> !IsDelimiter(s[i])) && (n < |s| ==> IsDelimiter(s[n]))
  {
    if s == [] || IsDelimiter(s[0]) then 0 else 1 + AuthorityLength(s[1..])
  }

  function DropUserinfo(authority: string): string {
    match LastIndexOf(authority, '@')
    case Some(pos) => authority[pos + 1..]
    case None => authority
  }

  /** The host of an authority without user information: a bracketed literal, or a name in front of the port. */
  function HostOf(hostport: string): Option<string> {
    if hostport != [] && hostport[0] == '[' then
      match IndexOf(hostport, ']')
      case None => None
      case Some(close) => Some(hostport[1..close])
    else
      var host := hostport[..IndexOf(hostport, ':').GetOr(|hostport|)];
      if host == [] then None else Some(host)
  }

  /** The host and the rest when the authority starts at `start`. */
  function ParseFrom(url: string, start: nat): Option<(string, string)>
    requires start <= |url|
  {
    var n := AuthorityLength(url[start..]);
    var authority := url[start..][..n];
    if authority == [] then None
    else
      match HostOf(DropUserinfo(authority))
      case None => None
      case Some(host) => Some((host, url[start..][n..]))
  }

  function HostAndRest(url: string): Option<(string, string)> {
    var body := StripSpecialSchemes(url);
    match HostStart(body)
    case None => None
    case Some(start) => ParseFrom(body, start)
  }

  // ----- The printer -----

  datatype Host = Named(name: string, port: Option<string>) | Bracketed(literal: string, tail: string)

  /** The parts of a URL; without a scheme it is protocol-relative. */
  datatype Url = Url(
    blob: bool, filesystem: bool, scheme: Option<string>, userinfo: Option<string>, host: Host, rest: string)

  function HostText(host: Host): string {
    if host.Named? then host.name else host.literal
  }

  function PrintHost(host: Host): string {
    match host
    case Named(name, None) => name
    case Named(name, Some(port)) => name + ":" + port
    case Bracketed(literal, tail) => "[" + literal + "]" + tail
  }

  function WithUserinfo(userinfo: Option<string>, hostport: string): string {
    if userinfo.Some? then userinfo.value + "@" + hostport else hostport
  }

  function PrintAuthority(u: Url): string {
    WithUserinfo(u.userinfo, PrintHost(u.host))
  }

  function WithScheme(scheme: Option<string>, after: string): string {
    if scheme.Some? then scheme.value + "://" + after else "//" + after
  }

  /** The URL without its special prefixes. */
  function PrintBody(u: Url): string {
    WithScheme(u.scheme, PrintAuthority(u) + u.rest)
  }

  function Prefixed(blob: bool, filesystem: bool, body: string): string {
    (if blob then "blob:" else "") + ((if filesystem then "filesystem:" else "") + body)
  }

  function Print(u: Url): string {
    Prefixed(u.blob, u.filesystem, PrintBody(u))
  }

  predicate WellFormedHost(host: Host) {
    && NoDelimiter(PrintHost(host)) && Without(PrintHost(host), '@')
    && match host
       case Named(name, _) => name != [] && name[0] != '[' && Without(name, ':')
       case Bracketed(literal, _) => Without(literal, ']')
  }

  predicate RespectsDelimiters(u: Url) {
    && WellFormedHost(u.host)
    && (u.userinfo.Some? ==> NoDelimiter(u.userinfo.value))
    && (u.rest == [] || IsDelimiter(u.rest[0]))
  }

  /** The scheme is free of colons and not mistaken for a special prefix. */
  predicate SchemeIsPlain(u: Url) {
    u.scheme.Some? ==>
      && Without(u.scheme.value, ':')
      && (u.scheme.value == "blob" ==> u.blob || u.filesystem)
      && (u.scheme.value == "filesystem" ==> u.filesystem)
  }

  /** In a protocol-relative URL, moreover, the first colon must not open a "://". */
  predicate WellFormed(u: Url) {
    RespectsDelimiters(u) && SchemeIsPlain(u) && (u.scheme.None? ==> !OpensScheme(PrintBody(u)))
  }

  // ----- Parsing what was printed -----

  lemma HostOfPrinted(host: Host)
    requires WellFormedHost(host)
    ensures PrintHost(host) != [] && HostOf(PrintHost(host)) == Some(HostText(host))
  {
    var s := PrintHost(host);
    match host {
      case Named(name, None) =>
        NowhereIs(s, ':');
        assert s[..|s|] == name;
      case Named(name, Some(port)) =>
        assert forall i :: 0 <= i < |name| ==> s[i] == name[i];
        assert s[..|name|] == name && s[|name|] == ':';
        FirstIs(s, ':', |name|);
      case Bracketed(literal, tail) =>
        assert forall i :: 1 <= i <= |literal| ==> s[i] == literal[i - 1];
        assert s[1..|literal| + 1] == literal && s[|literal| + 1] == ']';
        FirstIs(s, ']', |literal| + 1);
    }
  }

  lemma AuthorityIsPrefix(authority: string, rest: string)
    requires NoDelimiter(authority) && (rest == [] || IsDelimiter(rest[0]))
    ensures AuthorityLength(authority + rest) == |authority|
  {
    var s := authority + rest;
    assert forall i :: 0 <= i < |authority| ==> s[i] == authority[i];
    assert rest != [] ==> s[|authority|] == rest[0];
  }

  lemma UserinfoIsDropped(u: Url)
    requires Without(PrintHost(u.host), '@')
    ensures DropUserinfo(PrintAuthority(u)) == PrintHost(u.host)
  {
    var s := PrintAuthority(u);
    if u.userinfo.Some? {
      var pos := |u.userinfo.value|;
      assert s[pos] == '@' && s[pos + 1..] == PrintHost(u.host);
      LastIs(s, '@', pos);
    } else {
      assert s == PrintHost(u.host);
      NowhereIs(s, '@');
    }
  }

  lemma ParseFromPrinted(u: Url, body: string, start: nat)
    requires RespectsDelimiters(u)
    requires start <= |body| && body[start..] == PrintAuthority(u) + u.rest
    ensures ParseFrom(body, start) == Some((HostText(u.host), u.rest))
  {
    var authority := PrintAuthority(u);
    assert NoDelimiter(authority);
    AuthorityIsPrefix(authority, u.rest);
    assert (authority + u.rest)[..|authority|] == authority;
    assert (authority + u.rest)[|authority|..] == u.rest;
    UserinfoIsDropped(u);
    HostOfPrinted(u.host);
  }

  lemma HostStartOfPrinted(u: Url)
    requires WellFormed(u)
    ensures var start := HostStart(PrintBody(u));
      start.Some? && PrintBody(u)[start.value..] == PrintAuthority(u) + u.rest
  {
    var body, after := PrintBody(u), PrintAuthority(u) + u.rest;
    if u.scheme.Some? {
      var scheme := u.scheme.value;
      assert body == scheme + "://" + after;
      assert forall i :: 0 <= i < |scheme| ==> body[i] == scheme[i];
      FirstIs(body, ':', |scheme|);
      assert OpensAt(body, |scheme|);
      assert body[|scheme| + 3..] == after;
    } else {
      assert body == "//" + after;
      assert body[2..] == after;
    }
  }

  lemma StripOfPrefixed(prefix: string, s: string)
    ensures StripPrefix(prefix + s, prefix) == s
  {
    assert (prefix + s)[..|prefix|] == prefix;
  }

  lemma StripOfScheme(u: Url, prefix: string, name: string)
    requires prefix == name + ":" && name != [] && name[0] != '/' && Without(name, ':')
    requires u.scheme.Some? ==> Without(u.scheme.value, ':')
    ensures prefix <= PrintBody(u) ==> u.scheme == Some(name)
  {
    var body := PrintBody(u);
    if prefix <= body {
      assert forall i :: 0 <= i < |prefix| ==> body[i] == prefix[i];
      FirstIs(body, ':', |name|);
      if u.scheme.Some? {
        var scheme := u.scheme.value;
        assert forall i :: 0 <= i < |scheme| ==> body[i] == scheme[i];
        FirstIs(body, ':', |scheme|);
        assert body[..|name|] == name && body[..|scheme|] == scheme;
      }
    }
  }

  lemma StripOfPrinted(u: Url)
    requires SchemeIsPlain(u)
    ensures StripSpecialSchemes(Print(u)) == PrintBody(u)
  {
    var body := PrintBody(u);
    var inner := (if u.filesystem then "filesystem:" else "") + body;
    StripOfScheme(u, "blob:", "blob");
    StripOfScheme(u, "filesystem:", "filesystem");
    if u.blob {
      StripOfPrefixed("blob:", inner);
    } else {
      assert Print(u) == inner;
      if u.filesystem {
        assert inner[0] == 'f';
      } else {
        assert inner == body;
      }
    }
    if u.filesystem {
      StripOfPrefixed("filesystem:", body);
    } else {
      assert inner == body;
    }
  }

  /** Parsing a printed URL gives back its host and what follows its authority. */
  lemma ParsePrinted(u: Url)
    requires WellFormed(u)
    ensures HostAndRest(Print(u)) == Some((HostText(u.host), u.rest))
  {
    StripOfPrinted(u);
    HostStartOfPrinted(u);
    ParseFromPrinted(u, PrintBody(u), HostStart(PrintBody(u)).value);
  }

  // ----- Printing what was parsed -----

  lemma HostOfIsPrinted(hostport: string) returns (host: Host)
    requires HostOf(hostport).Some? && NoDelimiter(hostport) && Without(hostport, '@')
    ensures WellFormedHost(host) && PrintHost(host) == hostport && HostText(host) == HostOf(hostport).value
  {
    if hostport[0] == '[' {
      var close := IndexOf(hostport, ']').value;
      host := Bracketed(hostport[1..close], hostport[close + 1..]);
      assert hostport[..close] == "[" + hostport[1..close];
    } else {
      var colon := IndexOf(hostport, ':');
      if colon.Some? {
        host := Named(hostport[..colon.value], Some(hostport[colon.value + 1..]));
      } else {
        assert hostport[..|hostport|] == hostport;
        host := Named(hostport, None);
      }
    }
  }

  lemma UserinfoOf(authority: string) returns (userinfo: Option<string>)
    requires NoDelimiter(authority)
    ensures userinfo.Some? ==> NoDelimiter(userinfo.value)
    ensures WithUserinfo(userinfo, DropUserinfo(authority)) == authority
    ensures NoDelimiter(DropUserinfo(authority)) && Without(DropUserinfo(authority), '@')
  {
    var at := LastIndexOf(authority, '@');
    if at.Some? {
      userinfo := Some(authority[..at.value]);
      assert authority == authority[..at.value] + "@" + authority[at.value + 1..];
    } else {
      userinfo := None;
    }
  }

  lemma ParseFromIsPrinted(body: string, start: nat, blob: bool, filesystem: bool, scheme: Option<string>)
    returns (u: Url)
    requires start <= |body| && ParseFrom(body, start).Some?
    ensures u.blob == blob && u.filesystem == filesystem && u.scheme == scheme && RespectsDelimiters(u)
    ensures body[start..] == PrintAuthority(u) + u.rest
    ensures ParseFrom(body, start) == Some((HostText(u.host), u.rest))
  {
    var s := body[start..];
    var n := AuthorityLength(s);
    hide HostOf, WellFormedHost, PrintHost, DropUserinfo, HostText, WithUserinfo;
    var userinfo := UserinfoOf(s[..n]);
    var host := HostOfIsPrinted(DropUserinfo(s[..n]));
    u := Url(blob, filesystem, scheme, userinfo, host, s[n..]);
    assert PrintAuthority(u) == s[..n];
    assert s == s[..n] + s[n..];
  }

  lemma SchemeOf(body: string) returns (scheme: Option<string>)
    requires HostStart(body).Some?
    ensures body == WithScheme(scheme, body[HostStart(body).value..])
    ensures scheme.None? ==> !OpensScheme(body)
    ensures scheme.Some? ==> OpensScheme(body) && scheme == Some(body[..IndexOf(body, ':').value])
  {
    if OpensScheme(body) {
      var colon := IndexOf(body, ':').value;
      scheme := Some(body[..colon]);
      assert body == body[..colon] + "://" + body[colon + 3..];
    } else {
      scheme := None;
      assert body == "//" + body[2..];
    }
  }

  /** Which prefixes were stripped; what is left has no special scheme that should have been stripped too. */
  lemma UndoStrip(url: string) returns (blob: bool, filesystem: bool)
    ensures url == Prefixed(blob, filesystem, StripSpecialSchemes(url))
    ensures "blob:" <= StripSpecialSchemes(url) ==> blob || filesystem
    ensures "filesystem:" <= StripSpecialSchemes(url) ==> filesystem
  {
    var inner, body := StripPrefix(url, "blob:"), StripSpecialSchemes(url);
    blob, filesystem := "blob:" <= url, "filesystem:" <= inner;
    assert blob ==> url == "blob:" + inner;
    assert filesystem ==> inner == "filesystem:" + body;
    assert "" + inner == inner && "" + body == body;
  }

  lemma PlainScheme(body: string, u: Url)
    requires OpensScheme(body) && u.scheme == Some(body[..IndexOf(body, ':').value])
    requires "blob:" <= body ==> u.blob || u.filesystem
    requires "filesystem:" <= body ==> u.filesystem
    ensures SchemeIsPlain(u)
  {
    var colon := IndexOf(body, ':').value;
    assert body[..colon + 1] == body[..colon] + ":";
    assert body[..colon] == "blob" ==> body[..colon + 1] == "blob:";
    assert body[..colon] == "filesystem" ==> body[..colon + 1] == "filesystem:";
  }

  lemma PrintParsedBody(body: string, blob: bool, filesystem: bool) returns (u: Url)
    requires HostStart(body).Some? && ParseFrom(body, HostStart(body).value).Some?
    requires "blob:" <= body ==> blob || filesystem
    requires "filesystem:" <= body ==> filesystem
    ensures u.blob == blob && u.filesystem == filesystem && WellFormed(u) && PrintBody(u) == body
    ensures ParseFrom(body, HostStart(body).value) == Some((HostText(u.host), u.rest))
  {
    hide HostStart, ParseFrom, PrintAuthority, RespectsDelimiters, HostText, WithScheme, OpensScheme, SchemeIsPlain;
    var scheme := SchemeOf(body);
    u := ParseFromIsPrinted(body, HostStart(body).value, blob, filesystem, scheme);
    if scheme.Some? {
      PlainScheme(body, u);
    } else {
      PlainWithoutScheme(u);
    }
  }

  lemma PlainWithoutScheme(u: Url)
    requires u.scheme.None?
    ensures SchemeIsPlain(u)
  {
  }

  /** Whatever the parser accepts is a printed URL with that host and rest. */
  lemma PrintParsed(url: string) returns (u: Url)
    requires HostAndRest(url).Some?
    ensures WellFormed(u) && Print(u) == url && HostAndRest(url) == Some((HostText(u.host), u.rest))
  {
    hide StripSpecialSchemes, HostStart, ParseFrom, WellFormed, PrintBody, HostText, Prefixed;
    var blob, filesystem := UndoStrip(url);
    u := PrintParsedBody(StripSpecialSchemes(url), blob, filesystem);
  }

  ghost predicate Spells(u: Url, url: string, host: string, rest: string) {
    WellFormed(u) && Print(u) == url && HostText(u.host) == host && u.rest == rest
  }

  /** The parser is exactly the inverse of the printer. */
  lemma ParserInvertsPrinter(url: string, host: string, rest: string)
    ensures HostAndRest(url) == Some((host, rest)) <==> exists u :: Spells(u, url, host, rest)
  {
    if HostAndRest(url) == Some((host, rest)) {
      var u := PrintParsed(url);
      assert Spells(u, url, host, rest);
    }
    forall u | Spells(u, url, host, rest) ensures HostAndRest(url) == Some((host, rest)) {
      ParsePrinted(u);
    }
  }

  lemma RestLength(url: string, start: nat)
    requires start <= |url| && ParseFrom(url, start).Some?
    ensures |ParseFrom(url, start).value.1| == |url| - start - AuthorityLength(url[start..])
  {
  }

  lemma FirstColonIsNearRest(u: Url)
    requires u.scheme.None? && RespectsDelimiters(u) && OpensScheme(PrintBody(u))
    ensures |PrintBody(u)| - |u.rest| <= IndexOf(PrintBody(u), ':').value + 1
  {
    var body, authority := PrintBody(u), PrintAuthority(u);
    var colon := IndexOf(body, ':').value;
    assert NoDelimiter(authority);
    hide PrintAuthority, RespectsDelimiters;
    assert body == "//" + authority + u.rest;
    assert forall i :: 0 <= i < |authority| ==> body[i + 2] == authority[i];
    assert body[colon + 1] == '/' && body[0] == '/' && body[1] == '/';
  }

  /** A protocol-relative URL is read as meant if and only if its first colon does not open a "://". */
  lemma ProtocolRelativeIff(u: Url)
    requires u.scheme.None? && RespectsDelimiters(u)
    ensures HostAndRest(Print(u)) == Some((HostText(u.host), u.rest)) <==> !OpensScheme(PrintBody(u))
  {
    StripOfPrinted(u);
    var body := PrintBody(u);
    if !OpensScheme(body) {
      ParsePrinted(u);
    } else {
      FirstColonIsNearRest(u);
      var start := HostStart(body).value;
      hide PrintBody, RespectsDelimiters, OpensScheme;
      if ParseFrom(body, start).Some? {
        RestLength(body, start);
      }
    }
  }

  // ----- The find-based form -----

  /** `find("://")` from an index on. */
  function FindScheme(url: string, from: nat := 0): (r: Option<nat>)
    requires from <= |url|
    ensures r.None? ==> forall i: nat :: from <= i ==> !OpensAt(url, i)
    ensures r.Some? ==> OpensAt(url, r.value) && forall i: nat :: from <= i < r.value ==> !OpensAt(url, i)
    decreases |url| - from
  {
    if from == |url| then None else if OpensAt(url, from) then Some(from) else FindScheme(url, from + 1)
  }

  function OldHostStart(url: string): (r: Option<nat>)
    ensures r.Some? ==> r.value <= |url|
  {
    match FindScheme(url)
    case Some(pos) => Some(pos + 3)
    case None => if "//" <= url then Some(2) else None
  }

  function OldHostAndRest(url: string): Option<(string, string)> {
    var body := StripSpecialSchemes(url);
    match OldHostStart(body)
    case None => None
    case Some(start) => ParseFrom(body, start)
  }

  /** The three searches for the end of the authority, one delimiter at a time. */
  method FindRestStart(url: string, start: nat) returns (restStart: nat)
    requires start <= |url|
    ensures restStart == start + AuthorityLength(url[start..])
  {
    var s := url[start..];
    restStart := |url|;
    var slash, question, hash := IndexOf(s, '/'), IndexOf(s, '?'), IndexOf(s, '#');
    if slash.Some? {
      restStart := start + slash.value;
    }
    if question.Some? {
      restStart := Min(restStart, start + question.value);
    }
    if hash.Some? {
      restStart := Min(restStart, start + hash.value);
    }
    assert AuthorityLength(s) < |s| ==> IsDelimiter(s[AuthorityLength(s)]);
  }

  method HostAndRestByFind(url: string) returns (r: Option<(string, string)>)
    ensures r == OldHostAndRest(url)
  {
    var body := StripSpecialSchemes(url);
    var start := OldHostStart(body);
    if start.None? {
      return None;
    }
    var restStart := FindRestStart(body, start.value);
    var authority := body[start.value..restStart];
    assert authority == body[start.value..][..restStart - start.value];
    assert body[restStart..] == body[start.value..][restStart - start.value..];
    if authority == [] {
      return None;
    }
    var host := HostOf(DropUserinfo(authority));
    r := if host.Some? then Some((host.value, body[restStart..])) else None;
  }

  /** The two forms agree on where the authority starts exactly when the first colon opens the first "://", if any. */
  lemma StartsAgreeIff(url: string)
    ensures HostStart(url) == OldHostStart(url) <==> FindScheme(url).None? || OpensScheme(url)
  {
    var colon, scheme := IndexOf(url, ':'), FindScheme(url);
    if OpensScheme(url) {
      assert OpensAt(url, colon.value);
      assert scheme.Some?;
    }
  }

  /** A host can be read from `s`: its authority names one, or opens a bracket that is closed. */
  predicate StartsWithHost(s: string) {
    var authority := s[..AuthorityLength(s)];
    var hostport := DropUserinfo(authority);
    && authority != [] && hostport != []
    && if hostport[0] == '[' then IndexOf(hostport, ']').Some? else hostport[0] != ':'
  }

  lemma ParseFromAcceptsIff(url: string, start: nat)
    requires start <= |url|
    ensures ParseFrom(url, start).Some? <==> StartsWithHost(url[start..])
  {
    var s := url[start..];
    var hostport := DropUserinfo(s[..AuthorityLength(s)]);
    if hostport != [] && hostport[0] == ':' {
      FirstIs(hostport, ':', 0);
    }
  }

  /**
   The memchr form agrees with the find form if and only if the first colon opens the first "://", if there is one, or
   no host can be read either behind that "://" or, where the text starts with "//", behind those.
   */
  lemma FormsAgreeIff(url: string)
    ensures var body := StripSpecialSchemes(url);
      HostAndRest(url) == OldHostAndRest(url) <==>
        || FindScheme(body).None? || OpensScheme(body)
        || (!StartsWithHost(body[FindScheme(body).value + 3..]) && !("//" <= body && StartsWithHost(body[2..])))
  {
    var body := StripSpecialSchemes(url);
    FormsDifferOnlyIfApart(url);
    StartsAgreeIff(body);
    hide StripSpecialSchemes, OpensScheme, ParseFrom, StartsWithHost;
    if HostStart(body) != OldHostStart(body) {
      ParseFromAcceptsIff(body, FindScheme(body).value + 3);
      if "//" <= body {
        ParseFromAcceptsIff(body, 2);
      }
    }
  }

  lemma FormsDifferOnlyIfApart(url: string)
    ensures var body := StripSpecialSchemes(url);
      HostAndRest(url) == OldHostAndRest(url) <==>
        HostStart(body) == OldHostStart(body) || (HostAndRest(url).None? && OldHostAndRest(url).None?)
  {
    var body := StripSpecialSchemes(url);
    hide StripSpecialSchemes, ParseFrom;
    if HostStart(body) != OldHostStart(body) && HostAndRest(url).Some? && OldHostAndRest(url).Some? {
      var pos := FindScheme(body).value;
      RestLength(body, 2);
      RestLength(body, pos + 3);
      assert OpensAt(body, pos) && 2 <= pos;
      assert body[2..][pos - 1] == '/';
    }
  }

  // ----- Two URLs that are not read as meant -----

  /** A protocol-relative URL on host "a" with another URL in its path is read from that one. */
  lemma NestedUrlIsMisread()
    ensures var meant := Url(false, false, None, None, Named("a", None), "/x://b");
      RespectsDelimiters(meant) && Print(meant) == "//a/x://b"
    ensures HostAndRest("//a/x://b") == Some(("b", ""))
  {
    hide HostAndRest;
    NestedUrlIsRead();
  }

  lemma NestedUrlIsRead()
    ensures HostAndRest("//a/x://b") == Some(("b", ""))
  {
    var url := "//a/x://b";
    FirstIs(url, ':', 5);
    assert StripSpecialSchemes(url) == url;
    assert HostStart(url) == Some(8) && url[8..] == "b";
    hide StripSpecialSchemes, HostStart, ParseFrom;
    ParseOnlyHost(url, 8, "b");
  }

  lemma ParseOnlyHost(url: string, start: nat, name: string)
    requires start <= |url| && url[start..] == name && name != [] && name[0] != '['
    requires NoDelimiter(name) && Without(name, '@') && Without(name, ':')
    ensures ParseFrom(url, start) == Some((name, ""))
  {
    assert name + "" == name;
    ParseFromPrinted(Url(false, false, None, None, Named(name, None), ""), url, start);
  }

  /** The find form accepts a URL that the memchr form rejects. */
  lemma FormsDiffer()
    ensures HostAndRest("x:y://h/") == None && OldHostAndRest("x:y://h/") == Some(("h", "/"))
  {
    var url := "x:y://h/";
    FirstIs(url, ':', 1);
    assert StripSpecialSchemes(url) == url;
    assert OpensAt(url, 3) && !OpensAt(url, 0) && !OpensAt(url, 1) && !OpensAt(url, 2);
    assert url[6..] == "h/";
    ParseFromPrinted(Url(false, false, None, None, Named("h", None), "/"), url, 6);
  }
}
