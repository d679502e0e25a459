/**
 The byte searches the URL code uses. A string stands for its UTF-8 bytes; every byte searched for is ASCII, so each
 index found is a character boundary.
 */
module Strings {
  import opened Wrappers

  predicate Without(s: string, c: char) {
    forall i :: 0 <= i < |s| ==> s[i] != c
  }

  /** `memchr`: the first occurrence. */
  function IndexOf(s: string, c: char): (r: Option<nat>)
    ensures r.None? ==> Without(s, c)
    ensures r.Some? ==> r.value < |s| && s[r.value] == c && forall j :: 0 <= j < r.value ==> s[j] != c
  {
    if s == [] then None
    else if s[0] == c then Some(0)
    else
      match IndexOf(s[1..], c)
      case None => None
      case Some(i) => Some(i + 1)
  }

  /** `memrchr`: the last occurrence. */
  function LastIndexOf(s: string, c: char): (r: Option<nat>)
    ensures r.None? ==> Without(s, c)
    ensures r.Some? ==> r.value < |s| && s[r.value] == c && forall j :: r.value < j < |s| ==> s[j] != c
  {
    if s == [] then None
    else if s[|s| - 1] == c then Some(|s| - 1)
    else LastIndexOf(s[..|s| - 1], c)
  }

  lemma FirstIs(s: string, c: char, i: nat)
    requires i < |s| && s[i] == c && forall j :: 0 <= j < i ==> s[j] != c
    ensures IndexOf(s, c) == Some(i)
  {
    assert IndexOf(s, c).Some?;
  }

  lemma LastIs(s: string, c: char, i: nat)
    requires i < |s| && s[i] == c && forall j :: i < j < |s| ==> s[j] != c
    ensures LastIndexOf(s, c) == Some(i)
  {
    assert LastIndexOf(s, c).Some?;
  }

  lemma NowhereIs(s: string, c: char)
    requires Without(s, c)
    ensures IndexOf(s, c) == None && LastIndexOf(s, c) == None
  {
  }

  function TrimEndDots(s: string): (r: string)
    ensures r <= s
    ensures r != [] ==> r[|r| - 1] != '.'
    ensures forall i :: |r| <= i < |s| ==> s[i] == '.'
  {
    if s != [] && s[|s| - 1] == '.' then TrimEndDots(s[..|s| - 1]) else s
  }

  function TrimStartDots(s: string): (r: string)
    ensures r != [] ==> r[0] != '.'
    ensures |r| <= |s| && s[|s| - |r|..] == r
    ensures forall i :: 0 <= i < |s| - |r| ==> s[i] == '.'
  {
    if s != [] && s[0] == '.' then TrimStartDots(s[1..]) else s
  }

  function TrimDots(s: string): string {
    TrimStartDots(TrimEndDots(s))
  }

  function StripPrefix(s: string, prefix: string): string {
    if prefix <= s then s[|prefix|..] else s
  }

  function Lower(c: char): char {
    if 'A' <= c <= 'Z' then c - 'A' + 'a' else c
  }

  function ToLower(s: string): (r: string)
    ensures |r| == |s|
    ensures forall i :: 0 <= i < |s| ==> r[i] == Lower(s[i])
  {
    if s == [] then [] else [Lower(s[0])] + ToLower(s[1..])
  }

  predicate EqIgnoreAsciiCase(a: string, b: string) {
    |a| == |b| && forall i :: 0 <= i < |a| ==> Lower(a[i]) == Lower(b[i])
  }
}
