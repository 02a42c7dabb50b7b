/** `extract_domain` (server/main.py): the network location of a URL, lowered,
    with one leading `www.` removed.

    The network location follows the part of Python's `urlsplit` that finds it:
    a scheme is split off at the first `:` when the text before it is a
    non-empty run of scheme characters starting with a letter; the network
    location is then what follows a `//`, up to the first `/`, `?` or `#`.
    Like `urlparse(url).netloc` it keeps any user information and port. */
module Url {
  import opened Ascii
  import opened Strings

  predicate IsSchemeChar(c: char) {
    IsLetter(c) || IsDigit(c) || c == '+' || c == '-' || c == '.'
  }

  predicate IsNetlocEnd(c: char) { c == '/' || c == '?' || c == '#' }

  predicate HasScheme(url: string) {
    var i := IndexOf(url, ':');
    && 0 < i < |url|
    && IsLetter(url[0])
    && forall k :: 0 <= k < i ==> IsSchemeChar(url[k])
  }

  /** What `urlsplit` goes on to parse once the scheme is removed. */
  function AfterScheme(url: string): (rest: string)
    ensures |rest| <= |url|
  {
    if HasScheme(url) then url[IndexOf(url, ':') + 1..] else url
  }

  /** Index of the first `/`, `?` or `#` in `s`, or `|s|`. */
  function NetlocLength(s: string): (n: nat)
    ensures n <= |s|
    ensures n < |s| ==> IsNetlocEnd(s[n])
    ensures forall k :: 0 <= k < n ==> !IsNetlocEnd(s[k])
  {
    if s == [] || IsNetlocEnd(s[0]) then 0 else NetlocLength(s[1..]) + 1
  }

  /** `urlparse(url).netloc`: empty unless the scheme is followed by `//`. */
  function Netloc(url: string): (h: string)
    ensures forall k :: 0 <= k < |h| ==> !IsNetlocEnd(h[k])
  {
    var rest := AfterScheme(url);
    if IsPrefix("//", rest) then
      var tail := rest[2..];
      tail[..NetlocLength(tail)]
    else
      []
  }

  /** Drops exactly one leading `www.`. */
  function StripWww(d: string): string {
    if IsPrefix("www.", d) then d[4..] else d
  }

  function ExtractDomain(url: string): (r: string)
    ensures NoUpper(r)
    ensures forall k :: 0 <= k < |r| ==> !IsNetlocEnd(r[k])
    ensures IsPrefix("www.", LowerStr(Netloc(url))) ==> "www." + r == LowerStr(Netloc(url))
    ensures !IsPrefix("www.", LowerStr(Netloc(url))) ==> r == LowerStr(Netloc(url))
  {
    StripWww(LowerStr(Netloc(url)))
  }

  /** For an ordinary `scheme://host/path` URL the domain is the lowered host
      with one `www.` removed, whatever follows the host. */
  lemma ExtractDomainOfUrl(scheme: string, host: string, path: string)
    requires |scheme| >= 1 && IsLetter(scheme[0])
    requires forall k :: 0 <= k < |scheme| ==> IsSchemeChar(scheme[k])
    requires forall k :: 0 <= k < |host| ==> !IsNetlocEnd(host[k])
    requires path == [] || IsNetlocEnd(path[0])
    ensures ExtractDomain(scheme + "://" + host + path) == StripWww(LowerStr(host))
  {
    var url := scheme + "://" + host + path;
    var rest := "//" + host + path;
    assert url == scheme + [':'] + rest;
    AfterSchemeOf(scheme, rest);
    NetlocOf(url, host, path);
  }

  lemma AfterSchemeOf(scheme: string, rest: string)
    requires |scheme| >= 1 && IsLetter(scheme[0])
    requires forall k :: 0 <= k < |scheme| ==> IsSchemeChar(scheme[k])
    ensures AfterScheme(scheme + [':'] + rest) == rest
  {
    var url := scheme + [':'] + rest;
    IndexOfAfter(scheme, ':', rest);
    assert url[0] == scheme[0];
    assert forall k :: 0 <= k < |scheme| ==> url[k] == scheme[k];
    assert HasScheme(url);
    assert url[|scheme| + 1..] == rest;
  }

  lemma NetlocOf(url: string, host: string, path: string)
    requires AfterScheme(url) == "//" + host + path
    requires forall k :: 0 <= k < |host| ==> !IsNetlocEnd(host[k])
    requires path == [] || IsNetlocEnd(path[0])
    ensures Netloc(url) == host
  {
    var rest := "//" + host + path;
    assert IsPrefix("//", rest);
    assert rest[2..] == host + path;
    NetlocLengthOf(host, path);
    assert (host + path)[..|host|] == host;
  }

  lemma {:induction false} NetlocLengthOf(host: string, path: string)
    requires forall k :: 0 <= k < |host| ==> !IsNetlocEnd(host[k])
    requires path == [] || IsNetlocEnd(path[0])
    ensures NetlocLength(host + path) == |host|
    decreases |host|
  {
    if host != [] {
      assert (host + path)[1..] == host[1..] + path;
      NetlocLengthOf(host[1..], path);
    } else {
      assert host + path == path;
    }
  }

  /** Only one `www.` goes: a host written `www.www.x` keeps `www.x`. */
  lemma StripsOneWww(scheme: string, host: string)
    requires |scheme| >= 1 && IsLetter(scheme[0])
    requires forall k :: 0 <= k < |scheme| ==> IsSchemeChar(scheme[k])
    requires forall k :: 0 <= k < |host| ==> !IsNetlocEnd(host[k])
    ensures ExtractDomain(scheme + "://www." + host) == LowerStr(host)
  {
    var h := "www." + host;
    assert forall k :: 0 <= k < |h| ==> !IsNetlocEnd(h[k]) by {
      assert forall k :: 4 <= k < |h| ==> h[k] == host[k - 4];
    }
    assert scheme + "://www." + host == scheme + "://" + h + [];
    ExtractDomainOfUrl(scheme, h, []);
    StripWwwOfLower(host);
  }

  lemma StripWwwOfLower(host: string)
    ensures StripWww(LowerStr("www." + host)) == LowerStr(host)
  {
    LowerStrAppend("www.", host);
    var l := LowerStr("www.") + LowerStr(host);
    assert LowerStr("www.") == "www.";
    assert l[..4] == "www.";
    assert l[4..] == LowerStr(host);
  }
}
