/** The part of `urllib.parse.urlsplit` (as in CPython 3.12) that the scrapers rely on:
    the scheme and the network location (the authority component of section 3.2 of
    RFC 3986), the three `ValueError`s the splitter raises on a network location, and the
    checks built on them: `is_valid_url` (phone_scraper.py:74-80), the domain filter of
    `find_links` (simple_scraper.py:170-178) and `is_valid_http_url` (core/web_app.py:35-40). */
module Url {
  import opened Maybe
  import opened Text

  /** A character `url.lstrip` removes: the C0 controls and space. */
  predicate IsC0OrSpace(c: char) { c <= ' ' }

  /** A character removed from anywhere in the URL: tab, CR and LF. */
  predicate IsUnsafe(c: char) { c == '\t' || c == '\r' || c == '\n' }

  function LeadingC0(s: string): (n: nat)
    ensures n <= |s|
    ensures forall k :: 0 <= k < n ==> IsC0OrSpace(s[k])
    ensures n == |s| || !IsC0OrSpace(s[n])
  {
    if s == [] || !IsC0OrSpace(s[0]) then 0 else 1 + LeadingC0(s[1..])
  }

  function RemoveUnsafe(s: string): (r: string)
    ensures forall k :: 0 <= k < |r| ==> !IsUnsafe(r[k])
    ensures |r| <= |s|
  {
    if s == [] then []
    else (if IsUnsafe(s[0]) then [] else [s[0]]) + RemoveUnsafe(s[1..])
  }

  lemma {:induction false} RemoveUnsafeNoop(s: string)
    requires forall k :: 0 <= k < |s| ==> !IsUnsafe(s[k])
    ensures RemoveUnsafe(s) == s
  {
    if s != [] {
      RemoveUnsafeNoop(s[1..]);
    }
  }

  predicate SchemeChar(c: char) { IsAsciiLetter(c) || IsDigit(c) || c == '+' || c == '-' || c == '.' }

  /** Where the network location ends: the first `/`, `?` or `#` at or after `start`. */
  function NetlocEnd(r: string, start: nat): (n: nat)
    requires start <= |r|
    ensures start <= n <= |r|
    ensures forall k :: start <= k < n ==> r[k] !in "/?#"
    ensures n == |r| || r[n] in "/?#"
    decreases |r| - start
  {
    if start == |r| || r[start] in "/?#" then start else NetlocEnd(r, start + 1)
  }

  datatype Split = Split(scheme: string, netloc: string, rest: string)

  /** The scheme: the text before the first `:`, when it starts with an ASCII letter and
      consists of scheme characters; lower-cased. */
  function SchemeSplit(u: string): (r: (string, string))
  {
    var i := Find(u, ":");
    if i.Some? && i.value > 0 && IsAsciiLetter(u[0])
      && forall k :: 0 <= k < i.value ==> SchemeChar(u[k])
    then (LowerAscii(u[..i.value]), u[i.value + 1..])
    else ("", u)
  }

  /** The first position of `c` in `s`. */
  function IndexOf(s: string, c: char): (r: Option<nat>)
    ensures r.None? <==> c !in s
    ensures r.Some? ==> r.value < |s| && s[r.value] == c && c !in s[..r.value]
  {
    if s == [] then None
    else if s[0] == c then Some(0)
    else
      var r := IndexOf(s[1..], c);
      assert s == [s[0]] + s[1..];
      if r.None? then None
      else
        assert s[..r.value + 1] == [s[0]] + s[1..][..r.value];
        Some(r.value + 1)
  }

  /** `s.rpartition(c)[2]`: what follows the last `c`, or all of `s` when there is none. */
  function AfterLast(s: string, c: char): (r: string)
    ensures c !in r && |r| <= |s| && s[|s| - |r|..] == r
    ensures |r| == |s| || s[|s| - |r| - 1] == c
    ensures c !in s ==> r == s
  {
    if s == [] || s[|s| - 1] == c then []
    else
      var r := AfterLast(s[..|s| - 1], c);
      assert s[..|s| - 1][|s| - 1 - |r|..] == s[|s| - 1 - |r|..|s| - 1];
      assert s[|s| - 1 - |r|..] == s[|s| - 1 - |r|..|s| - 1] + [s[|s| - 1]];
      r + [s[|s| - 1]]
  }

  /** `s.split(c)`: the pieces between the occurrences of `c`. */
  function SplitOn(s: string, c: char): (r: seq<string>)
    ensures |r| >= 1
    decreases |s|
  {
    match IndexOf(s, c)
    case None => [s]
    case Some(i) => [s[..i]] + SplitOn(s[i + 1..], c)
  }

  predicate IsHexDigit(c: char) { IsDigit(c) || 'a' <= c <= 'f' || 'A' <= c <= 'F' }

  /** `_BaseV6._parse_hextet`: one to four hexadecimal digits (`int('', 16)` raises on an
      empty one). */
  predicate Hextet(s: string) {
    1 <= |s| <= 4 && forall k :: 0 <= k < |s| ==> IsHexDigit(s[k])
  }

  /** `_BaseV4._parse_octet`: one to three ASCII digits, no leading zero, at most 255. */
  predicate Octet(s: string) {
    && 1 <= |s| <= 3 && AllDigits(s) && (|s| == 1 || s[0] != '0')
    && (|s| == 3 ==> s[0] < '2' || (s[0] == '2' && (s[1] < '5' || (s[1] == '5' && s[2] <= '5'))))
  }

  /** `IPv4Address(s)` accepts the string: no `/`, and four octets between dots. */
  predicate Ipv4Address(s: string) {
    var os := SplitOn(s, '.');
    '/' !in s && |os| == 4 && Octet(os[0]) && Octet(os[1]) && Octet(os[2]) && Octet(os[3])
  }

  /** The first empty part at or after `i`, leaving out the last part. */
  function InnerEmpty(parts: seq<string>, i: nat): (r: Option<nat>)
    ensures r.Some? ==> i <= r.value && r.value + 1 < |parts| && parts[r.value] == ""
    ensures r.None? ==> forall k :: i <= k && k + 1 < |parts| ==> parts[k] != ""
    decreases |parts| - i
  {
    if i + 1 >= |parts| then None
    else if parts[i] == "" then Some(i)
    else InnerEmpty(parts, i + 1)
  }

  /** The hextet rules of `_BaseV6._ip_int_from_string` over the colon-separated parts:
      without `::` exactly eight hextets; with one `::` (one empty inner part) at least one
      hextet left out, and an empty first or last part only as half of that `::`. */
  predicate HextetLayout(parts: seq<string>) {
    var n := |parts|;
    match InnerEmpty(parts, 1)
    case None => n == 8 && forall k :: 0 <= k < n ==> Hextet(parts[k])
    case Some(skip) =>
      && InnerEmpty(parts, skip + 1).None?
      && (parts[0] == "" ==> skip == 1)
      && (parts[n - 1] == "" ==> skip == n - 2)
      && var hi := if parts[0] == "" then 0 else skip;
         var lo := if parts[n - 1] == "" then 0 else n - skip - 1;
         && hi + lo <= 7
         && (forall k :: 0 <= k < hi ==> Hextet(parts[k]))
         && (forall k :: n - lo <= k < n ==> Hextet(parts[k]))
  }

  /** `_BaseV6._ip_int_from_string`: at most 45 characters, three to nine parts, where a
      last part with a `.` is an IPv4 address standing for two hextets. */
  predicate Ipv6Body(a: string) {
    var ps := SplitOn(a, ':');
    var last := ps[|ps| - 1];
    && a != "" && |a| <= 45 && |ps| >= 3
    && if '.' in last then |ps| + 1 <= 9 && Ipv4Address(last) && HextetLayout(ps[..|ps| - 1] + ["0", "0"])
       else |ps| <= 9 && HextetLayout(ps)
  }

  /** `IPv6Address(s)` accepts the string: no `/`, a non-empty scope id without `%` after
      the first `%` if there is one, and an IPv6 address before it. */
  predicate Ipv6Address(s: string) {
    var pct := IndexOf(s, '%');
    && '/' !in s
    && (pct.Some? ==> s[pct.value + 1..] != "" && '%' !in s[pct.value + 1..])
    && Ipv6Body(if pct.Some? then s[..pct.value] else s)
  }

  /** The end of the run of hexadecimal digits starting at `i`. */
  function HexRun(s: string, i: nat): (j: nat)
    requires i <= |s|
    ensures i <= j <= |s| && (j == |s| || !IsHexDigit(s[j]))
    ensures forall k :: i <= k < j ==> IsHexDigit(s[k])
    decreases |s| - i
  {
    if i == |s| || !IsHexDigit(s[i]) then i else HexRun(s, i + 1)
  }

  /** `re.match(r"\Av[a-fA-F0-9]+\..+\Z", h)`: `v`, hexadecimal digits, a dot, and at least
      one more character, none of them a line feed. */
  predicate IpvFuture(h: string) {
    && |h| >= 2 && h[0] == 'v'
    && var j := HexRun(h, 1);
       j >= 2 && j + 1 < |h| && h[j] == '.' && '\n' !in h[j + 1..]
  }

  /** `_check_bracketed_host`: an IPvFuture address when the host starts with `v`, and
      otherwise an IPv6 address (an IPv4 address is refused, and no string is both). */
  predicate BracketedHostOk(h: string) {
    if |h| > 0 && h[0] == 'v' then IpvFuture(h) else Ipv6Address(h)
  }

  /** The host `_check_bracketed_netloc` checks: after the last `@`, either `[`, the host,
      `]` and nothing or a `:` port, or (a bracket only in the user part) the text before
      the first `:`; `None` when the bracket is misplaced. */
  function BracketedHostname(netloc: string): Option<string> {
    HostnameIn(AfterLast(netloc, '@'))
  }

  /** The host in the host-and-port part `hp` of a network location. */
  function HostnameIn(hp: string): Option<string> {
    match IndexOf(hp, '[')
    case Some(b) =>
      var inner := hp[b + 1..];
      var e := IndexOf(inner, ']');
      var hostname := if e.Some? then inner[..e.value] else inner;
      var port := if e.Some? then inner[e.value + 1..] else "";
      if b == 0 && (port == "" || port[0] == ':') then Some(hostname) else None
    case None =>
      var c := IndexOf(hp, ':');
      Some(if c.Some? then hp[..c.value] else hp)
  }

  /** `_check_bracketed_netloc`: the host found there must pass `_check_bracketed_host`. */
  predicate BracketedNetlocOk(netloc: string) {
    var h := BracketedHostname(netloc);
    h.Some? && BracketedHostOk(h.value)
  }

  /** A character whose NFKC form (Unicode 15.0) contains `/`, `?`, `#`, `@` or `:`. These
      are exactly the characters that make `_checknetloc` raise. */
  predicate NfkcDelimiter(c: char) {
    c in {'\U{2047}', '\U{2048}', '\U{2049}', '\U{2100}', '\U{2101}', '\U{2105}', '\U{2106}',
          '\U{2A74}', '\U{FE13}', '\U{FE16}', '\U{FE55}', '\U{FE56}', '\U{FE5F}', '\U{FE6B}',
          '\U{FF03}', '\U{FF0F}', '\U{FF1A}', '\U{FF1F}', '\U{FF20}'}
  }

  /** The network location passes the splitter's checks: `[` exactly when `]`, the
      bracketed-host check when it has both, and no character that NFKC turns into a
      delimiter. */
  predicate NetlocAccepted(netloc: string) {
    && (('[' in netloc) <==> (']' in netloc))
    && ('[' in netloc ==> BracketedNetlocOk(netloc))
    && forall k :: 0 <= k < |netloc| ==> !NfkcDelimiter(netloc[k])
  }

  /** `urlsplit(url)`, reduced to scheme, netloc and the rest; `Raised` for the
      `ValueError`s of a network location the checks refuse. */
  function UrlSplit(url: string): Result<Split> {
    var u := RemoveUnsafe(url[LeadingC0(url)..]);
    var (scheme, r) := SchemeSplit(u);
    if |r| >= 2 && r[..2] == "//" then
      var n := NetlocEnd(r, 2);
      var netloc := r[2..n];
      if NetlocAccepted(netloc) then Ok(Split(scheme, netloc, r[n..])) else Raised
    else Ok(Split(scheme, "", r))
  }

  predicate IsHttpScheme(scheme: string) { scheme == "http" || scheme == "https" }

  /** `PhoneScraper.is_valid_url`: same network location as the start URL and an HTTP(S)
      scheme; a parse error counts as invalid. */
  predicate IsSameSiteUrl(domain: string, url: string) {
    var s := UrlSplit(url);
    s.Ok? && s.value.netloc == domain && IsHttpScheme(s.value.scheme)
  }

  /** `is_valid_http_url`. */
  predicate IsValidHttpUrl(url: string) {
    var s := UrlSplit(url);
    s.Ok? && IsHttpScheme(s.value.scheme) && s.value.netloc != ""
  }

  /** A URL written plainly: no leading control or space characters and no tab, CR or LF. */
  predicate Plain(url: string) {
    (url == [] || !IsC0OrSpace(url[0])) && forall k :: 0 <= k < |url| ==> !IsUnsafe(url[k])
  }

  /** Text that can stand between `//` and the path: no `/`, `?` or `#`. */
  predicate NetlocText(h: string) {
    forall k :: 0 <= k < |h| ==> h[k] !in "/?#"
  }

  /** A host part the splitter accepts. */
  predicate HostPart(h: string) {
    NetlocText(h) && NetlocAccepted(h)
  }

  /** What follows the host: nothing, or a path, query or fragment. */
  predicate AfterHost(rest: string) { rest == [] || rest[0] in "/?#" }

  lemma LowerAsciiLength(s: string)
    ensures |LowerAscii(s)| == |s|
  {
  }

  lemma {:induction false} LeadingC0Zero(url: string)
    requires url == [] || !IsC0OrSpace(url[0])
    ensures LeadingC0(url) == 0
  {
  }

  lemma CleanedPlain(url: string)
    requires Plain(url)
    ensures RemoveUnsafe(url[LeadingC0(url)..]) == url
  {
    LeadingC0Zero(url);
    assert url[0..] == url;
    RemoveUnsafeNoop(url);
  }

  /** A scheme followed by `:` is split off and lower-cased. */
  lemma SchemeSplitAt(s: string, tail: string)
    requires |s| > 0 && IsAsciiLetter(s[0]) && forall k :: 0 <= k < |s| ==> SchemeChar(s[k])
    ensures SchemeSplit(s + ":" + tail) == (LowerAscii(s), tail)
  {
    var u := s + ":" + tail;
    assert OccursAt(":", u, |s|) by {
      assert u[|s|..|s| + 1] == ":";
    }
    forall q: nat | q < |s|
      ensures !OccursAt(":", u, q)
    {
      assert u[q..q + 1][0] == u[q] == s[q];
    }
    assert Find(u, ":") == Some(|s|);
    assert u[..|s|] == s;
    assert u[|s| + 1..] == tail;
  }

  lemma {:induction false} NetlocEndAt(r: string, start: nat, n: nat)
    requires start <= n <= |r|
    requires forall k :: start <= k < n ==> r[k] !in "/?#"
    requires n == |r| || r[n] in "/?#"
    ensures NetlocEnd(r, start) == n
    decreases n - start
  {
    if start < n {
      NetlocEndAt(r, start + 1, n);
    }
  }

  /** After `//`, the host runs up to the first `/`, `?` or `#`. */
  lemma NetlocSplit(host: string, rest: string)
    requires forall k :: 0 <= k < |host| ==> host[k] !in "/?#"
    requires AfterHost(rest)
    ensures var r := "//" + host + rest;
      |r| >= 2 && r[..2] == "//" && NetlocEnd(r, 2) == 2 + |host|
      && r[2..2 + |host|] == host && r[2 + |host|..] == rest
  {
    var r := "//" + host + rest;
    forall k | 2 <= k < 2 + |host|
      ensures r[k] !in "/?#"
    {
      assert r[k] == host[k - 2];
    }
    if rest != [] {
      assert r[2 + |host|] == rest[0];
    }
    NetlocEndAt(r, 2, 2 + |host|);
    assert r[2..2 + |host|] == host;
    assert r[2 + |host|..] == rest;
  }

  /** A plainly written URL splits into the scheme before `://`, the host up to the first
      `/`, `?` or `#`, and the rest, unless the host fails the splitter's checks. */
  lemma SplitOfPlainUrl(s: string, host: string, rest: string)
    requires |s| > 0 && IsAsciiLetter(s[0]) && forall k :: 0 <= k < |s| ==> SchemeChar(s[k])
    requires NetlocText(host) && AfterHost(rest)
    requires Plain(s + "://" + host + rest)
    ensures UrlSplit(s + "://" + host + rest) ==
      if NetlocAccepted(host) then Ok(Split(LowerAscii(s), host, rest)) else Raised
  {
    var url := s + "://" + host + rest;
    assert url == s + ":" + ("//" + host + rest);
    CleanedPlain(url);
    SchemeSplitAt(s, "//" + host + rest);
    NetlocSplit(host, rest);
  }

  /** `is_valid_http_url` accepts every plainly written `http://` or `https://` URL, in any
      letter case, whose host is non-empty. */
  lemma ValidHttpUrlAccepts(s: string, host: string, rest: string)
    requires IsHttpScheme(LowerAscii(s))
    requires host != [] && HostPart(host) && AfterHost(rest)
    requires Plain(s + "://" + host + rest)
    ensures IsValidHttpUrl(s + "://" + host + rest)
  {
    HttpSchemeWritten(s);
    SplitOfPlainUrl(s, host, rest);
  }

  /** A scheme that lower-cases to `http` or `https` is written with scheme characters
      and starts with a letter. */
  lemma HttpSchemeWritten(s: string)
    requires IsHttpScheme(LowerAscii(s))
    ensures |s| > 0 && IsAsciiLetter(s[0]) && forall k :: 0 <= k < |s| ==> SchemeChar(s[k])
  {
    LowerAsciiLength(s);
    forall k | 0 <= k < |s|
      ensures SchemeChar(s[k])
    {
      assert LowerChar(s[k]) == LowerAscii(s)[k];
    }
    assert LowerChar(s[0]) == LowerAscii(s)[0];
  }

  /** When a scheme is split off, the text is that scheme, a `:` and the remainder. */
  lemma SchemeSplitShape(u: string)
    requires SchemeSplit(u).0 != ""
    ensures exists s :: u == s + ":" + SchemeSplit(u).1 && LowerAscii(s) == SchemeSplit(u).0
  {
    var i := Find(u, ":").value;
    var s := u[..i];
    assert u[i..i + 1] == ":";
    assert u == s + u[i..i + 1] + u[i + 1..];
  }

  /** After `//`, the remainder is the host part and the rest. */
  lemma NetlocShape(r: string)
    requires |r| >= 2 && r[..2] == "//"
    ensures var n := NetlocEnd(r, 2);
      r == "//" + r[2..n] + r[n..] && AfterHost(r[n..])
      && forall k :: 0 <= k < |r[2..n]| ==> r[2..n][k] !in "/?#"
  {
    var n := NetlocEnd(r, 2);
    assert r == r[..2] + r[2..n] + r[n..];
    forall k | 0 <= k < |r[2..n]|
      ensures r[2..n][k] !in "/?#"
    {
      assert r[2..n][k] == r[k + 2];
    }
  }

  /** A split with a network location came from a remainder starting with `//`. */
  lemma UrlSplitParts(url: string)
    requires UrlSplit(url).Ok? && UrlSplit(url).value.netloc != ""
    ensures var u := RemoveUnsafe(url[LeadingC0(url)..]);
      var r := SchemeSplit(u).1;
      |r| >= 2 && r[..2] == "//"
      && UrlSplit(url).value.netloc == r[2..NetlocEnd(r, 2)]
      && UrlSplit(url).value.rest == r[NetlocEnd(r, 2)..]
      && UrlSplit(url).value.scheme == SchemeSplit(u).0
      && HostPart(r[2..NetlocEnd(r, 2)])
  {
  }

  lemma JoinAfterScheme(s: string, host: string, rest: string)
    ensures s + ":" + ("//" + host + rest) == s + "://" + host + rest
  {
    assert ":" + "//" == "://";
  }

  /** A URL whose split has a scheme and a network location is, once the characters the
      splitter discards are removed, that scheme, `://`, that network location and the rest. */
  lemma SplitShape(url: string) returns (s: string, rest: string)
    requires UrlSplit(url).Ok? && UrlSplit(url).value.netloc != "" && UrlSplit(url).value.scheme != ""
    ensures RemoveUnsafe(url[LeadingC0(url)..]) == s + "://" + UrlSplit(url).value.netloc + rest
    ensures LowerAscii(s) == UrlSplit(url).value.scheme && rest == UrlSplit(url).value.rest
    ensures HostPart(UrlSplit(url).value.netloc) && AfterHost(rest)
  {
    var u := RemoveUnsafe(url[LeadingC0(url)..]);
    var sp := UrlSplit(url).value;
    UrlSplitParts(url);
    var r := SchemeSplit(u).1;
    SchemeSplitShape(u);
    s :| u == s + ":" + r && LowerAscii(s) == SchemeSplit(u).0;
    NetlocShape(r);
    rest := sp.rest;
    assert r == "//" + sp.netloc + rest;
    JoinAfterScheme(s, sp.netloc, rest);
  }

  /** Conversely, every URL `is_valid_http_url` accepts is, once the characters the splitter
      discards are removed, `http://` or `https://` (in any letter case), a non-empty host
      and the rest. */
  lemma ValidHttpUrlShape(url: string)
    requires IsValidHttpUrl(url)
    ensures var u := RemoveUnsafe(url[LeadingC0(url)..]);
      exists s, host, rest :: (u == s + "://" + host + rest
        && (LowerAscii(s) == "http" || LowerAscii(s) == "https")
        && host != [] && HostPart(host) && AfterHost(rest))
  {
    assert UrlSplit(url).value.scheme != "";
    var s, rest := SplitShape(url);
    var host := UrlSplit(url).value.netloc;
    assert RemoveUnsafe(url[LeadingC0(url)..]) == s + "://" + host + rest;
  }

  /** The domain `find_links` keeps: the host the simple scraper is written for. */
  const SCHOOL_HOST := "www.schdri.com"

  /** The filter `urlparse(full_url).netloc == 'www.schdri.com'` of `find_links`; the
      `ValueError` of the splitter is not caught there, so it is passed on. */
  function OnSchoolHost(url: string): Result<bool> {
    var s := UrlSplit(url);
    if s.Raised? then Raised else Ok(s.value.netloc == SCHOOL_HOST)
  }

  /** On a plainly written URL the host test compares the host with the school's, and
      fails exactly when the splitter refuses the host. */
  lemma SchoolHostOfPlainUrl(s: string, host: string, rest: string)
    requires |s| > 0 && IsAsciiLetter(s[0]) && forall k :: 0 <= k < |s| ==> SchemeChar(s[k])
    requires NetlocText(host) && AfterHost(rest)
    requires Plain(s + "://" + host + rest)
    ensures OnSchoolHost(s + "://" + host + rest) ==
      if NetlocAccepted(host) then Ok(host == SCHOOL_HOST) else Raised
  {
    SplitOfPlainUrl(s, host, rest);
  }

  /** `is_valid_url` on a plainly written URL: true exactly for an `http` or `https`
      scheme (in any letter case) and the start URL's host; a refused host is invalid. */
  lemma SameSiteOfPlainUrl(domain: string, s: string, host: string, rest: string)
    requires |s| > 0 && IsAsciiLetter(s[0]) && forall k :: 0 <= k < |s| ==> SchemeChar(s[k])
    requires NetlocText(host) && AfterHost(rest)
    requires Plain(s + "://" + host + rest)
    ensures IsSameSiteUrl(domain, s + "://" + host + rest) <==>
      NetlocAccepted(host) && host == domain && IsHttpScheme(LowerAscii(s))
  {
    SplitOfPlainUrl(s, host, rest);
  }

  /** Conversely, a URL `is_valid_url` accepts for a non-empty domain is, once the
      discarded characters are removed, `http://` or `https://`, the domain and the rest. */
  lemma SameSiteShape(domain: string, url: string) returns (s: string, rest: string)
    requires domain != "" && IsSameSiteUrl(domain, url)
    ensures RemoveUnsafe(url[LeadingC0(url)..]) == s + "://" + domain + rest
    ensures IsHttpScheme(LowerAscii(s)) && HostPart(domain) && AfterHost(rest)
  {
    s, rest := SplitShape(url);
  }

  /** An unbalanced bracket in the host part makes the splitter raise. */
  lemma UnbalancedBracketRaises(s: string, host: string, rest: string)
    requires |s| > 0 && IsAsciiLetter(s[0]) && forall k :: 0 <= k < |s| ==> SchemeChar(s[k])
    requires NetlocText(host) && ('[' in host) != (']' in host)
    requires AfterHost(rest) && Plain(s + "://" + host + rest)
    ensures UrlSplit(s + "://" + host + rest).Raised?
    ensures !IsValidHttpUrl(s + "://" + host + rest)
  {
    SplitOfPlainUrl(s, host, rest);
  }

  /** A character that NFKC maps to a delimiter makes the splitter raise. */
  lemma NfkcDelimiterRaises(s: string, host: string, rest: string, k: nat)
    requires |s| > 0 && IsAsciiLetter(s[0]) && forall k :: 0 <= k < |s| ==> SchemeChar(s[k])
    requires NetlocText(host) && k < |host| && NfkcDelimiter(host[k])
    requires AfterHost(rest) && Plain(s + "://" + host + rest)
    ensures UrlSplit(s + "://" + host + rest).Raised?
    ensures !IsValidHttpUrl(s + "://" + host + rest)
  {
    SplitOfPlainUrl(s, host, rest);
  }

  predicate NoUnsafe(h: string) {
    forall k :: 0 <= k < |h| ==> !IsUnsafe(h[k])
  }

  /** An `http://` URL with a plainly written host and rest splits into that host and rest,
      unless the host fails the splitter's checks. */
  lemma HttpUrlSplit(host: string, rest: string)
    requires NetlocText(host) && AfterHost(rest)
    requires NoUnsafe(host) && NoUnsafe(rest)
    ensures UrlSplit("http://" + host + rest) ==
      if NetlocAccepted(host) then Ok(Split("http", host, rest)) else Raised
  {
    var url := "http" + "://" + host + rest;
    assert url == "http://" + host + rest;
    forall k | 0 <= k < |url| ensures !IsUnsafe(url[k]) {
      if k >= 7 + |host| {
        assert url[k] == rest[k - 7 - |host|];
      } else if k >= 7 {
        assert url[k] == host[k - 7];
      }
    }
    assert LowerAscii("http") == "http";
    SplitOfPlainUrl("http", host, rest);
  }

  /** `a／b` (a fullwidth solidus, which NFKC turns into `/`) is refused as a host. */
  lemma FullwidthSolidusRefused()
    ensures NetlocText("a\U{FF0F}b") && NoUnsafe("a\U{FF0F}b") && !NetlocAccepted("a\U{FF0F}b")
  {
    var host := "a\U{FF0F}b";
    assert NfkcDelimiter(host[1]);
    forall k | 0 <= k < |host| ensures host[k] !in "/?#" && !IsUnsafe(host[k]) {
      assert host[k] == 'a' || host[k] == '\U{FF0F}' || host[k] == 'b';
    }
  }

  /** http://a／b is refused. */
  lemma FullwidthSolidusRaises()
    ensures UrlSplit("http://" + "a\U{FF0F}b" + "").Raised?
  {
    FullwidthSolidusRefused();
    assert NoUnsafe("");
    HttpUrlSplit("a\U{FF0F}b", "");
  }

  lemma NotInBrackets(h: string, c: char)
    requires c !in h && c != '[' && c != ']'
    ensures c !in "[" + h + "]"
  {
    var n := "[" + h + "]";
    forall k | 0 <= k < |n| ensures n[k] != c {
      if 1 <= k < |n| - 1 { assert n[k] == h[k - 1]; }
    }
  }

  /** In `[h]`, with no `@` or further bracket in `h`, the bracketed-netloc check looks at
      `h`. */
  lemma BracketedNetloc(h: string)
    requires '@' !in h && '[' !in h && ']' !in h
    ensures BracketedHostname("[" + h + "]") == Some(h)
  {
    var n := "[" + h + "]";
    NotInBrackets(h, '@');
    assert AfterLast(n, '@') == n;
    BracketedHostnameIn(h);
  }

  lemma BracketedHostnameIn(h: string)
    requires ']' !in h
    ensures HostnameIn("[" + h + "]") == Some(h)
  {
    var n := "[" + h + "]";
    assert IndexOf(n, '[') == Some(0);
    var inner := n[1..];
    assert inner == h + "]";
    IndexOfAfter(h, ']');
    assert inner[..|h|] == h && inner[|h| + 1..] == "";
  }

  /** A host in brackets with no `@` and no further bracket is accepted exactly when the
      text inside is an IPv6 or IPvFuture address without a character NFKC turns into a
      delimiter. */
  lemma BracketedHost(h: string)
    requires '@' !in h && '[' !in h && ']' !in h
    ensures NetlocAccepted("[" + h + "]") <==>
      BracketedHostOk(h) && forall k :: 0 <= k < |h| ==> !NfkcDelimiter(h[k])
  {
    var n := "[" + h + "]";
    assert n[0] == '[' && n[|n| - 1] == ']';
    BracketedNetloc(h);
    BracketedNoDelimiter(h);
  }

  lemma BracketedNoDelimiter(h: string)
    ensures (forall k :: 0 <= k < |"[" + h + "]"| ==> !NfkcDelimiter(("[" + h + "]")[k])) <==>
      (forall k :: 0 <= k < |h| ==> !NfkcDelimiter(h[k]))
  {
    var n := "[" + h + "]";
    assert forall k :: 0 <= k < |h| ==> n[k + 1] == h[k];
    assert forall k :: 1 <= k < |n| - 1 ==> n[k] == h[k - 1];
  }

  /** Brackets keep a host free of delimiters and of tab, CR and LF when it is. */
  lemma BracketedHostText(h: string)
    requires NetlocText(h) && NoUnsafe(h)
    ensures NetlocText("[" + h + "]") && NoUnsafe("[" + h + "]")
  {
    var n := "[" + h + "]";
    forall k | 0 <= k < |n| ensures n[k] !in "/?#" && !IsUnsafe(n[k]) {
      if 1 <= k < |n| - 1 { assert n[k] == h[k - 1]; }
    }
  }

  /** The first `c` in `h + [c]` is the appended one when `h` has none. */
  lemma IndexOfAfter(h: string, c: char)
    requires c !in h
    ensures IndexOf(h + [c], c) == Some(|h|)
  {
    assert (h + [c])[..|h|] == h;
  }

  /** The bracketed forms of the two sample hosts. */
  lemma BracketLiteral(h: string)
    ensures h == "abc" ==> "[" + h + "]" == "[abc]"
    ensures h == "::1" ==> "[" + h + "]" == "[::1]"
  {
  }

  /** `abc` is neither an IPv6 nor an IPvFuture address. */
  lemma AbcNotBracketedHost()
    ensures !BracketedHostOk("abc")
  {
    assert SplitOn("abc", ':') == ["abc"];
  }

  /** `[abc]`, a bracketed host that is neither an IPv6 nor an IPvFuture address, is
      refused. */
  lemma BracketedNameRefused()
    ensures NetlocText("[abc]") && NoUnsafe("[abc]") && !NetlocAccepted("[abc]")
  {
    var h := "abc";
    forall k | 0 <= k < |h| ensures h[k] !in "/?#" && !IsUnsafe(h[k]) && h[k] !in "@[]" {
      assert h[k] in "abc";
    }
    AbcNotBracketedHost();
    BracketedHost(h);
    BracketedHostText(h);
    BracketLiteral(h);
  }

  /** http://[abc]/ is refused. */
  lemma BracketedNameRaises()
    ensures UrlSplit("http://" + "[abc]" + "/").Raised?
  {
    BracketedNameRefused();
    assert NoUnsafe("/");
    HttpUrlSplit("[abc]", "/");
  }

  lemma LoopbackParts()
    ensures SplitOn("::1", ':') == ["", "", "1"]
  {
    assert "::1"[1..] == ":1" && ":1"[1..] == "1";
    assert SplitOn("1", ':') == ["1"];
    assert SplitOn(":1", ':') == ["", "1"];
  }

  lemma LoopbackLayout()
    ensures HextetLayout(["", "", "1"])
  {
    var ps := ["", "", "1"];
    assert InnerEmpty(ps, 1) == Some(1);
    assert InnerEmpty(ps, 2) == None;
    assert Hextet(ps[2]);
  }

  /** `::1`, the IPv6 loopback address, passes the bracketed-host check. */
  lemma LoopbackBracketedHost()
    ensures BracketedHostOk("::1")
  {
    LoopbackParts();
    LoopbackLayout();
    assert "1"[0] == '1';
    assert '.' !in "1";
    assert Ipv6Body("::1");
    assert IndexOf("::1", '%') == None;
  }

  /** The IPv6 loopback literal `[::1]` is accepted as a host. */
  lemma Ipv6LoopbackHost()
    ensures NetlocText("[::1]") && NoUnsafe("[::1]") && NetlocAccepted("[::1]")
  {
    var h := "::1";
    forall k | 0 <= k < |h|
      ensures h[k] !in "/?#" && !IsUnsafe(h[k]) && h[k] !in "@[]" && !NfkcDelimiter(h[k])
    {
      assert h[k] in "::1";
    }
    LoopbackBracketedHost();
    BracketedHost(h);
    BracketedHostText(h);
    BracketLiteral(h);
  }

  /** `http://[::1]/` splits into its bracketed host and the path. */
  lemma Ipv6LoopbackAccepted()
    ensures UrlSplit("http://" + "[::1]" + "/") == Ok(Split("http", "[::1]", "/"))
  {
    Ipv6LoopbackHost();
    assert NoUnsafe("/");
    HttpUrlSplit("[::1]", "/");
  }
}
