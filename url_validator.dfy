/**
 * `isValidUrl` and `formatUrl`: a layered acceptor for user-typed URLs and
 * the protocol coercion applied before a URL is encoded.
 */
module UrlValidator {
  import opened Wrappers
  import opened JsString
  import opened Constants
  import opened UrlPattern

  /** The two properties of the object built by `new URL(...)` that are inspected. */
  datatype ParsedUrl = ParsedUrl(protocol: string, hostname: string)

  /**
   * The basic URL parser of the WHATWG URL Standard (section 4.4), as reached
   * through `new URL(s)`: `None` where the constructor throws a TypeError.
   */
  type UrlParser = string -> Option<ParsedUrl>

  /** The first guard: nothing typed, or only a protocol. */
  predicate IsBlankOrBareProtocol(url: string) {
    url == [] || Trim(url) == [] || Trim(url) == HTTPS || Trim(url) == HTTP
  }

  /** `urlWithoutProtocol.split('/')[0].split(':')[0]`: the text `domainPattern` is tested on. */
  function HostSegment(trimmed: string): string {
    Split(Split(StripProtocol(trimmed), '/')[0], ':')[0]
  }

  /** `urlToTest`: the string handed to the URL parser. */
  function UrlToTest(trimmed: string): string {
    if StartsWith(trimmed, HTTP) || StartsWith(trimmed, HTTPS) then trimmed else HTTPS + trimmed
  }

  /** The checks on the parsed URL: a dot in the hostname, a last label of two or more, http(s). */
  predicate IsAcceptableParse(u: ParsedUrl) {
    var hostnameParts := Split(u.hostname, '.');
    var tld := hostnameParts[|hostnameParts| - 1];
    '.' in u.hostname && |tld| >= 2 && (u.protocol == "http:" || u.protocol == "https:")
  }

  /** `isValidUrl(url)`; a parser failure is caught and yields `false`. */
  predicate IsValidUrl(url: string, parse: UrlParser) {
    if IsBlankOrBareProtocol(url) then false
    else
      var trimmed := Trim(url);
      if !MatchesUrlPattern(trimmed) then false
      else if !MatchesDomainPattern(HostSegment(trimmed)) then false
      else
        match parse(UrlToTest(trimmed))
        case None => false
        case Some(u) => IsAcceptableParse(u)
  }

  /** `formatUrl(url)`: the trimmed input, with `https://` put in front unless it has a protocol. */
  function FormatUrl(url: string): (r: string)
    ensures StartsWith(r, HTTP) || StartsWith(r, HTTPS)
    ensures |Trim(url)| <= |r| && r[|r| - |Trim(url)|..] == Trim(url)
    ensures StartsWith(Trim(url), HTTP) || StartsWith(Trim(url), HTTPS) ==> r == Trim(url)
    ensures !StartsWith(Trim(url), HTTP) && !StartsWith(Trim(url), HTTPS) ==> r == HTTPS + Trim(url)
  {
    var trimmedUrl := Trim(url);
    if StartsWith(trimmedUrl, HTTP) || StartsWith(trimmedUrl, HTTPS) then
      trimmedUrl
    else
      assert (HTTPS + trimmedUrl)[8..] == trimmedUrl;
      HTTPS + trimmedUrl
  }

  // ---------------------------------------------------------------------
  // Properties
  // ---------------------------------------------------------------------

  /** Whenever `urlPattern` matches, `domainPattern` matches the host segment too. */
  lemma DomainStageRedundant(trimmed: string)
    ensures MatchesUrlPattern(trimmed) ==> MatchesDomainPattern(HostSegment(trimmed))
  {
    if MatchesUrlPattern(trimmed) {
      var rest := StripProtocol(trimmed);
      var h := rest[..PrefixRun(rest, IsHostChar)];
      HostSegmentIsHost(trimmed);
      MatchesHostIsHost(h);
      assert h[..|h|] == h;
      MatchesDomainPatternIsDomainPattern(h);
    }
  }

  /** When `urlPattern` matches, the host segment is exactly the host the pattern matched. */
  lemma HostSegmentIsHost(trimmed: string)
    requires MatchesUrlPattern(trimmed)
    ensures var rest := StripProtocol(trimmed);
      HostSegment(trimmed) == rest[..PrefixRun(rest, IsHostChar)]
  {
    var rest := StripProtocol(trimmed);
    var n := PrefixRun(rest, IsHostChar);
    var h := rest[..n];
    var r := rest[n..];
    assert rest == h + r;
    assert '/' !in h && ':' !in h by {
      forall x | 0 <= x < |h|
        ensures IsHostChar(h[x])
      {
        assert h[x] == rest[x];
      }
    }
    HostSegmentOf(h, r);
  }

  /** The first `/`-segment, then the first `:`-segment, of a host followed by a port and a tail. */
  lemma HostSegmentOf(h: string, r: string)
    requires '/' !in h && ':' !in h && MatchesPortAndTail(r)
    ensures Split(Split(h + r, '/')[0], ':')[0] == h
  {
    if r != [] && r[0] == ':' {
      HostSegmentWithPort(h, r, PrefixRun(r[1..], IsDigit));
    } else {
      SplitFirst(h, r, '/');
      SplitWithoutSeparator(h, ':');
    }
  }

  /** A host, a `:` and `d` digits, then nothing or a `/`: both splits stop at the host. */
  lemma HostSegmentWithPort(h: string, r: string, d: int)
    requires '/' !in h && ':' !in h
    requires 1 <= 1 + d <= |r| && r[0] == ':' && forall x :: 0 <= x < d ==> IsDigit(r[1..][x])
    requires IsTailOpt(r[1 + d..])
    ensures Split(Split(h + r, '/')[0], ':')[0] == h
  {
    var port := r[..1 + d];
    HostAndPort(h, r, d);
    SplitFirst(h + port, r[1 + d..], '/');
    SplitFirst(h, port, ':');
  }

  /** The host and the port of `h + r` have no `/` and are followed by the rest of `r`. */
  lemma HostAndPort(h: string, r: string, d: int)
    requires '/' !in h
    requires 1 <= 1 + d <= |r| && r[0] == ':' && forall x :: 0 <= x < d ==> IsDigit(r[1..][x])
    ensures h + r == (h + r[..1 + d]) + r[1 + d..]
    ensures '/' !in h + r[..1 + d]
  {
    var port := r[..1 + d];
    assert r == port + r[1 + d..];
    forall x | 0 <= x < |h + port|
      ensures (h + port)[x] != '/'
    {
      if x >= |h| + 1 {
        assert (h + port)[x] == r[1..][x - |h| - 1];
      }
    }
  }

  /** The string given to the URL parser is `formatUrl` of the same input. */
  lemma ParserSeesFormatUrl(url: string)
    ensures UrlToTest(Trim(url)) == FormatUrl(url)
  {
  }

  /** An empty, whitespace-only or bare-protocol input is rejected, whatever the parser does. */
  lemma RejectsBlankOrBareProtocol(url: string, parse: UrlParser)
    requires (forall i :: 0 <= i < |url| ==> IsWhitespace(url[i])) || Trim(url) == HTTPS || Trim(url) == HTTP
    ensures !IsValidUrl(url, parse)
  {
  }

  /** An input whose trim `urlPattern` rejects is rejected, whatever the parser does. */
  lemma RejectedByPattern(url: string, parse: UrlParser)
    requires !MatchesUrlPattern(Trim(url))
    ensures !IsValidUrl(url, parse)
  {
  }

  /**
   * `isValidUrl` accepts exactly the inputs whose trim is not a bare protocol,
   * is in the language of `urlPattern`, and whose `formatUrl` the URL parser
   * accepts with a dotted hostname, a last label of two or more characters and
   * the `http:` or `https:` protocol. The `domainPattern` stage adds nothing.
   */
  lemma IsValidUrlCharacterization(url: string, parse: UrlParser)
    ensures IsValidUrl(url, parse) <==>
      && Trim(url) != [] && Trim(url) != HTTPS && Trim(url) != HTTP
      && InUrlPattern(Trim(url))
      && parse(FormatUrl(url)).Some?
      && IsAcceptableParse(parse(FormatUrl(url)).value)
  {
    var t := Trim(url);
    IsValidUrlStages(url, parse);
    MatchesUrlPatternIsUrlPattern(t);
    DomainStageRedundant(t);
    ParserSeesFormatUrl(url);
  }

  /** `isValidUrl` as the conjunction of its stages, on the trimmed input. */
  lemma IsValidUrlStages(url: string, parse: UrlParser)
    ensures IsValidUrl(url, parse) <==>
      && Trim(url) != [] && Trim(url) != HTTPS && Trim(url) != HTTP
      && MatchesUrlPattern(Trim(url))
      && MatchesDomainPattern(HostSegment(Trim(url)))
      && parse(UrlToTest(Trim(url))).Some?
      && IsAcceptableParse(parse(UrlToTest(Trim(url))).value)
  {
    assert url == [] ==> Trim(url) == [];
  }

  /**
   * What an accepted URL's parse looks like: the parser succeeded on
   * `formatUrl(url)`, and the result passes the checks on the parsed URL.
   */
  lemma ValidUrlParse(url: string, parse: UrlParser)
    requires IsValidUrl(url, parse)
    ensures parse(FormatUrl(url)).Some? && IsAcceptableParse(parse(FormatUrl(url)).value)
  {
    ParserSeesFormatUrl(url);
  }

  /**
   * An accepted parse has the http or https protocol and a hostname with a
   * dot followed by at least two characters none of which is a dot.
   */
  lemma AcceptableParseHostname(u: ParsedUrl) returns (d: int)
    requires IsAcceptableParse(u)
    ensures u.protocol == "http:" || u.protocol == "https:"
    ensures 0 <= d < |u.hostname| - 2 && u.hostname[d] == '.' && '.' !in u.hostname[d + 1..]
  {
    var parts := Split(u.hostname, '.');
    var tld := parts[|parts| - 1];
    assert '.' in u.hostname && |tld| >= 2;
    d := SplitLast(u.hostname, '.');
    assert u.hostname[d + 1..] == tld && '.' !in tld;
  }

  /** `formatUrl` of an input with nothing to trim. */
  lemma FormatOfTrimmed(s: string)
    requires Trim(s) == s
    ensures FormatUrl(s) == if StartsWith(s, HTTP) || StartsWith(s, HTTPS) then s else HTTPS + s
  {
  }

  /** `formatUrl` is idempotent. */
  lemma FormatUrlIdempotent(url: string)
    ensures FormatUrl(FormatUrl(url)) == FormatUrl(url)
  {
    var f := FormatUrl(url);
    FormatUrlTrimmed(url);
    FormatOfTrimmed(f);
  }

  /** What `formatUrl` returns has nothing left to trim. */
  lemma FormatUrlTrimmed(url: string)
    ensures Trim(FormatUrl(url)) == FormatUrl(url)
  {
    var t := Trim(url);
    var f := FormatUrl(url);
    if StartsWith(t, HTTP) || StartsWith(t, HTTPS) {
      assert f == t;
      TrimOfTrimmed(t);
    } else {
      assert f == HTTPS + t;
      HttpsPrefixTrimmed(t);
    }
  }

  /** `https://` followed by a string that does not end in whitespace is its own trim. */
  lemma HttpsPrefixTrimmed(t: string)
    requires t == [] || !IsWhitespace(t[|t| - 1])
    ensures Trim(HTTPS + t) == HTTPS + t
  {
    var f := HTTPS + t;
    assert f[0] == 'h';
    assert f[|f| - 1] == if t == [] then '/' else t[|t| - 1];
    TrimOfTrimmed(f);
  }
}
