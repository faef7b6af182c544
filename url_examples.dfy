/**
 * The validator and formatter on the inputs named in the source's own
 * documentation, and on inputs that show each part of `urlPattern` at work.
 */
module UrlExamples {
  import opened Wrappers
  import opened JsString
  import opened UrlPattern
  import opened UrlValidator
  import opened Constants

  /** A string differing from both protocols at position `x` has no protocol to strip. */
  lemma NoProtocol(s: string, x: nat)
    requires x < 4
    requires |s| > x ==> s[x] != "http://"[x]
    ensures !StartsWith(s, "http://") && !StartsWith(s, "https://") && !StartsWith(s, HTTP) && !StartsWith(s, HTTPS)
    ensures StripProtocol(s) == s
  {
    if |s| >= 7 {
      assert s[..7][x] != "http://"[x];
    }
    if |s| >= 8 {
      assert s[..8][x] != "https://"[x];
    }
  }

  // ---------------------------------------------------------------------
  // Inputs `urlPattern` rejects, so `isValidUrl` rejects them for every parser
  // ---------------------------------------------------------------------

  /** A host run of label characters with no dot is not a host. */
  lemma PatternRejectsDotless(s: string, n: int)
    requires StripProtocol(s) == s
    requires 0 <= n <= |s| && forall x :: 0 <= x < n ==> IsLabelChar(s[x])
    requires n == |s| || !IsHostChar(s[n])
    ensures !MatchesUrlPattern(s)
  {
    PrefixRunIs(s, IsHostChar, n);
    var h := s[..n];
    forall x | 0 <= x < |h|
      ensures IsLabelChar(h[x])
    {
      assert h[x] == s[x];
    }
    PrefixRunIs(h, IsLabelChar, n);
  }

  /** One dot, label characters around it, and a last label that is not two letters or more. */
  lemma PatternRejectsBadTld(s: string, d: int)
    requires StripProtocol(s) == s
    requires 0 < d < |s| && s[d] == '.'
    requires forall x :: 0 <= x < |s| && x != d ==> IsLabelChar(s[x])
    requires !IsTld(s[d + 1..])
    ensures !MatchesUrlPattern(s)
  {
    PrefixRunIs(s, IsHostChar, |s|);
    assert s[..|s|] == s;
    PrefixRunIs(s, IsLabelChar, d);
    var rest := s[d + 1..];
    forall x | 0 <= x < |rest|
      ensures IsLabelChar(rest[x])
    {
      assert rest[x] == s[d + 1 + x];
    }
    PrefixRunIs(rest, IsLabelChar, |rest|);
    assert !MatchesHost(rest);
    assert !MatchesHost(s);
  }

  /** No dot at all: the host is a single label. */
  lemma PatternRejectsInvalid()
    ensures !MatchesUrlPattern("invalid")
  {
    NoProtocol("invalid", 0);
    PatternRejectsDotless("invalid", 7);
  }

  lemma RejectsInvalid(parse: UrlParser)
    ensures !IsValidUrl("invalid", parse)
  {
    TrimOfTrimmed("invalid");
    PatternRejectsInvalid();
    RejectedByPattern("invalid", parse);
  }

  /** The top-level label must be letters only. */
  lemma PatternRejectsDigitInTld()
    ensures !MatchesUrlPattern("a.x1")
  {
    var s := "a.x1";
    NoProtocol(s, 0);
    assert s[2..] == "x1" && !IsAlpha(s[2..][1]);
    PatternRejectsBadTld(s, 1);
  }

  lemma RejectsDigitInTld(parse: UrlParser)
    ensures !IsValidUrl("a.x1", parse)
  {
    TrimOfTrimmed("a.x1");
    PatternRejectsDigitInTld();
    RejectedByPattern("a.x1", parse);
  }

  /** The top-level label must have two letters or more: "a.b" is rejected. */
  lemma PatternRejectsOneLetterTld()
    ensures !MatchesUrlPattern("a.b")
  {
    var s := "a.b";
    NoProtocol(s, 0);
    assert |s[2..]| == 1;
    PatternRejectsBadTld(s, 1);
  }

  lemma RejectsOneLetterTld(parse: UrlParser)
    ensures !IsValidUrl("a.b", parse)
  {
    TrimOfTrimmed("a.b");
    PatternRejectsOneLetterTld();
    RejectedByPattern("a.b", parse);
  }

  /** The protocol is matched in lower case only. */
  lemma PatternRejectsUpperCaseProtocol()
    ensures !MatchesUrlPattern("HTTPS://a.com")
  {
    NoProtocol("HTTPS://a.com", 0);
    PatternRejectsDotless("HTTPS://a.com", 5);
  }

  lemma RejectsUpperCaseProtocol(parse: UrlParser)
    ensures !IsValidUrl("HTTPS://a.com", parse)
  {
    TrimOfTrimmed("HTTPS://a.com");
    PatternRejectsUpperCaseProtocol();
    RejectedByPattern("HTTPS://a.com", parse);
  }

  /** A port has at most five digits. */
  lemma PatternRejectsLongPort()
    ensures !MatchesUrlPattern("a.com:123456")
  {
    var s := "a.com:123456";
    NoProtocol(s, 1);
    PrefixRunIs(s, IsHostChar, 5);
    assert s[5..] == ":123456";
    PortTooLong();
  }

  lemma PortTooLong()
    ensures !MatchesPortAndTail(":123456")
  {
    var r := ":123456";
    assert r[1..] == "123456";
    PrefixRunIs(r[1..], IsDigit, 6);
  }

  lemma RejectsLongPort(parse: UrlParser)
    ensures !IsValidUrl("a.com:123456", parse)
  {
    TrimOfTrimmed("a.com:123456");
    PatternRejectsLongPort();
    RejectedByPattern("a.com:123456", parse);
  }

  // ---------------------------------------------------------------------
  // Inputs `urlPattern` accepts, and what the parser then decides
  // ---------------------------------------------------------------------

  /** `s` is an optional protocol ending at `i`, a label ending at the dot at `d`, and a top-level label. */
  predicate IsSimpleUrl(s: string, i: int, d: int) {
    && 0 <= i < d < |s|
    && IsProtocolOpt(s[..i])
    && IsLabel(s[i..d])
    && s[d] == '.'
    && IsTld(s[d + 1..])
  }

  /** After the protocol comes a host whose only dot is the one at `d`. */
  lemma SimpleHost(s: string, i: int, d: int)
    requires IsSimpleUrl(s, i, d)
    ensures IsHost(s[i..])
    ensures forall x :: 0 <= x < |s[i..]| && x != d - i ==> s[i..][x] != '.'
  {
    var h := s[i..];
    assert h[..d - i] == s[i..d];
    assert h[d - i + 1..] == s[d + 1..];
    assert HostCut(h, d - i);
    forall x | 0 <= x < |h| && x != d - i
      ensures h[x] != '.'
    {
      if x < d - i {
        assert h[x] == s[i..d][x];
      } else {
        assert h[x] == s[d + 1..][x - (d - i) - 1];
      }
    }
  }

  /** Nothing to trim: the input starts with a letter, a digit or `-` and ends with a letter. */
  lemma SimpleUrlTrimmed(s: string, i: int, d: int)
    requires IsSimpleUrl(s, i, d)
    ensures Trim(s) == s
  {
    assert IsLabelChar(s[|s| - 1]) by {
      assert s[|s| - 1] == s[d + 1..][|s| - d - 2];
    }
    if i == 0 {
      assert s[0] == s[i..d][0];
    } else {
      assert s[0] == s[..i][0];
    }
    TrimOfTrimmed(s);
  }

  /** The input starts with a protocol exactly when it has one before the host. */
  lemma SimpleUrlProtocol(s: string, i: int, d: int)
    requires IsSimpleUrl(s, i, d)
    ensures StartsWith(s, HTTP) || StartsWith(s, HTTPS) <==> i > 0
  {
    if i == 0 {
      SimpleHost(s, i, d);
      assert s[..|s|] == s[i..];
      HostIsNotProtocol(s, |s|);
    } else {
      assert s[..|s[..i]|] == s[..i];
    }
  }

  /** `formatUrl` keeps a protocol that is there and puts `https://` in front of a bare host. */
  lemma FormatSimpleUrl(s: string, i: int, d: int)
    requires IsSimpleUrl(s, i, d)
    ensures FormatUrl(s) == if i == 0 then HTTPS + s else s
  {
    SimpleUrlTrimmed(s, i, d);
    SimpleUrlProtocol(s, i, d);
    FormatOfTrimmed(s);
  }

  /** The input is in the language of `urlPattern`, and not a bare protocol. */
  lemma PatternAcceptsSimpleUrl(s: string, i: int, d: int)
    requires IsSimpleUrl(s, i, d)
    ensures MatchesUrlPattern(s)
    ensures s != HTTP && s != HTTPS
  {
    SimpleHost(s, i, d);
    assert s[i..|s|] == s[i..] && s[|s|..] == [];
    assert UrlPatternParts(s, i, |s|, |s|);
    MatchesUrlPatternAt(s, i, |s|, |s|);
    if i == 0 {
      assert s != HTTP && s != HTTPS by {
        HostChars(s[i..]);
        assert |s| > 5 ==> IsHostChar(s[i..][4]) && IsHostChar(s[i..][5]);
      }
    } else {
      assert |s| >= 10;
    }
  }

  /** A parsed hostname with one dot and a top-level label of two letters or more passes the checks. */
  lemma AcceptableSimpleHost(s: string, i: int, d: int, protocol: string)
    requires IsSimpleUrl(s, i, d)
    requires protocol == "http:" || protocol == "https:"
    ensures IsAcceptableParse(ParsedUrl(protocol, s[i..]))
  {
    SimpleHost(s, i, d);
    LastLabelOfOneDot(s[i..], d - i);
    assert s[i..][d - i + 1..] == s[d + 1..];
  }

  /** The last dot-separated label of a hostname with one dot. */
  lemma LastLabelOfOneDot(h: string, d: nat)
    requires d < |h| && h[d] == '.'
    requires forall x :: 0 <= x < |h| && x != d ==> h[x] != '.'
    ensures var parts := Split(h, '.'); parts[|parts| - 1] == h[d + 1..]
  {
    var d' := SplitLast(h, '.');
    assert d' == d;
  }

  /** Every stage of `isValidUrl` before the parser lets such an input through. */
  lemma SimpleUrlStages(s: string, i: int, d: int)
    requires IsSimpleUrl(s, i, d)
    ensures Trim(s) == s && s != [] && s != HTTP && s != HTTPS
    ensures MatchesUrlPattern(s) && MatchesDomainPattern(HostSegment(s))
    ensures UrlToTest(s) == if i == 0 then HTTPS + s else s
  {
    assert Trim(s) == s by {
      SimpleUrlTrimmed(s, i, d);
    }
    assert UrlToTest(s) == if i == 0 then HTTPS + s else s by {
      FormatSimpleUrl(s, i, d);
      ParserSeesFormatUrl(s);
    }
    assert MatchesUrlPattern(s) && s != HTTP && s != HTTPS by {
      PatternAcceptsSimpleUrl(s, i, d);
    }
    DomainStageRedundant(s);
  }

  /**
   * An optional protocol, a label, a dot and a top-level label is accepted,
   * given a parser that reads `formatUrl` of it with that hostname and the
   * `http:` or `https:` protocol.
   */
  lemma AcceptsSimpleUrl(s: string, i: int, d: int, protocol: string, parse: UrlParser)
    requires IsSimpleUrl(s, i, d)
    requires protocol == "http:" || protocol == "https:"
    requires parse(if i == 0 then HTTPS + s else s) == Some(ParsedUrl(protocol, s[i..]))
    ensures IsValidUrl(s, parse)
  {
    SimpleUrlStages(s, i, d);
    AcceptableSimpleHost(s, i, d, protocol);
    IsValidUrlStages(s, parse);
  }

  lemma GoogleComIsSimple()
    ensures IsSimpleUrl("google.com", 0, 6)
  {
    var s := "google.com";
    assert s[..0] == [];
    assert s[0..6] == "google";
    assert s[7..] == "com";
  }

  lemma HttpsExampleComIsSimple()
    ensures IsSimpleUrl("https://example.com", 8, 15)
  {
    var s := "https://example.com";
    assert s[..8] == HTTPS;
    assert s[8..15] == "example";
    assert s[16..] == "com";
  }

  /** `isValidUrl('google.com') // true` */
  lemma AcceptsGoogleCom(parse: UrlParser)
    requires parse("https://google.com") == Some(ParsedUrl("https:", "google.com"))
    ensures IsValidUrl("google.com", parse)
  {
    GoogleComIsSimple();
    assert HTTPS + "google.com" == "https://google.com";
    assert "google.com"[0..] == "google.com";
    AcceptsSimpleUrl("google.com", 0, 6, "https:", parse);
  }

  /** `isValidUrl('https://example.com') // true` */
  lemma AcceptsHttpsExampleCom(parse: UrlParser)
    requires parse("https://example.com") == Some(ParsedUrl("https:", "example.com"))
    ensures IsValidUrl("https://example.com", parse)
  {
    HttpsExampleComIsSimple();
    assert "https://example.com"[8..] == "example.com";
    AcceptsSimpleUrl("https://example.com", 8, 15, "https:", parse);
  }

  /** `formatUrl('google.com') // 'https://google.com'` */
  lemma FormatGoogleCom()
    ensures FormatUrl("google.com") == "https://google.com"
  {
    GoogleComIsSimple();
    FormatSimpleUrl("google.com", 0, 6);
    assert HTTPS + "google.com" == "https://google.com";
  }

  /** `formatUrl('https://example.com') // 'https://example.com'` */
  lemma FormatHttpsExampleCom()
    ensures FormatUrl("https://example.com") == "https://example.com"
  {
    HttpsExampleComIsSimple();
    FormatSimpleUrl("https://example.com", 8, 15);
  }
}
