/**
 * The two regular expressions of the URL validator.
 *
 *   urlPattern    = /^(https?:\/\/)?(([a-zA-Z0-9-]+\.)+[a-zA-Z]{2,})(:[0-9]{1,5})?(\/.*)?$/
 *   domainPattern = /^([a-zA-Z0-9-]+\.)+[a-zA-Z]{2,}/
 *
 * Each is given twice: as the language the expression denotes (ghost
 * predicates quantifying over the ways to cut the string into the parts of
 * the expression, which is what a backtracking matcher searches), and as a
 * deterministic recogniser computing what `RegExp.prototype.test` returns.
 * The lemmas at the end prove the two agree on every string.
 */
module UrlPattern {
  import opened JsString

  predicate IsLabelChar(c: char) {
    'a' <= c <= 'z' || 'A' <= c <= 'Z' || '0' <= c <= '9' || c == '-'
  }

  predicate IsAlpha(c: char) {
    'a' <= c <= 'z' || 'A' <= c <= 'Z'
  }

  predicate IsDigit(c: char) {
    '0' <= c <= '9'
  }

  /** The characters a host made of labels and dots can hold. */
  predicate IsHostChar(c: char) {
    IsLabelChar(c) || c == '.'
  }

  // ---------------------------------------------------------------------
  // The languages of the pieces of the two expressions
  // ---------------------------------------------------------------------

  /** `[a-zA-Z0-9-]+` */
  predicate IsLabel(s: string) {
    |s| >= 1 && forall i :: 0 <= i < |s| ==> IsLabelChar(s[i])
  }

  /** `[a-zA-Z]{2,}` */
  predicate IsTld(s: string) {
    |s| >= 2 && forall i :: 0 <= i < |s| ==> IsAlpha(s[i])
  }

  /** `([a-zA-Z0-9-]+\.)+[a-zA-Z]{2,}`: one `label.`, then the top-level label or more of the same. */
  ghost predicate IsHost(s: string)
    decreases |s|, 1
  {
    exists m :: HostCut(s, m)
  }

  /** `s` is `label.` ending at `m`, followed by the top-level label or another host. */
  ghost predicate HostCut(s: string, m: int)
    decreases |s|, 0
  {
    0 < m < |s| && s[m] == '.' && IsLabel(s[..m]) && (IsTld(s[m + 1..]) || IsHost(s[m + 1..]))
  }

  /** `(https?:\/\/)?` */
  predicate IsProtocolOpt(s: string) {
    s == [] || s == "http://" || s == "https://"
  }

  /** `(:[0-9]{1,5})?` */
  predicate IsPortOpt(s: string) {
    s == [] || (2 <= |s| <= 6 && s[0] == ':' && forall i :: 1 <= i < |s| ==> IsDigit(s[i]))
  }

  /** `(\/.*)?` followed by `$`: without the `s` flag, `.` matches no line terminator. */
  predicate IsTailOpt(s: string) {
    s == [] || (s[0] == '/' && forall i :: 1 <= i < |s| ==> !IsLineTerminator(s[i]))
  }

  /** `s` cut at `i`, `j`, `k` into protocol, host, port and tail. */
  ghost predicate UrlPatternParts(s: string, i: int, j: int, k: int) {
    && 0 <= i <= j <= k <= |s|
    && IsProtocolOpt(s[..i])
    && IsHost(s[i..j])
    && IsPortOpt(s[j..k])
    && IsTailOpt(s[k..])
  }

  /** The language of `urlPattern`, anchored at both ends. */
  ghost predicate InUrlPattern(s: string) {
    exists i, j, k :: UrlPatternParts(s, i, j, k)
  }

  /** The language of `domainPattern`: anchored at the start only, so some prefix is a host. */
  ghost predicate InDomainPattern(s: string) {
    exists j :: 0 <= j <= |s| && IsHost(s[..j])
  }

  // ---------------------------------------------------------------------
  // The recognisers
  // ---------------------------------------------------------------------

  /** `s.replace(/^https?:\/\//, '')`: the protocol prefix removed, if there is one. */
  function StripProtocol(s: string): (r: string)
    ensures |r| <= |s| && r == s[|s| - |r|..]
    ensures IsProtocolOpt(s[..|s| - |r|])
    ensures r == s <==> !StartsWith(s, "http://") && !StartsWith(s, "https://")
  {
    if StartsWith(s, "https://") then s[8..]
    else if StartsWith(s, "http://") then s[7..]
    else s
  }

  /** Recognises `IsHost`: the first label is forced to end at the first dot. */
  function MatchesHost(s: string): bool
    decreases |s|
  {
    var m := PrefixRun(s, IsLabelChar);
    1 <= m < |s| && s[m] == '.' && (IsTld(s[m + 1..]) || MatchesHost(s[m + 1..]))
  }

  /** `domainPattern.test(s)` */
  function MatchesDomainPattern(s: string): bool
    decreases |s|
  {
    var m := PrefixRun(s, IsLabelChar);
    1 <= m < |s| && s[m] == '.'
    && (PrefixRun(s[m + 1..], IsAlpha) >= 2 || MatchesDomainPattern(s[m + 1..]))
  }

  /** What may follow the host: `(:[0-9]{1,5})?(\/.*)?$` */
  function MatchesPortAndTail(r: string): bool {
    if r != [] && r[0] == ':' then
      var d := PrefixRun(r[1..], IsDigit);
      1 <= d <= 5 && IsTailOpt(r[1 + d..])
    else
      IsTailOpt(r)
  }

  /**
   * `urlPattern.test(s)`. No host character is a `:` or a `/`, so the host
   * is the longest run of host characters after the protocol.
   */
  function MatchesUrlPattern(s: string): bool {
    var rest := StripProtocol(s);
    var n := PrefixRun(rest, IsHostChar);
    MatchesHost(rest[..n]) && MatchesPortAndTail(rest[n..])
  }

  // ---------------------------------------------------------------------
  // The recognisers agree with the languages
  // ---------------------------------------------------------------------

  /** A host is made of host characters only. */
  lemma {:induction false} HostChars(h: string)
    requires IsHost(h)
    ensures forall i :: 0 <= i < |h| ==> IsHostChar(h[i])
    decreases |h|
  {
    var m :| HostCut(h, m);
    var rest := h[m + 1..];
    if !IsTld(rest) {
      HostChars(rest);
    }
    forall i | 0 <= i < |h|
      ensures IsHostChar(h[i])
    {
      if i < m {
        assert h[i] == h[..m][i];
      } else if i > m {
        assert h[i] == rest[i - m - 1];
      }
    }
  }

  lemma {:induction false} MatchesHostIsHost(s: string)
    ensures MatchesHost(s) <==> IsHost(s)
    decreases |s|
  {
    if MatchesHost(s) {
      MatchesHostSound(s);
    }
    if IsHost(s) {
      MatchesHostComplete(s);
    }
  }

  lemma {:induction false} MatchesHostSound(s: string)
    requires MatchesHost(s)
    ensures IsHost(s)
    decreases |s|
  {
    var m := PrefixRun(s, IsLabelChar);
    var rest := s[m + 1..];
    if !IsTld(rest) {
      MatchesHostSound(rest);
    }
    assert IsLabel(s[..m]);
    assert HostCut(s, m);
  }

  lemma {:induction false} MatchesHostComplete(s: string)
    requires IsHost(s)
    ensures MatchesHost(s)
    decreases |s|
  {
    var m :| HostCut(s, m);
    forall i | 0 <= i < m
      ensures IsLabelChar(s[i])
    {
      assert s[i] == s[..m][i];
    }
    PrefixRunIs(s, IsLabelChar, m);
    if !IsTld(s[m + 1..]) {
      MatchesHostComplete(s[m + 1..]);
    }
  }

  lemma {:induction false} MatchesDomainPatternIsDomainPattern(s: string)
    ensures MatchesDomainPattern(s) <==> InDomainPattern(s)
  {
    if MatchesDomainPattern(s) {
      var j := MatchesDomainPatternSound(s);
    }
    if InDomainPattern(s) {
      var j :| 0 <= j <= |s| && IsHost(s[..j]);
      MatchesDomainPatternComplete(s, j);
    }
  }

  /** Where `domainPattern` matches, the host it matched ends at `j`. */
  lemma {:induction false} MatchesDomainPatternSound(s: string) returns (j: int)
    requires MatchesDomainPattern(s)
    ensures 0 <= j <= |s| && IsHost(s[..j])
    decreases |s|
  {
    var m := PrefixRun(s, IsLabelChar);
    var rest := s[m + 1..];
    var a := PrefixRun(rest, IsAlpha);
    if a >= 2 {
      j := m + 1 + a;
      assert IsTld(s[m + 1..j]) by {
        assert s[m + 1..j] == rest[..a];
      }
    } else {
      var j' := MatchesDomainPatternSound(rest);
      j := m + 1 + j';
      assert IsHost(s[m + 1..j]) by {
        assert s[m + 1..j] == rest[..j'];
      }
    }
    HostPrefix(s, m, j);
  }

  /** A label ending at the dot at `m`, then a host or the top-level label up to `j`, is a host. */
  lemma HostPrefix(s: string, m: int, j: int)
    requires 0 < m < j <= |s| && s[m] == '.'
    requires forall x :: 0 <= x < m ==> IsLabelChar(s[x])
    requires IsTld(s[m + 1..j]) || IsHost(s[m + 1..j])
    ensures IsHost(s[..j])
  {
    var h := s[..j];
    assert h[..m] == s[..m] && h[m + 1..] == s[m + 1..j];
    assert IsLabel(h[..m]);
    assert HostCut(h, m);
  }

  lemma {:induction false} MatchesDomainPatternComplete(s: string, j: int)
    requires 0 <= j <= |s| && IsHost(s[..j])
    ensures MatchesDomainPattern(s)
    decreases |s|
  {
    var m := FirstHostCut(s, j);
    var rest := s[m + 1..];
    var n := j - m - 1;
    if IsTld(rest[..n]) {
      forall x | 0 <= x < n
        ensures IsAlpha(rest[x])
      {
        assert rest[x] == rest[..n][x];
      }
      PrefixRunAtLeast(rest, IsAlpha, n);
    } else {
      MatchesDomainPatternComplete(rest, n);
    }
  }

  /** The first label of a host prefix ends at the first non-label character, a dot. */
  lemma FirstHostCut(s: string, j: int) returns (m: int)
    requires 0 <= j <= |s| && IsHost(s[..j])
    ensures 0 < m < j && s[m] == '.' && PrefixRun(s, IsLabelChar) == m
    ensures IsTld(s[m + 1..][..j - m - 1]) || IsHost(s[m + 1..][..j - m - 1])
  {
    var h := s[..j];
    m :| HostCut(h, m);
    forall x | 0 <= x < m
      ensures IsLabelChar(s[x])
    {
      assert s[x] == h[..m][x];
    }
    PrefixRunIs(s, IsLabelChar, m);
    assert h[m + 1..] == s[m + 1..][..j - m - 1];
  }

  lemma MatchesUrlPatternSound(s: string)
    requires MatchesUrlPattern(s)
    ensures InUrlPattern(s)
  {
    var rest := StripProtocol(s);
    UrlPatternSoundAt(s, rest, PrefixRun(rest, IsHostChar));
  }

  /**
   * A protocol followed by `rest`, whose first `n` characters are a
   * recognised host and whose remainder a recognised port and tail, puts `s`
   * in the language.
   */
  lemma UrlPatternSoundAt(s: string, rest: string, n: int)
    requires |rest| <= |s| && rest == s[|s| - |rest|..] && IsProtocolOpt(s[..|s| - |rest|])
    requires 0 <= n <= |rest| && MatchesHost(rest[..n]) && MatchesPortAndTail(rest[n..])
    ensures InUrlPattern(s)
  {
    var i := |s| - |rest|;
    var j := i + n;
    assert s[i..j] == rest[..n] && s[j..] == rest[n..] by {
      SuffixSlices(s, i, n);
    }
    MatchesHostIsHost(s[i..j]);
    var k := PortAndTailSoundAt(s, j);
    assert UrlPatternParts(s, i, j, k);
  }

  /** What the recogniser accepts after the host, from `j` on, is a port up to `k` and a tail. */
  lemma PortAndTailSoundAt(s: string, j: int) returns (k: int)
    requires 0 <= j <= |s| && MatchesPortAndTail(s[j..])
    ensures j <= k <= |s| && IsPortOpt(s[j..k]) && IsTailOpt(s[k..])
  {
    var r := s[j..];
    var p := PortAndTailSound(r);
    k := j + p;
    assert s[j..k] == r[..p] && s[k..] == r[p..];
  }

  /** What the recogniser accepts after the host splits into a port and a tail of the pattern. */
  lemma PortAndTailSound(r: string) returns (p: int)
    requires MatchesPortAndTail(r)
    ensures 0 <= p <= |r| && IsPortOpt(r[..p]) && IsTailOpt(r[p..])
  {
    if r != [] && r[0] == ':' {
      var d := PrefixRun(r[1..], IsDigit);
      p := 1 + d;
      forall x | 1 <= x < p
        ensures IsDigit(r[..p][x])
      {
        assert r[..p][x] == r[1..][x - 1];
      }
    } else {
      p := 0;
      assert r[p..] == r;
    }
  }

  /** A host never begins with `http:` or `https:`, as a host has a dot before any `:`. */
  lemma HostIsNotProtocol(s: string, j: int)
    requires 0 <= j <= |s| && IsHost(s[..j])
    ensures !StartsWith(s, "http://") && !StartsWith(s, "https://")
  {
    var h := s[..j];
    HostChars(h);
    var m :| HostCut(h, m);
    assert s[m] == h[m] == '.';
    if j > 4 {
      assert s[4] == h[4];
    }
    if j > 5 {
      assert s[5] == h[5];
    }
  }

  /** A protocol followed by a host is what `StripProtocol` removes. */
  lemma StripProtocolBeforeHost(s: string, i: int, j: int)
    requires 0 <= i <= j <= |s| && IsProtocolOpt(s[..i]) && IsHost(s[i..j])
    ensures StripProtocol(s) == s[i..]
  {
    if i == 0 {
      assert s[..j] == s[i..j];
      HostIsNotProtocol(s, j);
    } else if s[..i] == "http://" {
      assert s[..7] == "http://";
      assert s[4] != 's';
    } else {
      assert s[..8] == "https://";
    }
  }

  /** The host is the longest run of host characters when a `:`, a `/` or the end follows it. */
  lemma HostRunBeforePort(rest: string, n: int)
    requires 0 <= n <= |rest| && IsHost(rest[..n])
    requires n == |rest| || rest[n] == ':' || rest[n] == '/'
    ensures PrefixRun(rest, IsHostChar) == n
  {
    var h := rest[..n];
    HostChars(h);
    forall x | 0 <= x < n
      ensures IsHostChar(rest[x])
    {
      assert rest[x] == h[x];
    }
    PrefixRunIs(rest, IsHostChar, n);
  }

  /** After the host, a port and a tail in the pattern's language are recognised. */
  lemma PortAndTailComplete(r: string, p: int)
    requires 0 <= p <= |r| && IsPortOpt(r[..p]) && IsTailOpt(r[p..])
    ensures MatchesPortAndTail(r)
  {
    if p > 0 {
      assert r[0] == r[..p][0];
      var digits := p - 1;
      forall x | 0 <= x < digits
        ensures IsDigit(r[1..][x])
      {
        assert r[1..][x] == r[..p][x + 1];
      }
      if p < |r| {
        assert r[1..][digits] == r[p..][0];
      }
      PrefixRunIs(r[1..], IsDigit, digits);
      assert r[1 + digits..] == r[p..];
    } else {
      assert r == r[p..];
    }
  }

  lemma MatchesUrlPatternComplete(s: string)
    requires InUrlPattern(s)
    ensures MatchesUrlPattern(s)
  {
    var i, j, k :| UrlPatternParts(s, i, j, k);
    MatchesUrlPatternAt(s, i, j, k);
  }

  lemma MatchesUrlPatternAt(s: string, i: int, j: int, k: int)
    requires UrlPatternParts(s, i, j, k)
    ensures MatchesUrlPattern(s)
  {
    HostSpan(s, i, j, k);
    var rest := s[i..];
    var n := j - i;
    HostAfterProtocol(s, i, j);
    MatchesHostIsHost(rest[..n]);
    PortAndTailAt(s, i, j, k);
    MatchesUrlPatternFrom(s, rest, n);
  }

  /** The host, seen from the end of the protocol. */
  lemma HostAfterProtocol(s: string, i: int, j: int)
    requires 0 <= i <= j <= |s| && IsHost(s[i..j])
    ensures IsHost(s[i..][..j - i])
  {
    assert s[i..][..j - i] == s[i..j];
  }

  /** A port and a tail of the pattern, from `j` on, are recognised after the protocol's end `i`. */
  lemma PortAndTailAt(s: string, i: int, j: int, k: int)
    requires 0 <= i <= j <= k <= |s| && IsPortOpt(s[j..k]) && IsTailOpt(s[k..])
    ensures MatchesPortAndTail(s[i..][j - i..])
  {
    var r := s[i..][j - i..];
    assert r[..k - j] == s[j..k];
    assert r[k - j..] == s[k..];
    PortAndTailComplete(r, k - j);
  }

  /** The recogniser's three steps: the protocol removed, a host of `n` characters, a port and a tail. */
  lemma MatchesUrlPatternFrom(s: string, rest: string, n: int)
    requires StripProtocol(s) == rest && PrefixRun(rest, IsHostChar) == n
    requires MatchesHost(rest[..n]) && MatchesPortAndTail(rest[n..])
    ensures MatchesUrlPattern(s)
  {
  }

  /** Where the parts put the protocol and the host, the recogniser finds them too. */
  lemma HostSpan(s: string, i: int, j: int, k: int)
    requires UrlPatternParts(s, i, j, k)
    ensures StripProtocol(s) == s[i..]
    ensures PrefixRun(s[i..], IsHostChar) == j - i
  {
    StripProtocolBeforeHost(s, i, j);
    var rest := s[i..];
    var n := j - i;
    assert rest[..n] == s[i..j];
    assert j < |s| ==> rest[n] == ':' || rest[n] == '/' by {
      if j < |s| {
        assert rest[n] == s[j];
        if j < k {
          assert s[j] == s[j..k][0];
        } else {
          assert s[j] == s[k..][0];
        }
      }
    }
    HostRunBeforePort(rest, n);
  }

  /** `urlPattern.test(s)` holds exactly for the strings in the pattern's language. */
  lemma MatchesUrlPatternIsUrlPattern(s: string)
    ensures MatchesUrlPattern(s) <==> InUrlPattern(s)
  {
    if MatchesUrlPattern(s) {
      MatchesUrlPatternSound(s);
    }
    if InUrlPattern(s) {
      MatchesUrlPatternComplete(s);
    }
  }
}
