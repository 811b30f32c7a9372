/** Cookie scope in src/cookie.rs: domain and path matching, IP literals, secure contexts. */
module CookieMatch {
  import opened Basics
  import opened Text

  /** The parts of a request URL that matter; `path` carries the query. */
  datatype Url = Url(scheme: string, host: string, path: string)

  predicate EndsWithIgnoreCase(s: string, suffix: string) {
    |s| >= |suffix| && EqIgnoreCase(s[|s| - |suffix|..], suffix)
  }

  predicate StartsWithIgnoreCase(s: string, prefix: string) {
    |s| >= |prefix| && EqIgnoreCase(s[..|prefix|], prefix)
  }

  /** Four dot-separated u8 numbers, or anything with a colon or an opening bracket. */
  predicate IsIpLiteral(host: string) {
    || (host != [] && host[0] == '[')
    || ':' in host
    || var parts := Split(host, '.');
       |parts| == 4 && forall p :: p in parts ==> ParseUnsigned(p, 256).Some?
  }

  /** domain_match (section 5.1.3 of RFC 6265). */
  predicate DomainMatch(requestHost: string, cookieDomain: string, hostOnly: bool) {
    || EqIgnoreCase(requestHost, cookieDomain)
    || (&& !hostOnly && !IsIpLiteral(requestHost)
        && |requestHost| > |cookieDomain|
        && requestHost[|requestHost| - |cookieDomain| - 1] == '.'
        && EndsWithIgnoreCase(requestHost, cookieDomain))
  }

  /** The target without its query and fragment. */
  function RequestPath(path: string): string {
    var q, f := Find(path, '?'), Find(path, '#');
    path[..Min(q, f)]
  }

  /** path_match (section 5.1.4 of RFC 6265). */
  predicate PathMatch(requestPath: string, cookiePath: string) {
    || requestPath == cookiePath
    || (&& cookiePath <= requestPath
        && ((cookiePath != [] && cookiePath[|cookiePath| - 1] == '/')
            || (|requestPath| > |cookiePath| && requestPath[|cookiePath|] == '/')))
  }

  /** default_path: the directory of the request path. */
  function DefaultPath(path: string): string {
    if path == [] || path[0] != '/' then "/"
    else
      var i := RFind(path, '/');
      if 0 < i < |path| then path[..i] else "/"
  }

  predicate IsTls(scheme: string) {
    scheme in ["https", "ftps", "imaps", "pop3s", "ldaps", "gophers", "mqtts", "wss"]
  }

  function TrimStartChar(s: string, c: char): string {
    if s != [] && s[0] == c then TrimStartChar(s[1..], c) else s
  }

  function TrimEndChar(s: string, c: char): string {
    if s != [] && s[|s| - 1] == c then TrimEndChar(s[..|s| - 1], c) else s
  }

  /** A decimal octet as Ipv4Addr parses it: one to three digits, no leading zero, at most 255. */
  predicate IsOctet(s: string) {
    1 <= |s| <= 3 && AllDigits(s) && (|s| > 1 ==> s[0] != '0') && DigitsValue(s) < 256
  }

  predicate IsLoopbackV4(host: string) {
    var parts := Split(host, '.');
    |parts| == 4 && (forall p :: p in parts ==> IsOctet(p)) && parts[0] == "127"
  }

  /** is_secure_context: TLS, or a loopback host. */
  predicate SecureContext(url: Url) {
    || IsTls(url.scheme)
    || var host := TrimEndChar(TrimStartChar(url.host, '['), ']');
       || EqIgnoreCase(host, "localhost") || EndsWithIgnoreCase(host, ".localhost")
       || host == "::1" || IsLoopbackV4(host)
  }

  /** is_scopable_cookie_domain; `registrable` is the public-suffix lookup. */
  predicate Scopable(registrable: string -> bool, domain: string) {
    var d := TrimEndChar(TrimStartChar(domain, '.'), '.');
    d != [] && registrable(Lower(d))
  }

  predicate IsControl(c: char) {
    c < ' ' || c == '\U{7F}'
  }

  /** has_forbidden_cookie_char */
  predicate HasControl(s: string) {
    exists c :: c in s && IsControl(c)
  }

  /** Neither a control character nor DEL: safe in a header and in a record. */
  predicate Printable(s: string) {
    forall i :: 0 <= i < |s| ==> ' ' <= s[i] && s[i] != '\U{7F}'
  }

  lemma ControlExactly(s: string)
    ensures HasControl(s) <==> !Printable(s)
  {
    if HasControl(s) {
      var c :| c in s && IsControl(c);
      var i :| 0 <= i < |s| && s[i] == c;
    }
    if !Printable(s) {
      var i :| 0 <= i < |s| && !(' ' <= s[i] && s[i] != '\U{7F}');
      assert s[i] in s && IsControl(s[i]);
    }
  }

  // ---- facts ---------------------------------------------------------------------------------

  lemma LowerPart(s: string, a: nat, b: nat)
    requires a <= b <= |s|
    ensures Lower(s)[a..b] == Lower(s[a..b])
  {
  }

  lemma LowerFrom(s: string, a: nat)
    requires a <= |s|
    ensures Lower(s)[a..] == Lower(s[a..])
  {
  }

  lemma {:induction false} FindLower(s: string, c: char)
    requires !('a' <= c <= 'z') && !('A' <= c <= 'Z')
    ensures Find(Lower(s), c) == Find(s, c)
  {
    if s != [] {
      FindLower(s[1..], c);
      LowerPart(s, 1, |s|);
      assert Lower(s)[1..] == Lower(s[1..]);
      assert Lower(s)[0] == LowerChar(s[0]);
    }
  }

  lemma {:induction false} SplitLower(s: string, c: char)
    requires !('a' <= c <= 'z') && !('A' <= c <= 'Z')
    ensures |Split(Lower(s), c)| == |Split(s, c)|
    ensures forall i :: 0 <= i < |Split(s, c)| ==> Split(Lower(s), c)[i] == Lower(Split(s, c)[i])
    decreases |s|
  {
    hide Lower, Find;
    FindLower(s, c);
    var i, t := Find(s, c), Lower(s);
    if i < |s| {
      LowerPart(s, 0, i);
      LowerFrom(s, i + 1);
      SplitLower(s[i + 1..], c);
      assert Split(s, c) == [s[..i]] + Split(s[i + 1..], c);
      assert Split(t, c) == [Lower(s[..i])] + Split(t[i + 1..], c);
    }
  }

  lemma LowerDigits(s: string)
    ensures AllDigits(Lower(s)) <==> AllDigits(s)
    ensures AllDigits(s) ==> Lower(s) == s
  {
    if AllDigits(Lower(s)) {
      forall c | c in s
        ensures IsDigit(c)
      {
        var i :| 0 <= i < |s| && s[i] == c;
        assert Lower(s)[i] in Lower(s) && IsDigit(LowerChar(s[i]));
      }
    }
    if AllDigits(s) {
      forall i | 0 <= i < |s|
        ensures Lower(s)[i] == s[i]
      {
        assert s[i] in s && IsDigit(s[i]);
      }
      assert Lower(s) == s;
    }
  }

  lemma ParseLower(s: string)
    ensures ParseUnsigned(Lower(s), 256) == ParseUnsigned(s, 256)
  {
    if s != [] && s[0] == '+' {
      LowerPart(s, 1, |s|);
      assert Lower(s)[0] == '+' && Lower(s)[1..] == Lower(s[1..]);
      LowerDigits(s[1..]);
    } else {
      assert s != [] ==> Lower(s)[0] == LowerChar(s[0]);
      LowerDigits(s);
    }
  }

  lemma ColonLower(s: string)
    ensures ':' in Lower(s) <==> ':' in s
  {
    if ':' in s {
      var i :| 0 <= i < |s| && s[i] == ':';
      assert Lower(s)[i] == ':';
    }
    if ':' in Lower(s) {
      var i :| 0 <= i < |s| && Lower(s)[i] == ':';
      assert s[i] == ':';
    }
  }

  /** Whether a host is an IP literal does not depend on its case. */
  lemma IpLiteralLower(host: string)
    ensures IsIpLiteral(Lower(host)) <==> IsIpLiteral(host)
  {
    ColonLower(host);
    SplitLower(host, '.');
    var ps, ls := Split(host, '.'), Split(Lower(host), '.');
    forall i | 0 <= i < |ps|
      ensures ParseUnsigned(ls[i], 256) == ParseUnsigned(ps[i], 256)
    {
      ParseLower(ps[i]);
    }
    if forall p :: p in ps ==> ParseUnsigned(p, 256).Some? {
      forall p | p in ls
        ensures ParseUnsigned(p, 256).Some?
      {
        var i :| 0 <= i < |ls| && ls[i] == p;
        assert ps[i] in ps;
      }
    }
    if forall p :: p in ls ==> ParseUnsigned(p, 256).Some? {
      forall p | p in ps
        ensures ParseUnsigned(p, 256).Some?
      {
        var i :| 0 <= i < |ps| && ps[i] == p;
        assert ls[i] in ls;
      }
    }
  }

  /** Matching a domain does not depend on the case of the request host. */
  lemma DomainMatchLower(host: string, domain: string, hostOnly: bool)
    ensures DomainMatch(Lower(host), domain, hostOnly) <==> DomainMatch(host, domain, hostOnly)
  {
    hide IsIpLiteral;
    LowerIdempotent(host);
    IpLiteralLower(host);
    if |host| >= |domain| {
      LowerPart(host, |host| - |domain|, |host|);
      LowerIdempotent(host[|host| - |domain|..]);
    }
  }

  /** The default path covers the path it was taken from exactly when that path is absolute. */
  lemma DefaultPathCovers(path: string)
    ensures PathMatch(path, DefaultPath(path)) <==> path != [] && path[0] == '/'
  {
  }

  // ---- domains by labels -------------------------------------------------------------------------

  function Labels(domain: string): seq<string> {
    Split(Lower(domain), '.')
  }

  /** `domain` is the end of `host`, label by label, with at least one label more in front. */
  predicate IsSubdomain(host: string, domain: string) {
    PiecesEndIn(Labels(host), Labels(domain))
  }

  /** What a domain covers: itself and, unless for one host only, the names below it. */
  predicate Covers(host: string, domain: string, hostOnly: bool) {
    Lower(host) == Lower(domain) || (!hostOnly && !IsIpLiteral(host) && IsSubdomain(host, domain))
  }

  lemma PiecesOfEnd(front: string, c: char, t: string)
    ensures PiecesEndIn(Split(front + [c] + t, c), Split(t, c))
  {
    SplitConcat(front, c, t);
  }

  lemma PiecesOfStart(t: string, c: char, back: string)
    ensures PiecesStartWith(Split(t + [c] + back, c), Split(t, c))
  {
    SplitConcat(t, c, back);
  }

  /** A text whose pieces are those of `t` behind, or in front of, others is `t` behind, or in front of, a separator. */
  lemma GluedPieces(s: string, c: char, p: seq<string>, q: seq<string>)
    requires p != [] && q != [] && Split(s, c) == p + q
    ensures s == Join(p, c) + [c] + Join(q, c)
  {
    hide Split, Join;
    JoinConcat(p, q, c);
    JoinSplit(s, c);
  }

  /** `s` is something, a separator, and `t`. */
  predicate EndsIn(s: string, c: char, t: string) {
    |s| > |t| && s[|s| - |t| - 1] == c && s[|s| - |t|..] == t
  }

  /** The last pieces are `q`, and there are more. */
  predicate PiecesEndIn(p: seq<string>, q: seq<string>) {
    |p| > |q| && p[|p| - |q|..] == q
  }

  /** Ending in a separator and a text is having its pieces at the end. */
  lemma DottedEnd(s: string, t: string, c: char)
    ensures EndsIn(s, c, t) <==> PiecesEndIn(Split(s, c), Split(t, c))
  {
    hide Split, EndsIn, PiecesEndIn;
    if EndsIn(s, c, t) {
      var front := FrontOf(s, c, t);
      PiecesOfEnd(front, c, t);
    }
    if PiecesEndIn(Split(s, c), Split(t, c)) {
      var front := FrontPieces(Split(s, c), Split(t, c));
      GluedPieces(s, c, front, Split(t, c));
      JoinSplit(t, c);
      EndsBehind(Join(front, c), c, t);
    }
  }

  lemma FrontOf(s: string, c: char, t: string) returns (front: string)
    requires EndsIn(s, c, t)
    ensures s == front + [c] + t
  {
    front := s[..|s| - |t| - 1];
  }

  lemma FrontPieces(p: seq<string>, q: seq<string>) returns (front: seq<string>)
    requires PiecesEndIn(p, q)
    ensures p == front + q && front != []
  {
    front := p[..|p| - |q|];
  }

  lemma EndsBehind(front: string, c: char, t: string)
    ensures EndsIn(front + [c] + t, c, t)
  {
  }

  lemma DotLower(s: string, i: nat)
    requires i < |s|
    ensures Lower(s)[i] == '.' <==> s[i] == '.'
  {
  }

  /** A host matches a domain exactly when the domain covers it: never across a label. */
  lemma DomainMatchByLabels(host: string, domain: string, hostOnly: bool)
    ensures DomainMatch(host, domain, hostOnly) <==> Covers(host, domain, hostOnly)
  {
    hide IsIpLiteral, Split, Lower;
    DottedEnd(Lower(host), Lower(domain), '.');
    if |host| > |domain| {
      LowerFrom(host, |host| - |domain|);
      DotLower(host, |host| - |domain| - 1);
    }
  }

  /** Labels of one name glued to others, as in evilexample.com, do not make a subdomain. */
  lemma GluedIsForeign(front: string, domain: string)
    requires front != [] && '.' !in front
    ensures !IsSubdomain(front + domain, domain)
  {
    hide Split, Lower;
    var host := front + domain;
    var s, t := Lower(host), Lower(domain);
    DottedEnd(s, t, '.');
    assert host[|host| - |domain| - 1] == front[|front| - 1];
    DotLower(host, |host| - |domain| - 1);
    assert front[|front| - 1] in front;
  }

  /** What makes a context secure: the scheme, or a name or address of this machine. */
  lemma SecureContextByLabels(url: Url)
    ensures
      var host := TrimEndChar(TrimStartChar(url.host, '['), ']');
      SecureContext(url)
      <==> IsTls(url.scheme) || Lower(host) == "localhost" || IsSubdomain(host, "localhost") || host == "::1" || IsLoopbackV4(host)
  {
    hide Split, Lower, IsLoopbackV4, TrimStartChar, TrimEndChar;
    var host := TrimEndChar(TrimStartChar(url.host, '['), ']');
    LocalhostIsLower();
    assert ".localhost" == ['.'] + "localhost";
    DottedEnd(Lower(host), "localhost", '.');
    if |host| > |"localhost"| {
      var at := |host| - |".localhost"|;
      LowerFrom(host, at);
      assert Lower(host)[at..] == [Lower(host)[at]] + Lower(host)[at + 1..];
    }
  }

  lemma LocalhostIsLower()
    ensures Lower("localhost") == "localhost" && Lower(".localhost") == ".localhost"
  {
  }

  /** An address in dotted decimal is an IP literal. */
  lemma DottedQuadIsIp(a: nat, b: nat, c: nat, d: nat)
    requires a < 256 && b < 256 && c < 256 && d < 256
    ensures IsIpLiteral(Join([Decimal(a), Decimal(b), Decimal(c), Decimal(d)], '.'))
  {
    OctetParses(a);
    OctetParses(b);
    OctetParses(c);
    OctetParses(d);
    FourOctets(Decimal(a), Decimal(b), Decimal(c), Decimal(d));
  }

  predicate Octet(s: string) {
    '.' !in s && ParseUnsigned(s, 256).Some?
  }

  lemma FourOctets(a: string, b: string, c: string, d: string)
    requires Octet(a) && Octet(b) && Octet(c) && Octet(d)
    ensures IsIpLiteral(Join([a, b, c, d], '.'))
  {
    hide Split, Join, ParseUnsigned;
    var parts := [a, b, c, d];
    forall p | p in parts
      ensures Octet(p)
    {
      var i :| 0 <= i < 4 && parts[i] == p;
    }
    SplitJoin(parts, '.');
  }

  lemma OctetParses(n: nat)
    requires n < 256
    ensures '.' !in Decimal(n) && ParseUnsigned(Decimal(n), 256) == Some(n)
  {
    hide Decimal, DigitsValue, ParseUnsigned;
    DecimalValue(n);
    ParseDigits(Decimal(n));
  }

  /** A name with a letter in it, and no colon or opening bracket, is none. */
  lemma NameIsNotIp(host: string, i: nat)
    requires i < |host| && 'a' <= host[i] <= 'z' && ':' !in host && host[0] != '['
    ensures !IsIpLiteral(host)
  {
    var parts := Split(host, '.');
    var k := PieceWith(host, '.', i);
    if ParseUnsigned(parts[k], 256).Some? {
      assert forall c :: c in parts[k] ==> IsDigit(c) || c == '+' by {
        UnsignedIsDigits(parts[k]);
      }
    }
    assert parts[k] in parts;
  }

  lemma UnsignedIsDigits(s: string)
    requires ParseUnsigned(s, 256).Some?
    ensures forall c :: c in s ==> IsDigit(c) || c == '+'
  {
    if s != [] && s[0] == '+' {
      assert s == [s[0]] + s[1..];
    }
  }

  /** The piece that holds a character. */
  lemma {:induction false} PieceWith(s: string, c: char, i: nat) returns (k: nat)
    requires i < |s| && s[i] != c
    ensures k < |Split(s, c)| && s[i] in Split(s, c)[k]
    decreases |s|
  {
    var n := Find(s, c);
    if n == |s| {
      k := 0;
    } else if i < n {
      assert s[..n][i] == s[i];
      k := 0;
    } else {
      k := PieceWith(s[n + 1..], c, i - n - 1);
      k := k + 1;
    }
  }

  // ---- paths by segments ---------------------------------------------------------------------------

  /** A cookie path without the slash at its end, if it has one. */
  function Directory(path: string): string {
    if path != [] && path[|path| - 1] == '/' then path[..|path| - 1] else path
  }

  /** The segments of the cookie path begin those of the request path, which has more. */
  predicate IsBelow(requestPath: string, cookiePath: string) {
    PiecesStartWith(Split(requestPath, '/'), Split(Directory(cookiePath), '/'))
  }

  /** `s` is `t`, a separator, and something. */
  predicate StartsWith(s: string, t: string, c: char) {
    |s| > |t| && s[..|t|] == t && s[|t|] == c
  }

  /** The first pieces are `q`, and there are more. */
  predicate PiecesStartWith(p: seq<string>, q: seq<string>) {
    |p| > |q| && p[..|q|] == q
  }

  lemma SlashedStart(s: string, t: string, c: char)
    ensures StartsWith(s, t, c) <==> PiecesStartWith(Split(s, c), Split(t, c))
  {
    hide Split, StartsWith, PiecesStartWith;
    if StartsWith(s, t, c) {
      var back := BackOf(s, t, c);
      PiecesOfStart(t, c, back);
    }
    if PiecesStartWith(Split(s, c), Split(t, c)) {
      var back := BackPieces(Split(s, c), Split(t, c));
      GluedPieces(s, c, Split(t, c), back);
      JoinSplit(t, c);
      StartsBefore(t, c, Join(back, c));
    }
  }

  lemma BackOf(s: string, t: string, c: char) returns (back: string)
    requires StartsWith(s, t, c)
    ensures s == t + [c] + back
  {
    back := s[|t| + 1..];
  }

  lemma BackPieces(p: seq<string>, q: seq<string>) returns (back: seq<string>)
    requires PiecesStartWith(p, q)
    ensures p == q + back && back != []
  {
    back := p[|q|..];
  }

  lemma StartsBefore(t: string, c: char, back: string)
    ensures StartsWith(t + [c] + back, t, c)
  {
  }

  /** A request path matches a cookie path exactly when it is that path or lies below it: never within a segment. */
  lemma PathMatchBySegments(requestPath: string, cookiePath: string)
    ensures PathMatch(requestPath, cookiePath) <==> requestPath == cookiePath || IsBelow(requestPath, cookiePath)
  {
    hide Split;
    var dir := Directory(cookiePath);
    SlashedStart(requestPath, dir, '/');
    if dir != cookiePath {
      assert cookiePath == dir + ['/'];
      if cookiePath <= requestPath {
        assert requestPath[..|dir|] == cookiePath[..|dir|] == dir && requestPath[|dir|] == cookiePath[|dir|];
      }
      if |requestPath| > |dir| && requestPath[..|dir|] == dir && requestPath[|dir|] == '/' {
        assert requestPath[..|cookiePath|] == requestPath[..|dir|] + [requestPath[|dir|]];
      }
    }
  }

  /** The path of a target ends before its query or fragment. */
  lemma RequestPathStops(path: string, rest: string)
    requires '?' !in path && '#' !in path && (rest != [] ==> rest[0] == '?' || rest[0] == '#')
    ensures RequestPath(path + rest) == path
  {
    hide Find;
    if rest == [] {
      assert path + rest == path;
      FindNone(path, '?');
      FindNone(path, '#');
    } else {
      var tail := rest[1..];
      assert path + rest == path + [rest[0]] + tail;
      FindAt(path, rest[0], tail);
      FindBehind(path, '?', rest);
      FindBehind(path, '#', rest);
    }
  }

  lemma {:induction false} FindBehind(before: string, c: char, rest: string)
    requires c !in before
    ensures Find(before + rest, c) >= |before|
  {
    if before == [] {
      assert before + rest == rest;
    } else {
      assert (before + rest)[1..] == before[1..] + rest;
      FindBehind(before[1..], c, rest);
    }
  }

  /** The default path is the directory of the request path, or the root. */
  lemma DefaultPathIsDirectory(dir: string, leaf: string)
    requires '/' !in leaf && (dir != [] ==> dir[0] == '/')
    ensures DefaultPath(dir + ['/'] + leaf) == if dir == [] then "/" else dir
  {
    hide RFind;
    RFindAt(dir, '/', leaf);
    assert (dir + ['/'] + leaf)[..|dir|] == dir;
  }

  /** The addresses from 127.0.0.0 on are this machine. */
  lemma LoopbackAddresses(b: nat, c: nat, d: nat)
    requires b < 256 && c < 256 && d < 256
    ensures IsLoopbackV4(Join(["127", Decimal(b), Decimal(c), Decimal(d)], '.'))
  {
    hide Split, Join, Decimal;
    var parts := ["127", Decimal(b), Decimal(c), Decimal(d)];
    assert Decimal(127) == "127" by { PrintsLoopback(); }
    OctetIsOctet(127);
    OctetIsOctet(b);
    OctetIsOctet(c);
    OctetIsOctet(d);
    forall p | p in parts
      ensures '.' !in p && IsOctet(p)
    {
      assert p == Decimal(127) || p == Decimal(b) || p == Decimal(c) || p == Decimal(d);
    }
    SplitJoin(parts, '.');
  }

  lemma PrintsLoopback()
    ensures Decimal(127) == "127"
  {
    assert Decimal(1) == "1" && Decimal(12) == "12";
  }

  lemma OctetIsOctet(n: nat)
    requires n < 256
    ensures IsOctet(Decimal(n)) && '.' !in Decimal(n)
  {
    hide Decimal, DigitsValue;
    DecimalValue(n);
    DecimalLength(n, 3);
    assert Pow10(3) == 1000;
    if n == 0 {
      DecimalLength(n, 1);
      assert Pow10(1) == 10;
    }
  }
}
