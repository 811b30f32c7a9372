/**
 Reading one Set-Cookie line (src/cookie.rs, `parse_set_cookie`). The meaning of a line
 is stated per attribute (the last usable occurrence decides, one bad occurrence rejects
 the cookie); the loop over the attributes is proved to compute it, and the scope rules
 of RFC 6265bis are proved from the meaning.
 */
module SetCookie {
  import opened Basics
  import opened Text
  import opened HttpDates
  import opened CookieMatch

  datatype SameSite = Unspecified | Lax | Strict | Unrestricted

  datatype Cookie = Cookie(
    name: string,
    value: string,
    domain: string,
    path: string,
    expires: Option<nat>,
    secure: bool,
    httpOnly: bool,
    hostOnly: bool,
    sameSite: SameSite,
    partitioned: bool,
    partitionKey: Option<string>)

  // ---- one attribute ------------------------------------------------------------------------

  datatype Kind =
    | DomainKind | PathKind | ExpiresKind | MaxAgeKind | SecureKind
    | HttpOnlyKind | SameSiteKind | PartitionedKind | OtherKind

  datatype Attr = Attr(kind: Kind, value: Option<string>)

  function KindOf(key: string): Kind {
    if EqIgnoreCase(key, "domain") then DomainKind
    else if EqIgnoreCase(key, "path") then PathKind
    else if EqIgnoreCase(key, "expires") then ExpiresKind
    else if EqIgnoreCase(key, "max-age") then MaxAgeKind
    else if EqIgnoreCase(key, "secure") then SecureKind
    else if EqIgnoreCase(key, "httponly") then HttpOnlyKind
    else if EqIgnoreCase(key, "samesite") then SameSiteKind
    else if EqIgnoreCase(key, "partitioned") then PartitionedKind
    else OtherKind
  }

  function ReadAttr(piece: string): Attr {
    var t := Trim(piece);
    if t == [] then Attr(OtherKind, None)
    else
      match SplitOnce(t, '=')
      case Some((k, v)) => Attr(KindOf(Trim(k)), Some(Trim(v)))
      case None => Attr(KindOf(t), None)
  }

  function ReadAttrs(pieces: seq<string>): (r: seq<Attr>)
    ensures |r| == |pieces|
    ensures forall i :: 0 <= i < |r| ==> r[i] == ReadAttr(pieces[i])
  {
    seq(|pieces|, i requires 0 <= i < |pieces| => ReadAttr(pieces[i]))
  }

  // ---- what an attribute asks for --------------------------------------------------------------

  /** The Domain= value without its leading dot, lower-cased; none when absent or empty. */
  function NamedDomain(a: Attr): Option<string> {
    if !a.kind.DomainKind? || a.value.None? then None
    else
      var v := a.value.value;
      var d := Lower(if v != [] && v[0] == '.' then v[1..] else v);
      if d == [] then None else Some(d)
  }

  /** A Domain= the host may not set: a public suffix other than the host, or a foreign domain. */
  predicate ForeignDomain(registrable: string -> bool, host: string, a: Attr) {
    && NamedDomain(a).Some? && !IsIpLiteral(host)
    && var d := NamedDomain(a).value;
       if Scopable(registrable, d) then !DomainMatch(host, d, false) else d != host
  }

  predicate ForgedPath(a: Attr) {
    a.kind.PathKind? && a.value.Some? && HasControl(a.value.value)
  }

  /** One such attribute rejects the whole cookie. */
  predicate Rejects(registrable: string -> bool, host: string, a: Attr) {
    ForeignDomain(registrable, host, a) || ForgedPath(a)
  }

  function DomainIn(host: string, a: Attr): Option<string> {
    if IsIpLiteral(host) then None else NamedDomain(a)
  }

  function PathIn(a: Attr): Option<string> {
    if a.kind.PathKind? && a.value.Some? && a.value.value != [] && a.value.value[0] == '/' then a.value else None
  }

  function ExpiresIn(a: Attr): Option<Option<nat>> {
    if a.kind.ExpiresKind? && a.value.Some? then Some(ParseCookieDate(a.value.value)) else None
  }

  function MaxAgeIn(a: Attr): Option<int> {
    if a.kind.MaxAgeKind? && a.value.Some? then ParseI64(a.value.value) else None
  }

  function SameSiteOf(value: Option<string>): SameSite {
    if value.None? then Unspecified
    else
      var v := Trim(value.value);
      if EqIgnoreCase(v, "lax") then Lax
      else if EqIgnoreCase(v, "strict") then Strict
      else if EqIgnoreCase(v, "none") then Unrestricted
      else Unspecified
  }

  function SameSiteIn(a: Attr): Option<SameSite> {
    if a.kind.SameSiteKind? then Some(SameSiteOf(a.value)) else None
  }

  function DomainPick(host: string): Attr -> Option<string> {
    (a: Attr) => DomainIn(host, a)
  }

  /** What the last attribute that offers something offers. */
  function LastOf<T>(attrs: seq<Attr>, pick: Attr -> Option<T>): Option<T> {
    if attrs == [] then None
    else
      var p := pick(attrs[|attrs| - 1]);
      if p.Some? then p else LastOf(attrs[..|attrs| - 1], pick)
  }

  predicate Has(attrs: seq<Attr>, kind: Kind) {
    exists i :: 0 <= i < |attrs| && attrs[i].kind == kind
  }

  // ---- the meaning of a line --------------------------------------------------------------------

  /** The name and value before the first ';', or nothing when unusable. */
  function NameValue(piece: string): Option<(string, string)> {
    var (k, v) :- SplitOnce(Trim(piece), '=');
    var name, value := Trim(k), Trim(v);
    if name == [] || HasControl(name) || HasControl(value) then None else Some((name, value))
  }

  /** Max-Age wins over Expires; zero or negative means already expired; u64 addition saturates. */
  function Lifetime(expires: Option<nat>, maxAge: Option<int>, now: nat): Option<nat> {
    if maxAge.None? then expires
    else if maxAge.value <= 0 then Some(0)
    else Some(Min(now + maxAge.value, U64_LIMIT - 1))
  }

  predicate PrefixAllows(name: string, secure: bool, named: bool, path: string) {
    && (StartsWithIgnoreCase(name, "__secure-") ==> secure)
    && (StartsWithIgnoreCase(name, "__host-") ==> secure && !named && path == "/")
  }

  predicate NamesDomain(attrs: seq<Attr>) {
    exists i :: 0 <= i < |attrs| && NamedDomain(attrs[i]).Some?
  }

  /** What the attributes decide; the locals of the attribute loop. */
  datatype Fields = Fields(
    domain: Option<string>, hostOnly: bool, path: string, named: bool, expires: Option<nat>, maxAge: Option<int>,
    secure: bool, httpOnly: bool, sameSite: SameSite, partitioned: bool)

  /** What the attributes say, field by field. */
  function FieldsOf(registrable: string -> bool, host: string, fallback: string, attrs: seq<Attr>): Fields {
    var domain := LastOf(attrs, DomainPick(host));
    Fields(
      domain, domain.None? || !Scopable(registrable, domain.value), LastOf(attrs, PathIn).GetOr(fallback), NamesDomain(attrs),
      LastOf(attrs, ExpiresIn).GetOr(None), LastOf(attrs, MaxAgeIn),
      Has(attrs, SecureKind), Has(attrs, HttpOnlyKind), LastOf(attrs, SameSiteIn).GetOr(Unspecified), Has(attrs, PartitionedKind))
  }

  function CookieOf(registrable: string -> bool, name: string, value: string, attrs: seq<Attr>, url: Url, now: nat): Cookie {
    var host := Lower(url.host);
    var f := FieldsOf(registrable, host, DefaultPath(RequestPath(url.path)), attrs);
    Cookie(name, value, f.domain.GetOr(host), f.path, Lifetime(f.expires, f.maxAge, now), f.secure, f.httpOnly, f.hostOnly,
           f.sameSite, f.partitioned, None)
  }

  predicate Acceptable(registrable: string -> bool, attrs: seq<Attr>, url: Url, c: Cookie) {
    && (forall i :: 0 <= i < |attrs| ==> !Rejects(registrable, Lower(url.host), attrs[i]))
    && (c.secure ==> SecureContext(url))
    && PrefixAllows(c.name, c.secure, NamesDomain(attrs), c.path)
  }

  /** The cookie a Set-Cookie line received from `url` stands for, if any. */
  function Meaning(registrable: string -> bool, line: string, url: Url, now: nat): Option<Cookie> {
    var pieces := Split(line, ';');
    var (name, value) :- NameValue(pieces[0]);
    var attrs := ReadAttrs(pieces[1..]);
    var c := CookieOf(registrable, name, value, attrs, url, now);
    if Acceptable(registrable, attrs, url, c) then Some(c) else None
  }

  // ---- the loop -----------------------------------------------------------------------------------

  lemma LastOfStep<T>(attrs: seq<Attr>, n: nat, pick: Attr -> Option<T>)
    requires n < |attrs|
    ensures LastOf(attrs[..n + 1], pick) == if pick(attrs[n]).Some? then pick(attrs[n]) else LastOf(attrs[..n], pick)
  {
    assert attrs[..n + 1][..n] == attrs[..n];
  }

  /** parse_set_cookie */
  method ParseSetCookie(registrable: string -> bool, line: string, url: Url, now: nat) returns (r: Option<Cookie>)
    ensures r == Meaning(registrable, line, url, now)
  {
    hide IsIpLiteral, Scopable, DomainMatch, SecureContext, StartsWithIgnoreCase, ParseCookieDate, ParseI64,
      HasControl, Lower, DefaultPath, RequestPath, Trim, Split, SplitOnce, EqIgnoreCase, LastOf, Has, NamesDomain, KindOf, SameSiteOf;
    var pieces := Split(line, ';');
    var nv := NameValue(pieces[0]);
    if nv.None? {
      return None;
    }
    var (name, value) := nv.value;
    var requestHost := Lower(url.host);
    ghost var attrs := ReadAttrs(pieces[1..]);
    var scan := ScanAttrs(registrable, pieces[1..], requestHost, DefaultPath(RequestPath(url.path)));
    if scan.None? {
      return None;
    }
    var f := scan.value;
    if f.secure && !SecureContext(url) {
      return None;
    }
    if StartsWithIgnoreCase(name, "__secure-") && !f.secure {
      return None;
    }
    if StartsWithIgnoreCase(name, "__host-") && (!f.secure || f.named || f.path != "/") {
      return None;
    }
    var expires := f.expires;
    if f.maxAge.Some? {
      expires := if f.maxAge.value <= 0 then Some(0) else Some(Min(now + f.maxAge.value, U64_LIMIT - 1));
    }
    r := Some(Cookie(name, value, f.domain.GetOr(requestHost), f.path, expires, f.secure, f.httpOnly, f.hostOnly,
                     f.sameSite, f.partitioned, None));
  }

  /** Every field that the attribute speaks of replaced, the others kept. */
  function Override(registrable: string -> bool, host: string, f: Fields, a: Attr): Fields {
    var domain := if DomainIn(host, a).Some? then DomainIn(host, a) else f.domain;
    Fields(
      domain, domain.None? || !Scopable(registrable, domain.value), PathIn(a).GetOr(f.path), f.named || NamedDomain(a).Some?,
      ExpiresIn(a).GetOr(f.expires), if MaxAgeIn(a).Some? then MaxAgeIn(a) else f.maxAge,
      f.secure || a.kind == SecureKind, f.httpOnly || a.kind == HttpOnlyKind,
      SameSiteIn(a).GetOr(f.sameSite), f.partitioned || a.kind == PartitionedKind)
  }

  lemma HasStep(attrs: seq<Attr>, n: nat, kind: Kind)
    requires n < |attrs|
    ensures Has(attrs[..n + 1], kind) == (Has(attrs[..n], kind) || attrs[n].kind == kind)
  {
    var t := attrs[..n + 1];
    assert forall i :: 0 <= i < n ==> t[i] == attrs[..n][i];
    if Has(attrs[..n], kind) {
      var i :| 0 <= i < n && attrs[..n][i].kind == kind;
      assert t[i].kind == kind;
    }
    if attrs[n].kind == kind {
      assert t[n].kind == kind;
    }
  }

  lemma NamesStep(attrs: seq<Attr>, n: nat)
    requires n < |attrs|
    ensures NamesDomain(attrs[..n + 1]) == (NamesDomain(attrs[..n]) || NamedDomain(attrs[n]).Some?)
  {
    var t := attrs[..n + 1];
    assert forall i :: 0 <= i < n ==> t[i] == attrs[..n][i];
    if NamesDomain(attrs[..n]) {
      var i :| 0 <= i < n && NamedDomain(attrs[..n][i]).Some?;
      assert NamedDomain(t[i]).Some?;
    }
    if NamedDomain(attrs[n]).Some? {
      assert NamedDomain(t[n]).Some?;
    }
  }

  lemma FieldsStep(registrable: string -> bool, host: string, fallback: string, attrs: seq<Attr>, n: nat)
    requires n < |attrs|
    ensures FieldsOf(registrable, host, fallback, attrs[..n + 1])
         == Override(registrable, host, FieldsOf(registrable, host, fallback, attrs[..n]), attrs[n])
  {
    hide LastOf, Has, NamesDomain, NamedDomain, DomainIn, PathIn, ExpiresIn, MaxAgeIn, SameSiteIn, Scopable;
    LastOfStep(attrs, n, DomainPick(host));
    LastOfStep(attrs, n, PathIn);
    LastOfStep(attrs, n, ExpiresIn);
    LastOfStep(attrs, n, MaxAgeIn);
    LastOfStep(attrs, n, SameSiteIn);
    NamesStep(attrs, n);
    HasStep(attrs, n, SecureKind);
    HasStep(attrs, n, HttpOnlyKind);
    HasStep(attrs, n, PartitionedKind);
  }

  /** One attribute taken into the locals; None where parse_set_cookie gives the cookie up. */
  function Absorb(registrable: string -> bool, host: string, f: Fields, a: Attr): Option<Fields> {
    match a.kind
    case DomainKind => AbsorbDomain(registrable, host, f, NamedDomain(a))
    case PathKind =>
      if a.value.None? then Some(f)
      else if HasControl(a.value.value) then None
      else if a.value.value != [] && a.value.value[0] == '/' then Some(f.(path := a.value.value))
      else Some(f)
    case ExpiresKind => Some(if a.value.Some? then f.(expires := ParseCookieDate(a.value.value)) else f)
    case MaxAgeKind =>
      if a.value.Some? && ParseI64(a.value.value).Some? then Some(f.(maxAge := ParseI64(a.value.value))) else Some(f)
    case SecureKind => Some(f.(secure := true))
    case HttpOnlyKind => Some(f.(httpOnly := true))
    case SameSiteKind => Some(f.(sameSite := SameSiteOf(a.value)))
    case PartitionedKind => Some(f.(partitioned := true))
    case OtherKind => Some(f)
  }

  function AbsorbDomain(registrable: string -> bool, host: string, f: Fields, v: Option<string>): Option<Fields> {
    if v.None? then Some(f)
    else
      var g := f.(named := true);
      if IsIpLiteral(host) then Some(g)
      else if !Scopable(registrable, v.value) then
        if v.value == host then Some(g.(domain := v, hostOnly := true)) else None
      else if !DomainMatch(host, v.value, false) then None
      else Some(g.(domain := v, hostOnly := false))
  }

  predicate ScopeKnown(registrable: string -> bool, f: Fields) {
    f.hostOnly == (f.domain.None? || !Scopable(registrable, f.domain.value))
  }

  lemma AbsorbIsOverride(registrable: string -> bool, host: string, f: Fields, a: Attr)
    requires ScopeKnown(registrable, f)
    ensures Absorb(registrable, host, f, a) == if Rejects(registrable, host, a) then None else Some(Override(registrable, host, f, a))
  {
    hide IsIpLiteral, Scopable, DomainMatch, ParseCookieDate, ParseI64, HasControl, Lower, SameSiteOf;
    if a.kind.DomainKind? {
      AbsorbsDomain(registrable, host, f, a);
    }
  }

  lemma AbsorbsDomain(registrable: string -> bool, host: string, f: Fields, a: Attr)
    requires ScopeKnown(registrable, f) && a.kind.DomainKind?
    ensures Absorb(registrable, host, f, a) == if Rejects(registrable, host, a) then None else Some(Override(registrable, host, f, a))
  {
    hide IsIpLiteral, Scopable, DomainMatch, HasControl, Lower, SameSiteOf;
  }

  /** The attribute loop of parse_set_cookie: the last usable occurrence of each, or None on a rejected one. */
  method ScanAttrs(registrable: string -> bool, pieces: seq<string>, requestHost: string, fallback: string) returns (r: Option<Fields>)
    ensures var attrs := ReadAttrs(pieces);
      && (r.None? <==> exists i :: 0 <= i < |attrs| && Rejects(registrable, requestHost, attrs[i]))
      && (r.Some? ==> r.value == FieldsOf(registrable, requestHost, fallback, attrs))
  {
    hide ReadAttr, Absorb, Override, Rejects, LastOf, Has, NamesDomain, Scopable;
    ghost var attrs := ReadAttrs(pieces);
    var f := Fields(None, true, fallback, false, None, None, false, false, Unspecified, false);
    NothingRead(attrs, requestHost);
    var n := 0;
    while n < |pieces|
      invariant 0 <= n <= |pieces|
      invariant forall i :: 0 <= i < n ==> !Rejects(registrable, requestHost, attrs[i])
      invariant f == FieldsOf(registrable, requestHost, fallback, attrs[..n])
    {
      FieldsStep(registrable, requestHost, fallback, attrs, n);
      AbsorbIsOverride(registrable, requestHost, f, attrs[n]);
      var next := Absorb(registrable, requestHost, f, ReadAttr(pieces[n]));
      if next.None? {
        return None;
      }
      f := next.value;
      n := n + 1;
    }
    assert attrs[..n] == attrs;
    r := Some(f);
  }

  lemma NothingRead(attrs: seq<Attr>, host: string)
    ensures LastOf(attrs[..0], DomainPick(host)) == None
    ensures LastOf(attrs[..0], PathIn) == None && LastOf(attrs[..0], ExpiresIn) == None
    ensures LastOf(attrs[..0], MaxAgeIn) == None && LastOf(attrs[..0], SameSiteIn) == None
    ensures !Has(attrs[..0], SecureKind) && !Has(attrs[..0], HttpOnlyKind) && !Has(attrs[..0], PartitionedKind)
    ensures !NamesDomain(attrs[..0])
  {
  }

  // ---- scope ------------------------------------------------------------------------------------

  /** Host-only for the host that set it, or shared under a registrable domain that host belongs to. */
  predicate Scoped(registrable: string -> bool, host: string, c: Cookie) {
    if c.hostOnly then c.domain == Lower(host)
    else Scopable(registrable, c.domain) && !IsIpLiteral(host) && Covers(host, c.domain, false)
  }

  lemma {:induction false} LastOfComesFrom<T>(attrs: seq<Attr>, pick: Attr -> Option<T>)
    requires LastOf(attrs, pick).Some?
    ensures exists i :: 0 <= i < |attrs| && pick(attrs[i]) == LastOf(attrs, pick)
  {
    var n := |attrs| - 1;
    if pick(attrs[n]).Some? {
      assert pick(attrs[n]) == LastOf(attrs, pick);
    } else {
      LastOfComesFrom(attrs[..n], pick);
      var i :| 0 <= i < n && pick(attrs[..n][i]) == LastOf(attrs[..n], pick);
      assert pick(attrs[i]) == LastOf(attrs, pick);
    }
  }

  /** Whatever the order and repetition of the attributes, the cookie stays within its origin. */
  lemma ScopeSound(registrable: string -> bool, line: string, url: Url, now: nat)
    ensures Meaning(registrable, line, url, now).Some? ==> Scoped(registrable, url.host, Meaning(registrable, line, url, now).value)
  {
    hide IsIpLiteral, Scopable, DomainMatch, Covers, Lower, Split, NameValue, LastOf, Has, NamesDomain, SecureContext, PrefixAllows;
    var host := Lower(url.host);
    var attrs := ReadAttrs(Split(line, ';')[1..]);
    IpLiteralLower(url.host);
    var domain := LastOf(attrs, DomainPick(host));
    if domain.Some? && Meaning(registrable, line, url, now).Some? {
      LastOfComesFrom(attrs, DomainPick(host));
      var i :| 0 <= i < |attrs| && DomainPick(host)(attrs[i]) == domain;
      assert !Rejects(registrable, host, attrs[i]);
      DomainMatchLower(url.host, domain.value, false);
      DomainMatchByLabels(url.host, domain.value, false);
    }
  }

  /** The prefixes of RFC 6265bis, and Secure only from a secure context. */
  lemma PrefixesHold(registrable: string -> bool, line: string, url: Url, now: nat)
    ensures Meaning(registrable, line, url, now).Some? ==>
              var c := Meaning(registrable, line, url, now).value;
              && (c.secure ==> SecureContext(url))
              && (StartsWithIgnoreCase(c.name, "__Secure-") ==> c.secure)
              && (StartsWithIgnoreCase(c.name, "__Host-") ==>
                    c.secure && c.hostOnly && c.domain == Lower(url.host) && c.path == "/")
  {
    hide IsIpLiteral, Scopable, DomainMatch, Split, NameValue, LastOf, Has, SecureContext, Lower;
    assert EqIgnoreCase("__Secure-", "__secure-") && EqIgnoreCase("__Host-", "__host-") by { PrefixSpelling(); }
    var host := Lower(url.host);
    var attrs := ReadAttrs(Split(line, ';')[1..]);
    if Meaning(registrable, line, url, now).Some? && LastOf(attrs, DomainPick(host)).Some? {
      LastOfComesFrom(attrs, DomainPick(host));
      var i :| 0 <= i < |attrs| && DomainPick(host)(attrs[i]) == LastOf(attrs, DomainPick(host));
      assert NamedDomain(attrs[i]).Some?;
    }
  }

  lemma PrefixSpelling()
    ensures EqIgnoreCase("__Secure-", "__secure-") && EqIgnoreCase("__Host-", "__host-")
  {
  }

  // ---- selection -----------------------------------------------------------------------------------

  /** matches_request */
  predicate MatchesRequest(c: Cookie, url: Url, now: nat) {
    && (c.expires.Some? ==> c.expires.value > now)
    && (c.secure ==> SecureContext(url))
    && DomainMatch(url.host, c.domain, c.hostOnly)
    && PathMatch(RequestPath(url.path), c.path)
  }

  /** What a cookie is meant for, by labels and path segments. */
  predicate MeantFor(c: Cookie, url: Url, now: nat) {
    var path := RequestPath(url.path);
    && (c.expires.Some? ==> c.expires.value > now)
    && (c.secure ==> SecureContext(url))
    && Covers(url.host, c.domain, c.hostOnly)
    && (path == c.path || IsBelow(path, c.path))
  }

  lemma MatchesAsMeant(c: Cookie, url: Url, now: nat)
    ensures MatchesRequest(c, url, now) <==> MeantFor(c, url, now)
  {
    hide SecureContext, DomainMatch, PathMatch, Covers, IsBelow, RequestPath;
    DomainMatchByLabels(url.host, c.domain, c.hostOnly);
    PathMatchBySegments(RequestPath(url.path), c.path);
  }

  /**
   A live cookie goes back to the URL that set it exactly when its path covers that URL;
   set without Path=, exactly when the URL's path starts with a slash.
   */
  lemma ReturnsToItsUrl(registrable: string -> bool, line: string, url: Url, now: nat)
    ensures Meaning(registrable, line, url, now).Some? ==>
      var c, path := Meaning(registrable, line, url, now).value, RequestPath(url.path);
      var live := c.expires.Some? ==> c.expires.value > now;
      && (MatchesRequest(c, url, now) <==> live && PathMatch(path, c.path))
      && (live && !Has(ReadAttrs(Split(line, ';')[1..]), PathKind) ==> (MatchesRequest(c, url, now) <==> path != [] && path[0] == '/'))
  {
    hide IsIpLiteral, Scopable, Split, NameValue, LastOf, Has, NamesDomain, SecureContext, DefaultPath, RequestPath, PathMatch, DomainMatch, IsSubdomain;
    ScopeSound(registrable, line, url, now);
    PrefixesHold(registrable, line, url, now);
    LowerIdempotent(url.host);
    if Meaning(registrable, line, url, now).Some? {
      var c := Meaning(registrable, line, url, now).value;
      DomainMatchByLabels(url.host, c.domain, c.hostOnly);
    }
    DefaultPathCovers(RequestPath(url.path));
    var attrs := ReadAttrs(Split(line, ';')[1..]);
    if !Has(attrs, PathKind) {
      NoPathNamed(attrs);
    }
  }

  lemma NoPathNamed(attrs: seq<Attr>)
    requires !Has(attrs, PathKind)
    ensures LastOf(attrs, PathIn) == None
  {
    if LastOf(attrs, PathIn).Some? {
      LastOfComesFrom(attrs, PathIn);
    }
  }
}
