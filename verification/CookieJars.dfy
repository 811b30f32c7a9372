/**
 The cookie jar (src/cookie.rs, `CookieJar`): two lists updated in place. The lists are
 proved to be a map from (name, domain ignoring case, path) to cookies, with a set of
 keys for the cookies given on the command line; and Secure cookies are proved out of
 reach of responses from insecure origins.
 */
module CookieJars {
  import opened Basics
  import opened Text
  import opened CookieMatch
  import opened SetCookie

  datatype Triple = Triple(name: string, domain: string, path: string) {
    /** The identity behind the spelling of the domain. */
    function Fold(): Triple {
      Triple(name, Lower(domain), path)
    }
  }

  function TripleOf(c: Cookie): Triple {
    Triple(c.name, c.domain, c.path)
  }

  function KeyOf(c: Cookie): Triple {
    TripleOf(c).Fold()
  }

  /** same_key */
  predicate SameKey(a: Triple, b: Triple) {
    a.name == b.name && EqIgnoreCase(a.domain, b.domain) && a.path == b.path
  }

  function Retain<T>(s: seq<T>, keep: T -> bool): seq<T> {
    if s == [] then [] else (if keep(s[0]) then [s[0]] else []) + Retain(s[1..], keep)
  }

  // ---- the jar as a value and its operations ----------------------------------------------------

  datatype Jar = Jar(cookies: seq<Cookie>, explicit: seq<Triple>)

  function OtherCookies(t: Triple): Cookie -> bool {
    (c: Cookie) => !SameKey(TripleOf(c), t)
  }

  function OtherTriples(t: Triple): Triple -> bool {
    (x: Triple) => !SameKey(x, t)
  }

  predicate Live(c: Cookie, now: nat) {
    c.expires.Some? ==> c.expires.value > now
  }

  function LiveAt(now: nat): Cookie -> bool {
    (c: Cookie) => Live(c, now)
  }

  /** remove_matching */
  function Without(jar: Jar, t: Triple): Jar {
    Jar(Retain(jar.cookies, OtherCookies(t)), Retain(jar.explicit, OtherTriples(t)))
  }

  /** A stored Secure cookie that `c` would overwrite, delete or shadow (shadows_secure_cookie). */
  predicate Shadows(x: Cookie, c: Cookie) {
    && x.secure && x.name == c.name
    && (DomainMatch(x.domain, c.domain, false) || DomainMatch(c.domain, x.domain, false))
    && PathMatch(c.path, x.path)
  }

  predicate ShadowsSecure(cookies: seq<Cookie>, c: Cookie) {
    exists i :: 0 <= i < |cookies| && Shadows(cookies[i], c)
  }

  function ExplicitCookie(name: string, value: string, url: Url): Cookie {
    Cookie(name, value, Lower(url.host), "/", None, false, false, true, Unspecified, false, None)
  }

  datatype Op =
    | SetCookieLine(url: Url, line: string, now: nat)
    | Insert(cookie: Cookie)
    | AddExplicit(name: string, value: string, url: Url)
    | Remove(key: Triple)
    | PurgeExpired(now: nat)
    | Clear

  /** Merging a parsed cookie; `trusted` tells whether it came from a secure context. */
  function Merge(jar: Jar, c: Cookie, trusted: bool, now: nat): Jar {
    if !trusted && ShadowsSecure(jar.cookies, c) then jar
    else
      var rest := Without(jar, TripleOf(c));
      if Live(c, now) then rest.(cookies := rest.cookies + [c]) else rest
  }

  function Apply(registrable: string -> bool, jar: Jar, op: Op): Jar {
    match op
    case SetCookieLine(url, line, now) =>
      (match Meaning(registrable, line, url, now)
       case None => jar
       case Some(c) => Merge(jar, c, SecureContext(url), now))
    case Insert(c) => var rest := Without(jar, TripleOf(c)); rest.(cookies := rest.cookies + [c])
    case AddExplicit(name, value, url) =>
      var c := ExplicitCookie(name, value, url);
      var rest := Without(jar, TripleOf(c));
      Jar(rest.cookies + [c], rest.explicit + [TripleOf(c)])
    case Remove(t) => Without(jar, t)
    case PurgeExpired(now) => jar.(cookies := Retain(jar.cookies, LiveAt(now)))
    case Clear => Jar([], [])
  }

  function Run(registrable: string -> bool, jar: Jar, ops: seq<Op>): Jar {
    if ops == [] then jar
    else Apply(registrable, Run(registrable, jar, ops[..|ops| - 1]), ops[|ops| - 1])
  }

  // ---- the object ---------------------------------------------------------------------------------

  class CookieJar {
    var cookies: seq<Cookie>
    var explicit: seq<Triple>

    ghost function Value(): Jar
      reads this
    {
      Jar(cookies, explicit)
    }

    constructor ()
      ensures Value() == Jar([], [])
    {
      cookies, explicit := [], [];
    }

    method RemoveMatching(t: Triple)
      modifies this
      ensures Value() == Without(old(Value()), t)
    {
      cookies := Retain(cookies, OtherCookies(t));
      explicit := Retain(explicit, OtherTriples(t));
    }

    method HasShadowedSecure(c: Cookie) returns (found: bool)
      ensures found == ShadowsSecure(cookies, c)
    {
      found := false;
      var i := 0;
      while i < |cookies| && !found
        invariant 0 <= i <= |cookies|
        invariant found ==> ShadowsSecure(cookies, c)
        invariant !found ==> forall j :: 0 <= j < i ==> !Shadows(cookies[j], c)
      {
        found := Shadows(cookies[i], c);
        i := i + 1;
      }
    }

    method AddSetCookie(registrable: string -> bool, url: Url, line: string, now: nat)
      modifies this
      ensures Value() == Apply(registrable, old(Value()), SetCookieLine(url, line, now))
    {
      hide Meaning, Without, ShadowsSecure, SecureContext;
      var parsed := ParseSetCookie(registrable, line, url, now);
      if parsed.None? {
        return;
      }
      var c := parsed.value;
      if !SecureContext(url) {
        var shadowed := HasShadowedSecure(c);
        if shadowed {
          return;
        }
      }
      RemoveMatching(TripleOf(c));
      if c.expires.Some? && c.expires.value <= now {
        return;
      }
      cookies := cookies + [c];
    }

    /** Every Set-Cookie header of a response, in order. */
    method IngestResponse(registrable: string -> bool, url: Url, headers: seq<(string, string)>, now: nat)
      modifies this
      ensures Value() == Run(registrable, old(Value()), LinesOf(url, headers, now))
    {
      hide Apply, EqIgnoreCase;
      var i := 0;
      while i < |headers|
        invariant 0 <= i <= |headers|
        invariant Value() == Run(registrable, old(Value()), LinesOf(url, headers[..i], now))
      {
        ghost var before := LinesOf(url, headers[..i], now);
        assert headers[..i + 1][..i] == headers[..i];
        if EqIgnoreCase(headers[i].0, "set-cookie") {
          AddSetCookie(registrable, url, headers[i].1, now);
          ghost var after := before + [SetCookieLine(url, headers[i].1, now)];
          assert after[..|after| - 1] == before;
          assert LinesOf(url, headers[..i + 1], now) == after;
          assert Value() == Run(registrable, old(Value()), after);
        } else {
          assert LinesOf(url, headers[..i + 1], now) == before + [] == before;
        }
        i := i + 1;
      }
      assert headers[..i] == headers;
    }

    method Insert(c: Cookie)
      modifies this
      ensures forall registrable :: Value() == Apply(registrable, old(Value()), Op.Insert(c))
    {
      RemoveMatching(TripleOf(c));
      cookies := cookies + [c];
    }

    method AddExplicit(name: string, value: string, url: Url)
      modifies this
      ensures forall registrable :: Value() == Apply(registrable, old(Value()), Op.AddExplicit(name, value, url))
    {
      var c := ExplicitCookie(name, value, url);
      RemoveMatching(TripleOf(c));
      explicit := explicit + [TripleOf(c)];
      cookies := cookies + [c];
    }

    /** Tells whether a cookie was removed. */
    method Remove(t: Triple) returns (removed: bool)
      modifies this
      ensures forall registrable :: Value() == Apply(registrable, old(Value()), Op.Remove(t))
      ensures removed <==> exists c :: c in old(cookies) && SameKey(TripleOf(c), t)
    {
      var before := |cookies|;
      RetainAll(cookies, OtherCookies(t));
      RemoveMatching(t);
      removed := |cookies| != before;
    }

    method PurgeExpired(now: nat)
      modifies this
      ensures forall registrable :: Value() == Apply(registrable, old(Value()), Op.PurgeExpired(now))
    {
      cookies := Retain(cookies, LiveAt(now));
    }

    method Clear()
      modifies this
      ensures Value() == Jar([], [])
    {
      cookies, explicit := [], [];
    }
  }

  function LinesOf(url: Url, headers: seq<(string, string)>, now: nat): seq<Op> {
    if headers == [] then []
    else
      var n := |headers| - 1;
      LinesOf(url, headers[..n], now)
      + if EqIgnoreCase(headers[n].0, "set-cookie") then [SetCookieLine(url, headers[n].1, now)] else []
  }

  // ---- retaining ------------------------------------------------------------------------------------

  lemma {:induction false} RetainMembers<T>(s: seq<T>, keep: T -> bool)
    ensures forall x :: x in Retain(s, keep) <==> x in s && keep(x)
  {
    if s != [] {
      RetainMembers(s[1..], keep);
      forall x
        ensures x in Retain(s, keep) <==> x in s && keep(x)
      {
        assert x in s <==> x == s[0] || x in s[1..];
      }
    }
  }

  /** The length is kept exactly when nothing was dropped. */
  lemma {:induction false} RetainAll<T>(s: seq<T>, keep: T -> bool)
    ensures |Retain(s, keep)| <= |s|
    ensures |Retain(s, keep)| == |s| <==> forall x :: x in s ==> keep(x)
  {
    if s != [] {
      RetainAll(s[1..], keep);
      assert forall x :: x in s <==> x == s[0] || x in s[1..];
    }
  }

  lemma {:induction false} RetainAppend<T>(a: seq<T>, b: seq<T>, keep: T -> bool)
    ensures Retain(a + b, keep) == Retain(a, keep) + Retain(b, keep)
  {
    if a == [] {
      assert a + b == b;
      assert Retain(a, keep) == [];
    } else {
      var head := if keep(a[0]) then [a[0]] else [];
      assert (a + b)[0] == a[0] && (a + b)[1..] == a[1..] + b;
      RetainAppend(a[1..], b, keep);
      Associate(head, Retain(a[1..], keep), Retain(b, keep));
    }
  }

  // ---- the map behind the list -------------------------------------------------------------------------

  predicate Unique(cookies: seq<Cookie>) {
    forall i, j :: 0 <= i < j < |cookies| ==> KeyOf(cookies[i]) != KeyOf(cookies[j])
  }

  predicate UniqueTriples(ts: seq<Triple>) {
    forall i, j :: 0 <= i < j < |ts| ==> ts[i].Fold() != ts[j].Fold()
  }

  /** What the jar means: one cookie per key, and the keys given on the command line. */
  datatype View = View(cookies: map<Triple, Cookie>, explicit: set<Triple>)

  function AsMap(cookies: seq<Cookie>): map<Triple, Cookie> {
    if cookies == [] then map[] else AsMap(cookies[1..])[KeyOf(cookies[0]) := cookies[0]]
  }

  function Keys(ts: seq<Triple>): set<Triple> {
    set t | t in ts :: t.Fold()
  }

  function ViewOf(jar: Jar): View {
    View(AsMap(jar.cookies), Keys(jar.explicit))
  }

  predicate MapShadows(m: map<Triple, Cookie>, c: Cookie) {
    exists k :: k in m && Shadows(m[k], c)
  }

  function Forget(v: View, k: Triple): View {
    View(v.cookies - {k}, v.explicit - {k})
  }

  function Put(v: View, c: Cookie): View {
    View(v.cookies[KeyOf(c) := c], v.explicit - {KeyOf(c)})
  }

  function LivePart(m: map<Triple, Cookie>, now: nat): map<Triple, Cookie> {
    map k | k in m && Live(m[k], now) :: m[k]
  }

  /** The cookie a Set-Cookie line delivers, unless it is refused for the sake of a Secure one. */
  function Delivered(registrable: string -> bool, v: View, url: Url, line: string, now: nat): Option<Cookie> {
    var c :- Meaning(registrable, line, url, now);
    if !SecureContext(url) && MapShadows(v.cookies, c) then None else Some(c)
  }

  function MapApply(registrable: string -> bool, v: View, op: Op): View {
    match op
    case SetCookieLine(url, line, now) =>
      (match Delivered(registrable, v, url, line, now)
       case None => v
       case Some(c) => if Live(c, now) then Put(v, c) else Forget(v, KeyOf(c)))
    case Insert(c) => Put(v, c)
    case AddExplicit(name, value, url) =>
      var c := ExplicitCookie(name, value, url);
      View(v.cookies[KeyOf(c) := c], v.explicit + {KeyOf(c)})
    case Remove(t) => Forget(v, t.Fold())
    case PurgeExpired(now) => View(LivePart(v.cookies, now), v.explicit)
    case Clear => View(map[], {})
  }

  function MapRun(registrable: string -> bool, ops: seq<Op>): View {
    if ops == [] then View(map[], {})
    else MapApply(registrable, MapRun(registrable, ops[..|ops| - 1]), ops[|ops| - 1])
  }

  /** What every operation keeps. */
  predicate Inv(jar: Jar) {
    && Unique(jar.cookies) && UniqueTriples(jar.explicit)
    && forall k :: k in Keys(jar.explicit) ==> k in AsMap(jar.cookies) && AsMap(jar.cookies)[k].expires.None?
  }

  lemma SameKeyIsFold(a: Triple, b: Triple)
    ensures SameKey(a, b) <==> a.Fold() == b.Fold()
  {
  }

  lemma {:induction false} RetainUnique(s: seq<Cookie>, keep: Cookie -> bool)
    requires Unique(s)
    ensures Unique(Retain(s, keep))
  {
    if s != [] {
      RetainUnique(s[1..], keep);
      RetainMembers(s[1..], keep);
      var rest := Retain(s[1..], keep);
      forall j | 0 <= j < |rest|
        ensures KeyOf(s[0]) != KeyOf(rest[j])
      {
        assert rest[j] in s[1..];
      }
    }
  }

  lemma {:induction false} RetainUniqueTriples(s: seq<Triple>, keep: Triple -> bool)
    requires UniqueTriples(s)
    ensures UniqueTriples(Retain(s, keep))
  {
    if s != [] {
      RetainUniqueTriples(s[1..], keep);
      RetainMembers(s[1..], keep);
      var rest := Retain(s[1..], keep);
      forall j | 0 <= j < |rest|
        ensures s[0].Fold() != rest[j].Fold()
      {
        assert rest[j] in s[1..];
      }
    }
  }

  lemma WithoutRefines(jar: Jar, t: Triple)
    requires Inv(jar)
    ensures Inv(Without(jar, t))
    ensures ViewOf(Without(jar, t)) == Forget(ViewOf(jar), t.Fold())
  {
    hide Lower;
    RetainUnique(jar.cookies, OtherCookies(t));
    RetainUniqueTriples(jar.explicit, OtherTriples(t));
    CookiesWithout(jar.cookies, t);
    KeysWithout(jar.explicit, t);
  }

  lemma {:induction false} CookiesWithout(cookies: seq<Cookie>, t: Triple)
    ensures AsMap(Retain(cookies, OtherCookies(t))) == AsMap(cookies) - {t.Fold()}
  {
    hide Lower;
    if cookies != [] {
      CookiesWithout(cookies[1..], t);
      SameKeyIsFold(TripleOf(cookies[0]), t);
      RetainStep(cookies, OtherCookies(t));
      AsMapStep(cookies[0], Retain(cookies[1..], OtherCookies(t)));
    }
  }

  lemma RetainStep<T>(s: seq<T>, keep: T -> bool)
    requires s != []
    ensures Retain(s, keep) == if keep(s[0]) then [s[0]] + Retain(s[1..], keep) else Retain(s[1..], keep)
  {
  }

  lemma AsMapStep(c: Cookie, rest: seq<Cookie>)
    ensures AsMap([c] + rest) == AsMap(rest)[KeyOf(c) := c]
  {
    assert ([c] + rest)[1..] == rest;
  }

  lemma {:induction false} AsMapMembers(cookies: seq<Cookie>)
    requires Unique(cookies)
    ensures forall c :: c in cookies ==> KeyOf(c) in AsMap(cookies) && AsMap(cookies)[KeyOf(c)] == c
    ensures forall k :: k in AsMap(cookies) ==> AsMap(cookies)[k] in cookies && KeyOf(AsMap(cookies)[k]) == k
  {
    hide KeyOf;
    if cookies != [] {
      AsMapMembers(cookies[1..]);
      forall c | c in cookies
        ensures KeyOf(c) in AsMap(cookies) && AsMap(cookies)[KeyOf(c)] == c
      {
        var i :| 0 <= i < |cookies| && cookies[i] == c;
        if i > 0 {
          assert cookies[1..][i - 1] == c;
        }
      }
    }
  }

  lemma KeysWithout(ts: seq<Triple>, t: Triple)
    ensures Keys(Retain(ts, OtherTriples(t))) == Keys(ts) - {t.Fold()}
  {
    hide Lower;
    RetainMembers(ts, OtherTriples(t));
  }

  lemma {:induction false} AppendToMap(cookies: seq<Cookie>, c: Cookie)
    requires KeyOf(c) !in AsMap(cookies)
    ensures AsMap(cookies + [c]) == AsMap(cookies)[KeyOf(c) := c]
  {
    hide KeyOf;
    if cookies == [] {
      AsMapStep(c, []);
      assert cookies + [c] == [c] + [];
    } else {
      var head, rest := cookies[0], cookies[1..];
      assert cookies + [c] == [head] + (rest + [c]);
      AppendToMap(rest, c);
      AsMapStep(head, rest + [c]);
    }
  }

  lemma AppendUnique(cookies: seq<Cookie>, c: Cookie)
    requires Unique(cookies) && KeyOf(c) !in AsMap(cookies)
    ensures Unique(cookies + [c])
  {
    hide KeyOf, AsMap;
    AsMapMembers(cookies);
    forall i | 0 <= i < |cookies|
      ensures KeyOf(cookies[i]) != KeyOf(c)
    {
      assert cookies[i] in cookies;
    }
  }

  lemma PutRefines(jar: Jar, c: Cookie)
    requires Inv(jar)
    ensures var rest := Without(jar, TripleOf(c)); var next := rest.(cookies := rest.cookies + [c]);
      Inv(next) && ViewOf(next) == Put(ViewOf(jar), c)
  {
    hide Lower, Without, AsMap, Keys, Unique, UniqueTriples, TripleOf;
    WithoutRefines(jar, TripleOf(c));
    AppendUnique(Without(jar, TripleOf(c)).cookies, c);
    AppendToMap(Without(jar, TripleOf(c)).cookies, c);
  }

  lemma AppendTriple(ts: seq<Triple>, t: Triple)
    requires UniqueTriples(ts) && t.Fold() !in Keys(ts)
    ensures UniqueTriples(ts + [t]) && Keys(ts + [t]) == Keys(ts) + {t.Fold()}
  {
    forall i | 0 <= i < |ts|
      ensures ts[i].Fold() != t.Fold()
    {
      assert ts[i] in ts;
      assert ts[i].Fold() in Keys(ts);
    }
    assert forall x :: x in ts + [t] <==> x in ts || x == t;
  }

  lemma ExplicitRefines(jar: Jar, c: Cookie)
    requires Inv(jar) && c.expires.None?
    ensures var rest := Without(jar, TripleOf(c)); var next := Jar(rest.cookies + [c], rest.explicit + [TripleOf(c)]);
      Inv(next) && ViewOf(next) == View(ViewOf(jar).cookies[KeyOf(c) := c], ViewOf(jar).explicit + {KeyOf(c)})
  {
    hide Lower, Without, AsMap, Keys, Unique, UniqueTriples, TripleOf;
    PutRefines(jar, c);
    WithoutRefines(jar, TripleOf(c));
    AppendTriple(Without(jar, TripleOf(c)).explicit, TripleOf(c));
  }

  lemma {:induction false} LiveCookies(cookies: seq<Cookie>, now: nat)
    requires Unique(cookies)
    ensures AsMap(Retain(cookies, LiveAt(now))) == LivePart(AsMap(cookies), now)
  {
    hide KeyOf;
    if cookies != [] {
      var head, rest := cookies[0], cookies[1..];
      LiveCookies(rest, now);
      RetainStep(cookies, LiveAt(now));
      AsMapStep(head, Retain(rest, LiveAt(now)));
      AsMapMembers(rest);
      HeadLive(AsMap(rest), KeyOf(head), head, now);
    }
  }

  lemma HeadLive(m: map<Triple, Cookie>, k: Triple, c: Cookie, now: nat)
    requires k !in m
    ensures LivePart(m[k := c], now) == if Live(c, now) then LivePart(m, now)[k := c] else LivePart(m, now)
  {
    hide Live;
  }

  lemma PurgeRefines(jar: Jar, now: nat)
    requires Inv(jar)
    ensures var next := jar.(cookies := Retain(jar.cookies, LiveAt(now)));
      Inv(next) && ViewOf(next) == View(LivePart(AsMap(jar.cookies), now), Keys(jar.explicit))
  {
    hide KeyOf, AsMap, Keys, Unique, UniqueTriples;
    RetainUnique(jar.cookies, LiveAt(now));
    LiveCookies(jar.cookies, now);
  }

  lemma ShadowsInMap(cookies: seq<Cookie>, c: Cookie)
    requires Unique(cookies)
    ensures ShadowsSecure(cookies, c) <==> MapShadows(AsMap(cookies), c)
  {
    hide Shadows, KeyOf, AsMap, Unique;
    var m := AsMap(cookies);
    AsMapMembers(cookies);
    if ShadowsSecure(cookies, c) {
      var i :| 0 <= i < |cookies| && Shadows(cookies[i], c);
      assert cookies[i] in cookies;
      assert m[KeyOf(cookies[i])] == cookies[i];
    }
    if MapShadows(m, c) {
      var k :| k in m && Shadows(m[k], c);
      var i :| 0 <= i < |cookies| && cookies[i] == m[k];
    }
  }

  /** Every operation is the matching map update, and keeps the invariant. */
  lemma ApplyRefines(registrable: string -> bool, jar: Jar, op: Op)
    requires Inv(jar)
    ensures Inv(Apply(registrable, jar, op))
    ensures ViewOf(Apply(registrable, jar, op)) == MapApply(registrable, ViewOf(jar), op)
  {
    hide Without, Meaning, SecureContext, ShadowsSecure, MapShadows, AsMap, Keys, Unique, UniqueTriples, Lower;
    match op {
      case SetCookieLine(url, line, now) =>
        var parsed := Meaning(registrable, line, url, now);
        if parsed.Some? {
          var c := parsed.value;
          ShadowsInMap(jar.cookies, c);
          WithoutRefines(jar, TripleOf(c));
          PutRefines(jar, c);
        }
      case Insert(c) => PutRefines(jar, c);
      case AddExplicit(name, value, url) => ExplicitRefines(jar, ExplicitCookie(name, value, url));
      case Remove(t) => WithoutRefines(jar, t);
      case PurgeExpired(now) => PurgeRefines(jar, now);
      case Clear => EmptyJar();
    }
  }

  lemma EmptyJar()
    ensures Inv(Jar([], [])) && ViewOf(Jar([], [])) == View(map[], {})
  {
  }

  /** A jar built from nothing by any operations is the map those operations build. */
  lemma {:induction false} JarRefinesMap(registrable: string -> bool, ops: seq<Op>)
    ensures Inv(Run(registrable, Jar([], []), ops))
    ensures ViewOf(Run(registrable, Jar([], []), ops)) == MapRun(registrable, ops)
  {
    hide Inv, Apply, MapApply, ViewOf;
    EmptyJar();
    if ops != [] {
      var n := |ops| - 1;
      JarRefinesMap(registrable, ops[..n]);
      ApplyRefines(registrable, Run(registrable, Jar([], []), ops[..n]), ops[n]);
    }
  }
}
