/** What holds of a cookie jar over whole runs (src/cookie.rs). */
module CookieLaws {
  import opened Basics
  import opened Text
  import opened CookieMatch
  import opened SetCookie
  import opened CookieJars

  // ---- leave Secure cookies alone (section 5.7 of RFC 6265bis) -------------------------------------

  predicate IsSecure(c: Cookie) {
    c.secure
  }

  function SecureOnly(cookies: seq<Cookie>): seq<Cookie> {
    Retain(cookies, IsSecure)
  }

  /** A Secure cookie of the same identity is always shadowed. */
  lemma SameKeyShadows(x: Cookie, c: Cookie)
    requires x.secure && SameKey(TripleOf(x), TripleOf(c))
    ensures Shadows(x, c)
  {
  }

  lemma {:induction false} RetainTwice<T>(s: seq<T>, first: T -> bool, second: T -> bool)
    requires forall x :: x in s && second(x) ==> first(x)
    ensures Retain(Retain(s, first), second) == Retain(s, second)
  {
    if s != [] {
      forall x | x in s[1..] && second(x)
        ensures first(x)
      {
        assert x in s;
      }
      RetainTwice(s[1..], first, second);
      assert s[0] in s;
      RetainStep(s, first);
      RetainStep(s, second);
      var rest := Retain(s[1..], first);
      if first(s[0]) {
        RetainStep([s[0]] + rest, second);
        assert ([s[0]] + rest)[1..] == rest;
      }
    }
  }

  lemma SecureKept(cookies: seq<Cookie>, c: Cookie)
    requires !ShadowsSecure(cookies, c)
    ensures SecureOnly(Retain(cookies, OtherCookies(TripleOf(c)))) == SecureOnly(cookies)
  {
    forall x | x in cookies && IsSecure(x)
      ensures OtherCookies(TripleOf(c))(x)
    {
      var i :| 0 <= i < |cookies| && cookies[i] == x;
      if SameKey(TripleOf(x), TripleOf(c)) {
        SameKeyShadows(x, c);
      }
    }
    RetainTwice(cookies, OtherCookies(TripleOf(c)), IsSecure);
  }

  lemma SecureKeptByOne(registrable: string -> bool, jar: Jar, op: Op)
    requires op.SetCookieLine? && !SecureContext(op.url)
    ensures SecureOnly(Apply(registrable, jar, op).cookies) == SecureOnly(jar.cookies)
  {
    hide Meaning, SecureContext, ShadowsSecure;
    var parsed := Meaning(registrable, op.line, op.url, op.now);
    if parsed.Some? && !ShadowsSecure(jar.cookies, parsed.value) {
      var c := parsed.value;
      PrefixesHold(registrable, op.line, op.url, op.now);
      SecureKept(jar.cookies, c);
      RetainAppend(Retain(jar.cookies, OtherCookies(TripleOf(c))), [c], IsSecure);
      assert Retain([c], IsSecure) == [];
    }
  }

  /** Responses from insecure origins leave the Secure cookies of any jar as they are, in order. */
  lemma {:induction false} SecureCookiesLeftAlone(registrable: string -> bool, jar: Jar, ops: seq<Op>)
    requires forall i :: 0 <= i < |ops| ==> ops[i].SetCookieLine? && !SecureContext(ops[i].url)
    ensures SecureOnly(Run(registrable, jar, ops).cookies) == SecureOnly(jar.cookies)
  {
    hide Apply, SecureContext;
    if ops != [] {
      var n := |ops| - 1;
      SecureCookiesLeftAlone(registrable, jar, ops[..n]);
      SecureKeptByOne(registrable, Run(registrable, jar, ops[..n]), ops[n]);
    }
  }

  /** By labels and segments, the Secure cookies that a cookie from an insecure origin may not touch. */
  predicate Overlaps(x: Cookie, c: Cookie) {
    && x.secure && x.name == c.name
    && (Covers(x.domain, c.domain, false) || Covers(c.domain, x.domain, false))
    && (c.path == x.path || IsBelow(c.path, x.path))
  }

  lemma ShadowsByLabels(x: Cookie, c: Cookie)
    ensures Shadows(x, c) <==> Overlaps(x, c)
  {
    hide DomainMatch, PathMatch, Covers, IsBelow;
    DomainMatchByLabels(x.domain, c.domain, false);
    DomainMatchByLabels(c.domain, x.domain, false);
    PathMatchBySegments(c.path, x.path);
  }

  /**
   A readable line is refused exactly when it comes from an insecure origin and overlaps a
   stored Secure cookie; otherwise its cookie is stored, if it lives, and its key cleared.
   */
  lemma RefusedExactly(registrable: string -> bool, jar: Jar, url: Url, line: string, now: nat)
    ensures
      var parsed := Meaning(registrable, line, url, now);
      var after := Apply(registrable, jar, SetCookieLine(url, line, now));
      if parsed.None? then after == jar
      else if !SecureContext(url) && exists i :: 0 <= i < |jar.cookies| && Overlaps(jar.cookies[i], parsed.value) then after == jar
      else forall x :: x in after.cookies <==>
             (x in jar.cookies && !SameKey(TripleOf(x), TripleOf(parsed.value))) || (x == parsed.value && Live(x, now))
  {
    hide Meaning, SecureContext, Shadows, Overlaps, SameKey;
    var parsed := Meaning(registrable, line, url, now);
    if parsed.Some? {
      var c := parsed.value;
      forall i | 0 <= i < |jar.cookies|
        ensures Shadows(jar.cookies[i], c) <==> Overlaps(jar.cookies[i], c)
      {
        ShadowsByLabels(jar.cookies[i], c);
      }
      RetainMembers(jar.cookies, OtherCookies(TripleOf(c)));
    }
  }

  // ---- Max-Age ------------------------------------------------------------------------------------------

  /**
   With a readable Max-Age the last one alone decides: the cookie lives exactly when it is
   positive, whatever Expires says, until the u64 clock runs out; one that does not live
   is gone from the jar, by its own insecure line too, unless a Secure cookie is in the way.
   */
  lemma MaxAgeDecides(registrable: string -> bool, v: View, url: Url, line: string, now: nat)
    requires now < U64_LIMIT
    ensures
      var age, c := LastOf(ReadAttrs(Split(line, ';')[1..]), MaxAgeIn), Meaning(registrable, line, url, now);
      c.Some? && age.Some? ==>
        && (Live(c.value, now) <==> age.value > 0 && now < U64_LIMIT - 1)
        && (!Live(c.value, now) && Delivered(registrable, v, url, line, now).Some? ==>
              KeyOf(c.value) !in MapApply(registrable, v, SetCookieLine(url, line, now)).cookies)
  {
    hide LastOf, Split, ReadAttrs, NameValue, Acceptable, Scopable, Has, NamesDomain, Lower, DefaultPath, RequestPath, MapShadows, SecureContext;
  }

  // ---- where cookies come from -----------------------------------------------------------------------

  /** The cookie an operation offers to the jar. */
  function Offers(registrable: string -> bool, op: Op): Option<Cookie> {
    match op
    case SetCookieLine(url, line, now) => Meaning(registrable, line, url, now)
    case Insert(c) => Some(c)
    case AddExplicit(name, value, url) => Some(ExplicitCookie(name, value, url))
    case _ => None
  }

  lemma OneProvenance(registrable: string -> bool, jar: Jar, op: Op, c: Cookie)
    requires c in Apply(registrable, jar, op).cookies
    ensures c in jar.cookies || Offers(registrable, op) == Some(c)
  {
    hide Meaning, SecureContext, ShadowsSecure, SameKey;
    forall t: Triple
      ensures forall x :: x in Retain(jar.cookies, OtherCookies(t)) ==> x in jar.cookies
    {
      RetainMembers(jar.cookies, OtherCookies(t));
    }
    if op.PurgeExpired? {
      RetainMembers(jar.cookies, LiveAt(op.now));
    }
  }

  /** Every stored cookie is one that some operation offered. */
  lemma {:induction false} Provenance(registrable: string -> bool, ops: seq<Op>, c: Cookie)
    ensures c in Run(registrable, Jar([], []), ops).cookies ==> exists i :: 0 <= i < |ops| && Offers(registrable, ops[i]) == Some(c)
  {
    hide Apply, Offers;
    if ops != [] && c in Run(registrable, Jar([], []), ops).cookies {
      var n := |ops| - 1;
      OneProvenance(registrable, Run(registrable, Jar([], []), ops[..n]), ops[n], c);
      if Offers(registrable, ops[n]) != Some(c) {
        Provenance(registrable, ops[..n], c);
        var i :| 0 <= i < n && Offers(registrable, ops[..n][i]) == Some(c);
        assert Offers(registrable, ops[i]) == Some(c);
      }
    }
  }

  predicate WellScoped(registrable: string -> bool, url: Url, c: Cookie) {
    && Scoped(registrable, url.host, c)
    && (c.secure ==> SecureContext(url))
    && (StartsWithIgnoreCase(c.name, "__Secure-") ==> c.secure)
    && (StartsWithIgnoreCase(c.name, "__Host-") ==> c.secure && c.hostOnly && c.path == "/")
  }

  /**
   In a jar filled by servers, every cookie is scoped to the origin of a response that
   set it, and its name prefix is honoured, whatever else was set, replaced or purged.
   */
  lemma ServerCookiesAreScoped(registrable: string -> bool, ops: seq<Op>, c: Cookie)
    requires forall i :: 0 <= i < |ops| ==> !ops[i].Insert? && !ops[i].AddExplicit?
    ensures c in Run(registrable, Jar([], []), ops).cookies ==>
              exists i :: 0 <= i < |ops| && ops[i].SetCookieLine? && WellScoped(registrable, ops[i].url, c)
  {
    hide Meaning, Run, Scoped, SecureContext, StartsWithIgnoreCase;
    if c in Run(registrable, Jar([], []), ops).cookies {
      Provenance(registrable, ops, c);
      var i :| 0 <= i < |ops| && Offers(registrable, ops[i]) == Some(c);
      var op := ops[i];
      ScopeSound(registrable, op.line, op.url, op.now);
      PrefixesHold(registrable, op.line, op.url, op.now);
      assert WellScoped(registrable, op.url, c);
    }
  }

  // ---- the explicit keys -------------------------------------------------------------------------------

  /** Whether an operation stores or deletes under the key `k`, given what the jar holds. */
  predicate Touches(registrable: string -> bool, v: View, op: Op, k: Triple) {
    match op
    case SetCookieLine(url, line, now) =>
      (match Delivered(registrable, v, url, line, now)
       case None => false
       case Some(c) => KeyOf(c) == k)
    case Insert(c) => KeyOf(c) == k
    case AddExplicit(name, value, url) => KeyOf(ExplicitCookie(name, value, url)) == k
    case Remove(t) => t.Fold() == k
    case PurgeExpired(_) => false
    case Clear => true
  }

  /** The operation `i` put an explicit cookie under `k` and nothing has replaced or removed it since. */
  predicate ExplicitSince(registrable: string -> bool, ops: seq<Op>, k: Triple, i: nat)
    requires i < |ops|
  {
    && ops[i].AddExplicit? && KeyOf(ExplicitCookie(ops[i].name, ops[i].value, ops[i].url)) == k
    && forall j :: i < j < |ops| ==> !Touches(registrable, MapRun(registrable, ops[..j]), ops[j], k)
  }

  predicate HoldsExplicit(v: View, op: Op, k: Triple)
    requires op.AddExplicit?
  {
    k in v.cookies && v.cookies[k] == ExplicitCookie(op.name, op.value, op.url)
  }

  /** A step that leaves the key alone leaves it as it is, whether or not it is explicit. */
  lemma UntouchedStays(registrable: string -> bool, v: View, op: Op, k: Triple)
    requires !Touches(registrable, v, op, k)
    ensures k in MapApply(registrable, v, op).explicit <==> k in v.explicit
    ensures k in v.cookies && v.cookies[k].expires.None? ==>
              k in MapApply(registrable, v, op).cookies && MapApply(registrable, v, op).cookies[k] == v.cookies[k]
  {
    hide KeyOf, Delivered;
  }

  /** A step that touches the key leaves it explicit exactly when it is an explicit one. */
  lemma TouchedBy(registrable: string -> bool, v: View, op: Op, k: Triple)
    requires Touches(registrable, v, op, k)
    ensures k in MapApply(registrable, v, op).explicit <==> op.AddExplicit?
    ensures op.AddExplicit? ==>
              KeyOf(ExplicitCookie(op.name, op.value, op.url)) == k && HoldsExplicit(MapApply(registrable, v, op), op, k)
  {
    hide KeyOf, Delivered;
  }

  lemma SincePrefix(registrable: string -> bool, ops: seq<Op>, k: Triple, i: nat)
    requires i < |ops| - 1
    ensures var n := |ops| - 1;
      ExplicitSince(registrable, ops, k, i)
      <==> ExplicitSince(registrable, ops[..n], k, i) && !Touches(registrable, MapRun(registrable, ops[..n]), ops[n], k)
  {
    hide KeyOf, Touches, MapRun;
    var n := |ops| - 1;
    forall j | i < j < n
      ensures ops[..n][..j] == ops[..j] && ops[..n][j] == ops[j]
    {
    }
  }

  /**
   A key counts as explicit exactly when some command-line cookie was put under it and
   not replaced or removed since; the jar then still holds that very cookie.
   */
  lemma {:induction false} ExplicitIsLastWriter(registrable: string -> bool, ops: seq<Op>, k: Triple)
    ensures k in MapRun(registrable, ops).explicit <==> exists i: nat :: i < |ops| && ExplicitSince(registrable, ops, k, i)
    ensures forall i: nat :: i < |ops| && ExplicitSince(registrable, ops, k, i) ==> HoldsExplicit(MapRun(registrable, ops), ops[i], k)
  {
    hide KeyOf, Touches, MapApply;
    if ops != [] {
      var n := |ops| - 1;
      var v := MapRun(registrable, ops[..n]);
      ExplicitIsLastWriter(registrable, ops[..n], k);
      forall i: nat | i < n
        ensures ExplicitSince(registrable, ops, k, i)
                <==> ExplicitSince(registrable, ops[..n], k, i) && !Touches(registrable, v, ops[n], k)
      {
        SincePrefix(registrable, ops, k, i);
      }
      if Touches(registrable, v, ops[n], k) {
        LastTouches(registrable, ops, v, k);
      } else {
        LastSpares(registrable, ops, v, k);
      }
    }
  }

  lemma LastTouches(registrable: string -> bool, ops: seq<Op>, v: View, k: Triple)
    requires ops != [] && Touches(registrable, v, ops[|ops| - 1], k)
    requires forall i: nat :: i < |ops| - 1 ==> !ExplicitSince(registrable, ops, k, i)
    ensures var next := MapApply(registrable, v, ops[|ops| - 1]);
      && (k in next.explicit <==> exists i: nat :: i < |ops| && ExplicitSince(registrable, ops, k, i))
      && (forall i: nat :: i < |ops| && ExplicitSince(registrable, ops, k, i) ==> HoldsExplicit(next, ops[i], k))
  {
    hide KeyOf, MapApply, Touches, MapRun;
    var n := |ops| - 1;
    TouchedBy(registrable, v, ops[n], k);
    if ops[n].AddExplicit? {
      assert ExplicitSince(registrable, ops, k, n);
    }
  }

  lemma LastSpares(registrable: string -> bool, ops: seq<Op>, v: View, k: Triple)
    requires ops != [] && !Touches(registrable, v, ops[|ops| - 1], k)
    requires var n := |ops| - 1;
      && (k in v.explicit <==> exists i: nat :: i < n && ExplicitSince(registrable, ops[..n], k, i))
      && (forall i: nat :: i < n && ExplicitSince(registrable, ops[..n], k, i) ==> HoldsExplicit(v, ops[..n][i], k))
      && (forall i: nat :: i < n ==> (ExplicitSince(registrable, ops, k, i) <==> ExplicitSince(registrable, ops[..n], k, i)))
    ensures var next := MapApply(registrable, v, ops[|ops| - 1]);
      && (k in next.explicit <==> exists i: nat :: i < |ops| && ExplicitSince(registrable, ops, k, i))
      && (forall i: nat :: i < |ops| && ExplicitSince(registrable, ops, k, i) ==> HoldsExplicit(next, ops[i], k))
  {
    hide KeyOf, MapApply, MapRun;
    var n := |ops| - 1;
    UntouchedStays(registrable, v, ops[n], k);
    assert !ExplicitSince(registrable, ops, k, n);
    hide ExplicitSince, Touches;
    forall i: nat | i < |ops| && ExplicitSince(registrable, ops, k, i)
      ensures HoldsExplicit(MapApply(registrable, v, ops[n]), ops[i], k)
    {
      assert i < n && ops[..n][i] == ops[i];
      assert ExplicitSince(registrable, ops[..n], k, i);
    }
    if k in v.explicit {
      var i: nat :| i < n && ExplicitSince(registrable, ops[..n], k, i);
      assert ExplicitSince(registrable, ops, k, i);
    }
  }

  /** A cookie from the command line goes to the host it was given for and to no other, on every path, whenever. */
  lemma ExplicitGoesToItsHost(name: string, value: string, url: Url, other: Url, now: nat)
    ensures
      var c := ExplicitCookie(name, value, url);
      && c.name == name && c.value == value && !c.httpOnly && c.sameSite.Unspecified? && !c.partitioned
      && (MatchesRequest(c, other, now) <==>
            EqIgnoreCase(other.host, url.host) && RequestPath(other.path) != [] && RequestPath(other.path)[0] == '/')
  {
    hide RequestPath, Lower;
    LowerIdempotent(url.host);
  }
}
