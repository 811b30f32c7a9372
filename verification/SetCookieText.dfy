/** A cookie written out as a Set-Cookie line, attribute by attribute, and read back (src/cookie.rs, `parse_set_cookie`). */
module SetCookieText {
  import opened Basics
  import opened Text
  import opened Dates
  import opened HttpDates
  import opened CookieMatch
  import opened SetCookie

  /** How long a line asks for: no attribute, a Max-Age, or an Expires with a printed date. */
  datatype Term = Session | For(seconds: nat) | Until(epoch: nat)

  // ---- attributes as text -------------------------------------------------------------------------

  /** An attribute as it is written: a blank, its name, and its value if it has one. */
  function Written(key: string, value: Option<string>): string {
    " " + if value.None? then key else key + ['='] + value.value
  }

  predicate Neat(s: string) {
    (s != [] ==> !IsWhitespace(s[0]) && !IsWhitespace(s[|s| - 1])) && ';' !in s
  }

  lemma BlankTrims(s: string)
    requires s != [] && !IsWhitespace(s[0]) && !IsWhitespace(s[|s| - 1])
    ensures Trim(" " + s) == s
  {
    assert (" " + s)[1..] == s;
    TrimNothing(s);
  }

  /** It reads as its kind and value. */
  lemma WrittenReads(key: string, value: Option<string>)
    requires key != [] && Neat(key) && '=' !in key && (value.Some? ==> Neat(value.value))
    ensures ReadAttr(Written(key, value)) == Attr(KindOf(key), value)
    ensures ';' !in Written(key, value)
  {
    hide Trim, KindOf, Find, IsWhitespace;
    var t := if value.None? then key else key + ['='] + value.value;
    assert t[|t| - 1] == if value.None? then key[|key| - 1] else if value.value == [] then '=' else value.value[|value.value| - 1];
    EqualsIsNoBlank();
    BlankTrims(t);
    if value.None? {
      FindNone(key, '=');
    } else {
      SplitOnceAt(key, '=', value.value);
      TrimNothing(key);
      TrimNothing(value.value);
    }
  }

  lemma EqualsIsNoBlank()
    ensures !IsWhitespace('=')
  {
  }

  // ---- one attribute, one field ---------------------------------------------------------------------

  lemma KindsOfNames()
    ensures KindOf("Domain") == DomainKind && KindOf("Path") == PathKind && KindOf("Expires") == ExpiresKind
    ensures KindOf("Max-Age") == MaxAgeKind && KindOf("Secure") == SecureKind && KindOf("HttpOnly") == HttpOnlyKind
    ensures KindOf("SameSite") == SameSiteKind && KindOf("Partitioned") == PartitionedKind
  {
    LoweredNames();
  }

  lemma LoweredNames()
    ensures Lower("Domain") == "domain" && Lower("Path") == "path" && Lower("Expires") == "expires"
    ensures Lower("Max-Age") == "max-age" && Lower("Secure") == "secure" && Lower("HttpOnly") == "httponly"
    ensures Lower("SameSite") == "samesite" && Lower("Partitioned") == "partitioned"
    ensures Lower("domain") == "domain" && Lower("path") == "path" && Lower("expires") == "expires"
    ensures Lower("max-age") == "max-age" && Lower("secure") == "secure" && Lower("httponly") == "httponly"
    ensures Lower("samesite") == "samesite" && Lower("partitioned") == "partitioned"
  {
  }

  function Opt<T>(b: bool, x: T): seq<T> {
    if b then [x] else []
  }

  function SameSiteName(s: SameSite): string {
    match s case Lax => "Lax" case Strict => "Strict" case Unrestricted => "None" case Unspecified => ""
  }

  lemma SameSiteNames(s: SameSite)
    ensures SameSiteOf(Some(SameSiteName(s))) == s
  {
    TrimNothing("Lax");
    TrimNothing("Strict");
    TrimNothing("None");
    TrimNothing("");
    assert Lower("Lax") == "lax" && Lower("Strict") == "strict" && Lower("None") == "none" && Lower("") == "";
    assert Lower("lax") == "lax" && Lower("strict") == "strict" && Lower("none") == "none";
  }

  /** One more attribute is an override, or nothing. */
  lemma Extend(registrable: string -> bool, host: string, fallback: string, attrs: seq<Attr>, b: bool, a: Attr)
    ensures FieldsOf(registrable, host, fallback, attrs + Opt(b, a))
         == if b then Override(registrable, host, FieldsOf(registrable, host, fallback, attrs), a)
            else FieldsOf(registrable, host, fallback, attrs)
  {
    hide FieldsOf, Override;
    if b {
      var all := attrs + [a];
      FieldsStep(registrable, host, fallback, all, |attrs|);
      assert all[..|attrs| + 1] == all && all[..|attrs|] == attrs;
    } else {
      assert attrs + [] == attrs;
    }
  }

  lemma OverrideDomain(registrable: string -> bool, host: string, f: Fields, d: string)
    requires !IsIpLiteral(host) && d != [] && d[0] != '.' && Lower(d) == d && Scopable(registrable, d)
    ensures Override(registrable, host, f, Attr(DomainKind, Some(d))) == f.(domain := Some(d), hostOnly := false, named := true)
  {
    hide IsIpLiteral, Scopable, Lower;
  }

  lemma OverrideOther(registrable: string -> bool, host: string, f: Fields, a: Attr)
    requires !a.kind.DomainKind? && ScopeKnown(registrable, f)
    ensures
      Override(registrable, host, f, a)
      == match a.kind
         case PathKind => f.(path := PathIn(a).GetOr(f.path))
         case ExpiresKind => f.(expires := ExpiresIn(a).GetOr(f.expires))
         case MaxAgeKind => if MaxAgeIn(a).Some? then f.(maxAge := MaxAgeIn(a)) else f
         case SecureKind => f.(secure := true)
         case HttpOnlyKind => f.(httpOnly := true)
         case SameSiteKind => f.(sameSite := SameSiteOf(a.value))
         case PartitionedKind => f.(partitioned := true)
         case _ => f
  {
    hide IsIpLiteral, Scopable, Lower, SameSiteOf, ParseCookieDate, ParseI64;
  }

  // ---- a whole line ------------------------------------------------------------------------------------

  function TermAttr(term: Term): Attr {
    match term
    case Session => Attr(OtherKind, None)
    case For(n) => Attr(MaxAgeKind, Some(Decimal(n)))
    case Until(epoch) => Attr(ExpiresKind, Some(EpochToHttpDate(epoch)))
  }

  function TermText(term: Term): string {
    match term
    case Session => ""
    case For(n) => Written("Max-Age", Some(Decimal(n)))
    case Until(epoch) => Written("Expires", Some(EpochToHttpDate(epoch)))
  }

  /** The attributes of a cookie's line, as text. */
  function AttrTexts(c: Cookie, term: Term): seq<string> {
    Opt(!c.hostOnly, Written("Domain", Some(c.domain))) + Opt(true, Written("Path", Some(c.path)))
    + Opt(term != Session, TermText(term)) + Opt(c.secure, Written("Secure", None)) + Opt(c.httpOnly, Written("HttpOnly", None))
    + Opt(c.sameSite != Unspecified, Written("SameSite", Some(SameSiteName(c.sameSite)))) + Opt(c.partitioned, Written("Partitioned", None))
  }

  /** And what they mean. */
  function AttrsOf(c: Cookie, term: Term): seq<Attr> {
    Opt(!c.hostOnly, Attr(DomainKind, Some(c.domain))) + Opt(true, Attr(PathKind, Some(c.path)))
    + Opt(term != Session, TermAttr(term)) + Opt(c.secure, Attr(SecureKind, None)) + Opt(c.httpOnly, Attr(HttpOnlyKind, None))
    + Opt(c.sameSite != Unspecified, Attr(SameSiteKind, Some(SameSiteName(c.sameSite)))) + Opt(c.partitioned, Attr(PartitionedKind, None))
  }

  /** The whole line. */
  function LineOf(c: Cookie, term: Term): string {
    Join([c.name + ['='] + c.value] + AttrTexts(c, term), ';')
  }

  /** The expiry such a term stands for. */
  function ExpiryOf(term: Term, now: nat): Option<nat> {
    match term
    case Session => None
    case For(n) => Some(if n == 0 then 0 else Min(now + n, U64_LIMIT - 1))
    case Until(epoch) => Some(epoch)
  }

  /** A cookie that a line from this URL can set: clean in its texts, within its scope, honouring its prefix. */
  predicate Settable(registrable: string -> bool, url: Url, now: nat, c: Cookie, term: Term) {
    && c.name != [] && Neat(c.name) && '=' !in c.name && Printable(c.name) && Neat(c.value) && Printable(c.value)
    && c.path != [] && c.path[0] == '/' && Neat(c.path) && Printable(c.path)
    && (if c.hostOnly then c.domain == Lower(url.host)
        else
          && !IsIpLiteral(url.host) && c.domain != [] && c.domain[0] != '.' && Lower(c.domain) == c.domain && Neat(c.domain)
          && Scopable(registrable, c.domain) && DomainMatch(url.host, c.domain, false))
    && (c.secure ==> SecureContext(url)) && PrefixAllows(c.name, c.secure, !c.hostOnly, c.path)
    && (term.For? ==> term.seconds < I64_LIMIT) && (term.Until? ==> term.epoch <= LAST_FOUR_DIGIT_SECOND)
    && c.expires == ExpiryOf(term, now) && c.partitionKey == None
  }

  lemma DateIsNeat(epoch: nat)
    ensures Neat(EpochToHttpDate(epoch))
  {
    hide CivilFromDays, Clock, Pad, Neat, PlainWord, FormatDate;
    var days, rem := epoch / 86400, epoch % 86400;
    CivilFromDaysCorrect(days);
    WeekdayIsPlain((days % 7 + 4) % 7);
    ClockIsPlain(rem / 3600, rem % 3600 / 60, rem % 60);
    var c := CivilFromDays(days);
    MonthsRead(c.m);
    FormatIsNeat(WEEKDAYS[(days % 7 + 4) % 7], c.d, MONTHS[c.m - 1], c.y, Clock(rem / 3600, rem % 3600 / 60, rem % 60));
  }

  lemma FormatIsNeat(weekday: string, d: nat, month: string, y: nat, clock: string)
    requires PlainWord(weekday) && PlainWord(month) && PlainWord(clock)
    ensures Neat(FormatDate(weekday, d, month, y, clock))
  {
    hide Pad, IsWhitespace;
    PadIsPlain(d, 2);
    PadIsPlain(y, 4);
    GmtIsPlain();
    var s := FormatDate(weekday, d, month, y, clock);
    TailEnds(d, month, y, clock);
    assert s[0] == weekday[0] && weekday[0] in weekday;
    PlainIsNoBlank(s[0]);
    PlainIsNoBlank('T');
  }

  lemma PlainIsNoBlank(c: char)
    requires Plain(c)
    ensures !IsWhitespace(c) && c != ';'
  {
  }

  lemma ReadAttrsConcat(a: seq<string>, b: seq<string>)
    ensures ReadAttrs(a + b) == ReadAttrs(a) + ReadAttrs(b)
  {
    hide ReadAttr;
  }

  /** The texts read as the attributes, and hold no semicolon. */
  ghost predicate Reads(texts: seq<string>, attrs: seq<Attr>) {
    ReadAttrs(texts) == attrs && forall t :: t in texts ==> ';' !in t
  }

  lemma ReadsMore(texts: seq<string>, attrs: seq<Attr>, b: bool, text: string, a: Attr)
    requires Reads(texts, attrs) && (b ==> ReadAttr(text) == a && ';' !in text)
    ensures Reads(texts + Opt(b, text), attrs + Opt(b, a))
  {
    hide ReadAttr;
    ReadAttrsConcat(texts, Opt(b, text));
    assert ReadAttrs(Opt(b, text)) == Opt(b, a);
  }

  lemma TermReads(term: Term)
    requires term != Session
    ensures ReadAttr(TermText(term)) == TermAttr(term) && ';' !in TermText(term)
  {
    hide ReadAttr, KindOf, Written, EpochToHttpDate, Decimal, Neat;
    KindsOfNames();
    NamesAreNeat();
    match term {
      case For(n) =>
        DecimalIsNeat(n);
        WrittenReads("Max-Age", Some(Decimal(n)));
      case Until(epoch) =>
        DateIsNeat(epoch);
        WrittenReads("Expires", Some(EpochToHttpDate(epoch)));
    }
  }

  lemma DecimalIsNeat(n: nat)
    ensures Neat(Decimal(n))
  {
    hide IsWhitespace, Decimal;
    DecimalValue(n);
    var s := Decimal(n);
    assert s[0] in s && s[|s| - 1] in s;
    DigitsAreNoBlanks();
  }

  lemma DigitsAreNoBlanks()
    ensures forall c :: IsDigit(c) ==> !IsWhitespace(c)
  {
  }

  lemma NamesAreNeat()
    ensures forall k :: k in ["Domain", "Path", "Expires", "Max-Age", "Secure", "HttpOnly", "SameSite", "Partitioned"] ==>
              k != [] && Neat(k) && '=' !in k
  {
  }

  lemma SameSiteIsNeat(s: SameSite)
    ensures Neat(SameSiteName(s))
  {
  }

  /** The texts read as the attributes. */
  lemma TextsRead(c: Cookie, term: Term)
    requires Neat(c.path) && (!c.hostOnly ==> Neat(c.domain))
    ensures Reads(AttrTexts(c, term), AttrsOf(c, term))
  {
    hide Reads, ReadAttr, KindOf, Written, TermText, TermAttr, Neat, Opt;
    KindsOfNames();
    NamesAreNeat();
    NothingReads();
    if !c.hostOnly {
      WrittenReads("Domain", Some(c.domain));
    }
    WrittenReads("Path", Some(c.path));
    var t1, a1 := Opt(!c.hostOnly, Written("Domain", Some(c.domain))), Opt(!c.hostOnly, Attr(DomainKind, Some(c.domain)));
    ReadsMore([], [], !c.hostOnly, Written("Domain", Some(c.domain)), Attr(DomainKind, Some(c.domain)));
    assert [] + t1 == t1 && [] + a1 == a1;
    var t2, a2 := t1 + Opt(true, Written("Path", Some(c.path))), a1 + Opt(true, Attr(PathKind, Some(c.path)));
    ReadsMore(t1, a1, true, Written("Path", Some(c.path)), Attr(PathKind, Some(c.path)));
    if term != Session {
      TermReads(term);
    }
    ReadsMore(t2, a2, term != Session, TermText(term), TermAttr(term));
    FlagsRead(c, t2 + Opt(term != Session, TermText(term)), a2 + Opt(term != Session, TermAttr(term)));
  }

  lemma NothingReads()
    ensures Reads([], [])
  {
  }

  lemma FlagsRead(c: Cookie, texts: seq<string>, attrs: seq<Attr>)
    requires Reads(texts, attrs)
    ensures Reads(texts + Opt(c.secure, Written("Secure", None)) + Opt(c.httpOnly, Written("HttpOnly", None))
                  + Opt(c.sameSite != Unspecified, Written("SameSite", Some(SameSiteName(c.sameSite)))) + Opt(c.partitioned, Written("Partitioned", None)),
                  attrs + Opt(c.secure, Attr(SecureKind, None)) + Opt(c.httpOnly, Attr(HttpOnlyKind, None))
                  + Opt(c.sameSite != Unspecified, Attr(SameSiteKind, Some(SameSiteName(c.sameSite)))) + Opt(c.partitioned, Attr(PartitionedKind, None)))
  {
    hide Reads, ReadAttr, KindOf, Written, Neat, Opt, SameSiteName;
    KindsOfNames();
    NamesAreNeat();
    SameSiteIsNeat(c.sameSite);
    WrittenReads("Secure", None);
    WrittenReads("HttpOnly", None);
    WrittenReads("SameSite", Some(SameSiteName(c.sameSite)));
    WrittenReads("Partitioned", None);
    var t4, a4 := texts + Opt(c.secure, Written("Secure", None)), attrs + Opt(c.secure, Attr(SecureKind, None));
    ReadsMore(texts, attrs, c.secure, Written("Secure", None), Attr(SecureKind, None));
    var t5, a5 := t4 + Opt(c.httpOnly, Written("HttpOnly", None)), a4 + Opt(c.httpOnly, Attr(HttpOnlyKind, None));
    ReadsMore(t4, a4, c.httpOnly, Written("HttpOnly", None), Attr(HttpOnlyKind, None));
    var site, siteAttr := Written("SameSite", Some(SameSiteName(c.sameSite))), Attr(SameSiteKind, Some(SameSiteName(c.sameSite)));
    ReadsMore(t5, a5, c.sameSite != Unspecified, site, siteAttr);
    ReadsMore(t5 + Opt(c.sameSite != Unspecified, site), a5 + Opt(c.sameSite != Unspecified, siteAttr),
              c.partitioned, Written("Partitioned", None), Attr(PartitionedKind, None));
  }

  function StartFields(fallback: string): Fields {
    Fields(None, true, fallback, false, None, None, false, false, Unspecified, false)
  }

  lemma NoFields(registrable: string -> bool, host: string, fallback: string)
    ensures FieldsOf(registrable, host, fallback, []) == StartFields(fallback)
  {
  }

  /** What the attributes decide is what the cookie says. */
  function FieldsMeant(c: Cookie, term: Term): Fields {
    Fields(if c.hostOnly then None else Some(c.domain), c.hostOnly, c.path, !c.hostOnly,
           if term.Until? then Some(term.epoch) else None, if term.For? then Some(term.seconds) else None,
           c.secure, c.httpOnly, c.sameSite, c.partitioned)
  }

  lemma TermDecides(registrable: string -> bool, host: string, f: Fields, term: Term)
    requires ScopeKnown(registrable, f) && term != Session
    requires (term.For? ==> term.seconds < I64_LIMIT) && (term.Until? ==> term.epoch <= LAST_FOUR_DIGIT_SECOND)
    ensures Override(registrable, host, f, TermAttr(term))
         == if term.For? then f.(maxAge := Some(term.seconds)) else f.(expires := Some(term.epoch))
  {
    hide Override, EpochToHttpDate, Decimal, ParseCookieDate, DigitsValue;
    OverrideOther(registrable, host, f, TermAttr(term));
    match term {
      case For(n) =>
        DecimalValue(n);
        ParseDigits(Decimal(n));
      case Until(epoch) => CookieDateReadsPrinted(epoch);
    }
  }

  lemma FieldsAreMeant(registrable: string -> bool, host: string, fallback: string, c: Cookie, term: Term)
    requires c.path != [] && c.path[0] == '/'
    requires !c.hostOnly ==> !IsIpLiteral(host) && c.domain != [] && c.domain[0] != '.' && Lower(c.domain) == c.domain && Scopable(registrable, c.domain)
    requires (term.For? ==> term.seconds < I64_LIMIT) && (term.Until? ==> term.epoch <= LAST_FOUR_DIGIT_SECOND)
    ensures FieldsOf(registrable, host, fallback, AttrsOf(c, term)) == FieldsMeant(c, term)
  {
    hide FieldsOf, Override, IsIpLiteral, Scopable, Lower, TermAttr, SameSiteOf;
    var f0 := StartFields(fallback);
    NoFields(registrable, host, fallback);
    var a1 := Opt(!c.hostOnly, Attr(DomainKind, Some(c.domain)));
    Extend(registrable, host, fallback, [], !c.hostOnly, Attr(DomainKind, Some(c.domain)));
    assert [] + a1 == a1;
    var f1 := if c.hostOnly then f0 else f0.(domain := Some(c.domain), hostOnly := false, named := true);
    if !c.hostOnly {
      OverrideDomain(registrable, host, f0, c.domain);
    }
    Extend(registrable, host, fallback, a1, true, Attr(PathKind, Some(c.path)));
    OverrideOther(registrable, host, f1, Attr(PathKind, Some(c.path)));
    var a2, f2 := a1 + Opt(true, Attr(PathKind, Some(c.path))), f1.(path := c.path);
    Extend(registrable, host, fallback, a2, term != Session, TermAttr(term));
    var f3 := f2.(expires := if term.Until? then Some(term.epoch) else None, maxAge := if term.For? then Some(term.seconds) else None);
    if term != Session {
      TermDecides(registrable, host, f2, term);
    }
    var a3 := a2 + Opt(term != Session, TermAttr(term));
    FlagsAreMeant(registrable, host, fallback, c, a3, f3);
  }

  /** The attributes behind the expiry. */
  lemma FlagsAreMeant(registrable: string -> bool, host: string, fallback: string, c: Cookie, attrs: seq<Attr>, f: Fields)
    requires FieldsOf(registrable, host, fallback, attrs) == f && ScopeKnown(registrable, f)
    requires !f.secure && !f.httpOnly && f.sameSite == Unspecified && !f.partitioned
    ensures
      FieldsOf(registrable, host, fallback,
               attrs + Opt(c.secure, Attr(SecureKind, None)) + Opt(c.httpOnly, Attr(HttpOnlyKind, None))
               + Opt(c.sameSite != Unspecified, Attr(SameSiteKind, Some(SameSiteName(c.sameSite)))) + Opt(c.partitioned, Attr(PartitionedKind, None)))
      == f.(secure := c.secure, httpOnly := c.httpOnly, sameSite := c.sameSite, partitioned := c.partitioned)
  {
    hide FieldsOf, Override, Scopable, SameSiteOf, SameSiteName;
    var a4, f4 := attrs + Opt(c.secure, Attr(SecureKind, None)), f.(secure := c.secure);
    Extend(registrable, host, fallback, attrs, c.secure, Attr(SecureKind, None));
    OverrideOther(registrable, host, f, Attr(SecureKind, None));
    var a5, f5 := a4 + Opt(c.httpOnly, Attr(HttpOnlyKind, None)), f4.(httpOnly := c.httpOnly);
    Extend(registrable, host, fallback, a4, c.httpOnly, Attr(HttpOnlyKind, None));
    OverrideOther(registrable, host, f4, Attr(HttpOnlyKind, None));
    var site := Attr(SameSiteKind, Some(SameSiteName(c.sameSite)));
    var a6, f6 := a5 + Opt(c.sameSite != Unspecified, site), f5.(sameSite := c.sameSite);
    Extend(registrable, host, fallback, a5, c.sameSite != Unspecified, site);
    OverrideOther(registrable, host, f5, site);
    SameSiteNames(c.sameSite);
    Extend(registrable, host, fallback, a6, c.partitioned, Attr(PartitionedKind, None));
    OverrideOther(registrable, host, f6, Attr(PartitionedKind, None));
  }

  /** None of the attributes rejects the cookie. */
  lemma NoneRejects(registrable: string -> bool, host: string, c: Cookie, term: Term)
    requires !HasControl(c.path)
    requires !c.hostOnly ==> c.domain != [] && c.domain[0] != '.' && Lower(c.domain) == c.domain
                             && Scopable(registrable, c.domain) && DomainMatch(host, c.domain, false)
    ensures forall i :: 0 <= i < |AttrsOf(c, term)| ==> !Rejects(registrable, host, AttrsOf(c, term)[i])
  {
    hide IsIpLiteral, Scopable, DomainMatch, HasControl, Lower, TermText, Decimal, EpochToHttpDate, SameSiteName, Rejects;
    forall a | a in AttrsOf(c, term)
      ensures !Rejects(registrable, host, a)
    {
      if a.kind.DomainKind? {
        OwnDomainIsFine(registrable, host, c.domain);
      } else if a.kind.PathKind? {
        CleanPathIsFine(registrable, host, c.path);
      } else {
        OthersAreFine(registrable, host, a);
      }
    }
  }

  lemma OwnDomainIsFine(registrable: string -> bool, host: string, d: string)
    requires d != [] && d[0] != '.' && Lower(d) == d && Scopable(registrable, d) && DomainMatch(host, d, false)
    ensures !Rejects(registrable, host, Attr(DomainKind, Some(d)))
  {
    hide IsIpLiteral, Scopable, DomainMatch, Lower;
  }

  lemma CleanPathIsFine(registrable: string -> bool, host: string, path: string)
    requires !HasControl(path)
    ensures !Rejects(registrable, host, Attr(PathKind, Some(path)))
  {
    hide IsIpLiteral, Scopable, DomainMatch, HasControl;
  }

  lemma OthersAreFine(registrable: string -> bool, host: string, a: Attr)
    requires !a.kind.DomainKind? && !a.kind.PathKind?
    ensures !Rejects(registrable, host, a)
  {
    hide IsIpLiteral, Scopable, DomainMatch, HasControl;
  }

  /** The case of an attribute's name does not matter. */
  lemma KindIgnoresCase(key: string, other: string)
    requires EqIgnoreCase(key, other)
    ensures KindOf(key) == KindOf(other)
  {
    hide Lower;
  }

  lemma NameValueReads(name: string, value: string)
    requires name != [] && Neat(name) && '=' !in name && !HasControl(name) && Neat(value) && !HasControl(value)
    ensures NameValue(name + ['='] + value) == Some((name, value))
    ensures ';' !in name + ['='] + value
  {
    hide Trim, HasControl, Find, IsWhitespace;
    var t := name + ['='] + value;
    EqualsIsNoBlank();
    assert t[|t| - 1] == if value == [] then '=' else value[|value| - 1];
    TrimNothing(t);
    TrimNothing(name);
    TrimNothing(value);
    SplitOnceAt(name, '=', value);
  }

  /** A cookie written as a line, and read by a client that sent the request, is that cookie: every attribute is read as it was meant. */
  lemma SetCookieReadsBack(registrable: string -> bool, url: Url, now: nat, c: Cookie, term: Term)
    requires Settable(registrable, url, now, c, term)
    ensures Meaning(registrable, LineOf(c, term), url, now) == Some(c)
  {
    ControlExactly(c.name);
    ControlExactly(c.value);
    ControlExactly(c.path);
    hide IsIpLiteral, Scopable, DomainMatch, HasControl, Printable, Lower, Split, Join, AttrTexts, AttrsOf, ReadAttrs, NameValue, Neat, FieldsOf,
      SecureContext, DefaultPath, RequestPath, PrefixAllows, Rejects, NamesDomain;
    var host := Lower(url.host);
    IpLiteralLower(url.host);
    if !c.hostOnly {
      DomainMatchLower(url.host, c.domain, false);
    }
    NameValueReads(c.name, c.value);
    TextsRead(c, term);
    var pieces := [c.name + ['='] + c.value] + AttrTexts(c, term);
    SplitJoin(pieces, ';');
    assert pieces[1..] == AttrTexts(c, term);
    FieldsAreMeant(registrable, host, DefaultPath(RequestPath(url.path)), c, term);
    NoneRejects(registrable, host, c, term);
    NamedOnlyByDomain(registrable, host, DefaultPath(RequestPath(url.path)), c, term);
    var attrs := AttrsOf(c, term);
    assert CookieOf(registrable, c.name, c.value, attrs, url, now) == c;
  }

  lemma NamedOnlyByDomain(registrable: string -> bool, host: string, fallback: string, c: Cookie, term: Term)
    requires FieldsOf(registrable, host, fallback, AttrsOf(c, term)) == FieldsMeant(c, term)
    ensures NamesDomain(AttrsOf(c, term)) == !c.hostOnly
  {
    hide AttrsOf, LastOf, Has, NamesDomain, Scopable;
  }
}
