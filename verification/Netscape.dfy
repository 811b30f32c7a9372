/** Cookie jars on disk (src/cookie.rs, `save_netscape`, `load_netscape`, `parse_netscape_line`). */
module Netscape {
  import opened Basics
  import opened Text
  import opened CookieMatch
  import opened SetCookie
  import opened CookieJars

  // ---- writing ----------------------------------------------------------------------------------

  const BANNER: string := "# Netscape HTTP Cookie File"
  const BANNER_URL: string := "# https://curl.se/docs/http-cookies.html"
  const BANNER_WARNING: string := "# This file was generated by rsurl."
  const BANNER_ADVICE: string := " Edit at your own risk."
  const HEADER_LINES: seq<string> := [BANNER, BANNER_URL, BANNER_WARNING + BANNER_ADVICE, ""]

  predicate IsSeparator(c: char) {
    c == '\t' || c == '\r' || c == '\n'
  }

  /** has_jar_separator */
  predicate HasSeparator(s: string) {
    exists c :: c in s && IsSeparator(c)
  }

  predicate Recordable(c: Cookie) {
    !HasSeparator(c.name) && !HasSeparator(c.value) && !HasSeparator(c.domain) && !HasSeparator(c.path)
  }

  predicate IsExplicit(explicit: seq<Triple>, c: Cookie) {
    exists i :: 0 <= i < |explicit| && SameKey(explicit[i], TripleOf(c))
  }

  /** Written out: not given on the command line, and free of separators. */
  function WrittenFrom(explicit: seq<Triple>): Cookie -> bool {
    (c: Cookie) => !IsExplicit(explicit, c) && Recordable(c)
  }

  const HTTP_ONLY_PREFIX: string := "#HttpOnly_"

  function Flag(b: bool): string {
    if b then "TRUE" else "FALSE"
  }

  function FieldsOfCookie(c: Cookie): seq<string> {
    [c.domain, Flag(!c.hostOnly), c.path, Flag(c.secure), Decimal(c.expires.GetOr(0)), c.name, c.value]
  }

  function RecordLine(c: Cookie): string {
    (if c.httpOnly then HTTP_ONLY_PREFIX else "") + Join(FieldsOfCookie(c), '\t')
  }

  function LinesText(lines: seq<string>): string {
    if lines == [] then "" else lines[0] + (['\n'] + LinesText(lines[1..]))
  }

  function Records(cookies: seq<Cookie>): (r: seq<string>) {
    seq(|cookies|, i requires 0 <= i < |cookies| => RecordLine(cookies[i]))
  }

  function Written(jar: Jar): seq<Cookie> {
    Retain(jar.cookies, WrittenFrom(jar.explicit))
  }

  /** The text of the whole file. */
  function SaveText(jar: Jar): string {
    LinesText(HEADER_LINES) + LinesText(Records(Written(jar)))
  }

  lemma {:induction false} LinesTextAppend(a: seq<string>, b: seq<string>)
    ensures LinesText(a + b) == LinesText(a) + LinesText(b)
  {
    if a == [] {
      assert a + b == b;
    } else {
      assert (a + b)[1..] == a[1..] + b;
      LinesTextAppend(a[1..], b);
      var x, y, z := a[0], LinesText(a[1..]), LinesText(b);
      assert x + (['\n'] + (y + z)) == (x + (['\n'] + y)) + z;
    }
  }

  lemma RecordsSnoc(cookies: seq<Cookie>, c: Cookie)
    ensures LinesText(Records(cookies + [c])) == LinesText(Records(cookies)) + RecordLine(c) + "\n"
  {
    hide RecordLine;
    assert Records(cookies + [c]) == Records(cookies) + [RecordLine(c)];
    LinesTextAppend(Records(cookies), [RecordLine(c)]);
    OneLine(RecordLine(c));
  }

  lemma OneLine(line: string)
    ensures LinesText([line]) == line + "\n"
  {
    assert [line][1..] == [];
  }

  /** save_netscape, up to the file itself. */
  method SaveNetscape(jar: Jar) returns (body: string)
    ensures body == SaveText(jar)
  {
    hide LinesText, Records, Recordable, IsExplicit, RecordLine, HEADER_LINES, Retain;
    body := LinesText(HEADER_LINES);
    var i := 0;
    ghost var kept: seq<Cookie> := [];
    NothingKept(jar);
    while i < |jar.cookies|
      invariant 0 <= i <= |jar.cookies|
      invariant kept == Retain(jar.cookies[..i], WrittenFrom(jar.explicit))
      invariant body == LinesText(HEADER_LINES) + LinesText(Records(kept))
    {
      var c := jar.cookies[i];
      RetainSnoc(jar.cookies, i, WrittenFrom(jar.explicit));
      i := i + 1;
      if IsExplicit(jar.explicit, c) {
        continue;
      }
      if !Recordable(c) {
        continue;
      }
      RecordsSnoc(kept, c);
      body := body + RecordLine(c) + "\n";
      kept := kept + [c];
    }
    assert jar.cookies[..i] == jar.cookies;
  }

  lemma NothingKept(jar: Jar)
    ensures Retain(jar.cookies[..0], WrittenFrom(jar.explicit)) == []
    ensures LinesText(Records([])) == []
  {
  }

  lemma RetainSnoc<T>(s: seq<T>, i: nat, keep: T -> bool)
    requires i < |s|
    ensures Retain(s[..i + 1], keep) == if keep(s[i]) then Retain(s[..i], keep) + [s[i]] else Retain(s[..i], keep)
  {
    hide Retain;
    assert s[..i + 1] == s[..i] + [s[i]];
    RetainAppend(s[..i], [s[i]], keep);
    RetainOne(s[i], keep);
  }

  lemma RetainOne<T>(x: T, keep: T -> bool)
    ensures Retain([x], keep) == if keep(x) then [x] else []
  {
    assert [x][1..] == [];
  }

  // ---- reading ------------------------------------------------------------------------------------

  datatype Outcome = Loaded(cookie: Cookie) | Skip | Malformed

  function StripHttpOnly(line: string): Option<string> {
    if HTTP_ONLY_PREFIX <= line then Some(line[|HTTP_ONLY_PREFIX|..]) else None
  }

  /** The fields of a record once split at the tabs. */
  function ReadFields(registrable: string -> bool, fields: seq<string>, httpOnly: bool): Outcome {
    if |fields| != 7 && |fields| != 6 then Malformed
    else if fields[0] == [] then Malformed
    else if ParseI64(fields[4]).None? then Malformed
    else if fields[5] == [] then Malformed
    else
      var value := if |fields| == 7 then fields[6] else "";
      if HasControl(fields[5]) || HasControl(value) then Skip
      else
        var seconds := ParseI64(fields[4]).value;
        var domain := TrimStartChar(fields[0], '.');
        var hostOnly := !EqIgnoreCase(fields[1], "TRUE") || IsIpLiteral(domain);
        if !hostOnly && !Scopable(registrable, domain) then Skip
        else
          Loaded(Cookie(fields[5], value, domain, fields[2], if seconds <= 0 then None else Some(seconds),
                        EqIgnoreCase(fields[3], "TRUE"), httpOnly, hostOnly, Unspecified, false, None))
  }

  /** parse_netscape_line */
  function ReadLine(registrable: string -> bool, line: string): Outcome {
    match StripHttpOnly(line)
    case Some(rest) => ReadFields(registrable, Split(rest, '\t'), true)
    case None =>
      if (line != [] && line[0] == '#') || Trim(line) == [] then Skip
      else ReadFields(registrable, Split(line, '\t'), false)
  }

  function Chomp(line: string): string {
    if line != [] && line[|line| - 1] == '\r' then line[..|line| - 1] else line
  }

  /** BufRead::lines */
  function Lines(text: string): seq<string>
    decreases |text|
  {
    if text == [] then []
    else
      var i := Find(text, '\n');
      if i < |text| then [Chomp(text[..i])] + Lines(text[i + 1..]) else [text]
  }

  /** The cookies of the lines that hold one. */
  function LoadLines(registrable: string -> bool, lines: seq<string>): seq<Cookie> {
    if lines == [] then []
    else
      var n := |lines| - 1;
      LoadLines(registrable, lines[..n])
      + match ReadLine(registrable, lines[n]) case Loaded(c) => [c] case _ => []
  }

  /** load_netscape, from the text of the file. */
  method LoadNetscape(registrable: string -> bool, text: string) returns (cookies: seq<Cookie>)
    ensures cookies == LoadLines(registrable, Lines(text))
  {
    hide ReadLine, Lines;
    var lines := Lines(text);
    cookies := [];
    var i := 0;
    while i < |lines|
      invariant 0 <= i <= |lines|
      invariant cookies == LoadLines(registrable, lines[..i])
    {
      assert lines[..i + 1][..i] == lines[..i];
      match ReadLine(registrable, lines[i]) {
        case Loaded(c) => cookies := cookies + [c];
        case Skip =>
        case Malformed =>
      }
      i := i + 1;
    }
    assert lines[..i] == lines;
  }

  // ---- one record ----------------------------------------------------------------------------------

  /** What the file format can carry of a cookie. */
  function Carried(c: Cookie): Cookie {
    c.(sameSite := Unspecified, partitioned := false, partitionKey := None)
  }

  predicate Clean(registrable: string -> bool, c: Cookie) {
    && c.name != [] && Printable(c.name) && Printable(c.value)
    && c.domain != [] && c.domain[0] != '.' && (c.domain[0] == '#' ==> c.httpOnly)
    && (c.expires.Some? ==> 1 <= c.expires.value < I64_LIMIT)
    && (c.hostOnly || (!IsIpLiteral(c.domain) && Scopable(registrable, c.domain)))
  }

  lemma FieldsHaveNoTab(c: Cookie)
    requires Recordable(c)
    ensures forall f :: f in FieldsOfCookie(c) ==> '\t' !in f
  {
    DecimalValue(c.expires.GetOr(0));
  }

  lemma FlagsRead(b: bool)
    ensures EqIgnoreCase(Flag(b), "TRUE") == b
  {
    assert |Lower("FALSE")| == 5 && |Lower("TRUE")| == 4;
  }

  lemma TrimDots(d: string)
    requires d != []
    ensures TrimStartChar(d, '.') == d <==> d[0] != '.'
  {
    if d[0] == '.' {
      TrimShorter(d[1..], '.');
    }
  }

  lemma TrimShorter(d: string, c: char)
    ensures |TrimStartChar(d, c)| <= |d|
  {
  }

  /** The printed fields give the cookie back exactly when it is clean, the '#' aside. */
  lemma FieldsReadBack(registrable: string -> bool, c: Cookie)
    ensures ReadFields(registrable, FieldsOfCookie(c), c.httpOnly) == Loaded(Carried(c))
            <==> Clean(registrable, c.(httpOnly := true))
  {
    ControlExactly(c.name);
    ControlExactly(c.value);
    hide EqIgnoreCase, IsIpLiteral, Scopable, HasControl, Printable, TrimStartChar, ParseI64, Decimal, AllDigits, DigitsValue;
    var e := c.expires.GetOr(0);
    DecimalValue(e);
    ParseDigits(Decimal(e));
    FlagsRead(!c.hostOnly);
    FlagsRead(c.secure);
    if c.domain != [] {
      TrimDots(c.domain);
    }
  }

  lemma RecordShape(c: Cookie)
    ensures c.httpOnly ==> StripHttpOnly(RecordLine(c)) == Some(Join(FieldsOfCookie(c), '\t'))
    ensures !c.httpOnly ==> RecordLine(c) == Join(FieldsOfCookie(c), '\t')
    ensures RecordLine(c) != []
    ensures !c.httpOnly ==> RecordLine(c)[0] == if c.domain == [] then '\t' else c.domain[0]
    ensures Trim(RecordLine(c)) != []
  {
    hide Decimal;
    var fields := FieldsOfCookie(c);
    var line := RecordLine(c);
    var body := Join(fields, '\t');
    assert line[|line| - |body|..] == body;
    var at := |line| - |body| + |c.domain| + 1;
    assert body == c.domain + (['\t'] + Join(fields[1..], '\t'));
    assert fields[1..][0] == Flag(!c.hostOnly);
    assert Join(fields[1..], '\t') == Flag(!c.hostOnly) + (['\t'] + Join(fields[1..][1..], '\t'));
    assert line[at] == Flag(!c.hostOnly)[0];
    TrimKeeps(line, at);
  }

  lemma TrimKeeps(s: string, i: nat)
    requires i < |s| && !IsWhitespace(s[i])
    ensures Trim(s) != []
  {
    StartKeeps(s, i);
    var t := TrimStart(s);
    var k :| 0 <= k < |t| && t[k] == s[i];
    EndKeeps(t, k);
  }

  lemma {:induction false} StartKeeps(s: string, i: nat)
    requires i < |s| && !IsWhitespace(s[i])
    ensures s[i] in TrimStart(s)
  {
    if IsWhitespace(s[0]) {
      StartKeeps(s[1..], i - 1);
    }
  }

  lemma {:induction false} EndKeeps(s: string, i: nat)
    requires i < |s| && !IsWhitespace(s[i])
    ensures TrimEnd(s) != []
  {
    if IsWhitespace(s[|s| - 1]) {
      EndKeeps(s[..|s| - 1], i);
    }
  }

  /** A record reads back as its cookie exactly when the cookie is clean. */
  lemma RecordReadsBack(registrable: string -> bool, c: Cookie)
    requires Recordable(c)
    ensures ReadLine(registrable, RecordLine(c)) == Loaded(Carried(c)) <==> Clean(registrable, c)
  {
    hide Trim, ReadFields, RecordLine, Join, FieldsOfCookie, IsIpLiteral, Scopable, HasControl, Printable, Recordable, Split;
    RecordShape(c);
    FieldsHaveNoTab(c);
    FieldsCount(c);
    SplitJoin(FieldsOfCookie(c), '\t');
    FieldsReadBack(registrable, c);
    var line := RecordLine(c);
    if c.httpOnly {
      assert c.(httpOnly := true) == c;
    } else if StripHttpOnly(line).Some? {
      assert |line| >= |HTTP_ONLY_PREFIX| && line[0] == HTTP_ONLY_PREFIX[0] == '#';
      assert !Clean(registrable, c);
      KeepsHttpOnly(registrable, Split(StripHttpOnly(line).value, '\t'), true);
      assert Carried(c).httpOnly != true;
    } else if line[0] == '#' {
      assert !Clean(registrable, c);
    } else {
      assert ReadLine(registrable, line) == ReadFields(registrable, FieldsOfCookie(c), false);
    }
  }

  lemma FieldsCount(c: Cookie)
    ensures FieldsOfCookie(c) != []
  {
  }

  lemma KeepsHttpOnly(registrable: string -> bool, fields: seq<string>, httpOnly: bool)
    ensures ReadFields(registrable, fields, httpOnly).Loaded? ==> ReadFields(registrable, fields, httpOnly).cookie.httpOnly == httpOnly
  {
  }

  // ---- the whole file ---------------------------------------------------------------------------------

  predicate LineSafe(line: string) {
    '\n' !in line && '\r' !in line
  }

  lemma LinesStep(head: string, rest: string)
    requires LineSafe(head)
    ensures Lines(head + ['\n'] + rest) == [head] + Lines(rest)
  {
    hide Find;
    var text := head + ['\n'] + rest;
    FindAt(head, '\n', rest);
    assert text[..|head|] == head && text[|head| + 1..] == rest;
    assert head != [] ==> head[|head| - 1] in head;
    assert Chomp(head) == head;
  }

  lemma {:induction false} LinesBack(lines: seq<string>)
    requires forall l :: l in lines ==> LineSafe(l)
    ensures Lines(LinesText(lines)) == lines
  {
    hide Lines, LineSafe;
    if lines != [] {
      var head, rest := lines[0], LinesText(lines[1..]);
      LinesBack(lines[1..]);
      assert head in lines;
      LinesStep(head, rest);
      assert LinesText(lines) == head + ['\n'] + rest;
    } else {
      assert Lines("") == [] by { NoLines(); }
    }
  }

  lemma NoLines()
    ensures Lines("") == []
  {
  }

  lemma {:induction false} JoinedSafe(fields: seq<string>)
    requires forall f :: f in fields ==> LineSafe(f)
    ensures LineSafe(Join(fields, '\t'))
  {
    if fields != [] {
      assert fields[0] in fields;
      JoinedSafe(fields[1..]);
    }
  }

  lemma RecordSafe(c: Cookie)
    requires Recordable(c)
    ensures LineSafe(RecordLine(c))
  {
    DecimalValue(c.expires.GetOr(0));
    JoinedSafe(FieldsOfCookie(c));
  }

  lemma {:induction false} LoadLinesAppend(registrable: string -> bool, a: seq<string>, b: seq<string>)
    ensures LoadLines(registrable, a + b) == LoadLines(registrable, a) + LoadLines(registrable, b)
    decreases |b|
  {
    hide ReadLine;
    if b == [] {
      assert a + b == a;
    } else {
      var n := |b| - 1;
      LoadLinesAppend(registrable, a, b[..n]);
      assert (a + b)[..|a + b| - 1] == a + b[..n];
    }
  }

  predicate Commented(line: string) {
    StripHttpOnly(line).None? && (line == [] || line[0] == '#')
  }

  lemma CommentStart(line: string)
    requires |line| >= 2 && line[0] == '#' && line[1] == ' '
    ensures Commented(line)
  {
    assert HTTP_ONLY_PREFIX[1] == 'H';
  }

  lemma CommentSkipped(registrable: string -> bool, line: string)
    requires Commented(line)
    ensures ReadLine(registrable, line).Skip?
  {
    hide StripHttpOnly, ReadFields;
  }

  lemma BannerSafe()
    ensures LineSafe(BANNER)
  {
  }

  lemma UrlSafe()
    ensures LineSafe(BANNER_URL)
  {
  }

  lemma WordsSafe()
    ensures LineSafe(BANNER_WARNING)
  {
  }

  lemma AdviceSafe()
    ensures LineSafe(BANNER_ADVICE)
  {
  }

  lemma WarningSafe()
    ensures LineSafe(BANNER_WARNING + BANNER_ADVICE)
  {
    hide LineSafe, BANNER_WARNING, BANNER_ADVICE;
    WordsSafe();
    AdviceSafe();
    SafeConcat(BANNER_WARNING, BANNER_ADVICE);
  }

  lemma SafeConcat(a: string, b: string)
    requires LineSafe(a) && LineSafe(b)
    ensures LineSafe(a + b)
  {
  }

  lemma HeaderCommented()
    ensures Commented(BANNER) && Commented(BANNER_URL) && Commented(BANNER_WARNING + BANNER_ADVICE) && Commented("")
  {
    hide Commented, HTTP_ONLY_PREFIX, StripHttpOnly;
    CommentStart(BANNER);
    CommentStart(BANNER_URL);
    assert BANNER_WARNING[0] == '#' && BANNER_WARNING[1] == ' ';
    CommentStart(BANNER_WARNING + BANNER_ADVICE);
    NoText();
  }

  lemma NoText()
    ensures Commented("") && LineSafe("")
  {
  }

  lemma HeaderSkipped(registrable: string -> bool)
    ensures forall i :: 0 <= i < |HEADER_LINES| ==> LineSafe(HEADER_LINES[i])
    ensures LoadLines(registrable, HEADER_LINES) == []
  {
    hide ReadLine, LineSafe, Commented, BANNER, BANNER_URL, BANNER_WARNING, BANNER_ADVICE, LoadLines;
    HeaderCommented();
    NoText();
    BannerSafe();
    UrlSafe();
    WarningSafe();
    forall i | 0 <= i < |HEADER_LINES|
      ensures ReadLine(registrable, HEADER_LINES[i]).Skip?
    {
      assert i == 0 || i == 1 || i == 2 || i == 3;
      CommentSkipped(registrable, HEADER_LINES[i]);
    }
    SkippedLines(registrable, HEADER_LINES);
  }

  lemma {:induction false} SkippedLines(registrable: string -> bool, lines: seq<string>)
    requires forall i :: 0 <= i < |lines| ==> ReadLine(registrable, lines[i]).Skip?
    ensures LoadLines(registrable, lines) == []
  {
    hide ReadLine;
    if lines != [] {
      SkippedLines(registrable, lines[..|lines| - 1]);
    }
  }

  function Carry(cookies: seq<Cookie>): seq<Cookie> {
    seq(|cookies|, i requires 0 <= i < |cookies| => Carried(cookies[i]))
  }

  lemma {:induction false} LoadRecords(registrable: string -> bool, cookies: seq<Cookie>)
    requires forall i :: 0 <= i < |cookies| ==> Recordable(cookies[i]) && Clean(registrable, cookies[i])
    ensures LoadLines(registrable, Records(cookies)) == Carry(cookies)
  {
    hide ReadLine, RecordLine, Clean, Recordable;
    if cookies != [] {
      var n := |cookies| - 1;
      LoadRecords(registrable, cookies[..n]);
      assert Records(cookies)[..n] == Records(cookies[..n]);
      RecordReadsBack(registrable, cookies[n]);
      assert Carry(cookies) == Carry(cookies[..n]) + [Carried(cookies[n])];
    }
  }

  /** What is loaded is what the written records say, one by one and in order; the rest of the file says nothing. */
  lemma LoadsOnlyRecords(registrable: string -> bool, jar: Jar)
    ensures LoadLines(registrable, Lines(SaveText(jar))) == LoadLines(registrable, Records(Written(jar)))
  {
    hide RecordLine, LineSafe, ReadLine, Recordable, HEADER_LINES;
    var records := Records(Written(jar));
    HeaderSkipped(registrable);
    RetainMembers(jar.cookies, WrittenFrom(jar.explicit));
    forall l | l in records
      ensures LineSafe(l)
    {
      var i :| 0 <= i < |records| && records[i] == l;
      assert Written(jar)[i] in Written(jar);
      RecordSafe(Written(jar)[i]);
    }
    forall l | l in HEADER_LINES + records
      ensures LineSafe(l)
    {
      var i :| 0 <= i < |HEADER_LINES + records| && (HEADER_LINES + records)[i] == l;
      assert i < |HEADER_LINES| || l == records[i - |HEADER_LINES|];
    }
    LinesTextAppend(HEADER_LINES, records);
    LinesBack(HEADER_LINES + records);
    LoadLinesAppend(registrable, HEADER_LINES, records);
  }

  /** No tab and no line end. */
  predicate FitsField(s: string) {
    '\t' !in s && '\r' !in s && '\n' !in s
  }

  predicate FitsFields(c: Cookie) {
    FitsField(c.name) && FitsField(c.value) && FitsField(c.domain) && FitsField(c.path)
  }

  lemma RecordableExactly(c: Cookie)
    ensures Recordable(c) <==> FitsFields(c)
  {
    SeparatorExactly(c.name);
    SeparatorExactly(c.value);
    SeparatorExactly(c.domain);
    SeparatorExactly(c.path);
  }

  lemma SeparatorExactly(s: string)
    ensures HasSeparator(s) <==> !FitsField(s)
  {
    assert IsSeparator('\t') && IsSeparator('\r') && IsSeparator('\n');
  }

  lemma ExplicitIsKey(explicit: seq<Triple>, c: Cookie)
    ensures IsExplicit(explicit, c) <==> KeyOf(c) in Keys(explicit)
  {
    hide Lower;
    if IsExplicit(explicit, c) {
      var i :| 0 <= i < |explicit| && SameKey(explicit[i], TripleOf(c));
      assert explicit[i] in explicit;
    }
    if KeyOf(c) in Keys(explicit) {
      var t :| t in explicit && t.Fold() == KeyOf(c);
      var i :| 0 <= i < |explicit| && explicit[i] == t;
    }
  }

  /**
   Saving and loading gives back the cookies in order, without those whose key is a
   command-line one. A cookie with a tab or a line end in a field is left out.
   */
  lemma SaveThenLoad(registrable: string -> bool, jar: Jar)
    requires forall c :: c in jar.cookies && KeyOf(c) !in Keys(jar.explicit) && FitsFields(c) ==> Clean(registrable, c)
    ensures LoadLines(registrable, Lines(SaveText(jar))) == Carry(Written(jar))
    ensures forall c :: c in Written(jar) <==> c in jar.cookies && KeyOf(c) !in Keys(jar.explicit) && FitsFields(c)
  {
    hide Clean, Recordable, FitsFields, IsExplicit, LoadLines, Records, Lines, SaveText, KeyOf, Keys;
    LoadsOnlyRecords(registrable, jar);
    RetainMembers(jar.cookies, WrittenFrom(jar.explicit));
    forall c: Cookie
      ensures Recordable(c) <==> FitsFields(c)
      ensures IsExplicit(jar.explicit, c) <==> KeyOf(c) in Keys(jar.explicit)
    {
      RecordableExactly(c);
      ExplicitIsKey(jar.explicit, c);
    }
    forall i | 0 <= i < |Written(jar)|
      ensures Recordable(Written(jar)[i]) && Clean(registrable, Written(jar)[i])
    {
      assert Written(jar)[i] in Written(jar);
    }
    LoadRecords(registrable, Written(jar));
  }
}
