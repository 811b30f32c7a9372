/** The Cookie request header (src/cookie.rs, `cookie_header`): selection, order, and the text a server reads back. */
module CookieHeader {
  import opened Basics
  import opened Text
  import opened CookieMatch
  import opened SetCookie
  import opened CookieJars
  import opened CookieLaws

  predicate Sendable(c: Cookie, url: Url, now: nat) {
    MatchesRequest(c, url, now) && !HasControl(c.name) && !HasControl(c.value)
  }

  function SendableTo(url: Url, now: nat): Cookie -> bool {
    (c: Cookie) => Sendable(c, url, now)
  }

  // ---- longest path first ---------------------------------------------------------------------------

  function PathLength(c: Cookie): nat {
    ByteLength(c.path)
  }

  /** Before every cookie whose path is not longer. */
  function Place(c: Cookie, sorted: seq<Cookie>): seq<Cookie> {
    if sorted == [] || PathLength(sorted[0]) <= PathLength(c) then [c] + sorted
    else [sorted[0]] + Place(c, sorted[1..])
  }

  /** A stable sort by descending path length. */
  function LongestFirst(s: seq<Cookie>): seq<Cookie> {
    if s == [] then [] else Place(s[0], LongestFirst(s[1..]))
  }

  predicate Descending(s: seq<Cookie>) {
    forall i, j :: 0 <= i < j < |s| ==> PathLength(s[i]) >= PathLength(s[j])
  }

  function OfLength(n: nat): Cookie -> bool {
    (c: Cookie) => PathLength(c) == n
  }

  lemma {:induction false} PlaceKeepsGroups(c: Cookie, sorted: seq<Cookie>, n: nat)
    requires Descending(sorted)
    ensures Retain(Place(c, sorted), OfLength(n)) == Retain([c] + sorted, OfLength(n))
  {
    hide PathLength;
    RetainAppend([c], sorted, OfLength(n));
    if sorted != [] && PathLength(sorted[0]) > PathLength(c) {
      var rest := sorted[1..];
      PlaceKeepsGroups(c, rest, n);
      RetainAppend([c], rest, OfLength(n));
      RetainStep(sorted, OfLength(n));
      RetainStep(Place(c, sorted), OfLength(n));
      assert Place(c, sorted)[1..] == Place(c, rest);
      RetainStep([c], OfLength(n));
    }
  }

  lemma {:induction false} PlaceMembers(c: Cookie, sorted: seq<Cookie>)
    ensures forall x :: x in Place(c, sorted) <==> x == c || x in sorted
  {
    if sorted != [] && PathLength(sorted[0]) > PathLength(c) {
      PlaceMembers(c, sorted[1..]);
    }
  }

  lemma {:induction false} PlaceDescends(c: Cookie, sorted: seq<Cookie>)
    requires Descending(sorted)
    ensures Descending(Place(c, sorted))
  {
    hide PathLength;
    if sorted != [] && PathLength(sorted[0]) > PathLength(c) {
      var rest := sorted[1..];
      PlaceDescends(c, rest);
      PlaceMembers(c, rest);
      var placed := Place(c, rest);
      forall j | 0 <= j < |placed|
        ensures PathLength(sorted[0]) >= PathLength(placed[j])
      {
        assert placed[j] in placed;
        if placed[j] in rest {
          var i :| 0 <= i < |rest| && rest[i] == placed[j];
          assert sorted[i + 1] == rest[i];
        }
      }
    }
  }

  /** Descending by path length, and cookies of one length in the order of the jar. */
  lemma {:induction false} LongestFirstIsStable(s: seq<Cookie>)
    ensures Descending(LongestFirst(s))
    ensures forall n: nat :: Retain(LongestFirst(s), OfLength(n)) == Retain(s, OfLength(n))
    ensures forall x :: x in LongestFirst(s) <==> x in s
  {
    if s != [] {
      var rest := LongestFirst(s[1..]);
      LongestFirstIsStable(s[1..]);
      PlaceDescends(s[0], rest);
      PlaceMembers(s[0], rest);
      forall n: nat
        ensures Retain(LongestFirst(s), OfLength(n)) == Retain(s, OfLength(n))
      {
        PlaceKeepsGroups(s[0], rest, n);
        RetainStep([s[0]] + rest, OfLength(n));
        assert ([s[0]] + rest)[1..] == rest;
        RetainStep(s, OfLength(n));
      }
    }
  }

  // ---- the header text --------------------------------------------------------------------------------

  function Pair(c: Cookie): string {
    c.name + "=" + c.value
  }

  function HeaderText(cookies: seq<Cookie>): string {
    if cookies == [] then ""
    else
      var n := |cookies| - 1;
      if n == 0 then Pair(cookies[0]) else HeaderText(cookies[..n]) + "; " + Pair(cookies[n])
  }

  function Selected(cookies: seq<Cookie>, url: Url, now: nat): seq<Cookie> {
    LongestFirst(Retain(cookies, SendableTo(url, now)))
  }

  lemma SelectedAsMeant(cookies: seq<Cookie>, url: Url, now: nat)
    ensures forall c :: c in Selected(cookies, url, now) <==>
              c in cookies && MeantFor(c, url, now) && Printable(c.name) && Printable(c.value)
  {
    hide LongestFirst, MatchesRequest, MeantFor, HasControl, Printable;
    RetainMembers(cookies, SendableTo(url, now));
    LongestFirstIsStable(Retain(cookies, SendableTo(url, now)));
    forall c: Cookie
      ensures Sendable(c, url, now) <==> MeantFor(c, url, now) && Printable(c.name) && Printable(c.value)
    {
      MatchesAsMeant(c, url, now);
      ControlExactly(c.name);
      ControlExactly(c.value);
    }
  }

  /** cookie_header; the clock is a parameter. */
  method BuildHeader(cookies: seq<Cookie>, url: Url, now: nat) returns (r: Option<string>)
    ensures r == if Selected(cookies, url, now) == [] then None else Some(HeaderText(Selected(cookies, url, now)))
    ensures forall c :: c in Selected(cookies, url, now) <==>
              c in cookies && MeantFor(c, url, now) && Printable(c.name) && Printable(c.value)
  {
    hide LongestFirst, MatchesRequest, MeantFor, HasControl, Printable;
    SelectedAsMeant(cookies, url, now);
    var matches := LongestFirst(Retain(cookies, SendableTo(url, now)));
    if |matches| == 0 {
      return None;
    }
    var header := "";
    var i := 0;
    while i < |matches|
      invariant 0 <= i <= |matches|
      invariant header == HeaderText(matches[..i])
    {
      var before := header;
      if i > 0 {
        header := header + "; ";
      }
      header := header + matches[i].name + "=" + matches[i].value;
      assert matches[..i + 1][..i] == matches[..i];
      assert header == if i > 0 then before + "; " + Pair(matches[i]) else Pair(matches[i]);
      i := i + 1;
    }
    assert matches[..i] == matches;
    r := Some(header);
  }

  // ---- what a server reads (section 4.2.1 of RFC 6265) ---------------------------------------------------

  function ReadPair(piece: string): Option<(string, string)> {
    SplitOnce(Trim(piece), '=')
  }

  function ReadHeader(header: string): (r: seq<Option<(string, string)>>) {
    var pieces := Split(header, ';');
    seq(|pieces|, i requires 0 <= i < |pieces| => ReadPair(pieces[i]))
  }

  predicate Trimmed(s: string) {
    s != [] ==> !IsWhitespace(s[0]) && !IsWhitespace(s[|s| - 1])
  }

  /** A name and value that survive being put into a header. */
  predicate Sound(c: Cookie) {
    && c.name != [] && Trimmed(c.name) && '=' !in c.name && ';' !in c.name
    && Trimmed(c.value) && ';' !in c.value
  }

  lemma PairReads(c: Cookie)
    requires Sound(c)
    ensures ReadPair(Pair(c)) == Some((c.name, c.value)) && ReadPair(" " + Pair(c)) == Some((c.name, c.value))
    ensures ';' !in Pair(c)
  {
    hide SplitOnce, Trim, IsWhitespace;
    var p := Pair(c);
    PairTrims(c);
    SplitOnceAt(c.name, '=', c.value);
    assert p == c.name + ['='] + c.value;
  }

  lemma PairTrims(c: Cookie)
    requires c.name != [] && Trimmed(c.name) && Trimmed(c.value)
    ensures Trim(Pair(c)) == Pair(c) && Trim(" " + Pair(c)) == Pair(c)
  {
    hide TrimEnd;
    var p := Pair(c);
    assert p[|p| - 1] == if c.value == [] then '=' else c.value[|c.value| - 1];
    TrimNothing(p);
    assert (" " + p)[1..] == p;
  }

  lemma ReadOnePair(header: string, piece: string)
    requires Split(header, ';') == [piece]
    ensures ReadHeader(header) == [ReadPair(piece)]
  {
    hide ReadPair, Split;
  }

  lemma ReadAnotherPair(before: string, header: string, piece: string)
    requires Split(header, ';') == Split(before, ';') + [piece]
    ensures ReadHeader(header) == ReadHeader(before) + [ReadPair(piece)]
  {
    hide ReadPair, Split;
  }

  /** The names and values, in order, each readable. */
  function PairsOf(cookies: seq<Cookie>): seq<Option<(string, string)>> {
    seq(|cookies|, i requires 0 <= i < |cookies| => Some((cookies[i].name, cookies[i].value)))
  }

  lemma NoPairs(cookies: seq<Cookie>)
    requires cookies == []
    ensures PairsOf(cookies) == []
  {
  }

  lemma PairsSnoc(cookies: seq<Cookie>)
    requires cookies != []
    ensures var n := |cookies| - 1; PairsOf(cookies) == PairsOf(cookies[..n]) + [Some((cookies[n].name, cookies[n].value))]
  {
  }

  /** The server reads exactly the pairs that were sent, in order. */
  lemma {:induction false} HeaderReadsBack(cookies: seq<Cookie>)
    requires cookies != [] && forall c :: c in cookies ==> Sound(c)
    ensures ReadHeader(HeaderText(cookies)) == PairsOf(cookies)
  {
    hide ReadPair, Pair, Sound, ReadHeader, Split, PairsOf;
    var n := |cookies| - 1;
    PairsSnoc(cookies);
    PairReads(cookies[n]);
    if n == 0 {
      SplitNone(Pair(cookies[0]), ';');
      assert PairsOf(cookies[..0]) == [] by { NoPairs(cookies[..0]); }
      ReadOnePair(HeaderText(cookies), Pair(cookies[0]));
    } else {
      var before, piece := HeaderText(cookies[..n]), " " + Pair(cookies[n]);
      HeaderReadsBack(cookies[..n]);
      assert HeaderText(cookies) == before + [';'] + piece;
      SplitConcat(before, ';', piece);
      SplitNone(piece, ';');
      ReadAnotherPair(before, HeaderText(cookies), piece);
    }
  }

  // ---- cookies set by servers are sound -------------------------------------------------------------------

  lemma {:induction false} TrimStartPart(s: string)
    ensures exists a: nat :: a <= |s| && TrimStart(s) == s[a..]
    ensures TrimStart(s) != [] ==> !IsWhitespace(TrimStart(s)[0])
  {
    if s != [] && IsWhitespace(s[0]) {
      TrimStartPart(s[1..]);
      var a: nat :| a <= |s| - 1 && TrimStart(s[1..]) == s[1..][a..];
      assert TrimStart(s) == s[a + 1..];
    } else {
      assert s == s[0..];
    }
  }

  lemma {:induction false} TrimEndPart(s: string)
    ensures TrimEnd(s) <= s
    ensures TrimEnd(s) != [] ==> !IsWhitespace(TrimEnd(s)[|TrimEnd(s)| - 1])
  {
    if s != [] && IsWhitespace(s[|s| - 1]) {
      TrimEndPart(s[..|s| - 1]);
    }
  }

  lemma TrimPart(s: string)
    ensures Trimmed(Trim(s))
    ensures forall c :: c in Trim(s) ==> c in s
  {
    TrimStartPart(s);
    TrimEndPart(TrimStart(s));
  }

  lemma MeaningIsSound(registrable: string -> bool, line: string, url: Url, now: nat)
    ensures Meaning(registrable, line, url, now).Some? ==>
              var c := Meaning(registrable, line, url, now).value;
              Sound(c) && Printable(c.name) && Printable(c.value)
  {
    hide Split, Trim, CookieOf, Acceptable, ReadAttrs, Find, HasControl, Printable;
    if Meaning(registrable, line, url, now).Some? {
      var piece := Split(line, ';')[0];
      SplitPieces(line, ';');
      TrimPart(piece);
      var nv := Trim(piece);
      var i := Find(nv, '=');
      assert i < |nv|;
      TrimPart(nv[..i]);
      TrimPart(nv[i + 1..]);
      assert piece in Split(line, ';') && ';' !in piece && ';' !in nv;
      assert ';' !in nv[..i] && ';' !in nv[i + 1..];
      ControlExactly(Trim(nv[..i]));
      ControlExactly(Trim(nv[i + 1..]));
      var c := Meaning(registrable, line, url, now).value;
      assert c.name == Trim(nv[..i]) && c.value == Trim(nv[i + 1..]) by {
        assert c == CookieOf(registrable, Trim(nv[..i]), Trim(nv[i + 1..]), ReadAttrs(Split(line, ';')[1..]), url, now);
        NameOfCookie(registrable, Trim(nv[..i]), Trim(nv[i + 1..]), ReadAttrs(Split(line, ';')[1..]), url, now);
      }
    }
  }

  lemma NameOfCookie(registrable: string -> bool, name: string, value: string, attrs: seq<Attr>, url: Url, now: nat)
    ensures var c := CookieOf(registrable, name, value, attrs, url, now); c.name == name && c.value == value
  {
  }

  /**
   Whatever servers set, the header built from the jar reads back as exactly the stored
   cookies that match the request: no name or value can add, drop or alter a pair.
   */
  lemma HeaderCarriesTheJar(registrable: string -> bool, ops: seq<Op>, url: Url, now: nat)
    requires forall i :: 0 <= i < |ops| ==> !ops[i].Insert? && !ops[i].AddExplicit?
    ensures var sent := Selected(Run(registrable, Jar([], []), ops).cookies, url, now);
      sent != [] ==> ReadHeader(HeaderText(sent)) == PairsOf(sent)
  {
    hide Run, Sendable, LongestFirst, Meaning, Sound, ReadHeader, HeaderText;
    var cookies := Run(registrable, Jar([], []), ops).cookies;
    var sent := Selected(cookies, url, now);
    RetainMembers(cookies, SendableTo(url, now));
    LongestFirstIsStable(Retain(cookies, SendableTo(url, now)));
    forall c | c in sent
      ensures Sound(c)
    {
      Provenance(registrable, ops, c);
      var i :| 0 <= i < |ops| && Offers(registrable, ops[i]) == Some(c);
      MeaningIsSound(registrable, ops[i].line, ops[i].url, ops[i].now);
    }
    if sent != [] {
      HeaderReadsBack(sent);
    }
  }
}
