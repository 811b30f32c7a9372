/**
 HTTP Digest authentication (src/digest.rs, section 3.4 of RFC 7616): the Authorization
 header that answers a challenge, and the parser that reads such parameter lists.
 */
module Digest {
  import opened Basics
  import opened Text
  import opened Quoting

  // ---- reading parameters ------------------------------------------------------------------------

  predicate IsGap(c: char) {
    c == ',' || IsAsciiWhitespace(c)
  }

  function SkipGaps(s: string): (r: string)
    ensures |r| <= |s|
    ensures r != [] ==> !IsGap(r[0])
  {
    if s != [] && IsGap(s[0]) then SkipGaps(s[1..]) else s
  }

  /** Where a key ends: at the first '=' or ','. */
  function KeyEnd(s: string): (n: nat)
    ensures n <= |s|
    ensures n < |s| ==> s[n] == '=' || s[n] == ','
    ensures s != [] && s[0] != '=' && s[0] != ',' ==> n > 0
  {
    if s == [] || s[0] == '=' || s[0] == ',' then 0 else 1 + KeyEnd(s[1..])
  }

  /** Where a quoted text ends: at the first quote without a backslash before it. */
  function QuoteEnd(s: string): (n: nat)
    ensures n <= |s|
  {
    if s == [] || s[0] == '"' then 0
    else if s[0] == '\\' && |s| > 1 then 2 + QuoteEnd(s[2..])
    else 1 + QuoteEnd(s[1..])
  }

  /** The value at the start of `s`, a quoted one as it stands between its quotes, and the text behind it. */
  function ReadParam(s: string): (r: (string, string))
    ensures |r.1| <= |s|
  {
    if s != [] && s[0] == '"' then
      var n := 1 + QuoteEnd(s[1..]);
      (s[1..n], if n < |s| then s[n + 1..] else "")
    else
      (Trim(s[..Find(s, ',')]), s[Find(s, ',')..])
  }

  function Entry(key: string, value: string): seq<(string, string)> {
    if key == [] then [] else [(key, value)]
  }

  /** The keys, lower-cased, and values, in order. */
  function Entries(s: string): seq<(string, string)>
    decreases |s|
  {
    var t := SkipGaps(s);
    if t == [] then []
    else
      var n := KeyEnd(t);
      var key := Lower(Trim(t[..n]));
      if n == |t| || t[n] != '=' then Entry(key, "") + Entries(t[n..])
      else
        var (v, rest) := ReadParam(t[n + 1..]);
        Entry(key, v) + Entries(rest)
  }

  /** Later entries replace earlier ones. */
  function MapOf(entries: seq<(string, string)>): map<string, string> {
    if entries == [] then map[]
    else
      var n := |entries| - 1;
      MapOf(entries[..n])[entries[n].0 := entries[n].1]
  }

  lemma MapOfAppend(entries: seq<(string, string)>, key: string, value: string)
    ensures MapOf(entries + Entry(key, value)) == if key == [] then MapOf(entries) else MapOf(entries)[key := value]
  {
    if key == [] {
      assert entries + [] == entries;
    } else {
      assert (entries + [(key, value)])[..|entries|] == entries;
    }
  }

  method ScanGaps(s: string, from: nat) returns (i: nat)
    requires from <= |s|
    ensures from <= i <= |s| && s[i..] == SkipGaps(s[from..])
  {
    i := from;
    while i < |s| && IsGap(s[i])
      invariant from <= i <= |s|
      invariant SkipGaps(s[i..]) == SkipGaps(s[from..])
    {
      assert s[i..][1..] == s[i + 1..];
      i := i + 1;
    }
  }

  method ScanKey(s: string, from: nat) returns (i: nat)
    requires from <= |s|
    ensures i == from + KeyEnd(s[from..])
  {
    i := from;
    while i < |s| && s[i] != '=' && s[i] != ','
      invariant from <= i <= |s|
      invariant i + KeyEnd(s[i..]) == from + KeyEnd(s[from..])
    {
      assert s[i..][1..] == s[i + 1..];
      i := i + 1;
    }
  }

  method ScanQuoted(s: string, from: nat) returns (i: nat)
    requires from <= |s|
    ensures i == from + QuoteEnd(s[from..])
  {
    i := from;
    while i < |s| && s[i] != '"'
      invariant from <= i <= |s|
      invariant i + QuoteEnd(s[i..]) == from + QuoteEnd(s[from..])
    {
      assert s[i..][1..] == s[i + 1..];
      if s[i] == '\\' && i + 1 < |s| {
        assert s[i..][2..] == s[i + 2..];
        i := i + 1;
      }
      i := i + 1;
    }
  }

  method ScanToken(s: string, from: nat) returns (i: nat)
    requires from <= |s|
    ensures i == from + Find(s[from..], ',')
  {
    i := from;
    while i < |s| && s[i] != ','
      invariant from <= i <= |s|
      invariant i + Find(s[i..], ',') == from + Find(s[from..], ',')
    {
      assert s[i..][1..] == s[i + 1..];
      i := i + 1;
    }
  }

  /** A value, quoted or not, and where the reader stands behind it. */
  method ScanValue(s: string, from: nat) returns (value: string, i: nat)
    requires from <= |s|
    ensures from <= i <= |s| && (value, s[i..]) == ReadParam(s[from..])
  {
    hide Trim, Find, QuoteEnd;
    ghost var t := s[from..];
    i := from;
    if i < |s| && s[i] == '"' {
      i := i + 1;
      var start := i;
      i := ScanQuoted(s, i);
      assert t[1..] == s[start..];
      value := s[start..i];
      assert value == t[1..1 + QuoteEnd(t[1..])];
      if i < |s| {
        i := i + 1;
      }
      assert s[i..] == if 1 + QuoteEnd(t[1..]) < |t| then t[2 + QuoteEnd(t[1..])..] else "";
    } else {
      i := ScanToken(s, i);
      assert s[from..i] == t[..Find(t, ',')] && s[i..] == t[Find(t, ',')..];
      value := Trim(s[from..i]);
    }
  }

  /** One turn of the parser: a key, its value (empty when it has none), and where it stands then. */
  method ScanEntry(s: string, from: nat) returns (key: string, value: string, i: nat)
    requires from < |s|
    ensures from < i <= |s| && Entries(s[from..]) == Entry(key, value) + Entries(s[i..])
  {
    hide Trim, Lower, ReadParam, SkipGaps, KeyEnd, Entries;
    EntriesStep(s[from..]);
    i := ScanGaps(s, from);
    ghost var t := s[i..];
    var keyStart := i;
    i := ScanKey(s, i);
    assert s[keyStart..i] == t[..KeyEnd(t)] && s[i..] == t[KeyEnd(t)..];
    key := Lower(Trim(s[keyStart..i]));
    if i >= |s| || s[i] != '=' {
      value := "";
      return;
    }
    assert t[KeyEnd(t) + 1..] == s[i + 1..];
    value, i := ScanValue(s, i + 1);
  }

  /** parse_params */
  method ParseParams(s: string) returns (params: map<string, string>)
    ensures params == MapOf(Entries(s))
  {
    hide MapOf, Entries, Entry;
    params := map[];
    ghost var done: seq<(string, string)> := [];
    var i := 0;
    assert s[0..] == s && done + Entries(s) == Entries(s);
    NoEntries();
    while i < |s|
      invariant 0 <= i <= |s|
      invariant Entries(s) == done + Entries(s[i..]) && params == MapOf(done)
      decreases |s| - i
    {
      var key, value;
      ghost var before := done;
      key, value, i := ScanEntry(s, i);
      MapOfAppend(done, key, value);
      done := done + Entry(key, value);
      assert before + (Entry(key, value) + Entries(s[i..])) == done + Entries(s[i..]);
      if key != [] {
        params := params[key := value];
      }
    }
    assert s[i..] == [];
    assert done + [] == done;
  }

  lemma NoEntries()
    ensures MapOf([]) == map[] && Entries("") == []
  {
  }

  lemma EntriesStep(s: string)
    ensures var t := SkipGaps(s); var n := KeyEnd(t); var key := Lower(Trim(t[..n]));
      && Entries(s)
         == (if n == |t| || t[n] != '=' then Entry(key, "") + Entries(t[n..])
             else Entry(key, ReadParam(t[n + 1..]).0) + Entries(ReadParam(t[n + 1..]).1))
      && (t != [] ==> n > 0 || t[n] == '=')
  {
    var t := SkipGaps(s);
    if t == [] {
      assert t[..KeyEnd(t)] == [] && t[KeyEnd(t)..] == [];
    }
  }

  // ---- writing parameters ----------------------------------------------------------------------------

  datatype Param = Param(key: string, value: string, quoted: bool)

  function OneParam(p: Param): string {
    p.key + ['='] + if p.quoted then ['"'] + (p.value + ['"']) else p.value
  }

  function Rendered(ps: seq<Param>): string {
    if ps == [] then ""
    else if |ps| == 1 then OneParam(ps[0])
    else OneParam(ps[0]) + (", " + Rendered(ps[1..]))
  }

  function PairsOf(ps: seq<Param>): seq<(string, string)> {
    if ps == [] then [] else [(ps[0].key, ps[0].value)] + PairsOf(ps[1..])
  }

  /** The reader finds the end of the text at the quote put behind it, whatever follows. */
  ghost predicate Closes(v: string) {
    forall rest: string :: QuoteEnd(v + ['"'] + rest) == |v|
  }

  ghost predicate Readable(p: Param) {
    && p.key != [] && (forall c :: c in p.key ==> 'a' <= c <= 'z')
    && if p.quoted then Closes(p.value)
       else PlainToken(p.value)
  }

  /** Read as it stands where no quotes are used. */
  predicate PlainToken(v: string) {
    v != [] && ',' !in v && v[0] != '"' && !IsWhitespace(v[0]) && !IsWhitespace(v[|v| - 1])
  }

  /** is_safe_quoted */
  predicate IsSafeQuoted(v: string) {
    forall c :: c in v ==> c != '"' && c != '\\' && c != '\r' && c != '\n' && c != '\U{0}'
  }

  lemma {:induction false} SafeEnds(v: string, rest: string)
    requires IsSafeQuoted(v)
    ensures QuoteEnd(v + ['"'] + rest) == |v|
  {
    var t := v + ['"'] + rest;
    if v == [] {
      assert t == ['"'] + rest;
    } else {
      assert v[0] in v && forall c :: c in v[1..] ==> c in v;
      assert t[1..] == v[1..] + ['"'] + rest;
      SafeEnds(v[1..], rest);
    }
  }

  lemma {:induction false} BackslashedEnds(v: string, rest: string)
    ensures QuoteEnd(Backslashed(v) + ['"'] + rest) == |Backslashed(v)|
  {
    var t := Backslashed(v) + ['"'] + rest;
    if v == [] {
      assert t == ['"'] + rest;
    } else {
      var tail := Backslashed(v[1..]) + ['"'] + rest;
      BackslashedEnds(v[1..], rest);
      assert t == BackslashChar(v[0]) + tail;
      if v[0] == '"' || v[0] == '\\' {
        assert t[2..] == tail;
      } else {
        assert t[1..] == tail;
      }
    }
  }

  lemma SafeCloses(v: string)
    requires IsSafeQuoted(v)
    ensures Closes(v)
  {
    forall rest: string
      ensures QuoteEnd(v + ['"'] + rest) == |v|
    {
      SafeEnds(v, rest);
    }
  }

  lemma BackslashedCloses(v: string)
    ensures Closes(Backslashed(v))
  {
    forall rest: string
      ensures QuoteEnd(Backslashed(v) + ['"'] + rest) == |Backslashed(v)|
    {
      BackslashedEnds(v, rest);
    }
  }

  lemma {:induction false} KeyEndAt(key: string, rest: string)
    requires forall c :: c in key ==> 'a' <= c <= 'z'
    ensures KeyEnd(key + ['='] + rest) == |key|
  {
    var t := key + ['='] + rest;
    if key != [] {
      assert key[0] in key && forall c :: c in key[1..] ==> c in key;
      assert t[1..] == key[1..] + ['='] + rest;
      KeyEndAt(key[1..], rest);
    }
  }

  lemma KeyStays(key: string)
    requires key != [] && forall c :: c in key ==> 'a' <= c <= 'z'
    ensures Lower(Trim(key)) == key && !IsGap(key[0])
  {
    assert key[0] in key && key[|key| - 1] in key;
    TrimNothing(key);
    forall i | 0 <= i < |key|
      ensures Lower(key)[i] == key[i]
    {
      assert key[i] in key;
    }
  }

  lemma ValueReads(p: Param, rest: string)
    requires Readable(p) && (rest != [] ==> rest[0] == ',')
    ensures ReadParam((if p.quoted then ['"'] + (p.value + ['"']) else p.value) + rest) == (p.value, rest)
  {
    hide QuoteEnd, Find, Trim;
    var v := p.value;
    if p.quoted {
      var t := ['"'] + (v + ['"']) + rest;
      assert t[1..] == v + ['"'] + rest;
      assert t[1..1 + |v|] == v && t[2 + |v|..] == rest;
    } else {
      var t := v + rest;
      TokenEnd(v, rest);
      assert t[..|v|] == v && t[|v|..] == rest;
      TrimNothing(v);
    }
  }

  lemma TokenEnd(v: string, rest: string)
    requires ',' !in v && (rest != [] ==> rest[0] == ',')
    ensures Find(v + rest, ',') == |v|
  {
    if rest == [] {
      assert v + rest == v;
      FindNone(v, ',');
    } else {
      assert v + rest == v + [','] + rest[1..];
      FindAt(v, ',', rest[1..]);
    }
  }

  lemma ParamReads(p: Param, rest: string)
    requires Readable(p) && (rest != [] ==> rest[0] == ',')
    ensures Entries(OneParam(p) + rest) == [(p.key, p.value)] + Entries(rest)
  {
    hide Lower, Trim, ReadParam, Entries, KeyEnd, Closes;
    var text := (if p.quoted then ['"'] + (p.value + ['"']) else p.value) + rest;
    var t := p.key + ['='] + text;
    assert OneParam(p) + rest == t;
    KeyStays(p.key);
    assert t[0] == p.key[0];
    assert SkipGaps(t) == t;
    KeyEndAt(p.key, text);
    assert t[..|p.key|] == p.key && t[|p.key| + 1..] == text;
    EntriesStep(t);
    ValueReads(p, rest);
  }

  lemma GapsSkipped(gap: string, s: string)
    requires gap == " " || gap == ", "
    ensures Entries(gap + s) == Entries(s)
  {
    hide KeyEnd, ReadParam, Lower, Trim, SkipGaps;
    if gap == ", " {
      assert gap + s == [','] + ([' '] + s);
      GapSkipped(',', [' '] + s);
    } else {
      assert gap + s == [' '] + s;
    }
    GapSkipped(' ', s);
  }

  lemma GapSkipped(c: char, s: string)
    requires IsGap(c)
    ensures SkipGaps([c] + s) == SkipGaps(s)
  {
    assert ([c] + s)[1..] == s;
  }

  /** A rendered list reads back as exactly its keys and values, in order. */
  lemma {:induction false} RenderedReads(ps: seq<Param>)
    requires forall i :: 0 <= i < |ps| ==> Readable(ps[i])
    ensures Entries(Rendered(ps)) == PairsOf(ps)
  {
    hide Readable, OneParam, Entries;
    NoEntries();
    if |ps| == 1 {
      ParamReads(ps[0], "");
      assert OneParam(ps[0]) + "" == OneParam(ps[0]);
      assert PairsOf(ps[1..]) == [];
    } else if |ps| > 1 {
      RenderedReads(ps[1..]);
      ParamReads(ps[0], ", " + Rendered(ps[1..]));
      GapsSkipped(", ", Rendered(ps[1..]));
    }
  }

  // ---- the header --------------------------------------------------------------------------------------

  /** The parameters behind the scheme; none when the scheme is another. */
  function DigestParams(challenge: string): Option<string> {
    var body := Trim(challenge);
    if |body| >= 6 && EqIgnoreCase(body[..6], "Digest") then Some(body[6..]) else None
  }

  /** quote: refused when a control character could split the header. */
  function Quote(v: string): Option<string> {
    if '\r' in v || '\n' in v || '\U{0}' in v then None else Some(Backslashed(v))
  }

  method QuoteText(v: string) returns (r: Option<string>)
    ensures r == Quote(v)
  {
    if '\r' in v || '\n' in v || '\U{0}' in v {
      return None;
    }
    var out := "";
    var i := 0;
    while i < |v|
      invariant 0 <= i <= |v|
      invariant out == Backslashed(v[..i])
    {
      BackslashedSnoc(v[..i], v[i]);
      assert v[..i + 1] == v[..i] + [v[i]];
      if v[i] == '"' || v[i] == '\\' {
        out := out + ['\\'];
      }
      out := out + [v[i]];
      i := i + 1;
    }
    assert v[..i] == v;
    r := Some(out);
  }

  datatype Algorithm = Algorithm(name: string, sha: bool, sess: bool)

  function AlgorithmOf(raw: Option<string>): Option<Algorithm> {
    if raw.None? || EqIgnoreCase(raw.value, "MD5") then Some(Algorithm("MD5", false, false))
    else if EqIgnoreCase(raw.value, "MD5-sess") then Some(Algorithm("MD5-sess", false, true))
    else if EqIgnoreCase(raw.value, "SHA-256") then Some(Algorithm("SHA-256", true, false))
    else if EqIgnoreCase(raw.value, "SHA-256-sess") then Some(Algorithm("SHA-256-sess", true, true))
    else None
  }

  predicate Offered(list: string, want: string) {
    exists i :: 0 <= i < |Split(list, ',')| && EqIgnoreCase(Trim(Split(list, ',')[i]), want)
  }

  /** The protection chosen: none offered, or auth before auth-int; a list with neither is refused. */
  function QopOf(raw: Option<string>): Option<Option<string>> {
    if raw.None? then Some(None)
    else if Offered(raw.value, "auth") then Some(Some("auth"))
    else if Offered(raw.value, "auth-int") then Some(Some("auth-int"))
    else None
  }

  function Get(m: map<string, string>, key: string): Option<string> {
    if key in m then Some(m[key]) else None
  }

  /** The hash functions, in hexadecimal: of a text and of the request body. */
  datatype Hashes = Hashes(text: (bool, string) -> string, body: (bool, seq<byte>) -> string)

  datatype Request = Request(user: string, pass: string, verb: string, uri: string, body: seq<byte>)

  const NC: string := "00000001"

  /** The request digest of section 3.4.1 of RFC 7616. */
  function ResponseOf(h: Hashes, q: Request, realm: string, nonce: string, cnonce: string, alg: Algorithm, qop: Option<string>): string {
    var secret := h.text(alg.sha, q.user + ":" + realm + ":" + q.pass);
    var ha1 := if alg.sess then h.text(alg.sha, secret + ":" + nonce + ":" + cnonce) else secret;
    var ha2 :=
      if qop == Some("auth-int") then h.text(alg.sha, q.verb + ":" + q.uri + ":" + h.body(alg.sha, q.body))
      else h.text(alg.sha, q.verb + ":" + q.uri);
    match qop
    case Some(chosen) => h.text(alg.sha, ha1 + ":" + nonce + ":" + NC + ":" + cnonce + ":" + chosen + ":" + ha2)
    case None => h.text(alg.sha, ha1 + ":" + nonce + ":" + ha2)
  }

  /** What a header is meant to say. */
  datatype Answer = Answer(
    user: string, realm: string, nonce: string, uri: string, response: string,
    opaqueValue: Option<string>, algorithm: Option<string>, qop: Option<string>, cnonce: string)

  /** The answer to a challenge, or none where the code refuses to give one. */
  function AnswerTo(h: Hashes, q: Request, challenge: string, cnonce: string): Option<Answer> {
    var body :- DigestParams(challenge);
    var p := MapOf(Entries(body));
    var realm :- Get(p, "realm");
    var nonce :- Get(p, "nonce");
    if !IsSafeQuoted(realm) || !IsSafeQuoted(nonce) then None
    else
      var raw := Get(p, "algorithm");
      var alg :- AlgorithmOf(raw);
      var qop :- QopOf(Get(p, "qop"));
      var user :- Quote(q.user);
      var uri :- Quote(q.uri);
      var opaqueValue := Get(p, "opaque");
      if opaqueValue.Some? && !IsSafeQuoted(opaqueValue.value) then None
      else
        Some(Answer(user, realm, nonce, uri, ResponseOf(h, q, realm, nonce, cnonce, alg, qop),
                    opaqueValue, if raw.Some? then Some(alg.name) else None, qop, cnonce))
  }

  function BaseParams(a: Answer): seq<Param> {
    [Param("username", a.user, true), Param("realm", a.realm, true), Param("nonce", a.nonce, true),
     Param("uri", a.uri, true), Param("response", a.response, true)]
  }

  function OpaqueParams(a: Answer): seq<Param> {
    if a.opaqueValue.Some? then [Param("opaque", a.opaqueValue.value, true)] else []
  }

  function AlgorithmParams(a: Answer): seq<Param> {
    if a.algorithm.Some? then [Param("algorithm", a.algorithm.value, false)] else []
  }

  function QopParams(a: Answer): seq<Param> {
    if a.qop.Some? then [Param("qop", a.qop.value, false), Param("nc", NC, false), Param("cnonce", a.cnonce, true)] else []
  }

  function AllParams(a: Answer): seq<Param> {
    BaseParams(a) + OpaqueParams(a) + AlgorithmParams(a) + QopParams(a)
  }

  /** authorization_with_cnonce */
  function Authorization(h: Hashes, q: Request, challenge: string, cnonce: string): Option<string> {
    var a :- AnswerTo(h, q, challenge, cnonce);
    Some("Digest " + Rendered(AllParams(a)))
  }

  // ---- the header says what was meant ---------------------------------------------------------------------

  /** The parameters of an answer, by name. */
  function Intended(a: Answer): map<string, string> {
    map["username" := a.user, "realm" := a.realm, "nonce" := a.nonce, "uri" := a.uri, "response" := a.response]
    + (if a.opaqueValue.Some? then map["opaque" := a.opaqueValue.value] else map[])
    + (if a.algorithm.Some? then map["algorithm" := a.algorithm.value] else map[])
    + (if a.qop.Some? then map["qop" := a.qop.value, "nc" := NC, "cnonce" := a.cnonce] else map[])
  }

  predicate IsHex(s: string) {
    forall c :: c in s ==> IsDigit(c) || 'a' <= c <= 'f'
  }

  ghost predicate HexHashes(h: Hashes) {
    forall sha, s :: IsHex(h.text(sha, s))
  }

  lemma {:induction false} MapOfConcat(a: seq<(string, string)>, b: seq<(string, string)>)
    ensures MapOf(a + b) == MapOf(a) + MapOf(b)
    decreases |b|
  {
    if b == [] {
      assert a + b == a;
    } else {
      var n := |b| - 1;
      MapOfConcat(a, b[..n]);
      assert (a + b)[..|a| + n] == a + b[..n];
    }
  }

  lemma {:induction false} PairsConcat(a: seq<Param>, b: seq<Param>)
    ensures PairsOf(a + b) == PairsOf(a) + PairsOf(b)
  {
    if a == [] {
      assert a + b == b;
    } else {
      assert (a + b)[1..] == a[1..] + b;
      PairsConcat(a[1..], b);
    }
  }

  lemma OnePair(p: Param)
    ensures MapOf(PairsOf([p])) == map[p.key := p.value]
  {
    assert PairsOf([p]) == [(p.key, p.value)];
    var one := [(p.key, p.value)];
    assert one[..0] == [];
  }

  lemma {:induction false} MapSnoc(ps: seq<Param>, p: Param)
    ensures MapOf(PairsOf(ps + [p])) == MapOf(PairsOf(ps))[p.key := p.value]
  {
    hide MapOf, PairsOf;
    PairsConcat(ps, [p]);
    MapOfConcat(PairsOf(ps), PairsOf([p]));
    OnePair(p);
  }

  lemma BaseMap(a: Answer)
    ensures MapOf(PairsOf(BaseParams(a)))
         == map["username" := a.user, "realm" := a.realm, "nonce" := a.nonce, "uri" := a.uri, "response" := a.response]
  {
    hide MapOf, PairsOf;
    var b := BaseParams(a);
    OnePair(b[0]);
    MapSnoc([b[0]], b[1]);
    MapSnoc([b[0], b[1]], b[2]);
    MapSnoc([b[0], b[1], b[2]], b[3]);
    MapSnoc([b[0], b[1], b[2], b[3]], b[4]);
    assert [b[0]] + [b[1]] == [b[0], b[1]] && [b[0], b[1]] + [b[2]] == [b[0], b[1], b[2]];
    assert [b[0], b[1], b[2]] + [b[3]] == [b[0], b[1], b[2], b[3]];
    assert [b[0], b[1], b[2], b[3]] + [b[4]] == b;
  }

  lemma QopMap(a: Answer)
    requires a.qop.Some?
    ensures MapOf(PairsOf(QopParams(a))) == map["qop" := a.qop.value, "nc" := NC, "cnonce" := a.cnonce]
  {
    hide MapOf, PairsOf, NC;
    var b := QopParams(a);
    OnePair(b[0]);
    MapSnoc([b[0]], b[1]);
    MapSnoc([b[0], b[1]], b[2]);
    assert [b[0]] + [b[1]] == [b[0], b[1]] && [b[0], b[1]] + [b[2]] == b;
  }

  lemma AllMap(a: Answer)
    ensures MapOf(PairsOf(AllParams(a))) == Intended(a)
  {
    hide MapOf, PairsOf, BaseParams, QopParams, NC;
    var base, opq, alg, qop := BaseParams(a), OpaqueParams(a), AlgorithmParams(a), QopParams(a);
    PairsConcat(base + opq + alg, qop);
    PairsConcat(base + opq, alg);
    PairsConcat(base, opq);
    MapOfConcat(PairsOf(base + opq + alg), PairsOf(qop));
    MapOfConcat(PairsOf(base + opq), PairsOf(alg));
    MapOfConcat(PairsOf(base), PairsOf(opq));
    BaseMap(a);
    NoPairs();
    if a.opaqueValue.Some? {
      OnePair(opq[0]);
    }
    if a.algorithm.Some? {
      OnePair(alg[0]);
    }
    if a.qop.Some? {
      QopMap(a);
    } else {
      NoQop(a);
    }
  }

  lemma NoPairs()
    ensures MapOf(PairsOf([])) == map[]
  {
  }

  lemma NoQop(a: Answer)
    requires a.qop.None?
    ensures QopParams(a) == []
  {
  }

  /** Whatever is quoted closes, and the tokens are plain. */
  ghost predicate Presentable(a: Answer) {
    && Closes(a.user) && Closes(a.realm) && Closes(a.nonce) && Closes(a.uri) && Closes(a.response)
    && (a.opaqueValue.Some? ==> Closes(a.opaqueValue.value))
    && (a.algorithm.Some? ==> a.algorithm.value in ["MD5", "MD5-sess", "SHA-256", "SHA-256-sess"])
    && (a.qop.Some? ==> a.qop.value in ["auth", "auth-int"]) && Closes(a.cnonce)
  }

  lemma HexCloses(s: string)
    requires IsHex(s)
    ensures Closes(s)
  {
    SafeCloses(s);
  }

  lemma AlgorithmsKnown(raw: Option<string>)
    requires AlgorithmOf(raw).Some?
    ensures AlgorithmOf(raw).value.name in ["MD5", "MD5-sess", "SHA-256", "SHA-256-sess"]
  {
    hide EqIgnoreCase;
  }

  lemma QopKnown(raw: Option<string>)
    requires QopOf(raw).Some? && QopOf(raw).value.Some?
    ensures QopOf(raw).value.value in ["auth", "auth-int"]
  {
    hide Offered;
  }

  lemma ResponseIsHex(h: Hashes, q: Request, realm: string, nonce: string, cnonce: string, alg: Algorithm, qop: Option<string>)
    requires HexHashes(h)
    ensures IsHex(ResponseOf(h, q, realm, nonce, cnonce, alg, qop))
  {
    hide IsHex;
  }

  lemma AnswersArePresentable(h: Hashes, q: Request, challenge: string, cnonce: string)
    requires HexHashes(h) && IsHex(cnonce)
    requires AnswerTo(h, q, challenge, cnonce).Some?
    ensures Presentable(AnswerTo(h, q, challenge, cnonce).value)
  {
    hide Closes, IsSafeQuoted, IsHex, AlgorithmOf, QopOf, DigestParams, Entries, MapOf, ResponseOf, HexHashes, Backslashed;
    var a := AnswerTo(h, q, challenge, cnonce).value;
    var p := MapOf(Entries(DigestParams(challenge).value));
    BackslashedCloses(q.user);
    BackslashedCloses(q.uri);
    SafeCloses(a.realm);
    SafeCloses(a.nonce);
    AlgorithmsKnown(Get(p, "algorithm"));
    if a.qop.Some? {
      QopKnown(Get(p, "qop"));
    }
    ResponseIsHex(h, q, a.realm, a.nonce, cnonce, AlgorithmOf(Get(p, "algorithm")).value, a.qop);
    HexCloses(a.response);
    HexCloses(cnonce);
    if a.opaqueValue.Some? {
      SafeCloses(a.opaqueValue.value);
    }
  }

  ghost predicate AllReadable(ps: seq<Param>) {
    forall i :: 0 <= i < |ps| ==> Readable(ps[i])
  }

  lemma BaseReadable(a: Answer)
    requires Presentable(a)
    ensures AllReadable(BaseParams(a))
  {
    hide Closes;
  }

  lemma OpaqueReadable(a: Answer)
    requires Presentable(a)
    ensures AllReadable(OpaqueParams(a))
  {
    hide Closes;
  }

  lemma AlgorithmsArePlain()
    ensures PlainToken("MD5") && PlainToken("MD5-sess") && PlainToken("SHA-256") && PlainToken("SHA-256-sess")
  {
  }

  lemma QopsArePlain()
    ensures PlainToken("auth") && PlainToken("auth-int") && PlainToken(NC)
  {
  }

  lemma AlgorithmReadable(a: Answer)
    requires Presentable(a)
    ensures AllReadable(AlgorithmParams(a))
  {
    hide Closes, PlainToken;
    AlgorithmsArePlain();
  }

  lemma QopReadable(a: Answer)
    requires Presentable(a)
    ensures AllReadable(QopParams(a))
  {
    hide Closes, PlainToken, NC;
    QopsArePlain();
  }

  lemma ReadableConcat(a: seq<Param>, b: seq<Param>)
    requires AllReadable(a) && AllReadable(b)
    ensures AllReadable(a + b)
  {
    hide Readable;
  }

  lemma AnswerReadable(a: Answer)
    requires Presentable(a)
    ensures AllReadable(AllParams(a))
  {
    hide Presentable, AllReadable, BaseParams, OpaqueParams, AlgorithmParams, QopParams;
    BaseReadable(a);
    OpaqueReadable(a);
    AlgorithmReadable(a);
    QopReadable(a);
    ReadableConcat(BaseParams(a), OpaqueParams(a));
    ReadableConcat(BaseParams(a) + OpaqueParams(a), AlgorithmParams(a));
    ReadableConcat(BaseParams(a) + OpaqueParams(a) + AlgorithmParams(a), QopParams(a));
  }

  lemma ParamEnds(p: Param)
    requires Readable(p)
    ensures OneParam(p) != [] && !IsWhitespace(OneParam(p)[|OneParam(p)| - 1])
  {
    hide Closes;
  }

  lemma {:induction false} RenderedEnds(ps: seq<Param>)
    requires ps != [] && AllReadable(ps)
    ensures Rendered(ps) != [] && !IsWhitespace(Rendered(ps)[|Rendered(ps)| - 1])
  {
    hide Readable, OneParam, IsWhitespace;
    if |ps| == 1 {
      ParamEnds(ps[0]);
    } else {
      RenderedEnds(ps[1..]);
      var tail := ", " + Rendered(ps[1..]);
      assert tail[|tail| - 1] == Rendered(ps[1..])[|Rendered(ps[1..])| - 1];
    }
  }

  lemma SchemeStripped(text: string)
    requires text != [] && !IsWhitespace(text[|text| - 1])
    ensures DigestParams("Digest " + text) == Some(" " + text)
  {
    hide Trim;
    var s := "Digest " + text;
    assert s[0] == 'D' && s[|s| - 1] == text[|text| - 1];
    TrimNothing(s);
    assert s[..6] == "Digest" && s[6..] == " " + text;
  }

  /**
   A header, read back, holds exactly the parameters meant: nothing in the challenge, the
   credentials or the URI can add, drop or alter one. The user and the URI appear in their
   quoted form.
   */
  lemma AuthorizationReadsBack(h: Hashes, q: Request, challenge: string, cnonce: string)
    requires HexHashes(h) && IsHex(cnonce)
    ensures Authorization(h, q, challenge, cnonce).Some? ==>
              var header := Authorization(h, q, challenge, cnonce).value;
              && DigestParams(header).Some?
              && MapOf(Entries(DigestParams(header).value)) == Intended(AnswerTo(h, q, challenge, cnonce).value)
  {
    hide DigestParams, AnswerTo, Rendered, AllParams, MapOf, Entries, PairsOf, Intended, AllReadable, HexHashes, Presentable, IsHex;
    if Authorization(h, q, challenge, cnonce).Some? {
      var a := AnswerTo(h, q, challenge, cnonce).value;
      AnswersArePresentable(h, q, challenge, cnonce);
      AnswerReadable(a);
      var ps := AllParams(a);
      HasParams(a);
      RenderedEnds(ps);
      SchemeStripped(Rendered(ps));
      GapsSkipped(" ", Rendered(ps));
      RenderedBack(ps);
      AllMap(a);
    }
  }

  lemma RenderedBack(ps: seq<Param>)
    requires AllReadable(ps)
    ensures Entries(Rendered(ps)) == PairsOf(ps)
  {
    hide Readable, Entries, Rendered, PairsOf;
    RenderedReads(ps);
  }

  lemma HasParams(a: Answer)
    ensures AllParams(a) != []
  {
  }

  /** The quoted user and URI stand for the originals: a server that unquotes them sees those. */
  lemma QuotedCredentials(h: Hashes, q: Request, challenge: string, cnonce: string, rest: string)
    requires AnswerTo(h, q, challenge, cnonce).Some?
    ensures var a := AnswerTo(h, q, challenge, cnonce).value;
      && Quoted(a.user + ['"'] + rest) == (q.user, rest)
      && Quoted(a.uri + ['"'] + rest) == (q.uri, rest)
  {
    hide Quoted, Backslashed, DigestParams, Entries, MapOf, AlgorithmOf, QopOf, IsSafeQuoted;
    QuotedBack(q.user, rest);
    QuotedBack(q.uri, rest);
  }

  // ---- what a server makes of it --------------------------------------------------------------------------

  /** The text a quoted form stands for. */
  function Unquoted(s: string): string {
    Quoted(s + ['"']).0
  }

  /** KD of section 3.3 of RFC 7616: the digest of a secret and data. */
  function Keyed(h: Hashes, sha: bool, secret: string, data: string): string {
    h.text(sha, secret + (":" + data))
  }

  /** A1 of section 3.4.2. */
  function A1(h: Hashes, alg: Algorithm, user: string, realm: string, pass: string, nonce: string, cnonce: string): string {
    var plain := user + (":" + (realm + (":" + pass)));
    if alg.sess then h.text(alg.sha, plain) + (":" + (nonce + (":" + cnonce))) else plain
  }

  /** A2 of section 3.4.3. */
  function A2(h: Hashes, alg: Algorithm, qop: Option<string>, verb: string, uri: string, body: seq<byte>): string {
    if qop == Some("auth-int") then verb + (":" + (uri + (":" + h.body(alg.sha, body)))) else verb + (":" + uri)
  }

  /** The request digest of section 3.4.1, or its older form without protection. */
  function Expects(h: Hashes, alg: Algorithm, user: string, realm: string, pass: string, nonce: string, nc: string, cnonce: string,
                   qop: Option<string>, verb: string, uri: string, body: seq<byte>): string {
    var secret := h.text(alg.sha, A1(h, alg, user, realm, pass, nonce, cnonce));
    var ha2 := h.text(alg.sha, A2(h, alg, qop, verb, uri, body));
    if qop.Some? then Keyed(h, alg.sha, secret, nonce + (":" + (nc + (":" + (cnonce + (":" + (qop.value + (":" + ha2))))))))
    else Keyed(h, alg.sha, secret, nonce + (":" + ha2))
  }

  lemma Colons2(a: string, b: string)
    ensures a + ":" + b == a + (":" + b)
  {
  }

  lemma Colons3(a: string, b: string, c: string)
    ensures a + ":" + b + ":" + c == a + (":" + (b + (":" + c)))
  {
  }

  lemma Colons6(a: string, b: string, c: string, d: string, e: string, f: string)
    ensures a + ":" + b + ":" + c + ":" + d + ":" + e + ":" + f
         == a + (":" + (b + (":" + (c + (":" + (d + (":" + (e + (":" + f)))))))))
  {
  }

  /** The code's response is the standard's. */
  lemma ResponseIsStandard(h: Hashes, q: Request, realm: string, nonce: string, cnonce: string, alg: Algorithm, qop: Option<string>)
    ensures ResponseOf(h, q, realm, nonce, cnonce, alg, qop)
         == Expects(h, alg, q.user, realm, q.pass, nonce, NC, cnonce, qop, q.verb, q.uri, q.body)
  {
    hide NC;
    var plain := h.text(alg.sha, q.user + ":" + realm + ":" + q.pass);
    Colons3(q.user, realm, q.pass);
    Colons3(plain, nonce, cnonce);
    var secret := h.text(alg.sha, A1(h, alg, q.user, realm, q.pass, nonce, cnonce));
    Colons2(q.verb, q.uri);
    Colons3(q.verb, q.uri, h.body(alg.sha, q.body));
    var ha2 := h.text(alg.sha, A2(h, alg, qop, q.verb, q.uri, q.body));
    if qop.Some? {
      Colons6(secret, nonce, NC, cnonce, qop.value, ha2);
    } else {
      Colons3(secret, nonce, ha2);
    }
  }

  /** What a server that knows the password computes from the header's parameters alone. */
  function ServerExpects(h: Hashes, m: map<string, string>, alg: Algorithm, pass: string, verb: string, body: seq<byte>): string
    requires {"username", "realm", "nonce", "uri"} <= m.Keys
  {
    Expects(h, alg, Unquoted(m["username"]), m["realm"], pass, m["nonce"], Get(m, "nc").GetOr(""), Get(m, "cnonce").GetOr(""),
            Get(m, "qop"), verb, Unquoted(m["uri"]), body)
  }

  lemma AlgorithmEchoed(raw: Option<string>)
    requires AlgorithmOf(raw).Some?
    ensures AlgorithmOf(if raw.Some? then Some(AlgorithmOf(raw).value.name) else None) == AlgorithmOf(raw)
  {
    hide Lower;
    assert |Lower("MD5")| == 3 && |Lower("MD5-sess")| == 8 && |Lower("SHA-256")| == 7 && |Lower("SHA-256-sess")| == 12;
  }

  lemma IntendedBase(a: Answer)
    ensures var m := Intended(a);
      && {"username", "realm", "nonce", "uri", "response"} <= m.Keys
      && m["username"] == a.user && m["realm"] == a.realm && m["nonce"] == a.nonce && m["uri"] == a.uri && m["response"] == a.response
  {
    hide NC;
    var base := map["username" := a.user, "realm" := a.realm, "nonce" := a.nonce, "uri" := a.uri, "response" := a.response];
    var opq := if a.opaqueValue.Some? then map["opaque" := a.opaqueValue.value] else map[];
    var alg := if a.algorithm.Some? then map["algorithm" := a.algorithm.value] else map[];
    var tail := if a.qop.Some? then map["qop" := a.qop.value, "nc" := NC, "cnonce" := a.cnonce] else map[];
    assert opq.Keys <= {"opaque"} && alg.Keys <= {"algorithm"} && tail.Keys <= {"qop", "nc", "cnonce"};
    KeepsBase(base, opq, alg, tail);
    assert Intended(a) == base + opq + alg + tail;
  }

  lemma KeepsBase(base: map<string, string>, opq: map<string, string>, alg: map<string, string>, tail: map<string, string>)
    requires opq.Keys <= {"opaque"} && alg.Keys <= {"algorithm"} && tail.Keys <= {"qop", "nc", "cnonce"}
    ensures forall k :: k in base && k !in {"opaque", "algorithm", "qop", "nc", "cnonce"} ==>
              k in base + opq + alg + tail && (base + opq + alg + tail)[k] == base[k]
  {
  }

  lemma IntendedTail(a: Answer)
    ensures var m := Intended(a);
      && Get(m, "algorithm") == a.algorithm && Get(m, "qop") == a.qop
      && (a.qop.Some? ==> Get(m, "nc") == Some(NC) && Get(m, "cnonce") == Some(a.cnonce))
      && (a.qop.None? ==> "cnonce" !in m)
  {
    hide NC;
  }

  /** What the code fixed on for a challenge: the algorithm. */
  function ChosenAlgorithm(challenge: string): Option<Algorithm> {
    var body :- DigestParams(challenge);
    AlgorithmOf(Get(MapOf(Entries(body)), "algorithm"))
  }

  lemma AnswerParts(h: Hashes, q: Request, challenge: string, cnonce: string)
    requires AnswerTo(h, q, challenge, cnonce).Some?
    ensures var a := AnswerTo(h, q, challenge, cnonce).value;
      && ChosenAlgorithm(challenge).Some? && AlgorithmOf(a.algorithm) == ChosenAlgorithm(challenge)
      && a.response == ResponseOf(h, q, a.realm, a.nonce, cnonce, ChosenAlgorithm(challenge).value, a.qop)
      && a.user == Backslashed(q.user) && a.uri == Backslashed(q.uri) && a.cnonce == cnonce
  {
    hide DigestParams, Entries, MapOf, AlgorithmOf, QopOf, IsSafeQuoted, Backslashed, ResponseOf;
    AlgorithmEchoed(Get(MapOf(Entries(DigestParams(challenge).value)), "algorithm"));
  }

  lemma UnquotedBack(s: string)
    ensures Unquoted(Backslashed(s)) == s
  {
    hide Quoted, Backslashed;
    QuotedBack(s, "");
    assert Backslashed(s) + ['"'] + "" == Backslashed(s) + ['"'];
  }

  /** The protection the code fixes on for a challenge. */
  function ChosenQop(challenge: string): Option<string> {
    match DigestParams(challenge)
    case None => None
    case Some(body) => QopOf(Get(MapOf(Entries(body)), "qop")).GetOr(None)
  }

  /** A header is sent, and a server that knows the password computes from it alone the response in it. */
  ghost predicate ServerChecks(h: Hashes, q: Request, challenge: string, cnonce: string) {
    var header := Authorization(h, q, challenge, cnonce);
    && header.Some? && DigestParams(header.value).Some?
    && var m := MapOf(Entries(DigestParams(header.value).value));
       && {"username", "realm", "nonce", "uri", "response"} <= m.Keys
       && AlgorithmOf(Get(m, "algorithm")).Some?
       && ServerExpects(h, m, AlgorithmOf(Get(m, "algorithm")).value, q.pass, q.verb, q.body) == m["response"]
  }

  /** The standard's response for an answer, with the count and client nonce given. */
  function ExpectsFor(h: Hashes, q: Request, a: Answer, alg: Algorithm, nc: string, cnonce: string): string {
    Expects(h, alg, q.user, a.realm, q.pass, a.nonce, nc, cnonce, a.qop, q.verb, q.uri, q.body)
  }

  /** The server's check comes down to its having, or not needing, the count and the client nonce. */
  lemma ServerComputes(h: Hashes, q: Request, challenge: string, cnonce: string)
    requires HexHashes(h) && IsHex(cnonce) && AnswerTo(h, q, challenge, cnonce).Some?
    ensures
      var a := AnswerTo(h, q, challenge, cnonce).value;
      && ChosenAlgorithm(challenge).Some?
      && var alg := ChosenAlgorithm(challenge).value;
         ServerChecks(h, q, challenge, cnonce)
         <==> (if a.qop.Some? then true else ExpectsFor(h, q, a, alg, "", "") == ExpectsFor(h, q, a, alg, NC, cnonce))
  {
    hide AnswerTo, DigestParams, Entries, MapOf, AlgorithmOf, ResponseOf, Unquoted, Backslashed, Intended, ChosenAlgorithm, IsHex, HexHashes, NC,
      Rendered, AllParams, Expects;
    var a := AnswerTo(h, q, challenge, cnonce).value;
    AuthorizationReadsBack(h, q, challenge, cnonce);
    IntendedBase(a);
    IntendedTail(a);
    AnswerParts(h, q, challenge, cnonce);
    UnquotedBack(q.user);
    UnquotedBack(q.uri);
    ResponseIsStandard(h, q, a.realm, a.nonce, cnonce, ChosenAlgorithm(challenge).value, a.qop);
    if a.qop.None? {
      assert Get(Intended(a), "nc").GetOr("") == "" || Get(Intended(a), "nc").Some?;
      NoCount(a);
    }
  }

  lemma NoCount(a: Answer)
    ensures a.qop.None? ==> "nc" !in Intended(a)
  {
    hide NC;
  }

  /** Without a session the client nonce goes into the response only with protection. */
  lemma NonceUnused(h: Hashes, q: Request, a: Answer, alg: Algorithm, cnonce: string)
    requires a.qop.None? && !alg.sess
    ensures ExpectsFor(h, q, a, alg, "", "") == ExpectsFor(h, q, a, alg, NC, cnonce)
  {
  }

  // ---- an injective hash ------------------------------------------------------------------------------------

  /** Every character as that many zeros and a one. */
  function Spelled(s: string): string {
    if s == [] then "" else Zeros(s[0] as nat) + (['1'] + Spelled(s[1..]))
  }

  function SpelledText(sha: bool, s: string): string {
    Spelled(s)
  }

  function NoBody(sha: bool, b: seq<byte>): string {
    "0"
  }

  const SPELLING: Hashes := Hashes(SpelledText, NoBody)

  lemma {:induction false} DigitsSpelled(s: string)
    ensures AllDigits(Spelled(s))
  {
    if s != [] {
      DigitsSpelled(s[1..]);
    }
  }

  lemma {:induction false} SpelledInjective(a: string, b: string)
    requires Spelled(a) == Spelled(b)
    ensures a == b
  {
    if a != [] && b != [] {
      FirstSpelled(a);
      FirstSpelled(b);
      SpelledInjective(a[1..], b[1..]);
      assert a == [a[0]] + a[1..] && b == [b[0]] + b[1..];
    }
  }

  lemma FirstSpelled(s: string)
    requires s != []
    ensures Find(Spelled(s), '1') == s[0] as nat < |Spelled(s)| && Spelled(s)[s[0] as nat + 1..] == Spelled(s[1..])
  {
    hide Find, Spelled;
    var z, rest := Zeros(s[0] as nat), Spelled(s[1..]);
    FindAt(z, '1', rest);
    SpelledFrom(s);
    assert (z + ['1'] + rest)[|z| + 1..] == rest;
  }

  lemma SpelledFrom(s: string)
    requires s != []
    ensures Spelled(s) == Zeros(s[0] as nat) + ['1'] + Spelled(s[1..])
  {
    hide Zeros;
    Associate(Zeros(s[0] as nat), ['1'], Spelled(s[1..]));
  }

  lemma CancelTail(a: string, b: string, tail: string)
    requires a + tail == b + tail
    ensures a == b
  {
    assert a == (a + tail)[..|a|] && b == (b + tail)[..|b|];
  }

  /** With an injective hash, a session's response tells client nonces apart. */
  lemma SessionTellsNonces(q: Request, a: Answer, alg: Algorithm, c: string, d: string)
    requires a.qop.None? && alg.sess && |c| != |d|
    ensures ExpectsFor(SPELLING, q, a, alg, NC, c) != ExpectsFor(SPELLING, q, a, alg, NC, d)
  {
    hide Spelled, NC;
    var secret := Spelled(q.user + (":" + (a.realm + (":" + q.pass))));
    var one, other := secret + (":" + (a.nonce + (":" + c))), secret + (":" + (a.nonce + (":" + d)));
    assert |one| != |other|;
    var tail := ":" + (a.nonce + (":" + Spelled(A2(SPELLING, alg, None, q.verb, q.uri, q.body))));
    if ExpectsFor(SPELLING, q, a, alg, NC, c) == ExpectsFor(SPELLING, q, a, alg, NC, d) {
      assert Spelled(Spelled(one) + tail) == Spelled(Spelled(other) + tail);
      SpelledInjective(Spelled(one) + tail, Spelled(other) + tail);
      CancelTail(Spelled(one), Spelled(other), tail);
      SpelledInjective(one, other);
    }
  }

  // ---- when a server can check -----------------------------------------------------------------------------

  /** What a server may make of the parameters other than the response; it may know the request, the password and the challenge. */
  type Server = (Hashes, map<string, string>) -> string

  /** A header is sent, and from the rest of it the server computes the response in it. */
  ghost predicate Checks(server: Server, h: Hashes, q: Request, challenge: string, cnonce: string) {
    var header := Authorization(h, q, challenge, cnonce);
    && header.Some? && DigestParams(header.value).Some?
    && var m := MapOf(Entries(DigestParams(header.value).value));
       "response" in m && server(h, m - {"response"}) == m["response"]
  }

  /** Whatever the hash functions and the client nonce, this server can check the answer. */
  ghost predicate CheckedBy(server: Server, q: Request, challenge: string) {
    forall h, cnonce :: HexHashes(h) && IsHex(cnonce) ==> Checks(server, h, q, challenge, cnonce)
  }

  /** Some server can. */
  ghost predicate AlwaysChecked(q: Request, challenge: string) {
    exists server: Server :: CheckedBy(server, q, challenge)
  }

  /** The server that follows the standard. */
  function StandardServer(q: Request): Server {
    (h: Hashes, m: map<string, string>) =>
      if {"username", "realm", "nonce", "uri"} <= m.Keys && AlgorithmOf(Get(m, "algorithm")).Some? then
        ServerExpects(h, m, AlgorithmOf(Get(m, "algorithm")).value, q.pass, q.verb, q.body)
      else ""
  }

  lemma StandardIgnoresResponse(h: Hashes, q: Request, m: map<string, string>)
    ensures StandardServer(q)(h, m - {"response"}) == StandardServer(q)(h, m)
  {
    hide Expects, AlgorithmOf, Unquoted;
    var n := m - {"response"};
    OtherKeys(m);
  }

  lemma OtherKeys(m: map<string, string>)
    ensures var n := m - {"response"};
      forall k :: k in {"username", "realm", "nonce", "uri", "algorithm", "qop", "nc", "cnonce"} ==>
        Get(n, k) == Get(m, k) && (k in n <==> k in m)
  {
  }

  lemma StandardChecks(h: Hashes, q: Request, challenge: string, cnonce: string)
    requires ServerChecks(h, q, challenge, cnonce)
    ensures Checks(StandardServer(q), h, q, challenge, cnonce)
  {
    hide Authorization, DigestParams, Entries, MapOf, AlgorithmOf, ServerExpects, Get;
    var m := MapOf(Entries(DigestParams(Authorization(h, q, challenge, cnonce).value).value));
    StandardIgnoresResponse(h, q, m);
  }

  /** Without protection, the client nonce shows in the response alone. */
  lemma OnlyResponseDiffers(a: Answer, b: Answer)
    requires a.qop.None? && b == a.(response := b.response, cnonce := b.cnonce)
    ensures Intended(a) - {"response"} == Intended(b) - {"response"}
  {
    hide NC;
    var x, y := Intended(a) - {"response"}, Intended(b) - {"response"};
    assert x.Keys == y.Keys;
  }

  /** What a server is given, and what it has to find. */
  lemma GivenAndSought(h: Hashes, q: Request, challenge: string, cnonce: string)
    requires HexHashes(h) && IsHex(cnonce) && AnswerTo(h, q, challenge, cnonce).Some?
    ensures
      var a := AnswerTo(h, q, challenge, cnonce).value;
      && ChosenAlgorithm(challenge).Some? && a.cnonce == cnonce
      && a.response == ExpectsFor(h, q, a, ChosenAlgorithm(challenge).value, NC, cnonce)
      && forall server: Server :: Checks(server, h, q, challenge, cnonce) <==> server(h, Intended(a) - {"response"}) == a.response
  {
    hide AnswerTo, DigestParams, Entries, MapOf, AlgorithmOf, ResponseOf, Backslashed, Intended, ChosenAlgorithm, IsHex, HexHashes, NC,
      Rendered, AllParams, Expects;
    var a := AnswerTo(h, q, challenge, cnonce).value;
    AuthorizationReadsBack(h, q, challenge, cnonce);
    IntendedBase(a);
    AnswerParts(h, q, challenge, cnonce);
    ResponseIsStandard(h, q, a.realm, a.nonce, cnonce, ChosenAlgorithm(challenge).value, a.qop);
  }

  /** Two answers of a session without protection that no server can tell apart, and whose responses differ. */
  lemma NoServerChecks(h0: Hashes, q: Request, challenge: string, cnonce0: string, server: Server)
    requires AnswerTo(h0, q, challenge, cnonce0).Some?
    requires ChosenQop(challenge).None? && ChosenAlgorithm(challenge).Some? && ChosenAlgorithm(challenge).value.sess
    ensures !(Checks(server, SPELLING, q, challenge, "0") && Checks(server, SPELLING, q, challenge, "00"))
  {
    hide AnswerTo, ChosenAlgorithm, ChosenQop, Checks, HexHashes, IsHex, NC, Intended, Expects, SPELLING;
    SpellingIsHex();
    AnsweredAlike(h0, SPELLING, q, challenge, cnonce0, "0");
    AnsweredAlike(h0, SPELLING, q, challenge, cnonce0, "00");
    SameAnswers(SPELLING, q, challenge, "0", "00");
    GivenAndSought(SPELLING, q, challenge, "0");
    GivenAndSought(SPELLING, q, challenge, "00");
    var a, b := AnswerTo(SPELLING, q, challenge, "0").value, AnswerTo(SPELLING, q, challenge, "00").value;
    OnlyResponseDiffers(a, b);
    SessionTellsNonces(q, a, ChosenAlgorithm(challenge).value, "0", "00");
  }

  lemma SameAnswers(h: Hashes, q: Request, challenge: string, cnonce: string, dnonce: string)
    requires AnswerTo(h, q, challenge, cnonce).Some? && AnswerTo(h, q, challenge, dnonce).Some?
    ensures
      var a, b := AnswerTo(h, q, challenge, cnonce).value, AnswerTo(h, q, challenge, dnonce).value;
      b == a.(response := b.response, cnonce := b.cnonce)
  {
    hide DigestParams, Entries, MapOf, AlgorithmOf, QopOf, IsSafeQuoted, Backslashed, ResponseOf;
  }

  /** Whether a challenge is answered, and with what protection, does not depend on the hash or the client nonce. */
  lemma AnsweredAlike(h: Hashes, g: Hashes, q: Request, challenge: string, cnonce: string, dnonce: string)
    requires AnswerTo(h, q, challenge, cnonce).Some?
    ensures AnswerTo(g, q, challenge, dnonce).Some?
    ensures AnswerTo(g, q, challenge, dnonce).value.qop == ChosenQop(challenge)
  {
    hide DigestParams, Entries, MapOf, AlgorithmOf, QopOf, IsSafeQuoted, Backslashed, ResponseOf;
  }

  /**
   Some server can always check an answer exactly when the challenge offered protection or
   the algorithm is not a session one: a session needs the client nonce, and the header
   carries that only with protection, so that no server at all can do without.
   */
  lemma CheckedExactly(h0: Hashes, q: Request, challenge: string, cnonce0: string)
    requires AnswerTo(h0, q, challenge, cnonce0).Some?
    ensures ChosenAlgorithm(challenge).Some?
    ensures AlwaysChecked(q, challenge) <==> ChosenQop(challenge).Some? || !ChosenAlgorithm(challenge).value.sess
  {
    hide AnswerTo, ChosenAlgorithm, ChosenQop, ServerChecks, Checks, HexHashes, IsHex, ExpectsFor, NC, StandardServer, SPELLING;
    AnswerParts(h0, q, challenge, cnonce0);
    var alg := ChosenAlgorithm(challenge).value;
    if ChosenQop(challenge).Some? || !alg.sess {
      forall h, cnonce | HexHashes(h) && IsHex(cnonce)
        ensures Checks(StandardServer(q), h, q, challenge, cnonce)
      {
        AnsweredAlike(h0, h, q, challenge, cnonce0, cnonce);
        ServerComputes(h, q, challenge, cnonce);
        var a := AnswerTo(h, q, challenge, cnonce).value;
        if a.qop.None? {
          NonceUnused(h, q, a, alg, cnonce);
        }
        StandardChecks(h, q, challenge, cnonce);
      }
      assert CheckedBy(StandardServer(q), q, challenge);
    } else {
      SpellingIsHex();
      forall server: Server
        ensures !CheckedBy(server, q, challenge)
      {
        NoServerChecks(h0, q, challenge, cnonce0, server);
      }
    }
  }

  lemma SpellingIsHex()
    ensures HexHashes(SPELLING) && IsHex("0") && IsHex("00")
  {
    forall sha, s
      ensures IsHex(SPELLING.text(sha, s))
    {
      DigitsSpelled(s);
    }
  }

  const SESSION_PARAMS: seq<Param> :=
    [Param("realm", "r", true), Param("nonce", "n", true), Param("algorithm", "MD5-sess", false)]

  const SESSION_CHALLENGE: string := "Digest " + ("realm=\"r\"" + (", " + ("nonce=\"n\"" + (", " + "algorithm=MD5-sess"))))

  const SIMPLE_REQUEST: Request := Request("u", "p", "GET", "/", [])

  lemma SessionChallengeText()
    ensures SESSION_CHALLENGE == "Digest " + Rendered(SESSION_PARAMS)
  {
    var ps := SESSION_PARAMS;
    assert OneParam(ps[0]) == "realm=\"r\"" && OneParam(ps[1]) == "nonce=\"n\"" && OneParam(ps[2]) == "algorithm=MD5-sess";
    assert ps[1..] == [ps[1], ps[2]] && ps[1..][1..] == [ps[2]];
  }

  lemma SessionChallengeReads()
    ensures DigestParams(SESSION_CHALLENGE).Some?
    ensures MapOf(Entries(DigestParams(SESSION_CHALLENGE).value)) == map["realm" := "r", "nonce" := "n", "algorithm" := "MD5-sess"]
  {
    hide DigestParams, Entries, MapOf, Closes, PlainToken, PairsOf, Rendered, SESSION_CHALLENGE;
    var ps := SESSION_PARAMS;
    SessionChallengeText();
    SafeCloses("r");
    SafeCloses("n");
    AlgorithmsArePlain();
    RenderedEnds(ps);
    SchemeStripped(Rendered(ps));
    GapsSkipped(" ", Rendered(ps));
    RenderedBack(ps);
    OnePair(ps[0]);
    MapSnoc([ps[0]], ps[1]);
    MapSnoc([ps[0], ps[1]], ps[2]);
    assert [ps[0]] + [ps[1]] == [ps[0], ps[1]] && [ps[0], ps[1]] + [ps[2]] == ps;
  }

  /** A challenge that is answered, with a header that no server can always check. */
  lemma AnsweredInVain()
    ensures AnswerTo(SPELLING, SIMPLE_REQUEST, SESSION_CHALLENGE, "0").Some?
    ensures !AlwaysChecked(SIMPLE_REQUEST, SESSION_CHALLENGE)
  {
    hide DigestParams, Entries, MapOf, AlgorithmOf, ResponseOf, Offered, AlwaysChecked, ServerChecks;
    SessionChallengeReads();
    SessionAlgorithm();
    var h, q, c := SPELLING, SIMPLE_REQUEST, SESSION_CHALLENGE;
    assert Quote(q.user).Some? && Quote(q.uri).Some? && IsSafeQuoted("r") && IsSafeQuoted("n");
    hide SPELLING, SIMPLE_REQUEST, SESSION_CHALLENGE;
    CheckedExactly(h, q, c, "0");
  }

  lemma SessionAlgorithm()
    ensures AlgorithmOf(Some("MD5-sess")) == Some(Algorithm("MD5-sess", false, true))
  {
    hide Lower;
    assert |Lower("MD5")| == 3 && |Lower("MD5-sess")| == 8;
  }

  // ---- what the header takes from the challenge ---------------------------------------------------------------

  /** The parameters of a challenge. */
  function Challenged(challenge: string): map<string, string> {
    MapOf(Entries(DigestParams(challenge).GetOr("")))
  }

  /** The realm, the nonce and the opaque value of the header are those of the challenge, and so is its algorithm, up to case. */
  lemma HeaderEchoesChallenge(h: Hashes, q: Request, challenge: string, cnonce: string)
    requires HexHashes(h) && IsHex(cnonce)
    ensures
      var header := Authorization(h, q, challenge, cnonce);
      header.Some? ==>
        var sent, asked := Challenged(header.value), Challenged(challenge);
        && Get(sent, "realm").Some? && Get(sent, "realm") == Get(asked, "realm")
        && Get(sent, "nonce").Some? && Get(sent, "nonce") == Get(asked, "nonce")
        && Get(sent, "opaque") == Get(asked, "opaque")
        && (Get(sent, "algorithm").Some? <==> Get(asked, "algorithm").Some?)
        && (Get(sent, "algorithm").Some? ==> EqIgnoreCase(Get(sent, "algorithm").value, Get(asked, "algorithm").value))
  {
    hide DigestParams, Entries, MapOf, ResponseOf, QopOf, IsSafeQuoted, Backslashed, Intended, Rendered, AllParams, HexHashes, IsHex, AlgorithmOf, Lower;
    if Authorization(h, q, challenge, cnonce).Some? {
      AuthorizationReadsBack(h, q, challenge, cnonce);
      var a := AnswerTo(h, q, challenge, cnonce).value;
      IntendedBase(a);
      IntendedTail(a);
      IntendedOpaque(a);
      AlgorithmsMean(Get(Challenged(challenge), "algorithm"));
    }
  }

  lemma IntendedOpaque(a: Answer)
    ensures Get(Intended(a), "opaque") == a.opaqueValue
  {
    hide NC;
  }

  /** Each name stands for its hash, and a name with -sess for a session; no other name is taken. */
  lemma AlgorithmsMean(raw: Option<string>)
    ensures
      var alg := AlgorithmOf(raw);
      if raw.None? then alg == Some(Algorithm("MD5", false, false))
      else
        var name := Lower(raw.value);
        && (alg.Some? <==> name in ["md5", "md5-sess", "sha-256", "sha-256-sess"])
        && (alg.Some? ==>
              && EqIgnoreCase(alg.value.name, raw.value)
              && (alg.value.sha <==> name in ["sha-256", "sha-256-sess"])
              && (alg.value.sess <==> name in ["md5-sess", "sha-256-sess"]))
  {
    LoweredAlgorithms();
    hide Lower;
  }

  lemma LoweredAlgorithms()
    ensures Lower("MD5") == "md5" && Lower("MD5-sess") == "md5-sess" && Lower("SHA-256") == "sha-256" && Lower("SHA-256-sess") == "sha-256-sess"
  {
  }

  /** auth before auth-int, whatever the order and the case in which they are offered; a list with neither is refused. */
  lemma QopChosen(items: seq<string>)
    requires items != [] && forall s :: s in items ==> ',' !in s
    ensures
      var auth := exists s :: s in items && EqIgnoreCase(Trim(s), "auth");
      var body := exists s :: s in items && EqIgnoreCase(Trim(s), "auth-int");
      QopOf(Some(Join(items, ','))) == if auth then Some(Some("auth")) else if body then Some(Some("auth-int")) else None
  {
    hide Trim, EqIgnoreCase, Join, Split;
    SplitJoin(items, ',');
    forall want: string
      ensures Offered(Join(items, ','), want) <==> exists s :: s in items && EqIgnoreCase(Trim(s), want)
    {
      if s :| s in items && EqIgnoreCase(Trim(s), want) {
        var i :| 0 <= i < |items| && items[i] == s;
      }
    }
  }
}
