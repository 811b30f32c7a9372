/**
 Content-Disposition parameters (src/cli.rs): the printer of multipart form parts
 (`write_part`, `encode_attr`) and the parser of download file names
 (`content_disposition_params`).
 */
module Disposition {
  import opened Basics
  import opened Text
  import opened Quoting

  // ---- printing -------------------------------------------------------------------------------

  /** The UTF-8 bytes of a character, each as the character of that number. */
  function Utf8Chars(c: char): (r: string)
    ensures |r| >= 1
    ensures c < '\U{80}' ==> r == [c]
    ensures c >= '\U{80}' ==> |r| > 1
    ensures forall i :: 0 <= i < |r| && c >= '\U{80}' ==> r[i] >= '\U{80}'
  {
    var u := c as int;
    if u < 0x80 then [c]
    else if u < 0x800 then [ByteChar(0xC0 + u / 64), ByteChar(0x80 + u % 64)]
    else if u < 0x1_0000 then [ByteChar(0xE0 + u / 4096), ByteChar(0x80 + u / 64 % 64), ByteChar(0x80 + u % 64)]
    else [ByteChar(0xF0 + u / 262144), ByteChar(0x80 + u / 4096 % 64), ByteChar(0x80 + u / 64 % 64), ByteChar(0x80 + u % 64)]
  }

  function ByteChar(b: int): (c: char)
    requires 0 <= b < 256
    ensures c as int == b
  {
    b as char
  }

  function PercentByte(c: char): string {
    if c == '\r' then "%0D" else if c == '\n' then "%0A" else if c == '"' then "%22" else if c == '\\' then "%5C" else [c]
  }

  /** A non-ASCII character never becomes one of the reserved bytes, so only its bytes show. */
  function PercentChar(c: char): string {
    if c < '\U{80}' then PercentByte(c) else Utf8Chars(c)
  }

  function Percented(s: string): string {
    if s == [] then "" else PercentChar(s[0]) + Percented(s[1..])
  }

  function Encoded(s: string, escape: bool): string {
    if escape then Percented(s) else Backslashed(s)
  }

  /** encode_attr: percent escapes when `escape`, backslashes otherwise. */
  method EncodeAttr(s: string, escape: bool) returns (out: string)
    ensures out == Encoded(s, escape)
  {
    hide PercentChar, BackslashChar;
    out := "";
    var i := 0;
    while i < |s|
      invariant 0 <= i <= |s|
      invariant out == Encoded(s[..i], escape)
    {
      EncodedSnoc(s, i, escape);
      out := out + if escape then PercentChar(s[i]) else BackslashChar(s[i]);
      i := i + 1;
    }
    assert s[..i] == s;
  }

  lemma EncodedSnoc(s: string, i: nat, escape: bool)
    requires i < |s|
    ensures Encoded(s[..i + 1], escape) == Encoded(s[..i], escape) + if escape then PercentChar(s[i]) else BackslashChar(s[i])
  {
    assert s[..i + 1] == s[..i] + [s[i]];
    if escape {
      PercentedSnoc(s[..i], s[i]);
    } else {
      BackslashedSnoc(s[..i], s[i]);
    }
  }

  lemma {:induction false} PercentedSnoc(s: string, c: char)
    ensures Percented(s + [c]) == Percented(s) + PercentChar(c)
  {
    hide PercentChar;
    if s == [] {
      assert s + [c] == [c];
    } else {
      assert (s + [c])[1..] == s[1..] + [c];
      PercentedSnoc(s[1..], c);
    }
  }

  /** The value of the header that write_part puts before a part. */
  function PartHeader(name: string, filename: Option<string>, escape: bool): string {
    "form-data" + [';'] + ParamText("name", Encoded(name, escape) + ['"'] + FilePart(filename, escape))
  }

  function FilePart(filename: Option<string>, escape: bool): string {
    if filename.None? then "" else [';'] + ParamText("filename", Encoded(filename.value, escape) + ['"'])
  }

  /** A blank, the key, and an opening quote before the rest. */
  function ParamText(key: string, behindQuote: string): string {
    (" " + key) + ['='] + (['"'] + behindQuote)
  }

  // ---- parsing -----------------------------------------------------------------------------------

  /** The text after the first `c`; nothing when there is none. */
  function PastFirst(s: string, c: char): (r: string)
    ensures |r| <= |s|
    ensures s != [] ==> |r| < |s|
  {
    var i := Find(s, c);
    if i < |s| then s[i + 1..] else ""
  }

  lemma TrimStartShrinks(s: string)
    ensures |TrimStart(s)| <= |s|
  {
  }

  /** One value: what it is and the text behind its semicolon. */
  function ReadValue(s: string): (r: (string, string))
    ensures |r.1| <= |s|
  {
    TrimStartShrinks(s);
    var t := TrimStart(s);
    if t != [] && t[0] == '"' then
      var (v, rest) := Quoted(t[1..]);
      (v, PastFirst(rest, ';'))
    else (TrimEnd(t[..Find(t, ';')]), PastFirst(t, ';'))
  }

  /** The parameters behind the disposition type. */
  function Params(s: string): seq<(string, string)>
    decreases |s|
  {
    var key := Trim(s[..Find(s, '=')]);
    if key == [] then []
    else
      EmptyKey();
      var (v, rest) := ReadValue(PastFirst(s, '='));
      [(key, v)] + Params(rest)
  }

  lemma EmptyKey()
    ensures forall s: string :: s == [] ==> Trim(s[..Find(s, '=')]) == []
  {
  }

  /** Moves past the next `c`, or to the end. */
  method SkipPast(s: string, c: char, from: nat) returns (i: nat)
    requires from <= |s|
    ensures from <= i <= |s| && s[i..] == PastFirst(s[from..], c)
  {
    i := from;
    while i < |s|
      invariant from <= i <= |s|
      invariant PastFirst(s[i..], c) == PastFirst(s[from..], c)
    {
      assert s[i..][1..] == s[i + 1..];
      PastStep(s[i..], c);
      i := i + 1;
      if s[i - 1] == c {
        return;
      }
    }
  }

  lemma PastStep(s: string, c: char)
    requires s != []
    ensures PastFirst(s, c) == if s[0] == c then s[1..] else PastFirst(s[1..], c)
  {
    if s[0] != c {
      assert Find(s, c) == 1 + Find(s[1..], c);
    }
  }

  /** Reads up to the closing quote. */
  method ReadQuoted(s: string, from: nat) returns (value: string, i: nat)
    requires from <= |s|
    ensures from <= i <= |s| && (value, s[i..]) == Quoted(s[from..])
  {
    value, i := "", from;
    assert "" + Quoted(s[i..]).0 == Quoted(s[i..]).0;
    while i < |s|
      invariant from <= i <= |s|
      invariant Quoted(s[from..]) == Prefixed(value, Quoted(s[i..]))
    {
      var c := s[i];
      ghost var t := s[i..];
      QuotedStep(t, value);
      i := i + 1;
      assert t[1..] == s[i..];
      if c == '"' {
        return;
      } else if c == '\\' {
        if i < |s| {
          value := value + [s[i]];
          i := i + 1;
          assert t[2..] == s[i..];
        }
      } else {
        value := value + [c];
      }
    }
    assert s[i..] == [] && value + "" == value;
  }

  function Prefixed(v: string, r: (string, string)): (string, string) {
    (v + r.0, r.1)
  }

  lemma QuotedStep(t: string, value: string)
    requires t != []
    ensures Prefixed(value, Quoted(t))
         == if t[0] == '"' then (value, t[1..])
            else if t[0] == '\\' then (if |t| == 1 then (value, "") else Prefixed(value + [t[1]], Quoted(t[2..])))
            else Prefixed(value + [t[0]], Quoted(t[1..]))
  {
    if t[0] == '"' || t == ['\\'] {
      assert value + "" == value;
    } else if t[0] == '\\' {
      Associate(value, [t[1]], Quoted(t[2..]).0);
    } else {
      Associate(value, [t[0]], Quoted(t[1..]).0);
    }
  }

  /** One value, quoted or not, and the place behind its semicolon. */
  method ScanValue(cd: string, from: nat) returns (value: string, i: nat)
    requires from <= |cd|
    ensures from <= i <= |cd| && (value, cd[i..]) == ReadValue(cd[from..])
  {
    hide PastFirst, Quoted, TrimEnd, Find, TrimStart;
    i := SkipBlanks(cd, from);
    var t := cd[i..];
    if i < |cd| && cd[i] == '"' {
      assert t[1..] == cd[i + 1..];
      value, i := ReadQuoted(cd, i + 1);
      i := SkipPast(cd, ';', i);
    } else {
      value := TrimEnd(t[..Find(t, ';')]);
      i := SkipPast(cd, ';', i);
    }
  }

  /** content_disposition_params */
  method ContentDispositionParams(cd: string) returns (params: seq<(string, string)>)
    ensures params == Params(PastFirst(cd, ';'))
  {
    hide Params, PastFirst, ReadValue, Trim, Find;
    params := [];
    assert cd[0..] == cd;
    var i := SkipPast(cd, ';', 0);
    while true
      invariant i <= |cd|
      invariant Params(PastFirst(cd, ';')) == params + Params(cd[i..])
      decreases |cd| - i
    {
      var s := cd[i..];
      ParamsStep(s);
      var key := Trim(s[..Find(s, '=')]);
      if key == [] {
        break;
      }
      EmptyKey();
      ghost var before := i;
      i := SkipPast(cd, '=', i);
      assert i > before;
      var value;
      value, i := ScanValue(cd, i);
      params := params + [(key, value)];
    }
  }

  lemma ParamsStep(s: string)
    ensures var key := Trim(s[..Find(s, '=')]);
      Params(s) == if key == [] then [] else [(key, ReadValue(PastFirst(s, '=')).0)] + Params(ReadValue(PastFirst(s, '=')).1)
  {
  }

  method SkipBlanks(s: string, from: nat) returns (i: nat)
    requires from <= |s|
    ensures from <= i <= |s| && s[i..] == TrimStart(s[from..])
  {
    i := from;
    while i < |s| && IsWhitespace(s[i])
      invariant from <= i <= |s|
      invariant TrimStart(s[i..]) == TrimStart(s[from..])
    {
      assert s[i..][1..] == s[i + 1..];
      i := i + 1;
    }
  }

  // ---- the printer and the parser undo each other ---------------------------------------------------

  /** A parameter behind a semicolon is read as its key and its text. */
  lemma ParamReads(key: string, body: string, value: string, rest: string)
    requires '=' !in key && key != [] && Trim(" " + key) == key
    requires Quoted(body) == (value, rest)
    ensures Params(ParamText(key, body)) == [(key, value)] + Params(PastFirst(rest, ';'))
  {
    hide Params, Quoted, Trim, Find, PastFirst;
    var s, quoted := ParamText(key, body), ['"'] + body;
    FindAt(" " + key, '=', quoted);
    assert s[..|key| + 1] == " " + key;
    PastAt(" " + key, '=', quoted);
    ParamsStep(s);
    assert quoted[1..] == body;
    NoBlank(quoted);
  }

  lemma NoBlank(s: string)
    requires s != [] && s[0] == '"'
    ensures TrimStart(s) == s
  {
  }

  lemma PastAt(before: string, c: char, after: string)
    requires c !in before
    ensures PastFirst(before + [c] + after, c) == after
  {
    FindAt(before, c, after);
    assert (before + [c] + after)[|before| + 1..] == after;
  }

  lemma KeysTrim()
    ensures Trim(" " + "name") == "name" && Trim(" " + "filename") == "filename" && Params("") == []
    ensures '=' !in "name" && '=' !in "filename"
  {
    assert (" " + "name")[1..] == "name" && (" " + "filename")[1..] == "filename";
    TrimNothing("name");
    TrimNothing("filename");
  }

  function Expected(name: string, filename: Option<string>): seq<(string, string)> {
    [("name", name)] + if filename.Some? then [("filename", filename.value)] else []
  }

  /** With backslashes, whatever the name and file name contain, they read back exactly. */
  lemma DispositionRoundTrip(name: string, filename: Option<string>)
    ensures Params(PastFirst(PartHeader(name, filename, false), ';')) == Expected(name, filename)
  {
    QuotedBack(name, FilePart(filename, false));
    if filename.Some? {
      QuotedBack(filename.value, "");
    }
    HeaderReads(name, filename, false, name, filename);
  }

  /** Reading a header follows from reading its two quoted texts. */
  lemma HeaderReads(name: string, filename: Option<string>, escape: bool, n: string, f: Option<string>)
    requires Quoted(Encoded(name, escape) + ['"'] + FilePart(filename, escape)) == (n, FilePart(filename, escape))
    requires filename.Some? <==> f.Some?
    requires filename.Some? ==> Quoted(Encoded(filename.value, escape) + ['"'] + "") == (f.value, "")
    ensures Params(PastFirst(PartHeader(name, filename, escape), ';')) == Expected(n, f)
  {
    hide Params, Quoted, Trim, Encoded, PastFirst;
    KeysTrim();
    var part := FilePart(filename, escape);
    var body := Encoded(name, escape) + ['"'] + part;
    PastAt("form-data", ';', ParamText("name", body));
    ParamReads("name", body, n, part);
    if filename.Some? {
      var last := Encoded(filename.value, escape) + ['"'];
      assert last + "" == last;
      assert part == "" + [';'] + ParamText("filename", last);
      PastAt("", ';', ParamText("filename", last));
      ParamReads("filename", last, f.value, "");
    }
    NothingPast();
  }

  lemma NothingPast()
    ensures PastFirst("", ';') == ""
  {
  }

  // ---- percent escapes ----------------------------------------------------------------------------------

  predicate Kept(c: char) {
    c < '\U{80}' && c != '\r' && c != '\n' && c != '"' && c != '\\'
  }

  lemma {:induction false} PercentedKeeps(s: string)
    ensures |Percented(s)| >= |s|
    ensures Percented(s) == s <==> forall c :: c in s ==> Kept(c)
    ensures |Percented(s)| == |s| ==> forall c :: c in s ==> Kept(c)
    ensures forall c :: c in Percented(s) ==> c != '"' && c != '\\'
  {
    if s != [] {
      PercentedKeeps(s[1..]);
      assert forall c :: c in s <==> c == s[0] || c in s[1..];
      PercentCharKeeps(s[0]);
      assert s == [s[0]] + s[1..];
    }
  }

  lemma PercentCharKeeps(c: char)
    ensures |PercentChar(c)| >= 1
    ensures |PercentChar(c)| == 1 <==> Kept(c)
    ensures Kept(c) ==> PercentChar(c) == [c]
    ensures forall x :: x in PercentChar(c) ==> x != '"' && x != '\\'
  {
  }

  lemma {:induction false} QuotedPlain(s: string, rest: string)
    requires forall c :: c in s ==> c != '"' && c != '\\'
    ensures Quoted(s + ['"'] + rest) == (s, rest)
  {
    var t := s + ['"'] + rest;
    if s == [] {
      assert t == ['"'] + rest;
    } else {
      assert s[0] in s && forall c :: c in s[1..] ==> c in s;
      assert t[1..] == s[1..] + ['"'] + rest;
      QuotedPlain(s[1..], rest);
      assert [s[0]] + s[1..] == s;
    }
  }

  /** With percent escapes the names read back as they were exactly when nothing had to be escaped. */
  lemma PercentRoundTrip(name: string, filename: Option<string>)
    ensures Params(PastFirst(PartHeader(name, filename, true), ';')) == Expected(name, filename)
       <==> (forall c :: c in name ==> Kept(c)) && (filename.Some? ==> forall c :: c in filename.value ==> Kept(c))
  {
    hide Params, PastFirst, Quoted, PartHeader, Kept;
    PercentedKeeps(name);
    QuotedPlain(Percented(name), FilePart(filename, true));
    var f := if filename.Some? then Some(Percented(filename.value)) else None;
    if filename.Some? {
      PercentedKeeps(filename.value);
      QuotedPlain(Percented(filename.value), "");
    }
    HeaderReads(name, filename, true, Percented(name), f);
    ExpectedInjective(Percented(name), f, name, filename);
  }

  lemma ExpectedInjective(n: string, f: Option<string>, name: string, filename: Option<string>)
    ensures Expected(n, f) == Expected(name, filename) <==> n == name && f == filename
  {
    var a, b := Expected(n, f), Expected(name, filename);
    if a == b {
      assert a[0] == b[0];
      if |a| == 2 {
        assert a[1] == b[1];
      }
    }
  }

  /** Two different names can have one percent form. */
  lemma PercentCollides()
    ensures Percented("\"") == Percented("%22")
  {
    assert "%22"[1..] == "22" && "22"[1..] == "2" && "\""[1..] == "" && "2"[1..] == "";
    assert Percented("2") == "2";
    assert Percented("22") == "22";
  }

  // ---- what a percent form means ---------------------------------------------------------------------------

  function HexValue(c: char): nat {
    if '0' <= c <= '9' then c as nat - '0' as nat else if 'A' <= c <= 'F' then c as nat - 'A' as nat + 10 else 0
  }

  /** Percent decoding, as the receiver of a form does it, giving bytes. */
  function Unpercented(s: string): string {
    if s == [] then ""
    else if s[0] == '%' && |s| >= 3 then [ByteChar(HexValue(s[1]) * 16 + HexValue(s[2]))] + Unpercented(s[3..])
    else [s[0]] + Unpercented(s[1..])
  }

  function Utf8(s: string): string {
    if s == [] then "" else Utf8Chars(s[0]) + Utf8(s[1..])
  }

  /** The six-bit tail of a continuation byte. */
  function Tail(c: char): int {
    c as int - 0x80
  }

  /** The scalar value that a byte sequence of its length encodes. */
  function ScalarOf(r: string): int {
    if |r| == 1 then r[0] as int
    else if |r| == 2 then (r[0] as int - 0xC0) * 64 + Tail(r[1])
    else if |r| == 3 then ((r[0] as int - 0xE0) * 64 + Tail(r[1])) * 64 + Tail(r[2])
    else if |r| == 4 then (((r[0] as int - 0xF0) * 64 + Tail(r[1])) * 64 + Tail(r[2])) * 64 + Tail(r[3])
    else -1
  }

  /** The bytes of a character are as many as UTF-8 says, continuation bytes in the middle, and stand for it. */
  lemma Utf8Stands(c: char)
    ensures var r := Utf8Chars(c);
      |r| == Utf8Width(c) && ScalarOf(r) == c as int && forall i :: 0 < i < |r| ==> 0x80 <= r[i] as int < 0xC0
  {
    var u, r := c as int, Utf8Chars(c);
    SixBits(u);
    if 0x800 <= u < 0x1_0000 {
      assert r == [ByteChar(0xE0 + u / 4096), ByteChar(0x80 + u / 64 % 64), ByteChar(0x80 + u % 64)];
    } else if u >= 0x1_0000 {
      assert r == [ByteChar(0xF0 + u / 262144), ByteChar(0x80 + u / 4096 % 64), ByteChar(0x80 + u / 64 % 64), ByteChar(0x80 + u % 64)];
    }
  }

  /** A number is put together from its groups of six bits. */
  lemma SixBits(u: int)
    requires u >= 0
    ensures u == u / 64 * 64 + u % 64
    ensures u / 64 == u / 4096 * 64 + u / 64 % 64
    ensures u / 4096 == u / 262144 * 64 + u / 4096 % 64
  {
    assert u / 4096 == u / 64 / 64;
    assert u / 262144 == u / 4096 / 64;
  }

  lemma {:induction false} PlainUnpercented(s: string, rest: string)
    requires '%' !in s
    ensures Unpercented(s + rest) == s + Unpercented(rest)
  {
    if s == [] {
      assert s + rest == rest;
    } else {
      assert (s + rest)[1..] == s[1..] + rest;
      PlainUnpercented(s[1..], rest);
    }
  }

  lemma ReservedUnpercented(c: char, rest: string)
    requires c != '%'
    ensures Unpercented(PercentChar(c) + rest) == Utf8Chars(c) + Unpercented(rest)
  {
    hide Utf8Chars;
    var t := PercentChar(c) + rest;
    if Kept(c) || c >= '\U{80}' {
      assert '%' !in PercentChar(c);
      PlainUnpercented(PercentChar(c), rest);
    } else {
      assert t[3..] == rest;
    }
  }

  /** The percent form of a text without percent signs decodes to the UTF-8 bytes of that text. */
  lemma {:induction false} PercentDecodes(s: string)
    requires '%' !in s
    ensures Unpercented(Percented(s)) == Utf8(s)
  {
    if s != [] {
      hide PercentChar, Utf8Chars, Unpercented;
      ReservedUnpercented(s[0], Percented(s[1..]));
      PercentDecodes(s[1..]);
    } else {
      assert Percented(s) == "";
    }
  }
}
