/**
 The IMAP response reader (src/imap.rs, `LineReader`): lines and `{n}` literals (section
 4.3 of RFC 3501) out of a socket that delivers its bytes in pieces of any size. The
 reader is proved to return what a naive reader finds in the whole stream.
 */
module ImapReader {
  import opened Basics
  import opened Text

  const MAX_LITERAL_BYTES: nat := 64 * 1024 * 1024
  const MAX_RESPONSE_BYTES: nat := 64 * 1024 * 1024
  const READ_SIZE: nat := 4096

  const CR: byte := 13
  const LF: byte := 10
  const CRLF: seq<byte> := [CR, LF]

  /** from_utf8_lossy as far as the reader depends on it: nothing gets shorter, ASCII endings stay. */
  ghost predicate Lossy(lossy: seq<byte> -> string) {
    && (forall b :: ByteLength(lossy(b)) >= |b|)
    && (forall b, s :: IsAscii(s) ==> lossy(b + Ascii(s)) == lossy(b) + s)
  }

  predicate IsAscii(s: string) {
    forall i :: 0 <= i < |s| ==> s[i] < '\U{80}'
  }

  function Ascii(s: string): (r: seq<byte>)
    requires IsAscii(s)
    ensures |r| == |s|
  {
    seq(|s|, i requires 0 <= i < |s| => s[i] as int)
  }

  // ---- the socket --------------------------------------------------------------------------------

  /** What the peer has still to deliver; a read may hand over any non-empty part of it. */
  class Socket {
    var pending: seq<byte>

    constructor (bytes: seq<byte>)
      ensures pending == bytes
    {
      pending := bytes;
    }

    /** At most `max` bytes, none only at the end of the stream; None when the connection fails. */
    method Read(max: nat) returns (r: Option<seq<byte>>)
      requires max > 0
      modifies this
      ensures r.None? ==> pending == old(pending)
      ensures r.Some? ==> old(pending) == r.value + pending && |r.value| <= max
      ensures r.Some? && r.value == [] ==> pending == []
    {
      var fails: bool := *;
      if fails {
        return None;
      }
      if |pending| == 0 {
        return Some([]);
      }
      assert 1 <= max && 1 <= |pending|;
      var n: nat :| 1 <= n <= max && n <= |pending|;
      r := Some(pending[..n]);
      pending := pending[n..];
    }
  }

  // ---- lines -----------------------------------------------------------------------------------------

  /** find_crlf; the length when there is none. */
  function FindCrlf(s: seq<byte>): (i: nat)
    ensures i <= |s|
    ensures i < |s| ==> i + 2 <= |s| && s[i] == CR && s[i + 1] == LF
  {
    if |s| < 2 then |s|
    else if s[0] == CR && s[1] == LF then 0
    else
      var i := FindCrlf(s[1..]);
      1 + i
  }

  lemma {:induction false} CrlfFirst(s: seq<byte>, k: nat)
    requires k < FindCrlf(s) && k + 1 < |s|
    ensures !(s[k] == CR && s[k + 1] == LF)
  {
    if k > 0 {
      CrlfFirst(s[1..], k - 1);
    }
  }

  /** The position is the first at which the two bytes stand. */
  lemma {:induction false} CrlfAt(s: seq<byte>, k: nat)
    requires k + 1 < |s| && s[k] == CR && s[k + 1] == LF
    requires forall j :: 0 <= j < k ==> !(s[j] == CR && s[j + 1] == LF)
    ensures FindCrlf(s) == k
  {
    if k > 0 {
      CrlfAt(s[1..], k - 1);
    }
  }

  lemma {:induction false} NoneBefore(s: seq<byte>, k: nat)
    requires k <= |s| && forall j :: 0 <= j < k && j + 1 < |s| ==> !(s[j] == CR && s[j + 1] == LF)
    ensures FindCrlf(s) >= k
  {
    if k > 0 && |s| >= 2 {
      NoneBefore(s[1..], k - 1);
    }
  }

  datatype LineResult = Line(bytes: seq<byte>) | LineEof | LineTooLong | LineFailed

  /** The first line of a stream and what follows; a stream that ends in mid-line is one line. */
  function NaiveLine(stream: seq<byte>): (r: (LineResult, seq<byte>))
    ensures stream != [] ==> r.0.Line? && |r.1| < |stream|
    ensures stream == [] ==> r == (LineEof, [])
  {
    var i := FindCrlf(stream);
    if i < |stream| then (Line(stream[..i]), stream[i + 2..])
    else if stream == [] then (LineEof, [])
    else (Line(stream), [])
  }

  /** Nothing but the freshly read tail can start a CRLF that was not there before. */
  lemma TailDecides(buf: seq<byte>, scanned: nat)
    requires scanned <= |buf|
    requires forall j :: 0 <= j < scanned && j + 1 < |buf| ==> !(buf[j] == CR && buf[j + 1] == LF)
    ensures var rel := FindCrlf(buf[scanned..]);
      FindCrlf(buf) == scanned + rel
  {
    var rel := FindCrlf(buf[scanned..]);
    var tail := buf[scanned..];
    forall j | 0 <= j < scanned + rel && j + 1 < |buf|
      ensures !(buf[j] == CR && buf[j + 1] == LF)
    {
      if j >= scanned {
        CrlfFirst(tail, j - scanned);
        assert tail[j - scanned] == buf[j] && tail[j - scanned + 1] == buf[j + 1];
      }
    }
    if rel < |tail| {
      assert tail[rel] == buf[scanned + rel] && tail[rel + 1] == buf[scanned + rel + 1];
      CrlfAt(buf, scanned + rel);
    } else {
      NoneBefore(buf, |buf|);
    }
  }

  /** A CRLF found in the buffer is the first of the whole stream. */
  lemma BufferDecides(buf: seq<byte>, more: seq<byte>)
    ensures FindCrlf(buf) < |buf| ==> FindCrlf(buf + more) == FindCrlf(buf)
    ensures FindCrlf(buf) == |buf| ==> FindCrlf(buf + more) + 1 >= |buf|
  {
    var s, i := buf + more, FindCrlf(buf);
    forall j | 0 <= j < i && j + 1 < |buf|
      ensures !(s[j] == CR && s[j + 1] == LF)
    {
      CrlfFirst(buf, j);
    }
    if i < |buf| {
      CrlfAt(s, i);
    } else if buf != [] {
      NoneBefore(s, |buf| - 1);
    }
  }

  /** No CRLF starts before `k`. */
  ghost predicate Scanned(buf: seq<byte>, k: nat) {
    forall j :: 0 <= j < k && j + 1 < |buf| ==> !(buf[j] == CR && buf[j + 1] == LF)
  }

  /** Looking at the unscanned tail of the buffer is looking at the stream. */
  lemma ScanTail(buf: seq<byte>, scanned: nat, more: seq<byte>)
    requires scanned <= |buf| && Scanned(buf, scanned)
    ensures var rel := FindCrlf(buf[scanned..]); var pos := scanned + rel;
      if rel < |buf[scanned..]| then
        pos + 2 <= |buf| && NaiveLine(buf + more) == (Line(buf[..pos]), buf[pos + 2..] + more)
      else
        Scanned(buf, |buf|) && FindCrlf(buf + more) + 1 >= |buf| && FindCrlf(buf) == |buf|
  {
    hide FindCrlf;
    TailDecides(buf, scanned);
    BufferDecides(buf, more);
    var rel := FindCrlf(buf[scanned..]);
    var pos, stream := scanned + rel, buf + more;
    if rel < |buf[scanned..]| {
      assert stream[..pos] == buf[..pos] && stream[pos + 2..] == buf[pos + 2..] + more;
    } else {
      forall j | 0 <= j < |buf| && j + 1 < |buf|
        ensures !(buf[j] == CR && buf[j + 1] == LF)
      {
        CrlfFirst(buf, j);
      }
    }
  }

  lemma NothingScanned(buf: seq<byte>)
    ensures Scanned(buf, 0)
  {
  }

  lemma UnendedLine(stream: seq<byte>)
    requires FindCrlf(stream) == |stream|
    ensures NaiveLine(stream) == (if stream == [] then LineEof else Line(stream), [])
  {
  }

  lemma ScannedLonger(buf: seq<byte>, more: seq<byte>)
    requires Scanned(buf, |buf|)
    ensures Scanned(buf + more, if buf == [] then 0 else |buf| - 1)
  {
  }

  // ---- the reader --------------------------------------------------------------------------------------

  datatype ExactResult = Exactly(bytes: seq<byte>) | ExactEof | ExactFailed

  datatype Response = Done(text: string, literals: seq<seq<byte>>) | TooLong | Eof | Failed

  class LineReader {
    var buf: seq<byte>

    constructor ()
      ensures buf == []
    {
      buf := [];
    }

    /** One line as bytes, without its CRLF. */
    method ReadLine(sock: Socket) returns (r: LineResult)
      modifies this, sock
      ensures var stream := old(buf) + old(sock.pending);
        && (r.Line? || r.LineEof? ==> (r, buf + sock.pending) == NaiveLine(stream))
        && (r.LineTooLong? ==> FindCrlf(stream) >= MAX_RESPONSE_BYTES)
        && (r.LineFailed? ==> buf + sock.pending == stream)
    {
      hide FindCrlf, NaiveLine, Scanned;
      ghost var stream := buf + sock.pending;
      var scanned := 0;
      assert Scanned(buf, 0) by { NothingScanned(buf); }
      while true
        invariant buf + sock.pending == stream
        invariant 0 <= scanned <= |buf| && Scanned(buf, scanned)
        decreases |sock.pending|
      {
        ScanTail(buf, scanned, sock.pending);
        var rel := FindCrlf(buf[scanned..]);
        if rel < |buf[scanned..]| {
          var pos := scanned + rel;
          r := Line(buf[..pos]);
          buf := buf[pos + 2..];
          return;
        }
        scanned := if |buf| == 0 then 0 else |buf| - 1;
        if |buf| > MAX_RESPONSE_BYTES {
          return LineTooLong;
        }
        var got := sock.Read(READ_SIZE);
        if got.None? {
          return LineFailed;
        }
        if got.value == [] {
          assert stream == buf;
          UnendedLine(buf);
          if |buf| == 0 {
            return LineEof;
          }
          r := Line(buf);
          buf := [];
          return;
        }
        ScannedLonger(buf, got.value);
        buf := buf + got.value;
      }
    }

    /** Exactly `n` bytes, from the buffer first. */
    method ReadExact(sock: Socket, n: nat) returns (r: ExactResult)
      modifies this, sock
      ensures var stream := old(buf) + old(sock.pending);
        && (r.Exactly? ==> n <= |stream| && r.bytes == stream[..n] && buf + sock.pending == stream[n..])
        && (r.ExactEof? ==> |stream| < n)
    {
      ghost var stream := buf + sock.pending;
      var take := if |buf| < n then |buf| else n;
      var out := buf[..take];
      buf := buf[take..];
      while |out| < n
        invariant |out| <= n && (|out| < n ==> buf == [])
        invariant out + (buf + sock.pending) == stream
        decreases n - |out|
      {
        var want := if n - |out| < READ_SIZE then n - |out| else READ_SIZE;
        var got := sock.Read(want);
        if got.None? {
          return ExactFailed;
        }
        if got.value == [] {
          return ExactEof;
        }
        out := out + got.value;
      }
      r := Exactly(out);
    }

    /** Everything up to the tagged line, with the literals apart (read_response_with_literals). */
    method ReadResponse(lossy: seq<byte> -> string, sock: Socket, tag: string) returns (r: Response)
      requires Lossy(lossy)
      modifies this, sock
      ensures r.Failed? || r == NaiveResponse(lossy, tag, old(buf) + old(sock.pending)).0
      ensures r.Done? ==> buf + sock.pending == NaiveResponse(lossy, tag, old(buf) + old(sock.pending)).1
    {
      hide NaiveLine, LiteralSize, Ends, FindCrlf;
      var text, literals := "", [];
      ghost var stream := buf + sock.pending;
      ghost var left := stream;
      while true
        invariant buf + sock.pending == left
        invariant NaiveResponse(lossy, tag, stream) == NaiveFrom(lossy, tag, left, text, literals)
        decreases |left|
      {
        var got := ReadLine(sock);
        match got {
          case LineFailed => return Failed;
          case LineEof =>
            NoLine(left);
            return Eof;
          case LineTooLong =>
            LongLine(lossy, tag, left, text, literals);
            return TooLong;
          case Line(bytes) =>
            LineTaken(left);
            left := NaiveLine(left).1;
            var line := lossy(bytes);
            text := text + line + "\r\n";
            if ByteLength(text) > MAX_RESPONSE_BYTES {
              return TooLong;
            }
            var size := LiteralSize(line);
            if size.Some? {
              var n := size.value;
              if n > MAX_LITERAL_BYTES {
                return TooLong;
              }
              if Min(ByteLength(text) + n, U64_LIMIT - 1) > MAX_RESPONSE_BYTES {
                return TooLong;
              }
              var lit := ReadExact(sock, n);
              match lit {
                case ExactFailed => return Failed;
                case ExactEof => return Eof;
                case Exactly(content) =>
                  text := text + lossy(content);
                  literals := literals + [content];
                  left := left[n..];
                  continue;
              }
            }
            if Ends(line, tag) {
              return Done(text, literals);
            }
        }
      }
    }
  }

  // ---- what a response is ---------------------------------------------------------------------------------

  /** extract_literal_size; CR and LF are among the blanks trimmed. */
  function LiteralSize(line: string): Option<nat> {
    var t := TrimEnd(line);
    if t == [] || t[|t| - 1] != '}' then None else SizeBehindBrace(t[..|t| - 1])
  }

  /** The number behind the last opening brace, a plus sign after it allowed. */
  function SizeBehindBrace(rest: string): Option<nat> {
    var open := RFind(rest, '{');
    if open == |rest| then None
    else
      var inside := rest[open + 1..];
      var digits := if inside != [] && inside[|inside| - 1] == '+' then inside[..|inside| - 1] else inside;
      if digits == [] || !AllDigits(digits) then None else ParseUnsigned(digits, U64_LIMIT)
  }

  /** is_tagged_line */
  predicate IsTagged(line: string, tag: string) {
    tag <= line && (|line| == |tag| || line[|tag|] == ' ')
  }

  /** A continuation request or the tagged line: the response ends here. */
  predicate Ends(line: string, tag: string) {
    var t := TrimEnd(line);
    t == "+" || "+ " <= t || IsTagged(t, tag)
  }

  /** The response read off the whole stream, `text` and `literals` being what came before, and the bytes left over. */
  function NaiveFrom(lossy: seq<byte> -> string, tag: string, stream: seq<byte>, text: string, literals: seq<seq<byte>>): (Response, seq<byte>)
    decreases |stream|
  {
    if stream == [] then (Eof, [])
    else
      var line := lossy(NaiveLine(stream).0.bytes);
      var rest := NaiveLine(stream).1;
      var longer := text + line + "\r\n";
      if ByteLength(longer) > MAX_RESPONSE_BYTES then (TooLong, [])
      else
        match LiteralSize(line)
        case Some(n) =>
          if ByteLength(longer) + n > MAX_RESPONSE_BYTES then (TooLong, [])
          else if |rest| < n then (Eof, [])
          else NaiveFrom(lossy, tag, rest[n..], longer + lossy(rest[..n]), literals + [rest[..n]])
        case None =>
          if Ends(line, tag) then (Done(longer, literals), rest)
          else NaiveFrom(lossy, tag, rest, longer, literals)
  }

  function NaiveResponse(lossy: seq<byte> -> string, tag: string, stream: seq<byte>): (Response, seq<byte>) {
    NaiveFrom(lossy, tag, stream, "", [])
  }

  lemma NoLine(stream: seq<byte>)
    requires NaiveLine(stream).0.LineEof?
    ensures stream == []
  {
  }

  lemma LineTaken(stream: seq<byte>)
    requires NaiveLine(stream).0.Line?
    ensures stream != []
  {
  }

  /** A line over the cap makes the response too long, however it was delivered. */
  lemma LongLine(lossy: seq<byte> -> string, tag: string, stream: seq<byte>, text: string, literals: seq<seq<byte>>)
    requires Lossy(lossy) && FindCrlf(stream) >= MAX_RESPONSE_BYTES
    ensures NaiveFrom(lossy, tag, stream, text, literals) == (TooLong, [])
  {
    hide FindCrlf, LiteralSize, Ends;
    var bytes := NaiveLine(stream).0.bytes;
    assert |bytes| == FindCrlf(stream);
    ByteLengthAppend(text + lossy(bytes), "\r\n");
    ByteLengthAppend(text, lossy(bytes));
    assert ByteLength("\r\n") == 2 by { TwoBytes(); }
  }

  lemma TwoBytes()
    ensures ByteLength("\r\n") == 2
  {
    assert "\r\n"[1..] == "\n" && "\n"[1..] == "";
  }

  // ---- framing -----------------------------------------------------------------------------------------------

  /** What a server sends before the last line: a whole line, or one ending in a literal. */
  datatype Unit = Plain(line: seq<byte>) | Marked(line: seq<byte>, literal: seq<byte>)

  function Marker(n: nat): (r: string)
    ensures IsAscii(r)
  {
    DecimalAscii(n);
    "{" + Decimal(n) + "}"
  }

  lemma DecimalAscii(n: nat)
    ensures IsAscii(Decimal(n))
  {
    DecimalValue(n);
    forall i | 0 <= i < |Decimal(n)|
      ensures Decimal(n)[i] < '\U{80}'
    {
      assert Decimal(n)[i] in Decimal(n);
    }
  }

  function UnitBytes(u: Unit): seq<byte> {
    match u
    case Plain(line) => line + CRLF
    case Marked(line, literal) => line + Ascii(Marker(|literal|)) + CRLF + literal
  }

  function UnitsBytes(units: seq<Unit>): seq<byte> {
    if units == [] then [] else UnitBytes(units[0]) + UnitsBytes(units[1..])
  }

  function UnitText(lossy: seq<byte> -> string, u: Unit): string {
    match u
    case Plain(line) => lossy(line) + "\r\n"
    case Marked(line, literal) => lossy(line) + Marker(|literal|) + "\r\n" + lossy(literal)
  }

  function UnitsText(lossy: seq<byte> -> string, units: seq<Unit>): string {
    if units == [] then "" else UnitText(lossy, units[0]) + UnitsText(lossy, units[1..])
  }

  function LiteralsOf(units: seq<Unit>): seq<seq<byte>> {
    if units == [] then []
    else (if units[0].Marked? then [units[0].literal] else []) + LiteralsOf(units[1..])
  }

  predicate NoCrlf(line: seq<byte>) {
    forall j :: 0 <= j < |line| - 1 ==> !(line[j] == CR && line[j + 1] == LF)
  }

  /** A line that neither ends the response nor announces a literal. */
  predicate Untagged(lossy: seq<byte> -> string, tag: string, u: Unit) {
    && NoCrlf(u.line)
    && (u.Plain? ==> LiteralSize(lossy(u.line)).None? && !Ends(lossy(u.line), tag))
  }

  lemma LineOf(line: seq<byte>, rest: seq<byte>)
    requires NoCrlf(line)
    ensures NaiveLine(line + CRLF + rest) == (Line(line), rest)
  {
    var s := line + CRLF + rest;
    assert s[|line|] == CR && s[|line| + 1] == LF;
    forall j | 0 <= j < |line|
      ensures !(s[j] == CR && s[j + 1] == LF)
    {
    }
    CrlfAt(s, |line|);
    assert s[..|line|] == line && s[|line| + 2..] == rest;
  }

  /** A printed marker is read back, whatever stands before it on the line. */
  lemma MarkerReads(before: string, n: nat)
    ensures LiteralSize(before + Marker(n)) == if n < U64_LIMIT then Some(n) else None
  {
    hide SizeBehindBrace, TrimEnd, Decimal;
    var t := before + Marker(n);
    BraceStays(t);
    assert t[..|t| - 1] == before + ['{'] + Decimal(n);
    BraceReads(before, n);
  }

  lemma BraceReads(before: string, n: nat)
    ensures SizeBehindBrace(before + ['{'] + Decimal(n)) == if n < U64_LIMIT then Some(n) else None
  {
    hide RFind, Decimal, DigitsValue, ParseUnsigned;
    DecimalValue(n);
    ParseDigits(Decimal(n));
    InsideBraces(before, Decimal(n));
  }

  lemma InsideBraces(before: string, d: string)
    requires d != [] && AllDigits(d)
    ensures var rest := before + ['{'] + d;
      RFind(rest, '{') == |before| && rest[|before| + 1..] == d && d[|d| - 1] != '+'
  {
    hide RFind;
    assert d[|d| - 1] in d && '{' !in d;
    RFindAt(before, '{', d);
  }

  lemma BraceStays(t: string)
    requires t != [] && t[|t| - 1] == '}'
    ensures TrimEnd(t) == t
  {
  }

  lemma MarkedLine(line: seq<byte>, n: nat)
    requires NoCrlf(line)
    ensures NoCrlf(line + Ascii(Marker(n)))
  {
    var m := Ascii(Marker(n));
    DecimalValue(n);
    forall i | 0 <= i < |m|
      ensures m[i] != LF
    {
      var c := Marker(n)[i];
      if 0 < i < |m| - 1 {
        assert c == Decimal(n)[i - 1] && c in Decimal(n);
      }
    }
    var s := line + m;
    forall j | 0 <= j < |s| - 1
      ensures !(s[j] == CR && s[j + 1] == LF)
    {
      if j + 1 < |line| {
        assert s[j] == line[j] && s[j + 1] == line[j + 1];
      } else {
        assert s[j + 1] == m[j + 1 - |line|];
      }
    }
  }

  /** One unit is consumed whole: its literal is exactly the bytes announced, whatever they are. */
  lemma UnitRead(lossy: seq<byte> -> string, tag: string, u: Unit, rest: seq<byte>, text: string, literals: seq<seq<byte>>)
    requires Lossy(lossy) && Untagged(lossy, tag, u)
    requires ByteLength(text + UnitText(lossy, u)) <= MAX_RESPONSE_BYTES
    ensures NaiveFrom(lossy, tag, UnitBytes(u) + rest, text, literals)
         == NaiveFrom(lossy, tag, rest, text + UnitText(lossy, u), literals + if u.Marked? then [u.literal] else [])
  {
    hide NaiveLine, LiteralSize, Ends, ByteLength, Marker, Ascii, NaiveFrom, NoCrlf, Lossy;
    match u
    case Plain(line) => PlainRead(lossy, tag, line, rest, text, literals);
    case Marked(line, literal) => MarkedRead(lossy, tag, line, literal, rest, text, literals);
  }

  lemma PlainRead(lossy: seq<byte> -> string, tag: string, line: seq<byte>, rest: seq<byte>, text: string, literals: seq<seq<byte>>)
    requires NoCrlf(line) && LiteralSize(lossy(line)).None? && !Ends(lossy(line), tag)
    requires ByteLength(text + (lossy(line) + "\r\n")) <= MAX_RESPONSE_BYTES
    ensures NaiveFrom(lossy, tag, line + CRLF + rest, text, literals)
         == NaiveFrom(lossy, tag, rest, text + (lossy(line) + "\r\n"), literals + [])
  {
    hide NaiveLine, LiteralSize, Ends, ByteLength;
    LineOf(line, rest);
    assert text + (lossy(line) + "\r\n") == text + lossy(line) + "\r\n";
    assert literals + [] == literals;
    assert line + CRLF + rest != [];
  }

  lemma MarkedRead(lossy: seq<byte> -> string, tag: string, line: seq<byte>, literal: seq<byte>, rest: seq<byte>, text: string,
                   literals: seq<seq<byte>>)
    requires Lossy(lossy) && NoCrlf(line)
    requires ByteLength(text + (lossy(line) + Marker(|literal|) + "\r\n" + lossy(literal))) <= MAX_RESPONSE_BYTES
    ensures NaiveFrom(lossy, tag, line + Ascii(Marker(|literal|)) + CRLF + literal + rest, text, literals)
         == NaiveFrom(lossy, tag, rest, text + (lossy(line) + Marker(|literal|) + "\r\n" + lossy(literal)), literals + [literal])
  {
    hide NaiveLine, LiteralSize, Ends, ByteLength, Marker, Ascii;
    var n := |literal|;
    var full := line + Ascii(Marker(n));
    MarkedLine(line, n);
    LineOf(full, literal + rest);
    var stream := full + CRLF + literal + rest;
    assert stream == full + CRLF + (literal + rest);
    var shown := lossy(line) + Marker(n);
    assert lossy(full) == shown;
    var longer := text + shown + "\r\n";
    assert text + (shown + "\r\n" + lossy(literal)) == longer + lossy(literal);
    ByteLengthAppend(longer, lossy(literal));
    assert ByteLength(longer) + n <= MAX_RESPONSE_BYTES;
    MarkerReads(lossy(line), n);
    assert (literal + rest)[..n] == literal && (literal + rest)[n..] == rest;
    assert stream != [];
  }

  /**
   A framed response reads back as its text and exactly its literals, even literals that
   contain CRLF, the tag or a plus sign; what the server sent after it is left over.
   */
  lemma {:induction false} FramingReadsBack(lossy: seq<byte> -> string, tag: string, units: seq<Unit>, final: seq<byte>, tail: seq<byte>,
                                            text: string, literals: seq<seq<byte>>)
    requires Lossy(lossy)
    requires forall i :: 0 <= i < |units| ==> Untagged(lossy, tag, units[i])
    requires NoCrlf(final) && LiteralSize(lossy(final)).None? && Ends(lossy(final), tag)
    requires ByteLength(text + UnitsText(lossy, units) + lossy(final) + "\r\n") <= MAX_RESPONSE_BYTES
    ensures NaiveFrom(lossy, tag, UnitsBytes(units) + (final + CRLF + tail), text, literals)
         == (Done(text + UnitsText(lossy, units) + lossy(final) + "\r\n", literals + LiteralsOf(units)), tail)
    decreases |units|
  {
    hide NaiveLine, LiteralSize, Ends, ByteLength, Untagged, UnitBytes, UnitText, NaiveFrom;
    var last := final + CRLF + tail;
    if units == [] {
      assert UnitsBytes(units) + last == last && text + "" == text && literals + [] == literals;
      FinalRead(lossy, tag, final, tail, text, literals);
    } else {
      var u, more := units[0], units[1..];
      var next := text + UnitText(lossy, u);
      var lits := if u.Marked? then [u.literal] else [];
      Associate(UnitBytes(u), UnitsBytes(more), last);
      Associate(literals, lits, LiteralsOf(more));
      var behind := UnitsText(lossy, more) + lossy(final) + "\r\n";
      Regroup(text, UnitText(lossy, u), UnitsText(lossy, more), lossy(final), "\r\n");
      ByteLengthAppend(next, behind);
      UnitRead(lossy, tag, u, UnitsBytes(more) + last, text, literals);
      FramingReadsBack(lossy, tag, more, final, tail, next, literals + lits);
    }
  }

  lemma Regroup(a: string, b: string, c: string, d: string, e: string)
    ensures a + (b + c) + d + e == a + b + c + d + e == a + b + (c + d + e)
  {
  }

  lemma FinalRead(lossy: seq<byte> -> string, tag: string, final: seq<byte>, tail: seq<byte>, text: string, literals: seq<seq<byte>>)
    requires NoCrlf(final) && LiteralSize(lossy(final)).None? && Ends(lossy(final), tag)
    requires ByteLength(text + lossy(final) + "\r\n") <= MAX_RESPONSE_BYTES
    ensures NaiveFrom(lossy, tag, final + CRLF + tail, text, literals) == (Done(text + lossy(final) + "\r\n", literals), tail)
  {
    hide NaiveLine, LiteralSize, Ends, ByteLength;
    LineOf(final, tail);
    assert final + CRLF + tail != [];
  }

  // ---- which lines end a response, and which announce a literal ---------------------------------------------

  /** The line, blanks at its end aside, ends in `{n}` or `{n+}`. */
  ghost predicate Announces(line: string, n: nat) {
    exists before: string, digits: string, plus: bool :: AnnouncedAs(TrimEnd(line), before, digits, plus, n)
  }

  ghost predicate AnnouncedAs(t: string, before: string, digits: string, plus: bool, n: nat) {
    && t == before + ['{'] + (digits + if plus then ['+'] else []) + ['}']
    && digits != [] && AllDigits(digits) && DigitsValue(digits) == n < U64_LIMIT
  }

  lemma BehindBraceIsSize(before: string, digits: string, plus: bool)
    requires digits != [] && AllDigits(digits) && DigitsValue(digits) < U64_LIMIT
    ensures SizeBehindBrace(before + ['{'] + (digits + if plus then ['+'] else [])) == Some(DigitsValue(digits))
  {
    hide RFind, DigitsValue;
    var inside := digits + if plus then ['+'] else [];
    var rest := before + ['{'] + inside;
    assert forall c :: c in inside ==> IsDigit(c) || c == '+';
    RFindAt(before, '{', inside);
    assert rest[|before| + 1..] == inside;
    assert digits[|digits| - 1] in digits && digits[0] in digits;
    assert plus ==> inside[..|inside| - 1] == digits;
    assert !plus ==> inside == digits;
    ParseDigits(digits);
  }

  lemma AnnouncedIsSize(line: string, before: string, digits: string, plus: bool, n: nat)
    requires AnnouncedAs(TrimEnd(line), before, digits, plus, n)
    ensures LiteralSize(line) == Some(n)
  {
    hide TrimEnd, SizeBehindBrace, DigitsValue, AllDigits;
    var t := TrimEnd(line);
    assert t[..|t| - 1] == before + ['{'] + (digits + if plus then ['+'] else []);
    BehindBraceIsSize(before, digits, plus);
  }

  lemma SizeIsBehindBrace(rest: string) returns (before: string, digits: string, plus: bool)
    requires SizeBehindBrace(rest).Some?
    ensures rest == before + ['{'] + (digits + if plus then ['+'] else [])
    ensures digits != [] && AllDigits(digits) && DigitsValue(digits) == SizeBehindBrace(rest).value < U64_LIMIT
  {
    hide RFind, DigitsValue;
    var open := RFind(rest, '{');
    var inside := rest[open + 1..];
    before := rest[..open];
    plus := inside != [] && inside[|inside| - 1] == '+';
    digits := if plus then inside[..|inside| - 1] else inside;
    assert digits[0] in digits;
    assert rest == before + ['{'] + inside;
  }

  lemma SizeIsAnnounced(line: string)
    requires LiteralSize(line).Some?
    ensures Announces(line, LiteralSize(line).value)
  {
    hide TrimEnd, SizeBehindBrace, DigitsValue, AllDigits;
    var t := TrimEnd(line);
    var before, digits, plus := SizeIsBehindBrace(t[..|t| - 1]);
    assert t == t[..|t| - 1] + ['}'];
    assert AnnouncedAs(t, before, digits, plus, LiteralSize(line).value);
  }

  /** A literal of that size is announced exactly by a line of that form. */
  lemma LiteralSizeExactly(line: string, n: nat)
    ensures LiteralSize(line) == Some(n) <==> Announces(line, n)
  {
    hide LiteralSize, TrimEnd, AnnouncedAs;
    if Announces(line, n) {
      var before: string, digits: string, plus: bool :| AnnouncedAs(TrimEnd(line), before, digits, plus, n);
      AnnouncedIsSize(line, before, digits, plus, n);
    }
    if LiteralSize(line) == Some(n) {
      SizeIsAnnounced(line);
    }
  }

  /** A tag as a client makes them: not empty, free of blanks, unlike the start of an untagged line or a continuation. */
  predicate GoodTag(tag: string) {
    tag != [] && tag[0] != '*' && tag[0] != '+' && forall i :: 0 <= i < |tag| ==> !IsWhitespace(tag[i])
  }

  /** Blanks at the end aside, a line keeps what stands before and up to its last character that is none. */
  lemma {:induction false} TrimEndKeeps(s: string, n: nat)
    requires 0 < n <= |s| && !IsWhitespace(s[n - 1])
    ensures n <= |TrimEnd(s)| && TrimEnd(s) <= s
  {
    if |s| > n && IsWhitespace(s[|s| - 1]) {
      TrimEndKeeps(s[..|s| - 1], n);
    }
  }

  /** An untagged line does not end a response. */
  lemma UntaggedGoesOn(line: string, tag: string)
    requires GoodTag(tag) && "* " <= line
    ensures !Ends(line, tag)
  {
    hide TrimEnd;
    assert line[0] == '*';
    TrimEndKeeps(line, 1);
    assert TrimEnd(line)[0] == '*';
    assert "+"[0] == '+' && "+ "[0] == '+';
  }

  /** The tag alone, or followed by a blank and any text, ends it. */
  lemma TaggedEnds(line: string, tag: string)
    requires GoodTag(tag) && (line == tag || tag + " " <= line)
    ensures Ends(line, tag)
  {
    hide TrimEnd;
    TrimEndKeeps(line, |tag|);
    var t := TrimEnd(line);
    assert line[|tag| - 1] == tag[|tag| - 1];
    assert tag <= t;
    if |t| > |tag| {
      assert t[|tag|] == line[|tag|] == (tag + " ")[|tag|];
    }
  }

  /** A continuation request, bare or with text, ends it. */
  lemma ContinuationEnds(line: string, tag: string)
    requires line == "+" || "+ " <= line
    ensures Ends(line, tag)
  {
    hide TrimEnd;
    assert line[0] == '+';
    TrimEndKeeps(line, 1);
    var t := TrimEnd(line);
    if |t| == 1 {
      assert t == "+";
    } else {
      assert t[1] == line[1] == ' ';
      assert "+ " <= t;
    }
  }

  /** A longer tag does not: another command's line goes on. */
  lemma LongerTagGoesOn(line: string, tag: string, c: char)
    requires GoodTag(tag) && tag + [c] <= line && !IsWhitespace(c)
    ensures !Ends(line, tag)
  {
    hide TrimEnd;
    assert line[0] == tag[0] && line[|tag|] == (tag + [c])[|tag|] == c;
    TrimEndKeeps(line, |tag| + 1);
    var t := TrimEnd(line);
    assert t[0] == tag[0] && t[|tag|] == c;
    assert "+"[0] == '+' && "+ "[0] == '+';
  }

  /** The last line of a response: the tag with or without text, or a continuation request. */
  ghost predicate LastLine(line: string, tag: string) {
    line == tag || tag + " " <= line || line == "+" || "+ " <= line
  }

  /** What a server sends before it: untagged lines, and lines ending in a literal. */
  ghost predicate Sendable(lossy: seq<byte> -> string, u: Unit) {
    && NoCrlf(u.line)
    && (u.Plain? ==> "* " <= lossy(u.line) && forall n: nat :: !Announces(lossy(u.line), n))
  }

  lemma SendableGoesOn(lossy: seq<byte> -> string, tag: string, u: Unit)
    requires GoodTag(tag) && Sendable(lossy, u)
    ensures Untagged(lossy, tag, u)
  {
    hide Ends, LiteralSize, Announces, NoCrlf;
    if u.Plain? {
      UntaggedGoesOn(lossy(u.line), tag);
      if LiteralSize(lossy(u.line)).Some? {
        LiteralSizeExactly(lossy(u.line), LiteralSize(lossy(u.line)).value);
      }
    }
  }

  /**
   A response of untagged lines and literals, up to its tagged line or a continuation
   request, is read as that, to the byte: no untagged line, literal content or line of a
   longer tag ends it early, and the tagged line does not fail to end it.
   */
  lemma ResponseReadsBack(lossy: seq<byte> -> string, tag: string, units: seq<Unit>, final: seq<byte>, tail: seq<byte>)
    requires Lossy(lossy) && GoodTag(tag)
    requires forall i :: 0 <= i < |units| ==> Sendable(lossy, units[i])
    requires NoCrlf(final) && LastLine(lossy(final), tag) && forall n: nat :: !Announces(lossy(final), n)
    requires ByteLength(UnitsText(lossy, units) + lossy(final) + "\r\n") <= MAX_RESPONSE_BYTES
    ensures NaiveResponse(lossy, tag, UnitsBytes(units) + (final + CRLF + tail))
         == (Done(UnitsText(lossy, units) + lossy(final) + "\r\n", LiteralsOf(units)), tail)
  {
    hide Ends, LiteralSize, Announces, NoCrlf, Sendable, Untagged, NaiveFrom, UnitsText, UnitsBytes, LiteralsOf, ByteLength;
    forall i | 0 <= i < |units|
      ensures Untagged(lossy, tag, units[i])
    {
      SendableGoesOn(lossy, tag, units[i]);
    }
    if LiteralSize(lossy(final)).Some? {
      LiteralSizeExactly(lossy(final), LiteralSize(lossy(final)).value);
    }
    if lossy(final) == tag || tag + " " <= lossy(final) {
      TaggedEnds(lossy(final), tag);
    } else {
      ContinuationEnds(lossy(final), tag);
    }
    assert "" + UnitsText(lossy, units) == UnitsText(lossy, units) && [] + LiteralsOf(units) == LiteralsOf(units);
    FramingReadsBack(lossy, tag, units, final, tail, "", []);
  }
}
