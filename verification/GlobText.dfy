/**
 What a written glob (src/cli.rs) stands for: the nested loops over its sets, the
 rightmost one running fastest. Nothing of the parser or of the iterator is used to say
 so, and both are proved to agree with it.
 */
module GlobText {
  import opened Basics
  import opened Text
  import opened Arithmetic
  import opened Glob

  type pos = n: nat | n > 0 witness 1

  /** A stretch of a URL as its writer thinks of it. */
  datatype Part =
    | Plain(text: string)
    | OneOf(items: seq<string>)
    | Numbers(low: nat, high: nat, step: pos, width: nat)
    | Letters(first: char, last: char, step: pos)

  function StepText(step: nat): string {
    if step == 1 then "" else [':'] + Decimal(step)
  }

  /** What stands between the brackets of a range. */
  function RangeText(from: string, to: string, step: nat): string {
    (from + ['-'] + to) + StepText(step)
  }

  function Inside(p: Part): string {
    match p
    case Plain(text) => text
    case OneOf(items) => Join(items, ',')
    case Numbers(low, high, step, width) => RangeText(Pad(low, width), Decimal(high), step)
    case Letters(first, last, step) => RangeText([first], [last], step)
  }

  function Written(p: Part): string {
    match p
    case Plain(text) => Escaped(text)
    case OneOf(_) => ['{'] + Inside(p) + ['}']
    case _ => ['['] + Inside(p) + [']']
  }

  function AllWritten(parts: seq<Part>): string {
    if parts == [] then "" else Written(parts[0]) + AllWritten(parts[1..])
  }

  predicate LetterEnd(c: char) {
    c != ':' && c != '[' && c != ']'
  }

  /** What can be written: lists without nested sets, ranges that go up and are no bracketed address. */
  predicate Writable(ipv6: string -> bool, p: Part) {
    match p
    case Plain(_) => true
    case OneOf(items) => items != [] && forall s :: s in items ==> ',' !in s && '{' !in s && '}' !in s
    case Numbers(low, high, step, _) =>
      && low <= high < U64_LIMIT && step < U64_LIMIT && !ipv6(Inside(p))
      && !(low == 0 && high == U64_LIMIT - 1 && step == 1)
    case Letters(first, last, step) =>
      && first <= last && step < U32_LIMIT && !ipv6(Inside(p))
      && LetterEnd(first) && LetterEnd(last) && first != '-' && !(IsDigit(first) && IsDigit(last))
  }

  // ---- the nested loops -----------------------------------------------------------------------

  /** From `low` up to `high` by `step`. */
  function Counted(low: nat, high: nat, step: pos): seq<nat>
    decreases if low <= high then high + 1 - low else 0
  {
    if low > high then [] else [low] + Counted(low + step, high, step)
  }

  function Padded(numbers: seq<nat>, width: nat): seq<string> {
    seq(|numbers|, i requires 0 <= i < |numbers| => Pad(numbers[i], width))
  }

  function Characters(numbers: seq<nat>): seq<string> {
    seq(|numbers|, i requires 0 <= i < |numbers| => CharText(numbers[i]))
  }

  function Alternatives(p: Part): seq<string> {
    match p
    case Plain(text) => [text]
    case OneOf(items) => items
    case Numbers(low, high, step, width) => Padded(Counted(low, high, step), width)
    case Letters(first, last, step) => Characters(Counted(first as nat, last as nat, step))
  }

  type Row = (string, seq<string>)

  /** Every row followed by every alternative. */
  function Extend(rows: seq<Row>, alts: seq<string>, capture: bool): seq<Row> {
    if rows == [] then []
    else
      var (url, caps) := rows[0];
      seq(|alts|, j requires 0 <= j < |alts| => (url + alts[j], if capture then caps + [alts[j]] else caps))
      + Extend(rows[1..], alts, capture)
  }

  /** The loops over the sets, one inside the other; what a set chose is a capture. */
  function Loops(rows: seq<Row>, parts: seq<Part>): seq<Row>
    decreases |parts|
  {
    if parts == [] then rows
    else Loops(Extend(rows, Alternatives(parts[0]), !parts[0].Plain?), parts[1..])
  }

  const START: seq<Row> := [("", [])]

  // ---- the rows of segments -----------------------------------------------------------------------

  function Items(seg: GlobSeg): seq<string> {
    seq(SegLen(seg), i requires 0 <= i < SegLen(seg) => Item(seg, i))
  }

  function SegRows(rows: seq<Row>, segs: seq<GlobSeg>): seq<Row>
    decreases |segs|
  {
    if segs == [] then rows else SegRows(Extend(rows, Items(segs[0]), !segs[0].Lit?), segs[1..])
  }

  lemma {:induction false} SegRowsAppend(rows: seq<Row>, a: seq<GlobSeg>, b: seq<GlobSeg>)
    ensures SegRows(rows, a + b) == SegRows(SegRows(rows, a), b)
    decreases |a|
  {
    if a == [] {
      assert a + b == b;
    } else {
      assert (a + b)[0] == a[0] && (a + b)[1..] == a[1..] + b;
      SegRowsAppend(Extend(rows, Items(a[0]), !a[0].Lit?), a[1..], b);
    }
  }

  lemma SegRowsOne(rows: seq<Row>, seg: GlobSeg)
    ensures SegRows(rows, [seg]) == Extend(rows, Items(seg), !seg.Lit?)
  {
  }

  function Widened(row: Row, alt: string, capture: bool): Row {
    (row.0 + alt, if capture then row.1 + [alt] else row.1)
  }

  lemma {:induction false} ExtendLength(rows: seq<Row>, alts: seq<string>, capture: bool)
    ensures |Extend(rows, alts, capture)| == |rows| * |alts|
  {
    if rows != [] {
      ExtendLength(rows[1..], alts, capture);
      OneMore(|rows| - 1, |alts|);
    }
  }

  lemma {:induction false} ExtendAt(rows: seq<Row>, alts: seq<string>, capture: bool, q: nat, d: nat)
    requires q < |rows| && d < |alts|
    ensures q * |alts| + d < |Extend(rows, alts, capture)|
    ensures Extend(rows, alts, capture)[q * |alts| + d] == Widened(rows[q], alts[d], capture)
  {
    var n := |alts|;
    ExtendLength(rows, alts, capture);
    RankBound(|rows|, q, n, d);
    if q > 0 {
      OneMore(q - 1, n);
      ExtendAt(rows[1..], alts, capture, q - 1, d);
      assert q * n + d - n == (q - 1) * n + d;
    } else {
      assert q * n + d == d;
    }
  }

  lemma NthSplits(segs: seq<GlobSeg>, init: seq<GlobSeg>, last: GlobSeg, q: nat, d: nat, k: nat)
    requires segs == init + [last] && q < Total(init) && d < SegLen(last) && k == q * SegLen(last) + d
    ensures k < Total(segs) && Nth(segs, k) == Widened(Nth(init, q), Item(last, d), !last.Lit?)
  {
    hide Item, Choice, Expansion, Rank, Digits, Total, SegLen;
    assert segs[..|segs| - 1] == init;
    TotalSnoc(segs);
    RankBound(Total(init), q, SegLen(last), d);
    RankOfDigits(segs, k);
    RankOfDigits(init, q);
    DigitsSnoc(segs, init, last, q, d, k);
    ExpansionSnoc(segs, init, last, Digits(init, q), d);
  }

  lemma DigitsSnoc(segs: seq<GlobSeg>, init: seq<GlobSeg>, last: GlobSeg, q: nat, d: nat, k: nat)
    requires segs == init + [last] && q < Total(init) && d < SegLen(last) && k == q * SegLen(last) + d
    requires k < Total(segs)
    ensures Digits(segs, k) == Digits(init, q) + [d]
  {
    assert segs[..|segs| - 1] == init;
    DivModOf(q, SegLen(last), d);
  }

  lemma ExpansionSnoc(segs: seq<GlobSeg>, init: seq<GlobSeg>, last: GlobSeg, idx: seq<nat>, d: nat)
    requires segs == init + [last] && Choice(init, idx) && Choice(segs, idx + [d])
    ensures Expansion(segs, idx + [d]) == Widened(Expansion(init, idx), Item(last, d), !last.Lit?)
  {
    hide Item;
    assert segs[..|segs| - 1] == init && (idx + [d])[..|init|] == idx;
  }

  /** The k-th item of the iterator is the k-th row. */
  lemma {:induction false} NthIsRow(segs: seq<GlobSeg>)
    ensures |SegRows(START, segs)| == Total(segs)
    ensures forall k: nat :: k < Total(segs) ==> SegRows(START, segs)[k] == Nth(segs, k)
  {
    if segs == [] {
      NothingChosen();
    } else {
      var n := |segs| - 1;
      NthIsRow(segs[..n]);
      assert segs == segs[..n] + [segs[n]];
      RowsStep(segs, segs[..n], segs[n], SegRows(START, segs[..n]));
    }
  }

  lemma NothingChosen()
    ensures Total([]) == 1 && Nth([], 0) == ("", []) && SegRows(START, []) == START
  {
  }

  lemma RowsStep(segs: seq<GlobSeg>, init: seq<GlobSeg>, last: GlobSeg, rows: seq<Row>)
    requires segs == init + [last] && rows == SegRows(START, init) && |rows| == Total(init)
    requires forall k: nat :: k < |rows| ==> rows[k] == Nth(init, k)
    ensures |SegRows(START, segs)| == Total(segs)
    ensures forall k: nat :: k < Total(segs) ==> SegRows(START, segs)[k] == Nth(segs, k)
  {
    hide Extend, SegRows, Nth, Item, Total, SegLen;
    var alts := Items(last);
    assert segs[..|segs| - 1] == init;
    SegRowsAppend(START, init, [last]);
    SegRowsOne(rows, last);
    ExtendLength(rows, alts, !last.Lit?);
    TotalSnoc(segs);
    forall k: nat | k < Total(segs)
      ensures SegRows(START, segs)[k] == Nth(segs, k)
    {
      RowAt(segs, init, last, rows, k);
    }
  }

  lemma RowAt(segs: seq<GlobSeg>, init: seq<GlobSeg>, last: GlobSeg, rows: seq<Row>, k: nat)
    requires segs == init + [last] && |rows| == Total(init) && k < Total(init) * SegLen(last)
    requires forall k: nat :: k < |rows| ==> rows[k] == Nth(init, k)
    ensures var all := Extend(rows, Items(last), !last.Lit?);
            k < |all| && k < Total(segs) && all[k] == Nth(segs, k)
  {
    hide Extend, Nth, Total, Item, SegLen;
    DigitBound(k, Total(init), SegLen(last));
    DivisionParts(k, SegLen(last));
    var q, d := k / SegLen(last), k % SegLen(last);
    NthSplits(segs, init, last, q, d, k);
    ExtendAt(rows, Items(last), !last.Lit?, q, d);
  }

  // ---- reading the text back -------------------------------------------------------------------------

  lemma {:induction false} BalanceNone(s: string, t: string, open: char, close: char)
    requires open !in t && close !in t
    ensures Balance(s + t, open, close) == Balance(s, open, close)
    decreases |t|
  {
    if t == [] {
      assert s + t == s;
    } else {
      var n := |t| - 1;
      assert (s + t)[..|s + t| - 1] == s + t[..n];
      assert (s + t)[|s + t| - 1] == t[n] && t[n] in t;
      BalanceNone(s, t[..n], open, close);
    }
  }

  /** A set without inner brackets closes at the first closing one. */
  lemma {:induction false} CloseAfter(s: string, k: nat, t: string, rest: string, open: char, close: char)
    requires open != close && open !in t && close !in t
    requires s == [open] + t + [close] + rest && k <= |t| + 1
    ensures CloseFrom(s, k, open, close) == |t| + 1
    decreases |t| + 1 - k
  {
    hide Balance, CloseFrom;
    CloseStep(s, k, open, close);
    if k == |t| + 1 {
      assert s[..k + 1] == [open] + t + [close];
      BalanceOfSet(t, open, close);
    } else {
      assert s[k] != close by {
        assert k > 0 ==> s[k] == t[k - 1] && t[k - 1] in t;
      }
      CloseAfter(s, k + 1, t, rest, open, close);
    }
  }

  lemma BalanceOfSet(t: string, open: char, close: char)
    requires open != close && open !in t && close !in t
    ensures Balance([open] + t + [close], open, close) == 0
  {
    BalanceNone([open], t, open, close);
    var s := [open] + t + [close];
    assert s[..|s| - 1] == [open] + t && s[|s| - 1] == close;
    assert [open][..0] == [];
    assert Balance([open], open, close) == 1;
  }

  lemma JoinFree(items: seq<string>, c: char)
    requires c != ',' && forall s :: s in items ==> c !in s
    ensures c !in Join(items, ',')
  {
    if |items| > 0 {
      assert items[0] in items;
      if |items| > 1 {
        JoinFree(items[1..], c);
      }
    }
  }

  predicate Rising(p: Part) {
    (p.Numbers? ==> p.low <= p.high) && (p.Letters? ==> p.first <= p.last)
  }

  /** The segment of a set. */
  function PartSeg(p: Part): GlobSeg
    requires !p.Plain? && Rising(p)
  {
    match p
    case OneOf(items) => List(items)
    case Numbers(low, high, step, width) => Num(low, step, RangeCount(low, high, step), PadWidth(Pad(low, width)))
    case Letters(first, last, step) => CharRange(first, last, step)
  }

  lemma StepReads(range: string, step: nat)
    requires ':' !in range && 0 < step < U64_LIMIT
    ensures SplitOnce(range + StepText(step), ':') == if step == 1 then None else Some((range, Decimal(step)))
    ensures ParseUnsigned(Decimal(step), U64_LIMIT) == Some(step)
  {
    hide SplitOnce;
    DecimalValue(step);
    ParseDigits(Decimal(step));
    if step == 1 {
      assert range + "" == range;
      NoSplit(range, ':');
    } else {
      assert range + StepText(step) == range + [':'] + Decimal(step);
      SplitOnceAt(range, ':', Decimal(step));
    }
  }

  lemma NoSplit(s: string, c: char)
    requires c !in s
    ensures SplitOnce(s, c) == None
  {
    FindNone(s, c);
  }

  /** What a range says about the two texts around its dash. */
  lemma RangeReads(from: string, to: string, step: nat)
    requires ':' !in from && ':' !in to && '-' !in from && 0 < step < U64_LIMIT
    ensures var a, b := ParseUnsigned(from, U64_LIMIT), ParseUnsigned(to, U64_LIMIT);
      ExpandRange(RangeText(from, to, step))
      == if a.Some? && b.Some? then
           (if a.value > b.value then None
            else Some(Num(a.value, step, RangeCount(a.value, b.value, step), PadWidth(from))))
         else if |from| == 1 && |to| == 1 && from[0] <= to[0] && step < U32_LIMIT then
           Some(CharRange(from[0], to[0], step))
         else None
  {
    hide SplitOnce, ParseUnsigned, Decimal, RangeCount, PadWidth, CharRange, StepText;
    var range := from + ['-'] + to;
    assert ':' !in range;
    StepReads(range, step);
    SplitOnceAt(from, '-', to);
    if step == 1 {
      assert StepText(step) == "" && range + "" == range by {
        BriefStep();
      }
    }
  }

  lemma BriefStep()
    ensures StepText(1) == ""
  {
  }

  lemma SetReads(ipv6: string -> bool, p: Part)
    requires Writable(ipv6, p) && (p.Numbers? || p.Letters?)
    ensures ExpandRange(Inside(p)) == Some(PartSeg(p))
    ensures '[' !in Inside(p) && ']' !in Inside(p)
  {
    hide ExpandRange, Decimal, Pad, RangeCount, PadWidth, DigitsValue;
    StepFree(p.step);
    if p.Numbers? {
      PadValue(p.low, p.width);
      DecimalValue(p.high);
      ParseDigits(Pad(p.low, p.width));
      ParseDigits(Decimal(p.high));
      RangeReads(Pad(p.low, p.width), Decimal(p.high), p.step);
    } else {
      LettersAreNoNumber(p.first, p.last);
      RangeReads([p.first], [p.last], p.step);
    }
  }

  lemma StepFree(step: nat)
    ensures '[' !in StepText(step) && ']' !in StepText(step)
  {
    DecimalValue(step);
  }

  lemma LettersAreNoNumber(first: char, last: char)
    requires !(IsDigit(first) && IsDigit(last))
    ensures ParseUnsigned([first], U64_LIMIT).None? || ParseUnsigned([last], U64_LIMIT).None?
  {
    assert !IsDigit(first) ==> first in [first];
    assert !IsDigit(last) ==> last in [last];
  }

  function PartPieces(p: Part): seq<Piece>
    requires Rising(p)
  {
    if p.Plain? then Chars(p.text) else [Set(PartSeg(p))]
  }

  /** The first piece of a text that starts with a set. */
  lemma FirstOfSet(ipv6: string -> bool, p: Part, rest: string)
    requires Writable(ipv6, p) && !p.Plain?
    ensures Written(p) + rest != []
    ensures FirstPiece(ipv6, Written(p) + rest) == Some(([Set(PartSeg(p))], rest))
  {
    hide FirstPiece, ExpandRange, Join, CloseFrom, Split, RangeText, Pad, RangeCount, PadWidth, CharRange;
    var t := Inside(p);
    var open, close := if p.OneOf? then '{' else '[', if p.OneOf? then '}' else ']';
    var s := [open] + t + [close] + rest;
    assert Written(p) + rest == s;
    if p.OneOf? {
      JoinFree(p.items, '{');
      JoinFree(p.items, '}');
      SplitJoin(p.items, ',');
      FirstBraced(ipv6, t, rest);
    } else {
      SetReads(ipv6, p);
      FirstBracketed(ipv6, t, rest);
    }
  }

  lemma FirstBraced(ipv6: string -> bool, t: string, rest: string)
    requires '{' !in t && '}' !in t
    ensures FirstPiece(ipv6, ['{'] + t + ['}'] + rest) == Some(([Set(List(Split(t, ',')))], rest))
  {
    hide FirstPiece, CloseFrom, Split;
    var s := ['{'] + t + ['}'] + rest;
    assert s[1..|t| + 1] == t && s[|t| + 2..] == rest;
    CloseAfter(s, 0, t, rest, '{', '}');
    BraceFirst(ipv6, s);
  }

  lemma FirstBracketed(ipv6: string -> bool, t: string, rest: string)
    requires '[' !in t && ']' !in t && !ipv6(t) && ExpandRange(t).Some?
    ensures FirstPiece(ipv6, ['['] + t + [']'] + rest) == Some(([Set(ExpandRange(t).value)], rest))
  {
    hide FirstPiece, CloseFrom, ExpandRange;
    var s := ['['] + t + [']'] + rest;
    assert s[1..|t| + 1] == t && s[|t| + 2..] == rest;
    CloseAfter(s, 0, t, rest, '[', ']');
    BracketFirst(ipv6, s);
  }

  lemma PartReads(ipv6: string -> bool, p: Part, rest: string)
    requires Writable(ipv6, p)
    ensures Pieces(ipv6, Written(p) + rest) == Prefixed(PartPieces(p), Pieces(ipv6, rest))
  {
    hide Pieces, FirstPiece, PartSeg, Inside;
    if p.Plain? {
      PlainReads(ipv6, p.text, rest);
    } else {
      FirstOfSet(ipv6, p, rest);
      PieceStep(ipv6, Written(p) + rest);
    }
  }

  ghost predicate AllWritable(ipv6: string -> bool, parts: seq<Part>) {
    forall p :: p in parts ==> Writable(ipv6, p)
  }

  // ---- the alternatives of a set ------------------------------------------------------------------

  /** The numbers counted are those with i steps still within the end. */
  lemma {:induction false} CountedAt(low: nat, high: nat, step: pos, i: nat)
    ensures i < |Counted(low, high, step)| <==> low + i * step <= high
    ensures i < |Counted(low, high, step)| ==> Counted(low, high, step)[i] == low + i * step
    decreases if low <= high then high + 1 - low else 0
  {
    if low > high {
      assert i * step >= 0;
    } else if i > 0 {
      OneMore(i - 1, step);
      CountedAt(low + step, high, step, i - 1);
      assert low + step + (i - 1) * step == low + i * step;
    } else {
      assert i * step == 0;
    }
  }

  /** Numbers from the first one on need no less room than it. */
  lemma PadOfFirst(low: nat, width: nat, n: nat)
    requires low <= n
    ensures Pad(n, PadWidth(Pad(low, width))) == Pad(n, width)
  {
    DecimalValue(low);
    DecimalValue(n);
    DecimalLength(n, |Decimal(n)|);
    DecimalLength(low, |Decimal(n)|);
    if |Decimal(low)| < width {
      assert Pad(low, width)[0] == '0';
    } else if low == 0 {
      assert |Decimal(low)| == 1;
    }
  }

  lemma CountsAgree(low: nat, step: pos, count: nat, high: nat, limit: nat)
    requires StepsUpTo(low, step, count, high, limit)
    ensures |Counted(low, high, step)| == count
    ensures forall i: nat :: i < count ==> low + i * step <= high && Counted(low, high, step)[i] == low + i * step
  {
    hide Counted;
    var all := Counted(low, high, step);
    forall i: nat
      ensures i < |all| <==> low + i * step <= high
      ensures i < |all| ==> all[i] == low + i * step
    {
      CountedAt(low, high, step, i);
    }
    assert |all| < count ==> low + |all| * step <= high;
    assert count < |all| ==> low + count * step <= high;
  }

  /** A set read from its text offers what it was written for. */
  lemma SegOffers(ipv6: string -> bool, p: Part)
    requires Writable(ipv6, p) && !p.Plain?
    ensures Items(PartSeg(p)) == Alternatives(p)
  {
    match p
    case OneOf(items) =>
    case Numbers(low, high, step, width) => NumbersOffer(low, high, step, width);
    case Letters(first, last, step) => LettersOffer(first, last, step);
  }

  lemma NumbersOffer(low: nat, high: nat, step: pos, width: nat)
    requires low <= high < U64_LIMIT && step < U64_LIMIT && !(low == 0 && high == U64_LIMIT - 1 && step == 1)
    ensures Items(PartSeg(Numbers(low, high, step, width))) == Alternatives(Numbers(low, high, step, width))
  {
    hide Pad, Counted, RangeCount, PadWidth;
    var seg := PartSeg(Numbers(low, high, step, width));
    RangeCountExact(low, high, step);
    CountsAgree(low, step, seg.count, high, U64_LIMIT);
    forall i: nat | i < seg.count
      ensures Item(seg, i) == Pad(low + i * step, width)
    {
      NoWrap(low, i, step, U64_LIMIT);
      PadOfFirst(low, width, low + i * step);
    }
  }

  lemma LettersOffer(first: char, last: char, step: pos)
    requires first <= last && step < U32_LIMIT
    ensures Items(PartSeg(Letters(first, last, step))) == Alternatives(Letters(first, last, step))
  {
    hide CharText, Counted;
    var seg := PartSeg(Letters(first, last, step));
    CharsAreScalars(last);
    AlphaCount(first as nat, last as nat, step);
    CountsAgree(first as nat, step, seg.count, last as nat, 0x11_0000);
    forall i: nat | i < seg.count
      ensures Item(seg, i) == CharText(first as nat + i * step)
    {
      NoWrap(first as nat, i, step, U32_LIMIT);
    }
  }

  // ---- runs of characters ------------------------------------------------------------------------------

  lemma {:induction false} ExtendText(rows: seq<Row>, a: string, b: string)
    ensures Extend(Extend(rows, [a], false), [b], false) == Extend(rows, [a + b], false)
  {
    if rows != [] {
      var (url, caps) := rows[0];
      assert (url + a) + b == url + (a + b);
      assert Extend(rows, [a], false) == [(url + a, caps)] + Extend(rows[1..], [a], false);
      assert Extend(rows, [a], false)[1..] == Extend(rows[1..], [a], false);
      ExtendText(rows[1..], a, b);
    }
  }

  lemma {:induction false} ExtendNothing(rows: seq<Row>)
    ensures Extend(rows, [""], false) == rows
  {
    if rows != [] {
      var (url, caps) := rows[0];
      assert url + "" == url;
      ExtendNothing(rows[1..]);
      assert rows == [(url, caps)] + rows[1..];
    }
  }

  lemma LitRows(rows: seq<Row>, lit: string)
    ensures SegRows(rows, LitOf(lit)) == Extend(rows, [lit], false)
  {
    if lit == [] {
      ExtendNothing(rows);
    } else {
      SegRowsOne(rows, Lit(lit));
      assert Items(Lit(lit)) == [lit];
    }
  }

  lemma MergeSetRows(rows: seq<Row>, lit: string, seg: GlobSeg, more: seq<Piece>)
    requires !seg.Lit?
    ensures SegRows(rows, Merge(lit, [Set(seg)] + more))
         == SegRows(Extend(Extend(rows, [lit], false), Items(seg), true), Merge("", more))
  {
    hide SegRows, Merge, Extend;
    MergeSet([], lit, seg, more);
    var tail := Merge("", more);
    assert [] + Merge(lit, [Set(seg)] + more) == Merge(lit, [Set(seg)] + more);
    assert [] + LitOf(lit) + [seg] + tail == LitOf(lit) + ([seg] + tail);
    SegRowsAppend(rows, LitOf(lit), [seg] + tail);
    LitRows(rows, lit);
    SegRowsAppend(Extend(rows, [lit], false), [seg], tail);
    SegRowsOne(Extend(rows, [lit], false), seg);
  }

  /** Reading on after a run `lit` continues the loops behind that run. */
  lemma {:induction false} LoopsAgree(ipv6: string -> bool, rows: seq<Row>, lit: string, parts: seq<Part>)
    requires AllWritable(ipv6, parts)
    ensures Pieces(ipv6, AllWritten(parts)).Some?
    ensures SegRows(rows, Merge(lit, Pieces(ipv6, AllWritten(parts)).value)) == Loops(Extend(rows, [lit], false), parts)
    decreases |parts|
  {
    hide SegRows, Merge, Extend, Pieces, Written, Alternatives, PartSeg, Writable;
    if parts == [] {
      NoPieces(ipv6);
      MergeEnd(lit);
      LitRows(rows, lit);
    } else {
      var p, tail := parts[0], parts[1..];
      assert p in parts && AllWritable(ipv6, tail);
      PartReads(ipv6, p, AllWritten(tail));
      if p.Plain? {
        LoopsAgree(ipv6, rows, lit + p.text, tail);
        MergeChars(lit, p.text, Pieces(ipv6, AllWritten(tail)).value);
        ExtendText(rows, lit, p.text);
        OneAlternative(p);
      } else {
        var wider := Extend(Extend(rows, [lit], false), Alternatives(p), true);
        LoopsAgree(ipv6, wider, "", tail);
        ExtendNothing(wider);
        SegOffers(ipv6, p);
        CanRise(ipv6, p);
        PartSegIsSet(p);
        MergeSetRows(rows, lit, PartSeg(p), Pieces(ipv6, AllWritten(tail)).value);
      }
    }
  }

  lemma OneAlternative(p: Part)
    requires p.Plain?
    ensures Alternatives(p) == [p.text]
  {
  }

  lemma CanRise(ipv6: string -> bool, p: Part)
    requires Writable(ipv6, p)
    ensures Rising(p)
  {
  }

  lemma PartSegIsSet(p: Part)
    requires !p.Plain? && Rising(p)
    ensures !PartSeg(p).Lit?
  {
  }

  /**
   A written glob stands for the nested loops over its sets: reading it succeeds, there
   are as many items as rows, and the k-th item is the k-th row, captures included.
   */
  lemma WrittenMeansLoops(ipv6: string -> bool, parts: seq<Part>)
    requires AllWritable(ipv6, parts)
    ensures GlobOf(ipv6, AllWritten(parts)).Some?
    ensures var segs, rows := GlobOf(ipv6, AllWritten(parts)).value, Loops(START, parts);
      Total(segs) == |rows| && forall k: nat :: k < |rows| ==> Nth(segs, k) == rows[k]
  {
    hide SegRows, Merge, Pieces, AllWritten, Loops, Nth, Total;
    LoopsAgree(ipv6, START, "", parts);
    ExtendNothing(START);
    NthIsRow(GlobOf(ipv6, AllWritten(parts)).value);
  }

  /** A set that is never closed makes the glob malformed, whatever stands before it. */
  lemma UnclosedIsRefused(ipv6: string -> bool, before: string, t: string)
    ensures '}' !in t ==> GlobOf(ipv6, Escaped(before) + (['{'] + t)).None?
    ensures ']' !in t ==> GlobOf(ipv6, Escaped(before) + (['['] + t)).None?
  {
    hide Pieces, CloseFrom, Split, Escaped;
    PlainReads(ipv6, before, ['{'] + t);
    PlainReads(ipv6, before, ['['] + t);
    NeverCloses(['{'] + t, '{', '}');
    NeverCloses(['['] + t, '[', ']');
    PieceStep(ipv6, ['{'] + t);
    PieceStep(ipv6, ['['] + t);
  }

  lemma NeverCloses(s: string, open: char, close: char)
    ensures close !in s ==> CloseFrom(s, 0, open, close) == |s|
  {
    if close !in s && CloseFrom(s, 0, open, close) < |s| {
      assert false;
    }
  }

  /** So does a range that goes down. */
  lemma FallingIsRefused(low: nat, high: nat, step: pos, first: char, last: char)
    requires step < U64_LIMIT
    ensures low > high ==> ExpandRange(RangeText(Decimal(low), Decimal(high), step)).None?
    ensures first > last && LetterEnd(first) && LetterEnd(last) && first != '-' && !(IsDigit(first) && IsDigit(last)) ==>
              ExpandRange(RangeText([first], [last], step)).None?
  {
    hide ExpandRange, Decimal, RangeCount, PadWidth, DigitsValue;
    if low > high {
      DecimalValue(low);
      DecimalValue(high);
      ParseDigits(Decimal(low));
      ParseDigits(Decimal(high));
      RangeReads(Decimal(low), Decimal(high), step);
      LongDecimal(low);
    }
    if first > last && LetterEnd(first) && LetterEnd(last) && first != '-' && !(IsDigit(first) && IsDigit(last)) {
      LettersAreNoNumber(first, last);
      RangeReads([first], [last], step);
    }
  }

  lemma LongDecimal(n: nat)
    ensures n >= 10 ==> |Decimal(n)| > 1
  {
    DecimalValue(n / 10);
  }
}
