/**
 URL globs (src/cli.rs: `GlobSeg`, `GlobIter`, `expand_range`, `glob_expand`): an
 odometer over brace and bracket sets, proved to be counting in mixed radix.
 Machine arithmetic wraps, as it does in a release build.
 */
module Glob {
  import opened Basics
  import opened Text
  import opened Arithmetic

  datatype GlobSeg =
    | Lit(text: string)
    | List(items: seq<string>)
    | Num(start: nat, step: nat, count: nat, width: nat)
    | Alpha(start: nat, step: nat, count: nat)

  /** Number of alternatives. */
  function SegLen(seg: GlobSeg): nat {
    match seg
    case Lit(_) => 1
    case List(items) => |items|
    case Num(_, _, count, _) => count
    case Alpha(_, _, count) => count
  }

  /** char::from_u32, empty for a surrogate or a value past the last character. */
  function CharText(u: nat): string {
    if u < 0xD800 || 0xE000 <= u < 0x11_0000 then [u as char] else ""
  }

  /** The `i`-th alternative. */
  function Item(seg: GlobSeg, i: nat): string
    requires i < SegLen(seg)
  {
    match seg
    case Lit(text) => text
    case List(items) => items[i]
    case Num(start, step, _, width) => Pad((start + i * step % U64_LIMIT) % U64_LIMIT, width)
    case Alpha(start, step, _) => CharText((start + i % U32_LIMIT * step % U32_LIMIT) % U32_LIMIT)
  }

  // ---- ranges ---------------------------------------------------------------------------------

  /** The number of steps from a up to b, as u64 arithmetic has it. */
  function RangeCount(a: nat, b: nat, step: nat): nat
    requires a <= b && step > 0
  {
    ((b - a) / step + 1) % U64_LIMIT
  }

  /** A leading zero pads every number to the width of the first. */
  function PadWidth(start: string): nat {
    if |start| > 1 && start[0] == '0' then |start| else 0
  }

  function CharRange(a: char, b: char, step: nat): GlobSeg
    requires a <= b && step > 0
  {
    Alpha(a as nat, step, (b as nat - a as nat) / step + 1)
  }

  /** expand_range: the body of a `[...]`. */
  function ExpandRange(body: string): Option<GlobSeg> {
    var (range, step) :-
      (match SplitOnce(body, ':')
       case None => Some((body, 1))
       case Some((r, s)) =>
         var n :- ParseUnsigned(s, U64_LIMIT);
         if n > 0 then Some((r, n)) else None);
    var (start, end) :- SplitOnce(range, '-');
    var a, b := ParseUnsigned(start, U64_LIMIT), ParseUnsigned(end, U64_LIMIT);
    if a.Some? && b.Some? then
      if a.value > b.value then None
      else Some(Num(a.value, step, RangeCount(a.value, b.value, step), PadWidth(start)))
    else if |start| == 1 && |end| == 1 && start[0] <= end[0] && step < U32_LIMIT then
      Some(CharRange(start[0], end[0], step))
    else None
  }

  /** The end of a range that a segment came from: the alternatives are exactly the steps up to it. */
  ghost predicate StepsUpTo(start: nat, step: nat, count: nat, end: nat, limit: nat) {
    start <= end < limit && 0 < step && forall i: nat :: i < count <==> start + i * step <= end
  }

  lemma StepsWithin(span: nat, step: nat, i: nat)
    requires step > 0
    ensures i < span / step + 1 <==> i * step <= span
  {
    var q := span / step;
    assert q * step <= span < (q + 1) * step by {
      assert span == q * step + span % step;
    }
    if i <= q {
      TimesMonotone(i, q, step);
    } else {
      TimesMonotone(q + 1, i, step);
    }
  }

  /** A numeric range counts its values exactly, unless it is all of u64, one by one: then it counts none. */
  lemma RangeCountExact(a: nat, b: nat, step: nat)
    requires a <= b < U64_LIMIT && 0 < step < U64_LIMIT
    ensures StepsUpTo(a, step, RangeCount(a, b, step), b, U64_LIMIT) <==> !(a == 0 && b == U64_LIMIT - 1 && step == 1)
    ensures RangeCount(a, b, step) == 0 <==> a == 0 && b == U64_LIMIT - 1 && step == 1
  {
    var q := (b - a) / step;
    if a == 0 && b == U64_LIMIT - 1 && step == 1 {
      assert q == U64_LIMIT - 1;
      assert a + 0 * step <= b;
      assert RangeCount(a, b, step) == 0;
      assert !StepsUpTo(a, step, 0, b, U64_LIMIT) by {
        assert !(0 < 0 <==> a + 0 * step <= b);
      }
    } else {
      QuotientSmall(b - a, step);
      assert RangeCount(a, b, step) == q + 1;
      forall i: nat
        ensures i < q + 1 <==> a + i * step <= b
      {
        StepsWithin(b - a, step, i);
      }
    }
  }

  lemma QuotientSmall(span: nat, step: nat)
    requires span < U64_LIMIT && step > 0 && (span < U64_LIMIT - 1 || step > 1)
    ensures span / step < U64_LIMIT - 1
  {
    var q := span / step;
    assert span == q * step + span % step;
    if step == 1 {
      assert q * step == q;
    } else {
      TimesMonotone(2, step, q);
    }
  }

  /** What every segment of an accepted glob is like. */
  ghost predicate WellFormed(seg: GlobSeg) {
    match seg
    case Lit(text) => text != []
    case List(items) => items != []
    case Num(start, step, count, _) => count > 0 && exists end: nat :: StepsUpTo(start, step, count, end, U64_LIMIT)
    case Alpha(start, step, count) => count > 0 && exists end: nat :: StepsUpTo(start, step, count, end, 0x11_0000)
  }

  /** The one range that is read but stands for no URL at all. */
  predicate WholeU64(seg: GlobSeg) {
    seg.Num? && seg.start == 0 && seg.step == 1 && seg.count == 0
  }

  lemma CharsAreScalars(c: char)
    ensures (c as nat) < 0x11_0000
  {
  }

  lemma AlphaCount(a: nat, b: nat, step: nat)
    requires a <= b < 0x11_0000 && 0 < step < U32_LIMIT
    ensures forall i: nat :: i < (b - a) / step + 1 <==> a + i * step <= b
  {
    forall i: nat
      ensures i < (b - a) / step + 1 <==> a + i * step <= b
    {
      StepsWithin(b - a, step, i);
    }
  }

  /** No value of a range overflows or passes the end of the range. */
  lemma ItemsStayInRange(seg: GlobSeg, i: nat)
    requires (seg.Num? || seg.Alpha?) && WellFormed(seg) && i < SegLen(seg)
    ensures seg.Num? ==> seg.start + i * seg.step < U64_LIMIT && Item(seg, i) == Pad(seg.start + i * seg.step, seg.width)
    ensures seg.Alpha? ==> seg.start + i * seg.step < 0x11_0000 && Item(seg, i) == CharText(seg.start + i * seg.step)
  {
    hide Pad, CharText;
    var limit := if seg.Num? then U64_LIMIT else 0x11_0000;
    var end: nat :| StepsUpTo(seg.start, seg.step, seg.count, end, limit);
    assert seg.start + i * seg.step <= end;
    NoWrap(seg.start, i, seg.step, if seg.Num? then U64_LIMIT else U32_LIMIT);
  }

  lemma NoWrap(start: nat, i: nat, step: nat, limit: nat)
    requires step > 0 && start + i * step < limit
    ensures i % limit == i && (start + i * step % limit) % limit == start + i * step
  {
    TimesMonotone(1, step, i);
    var product := i * step;
    SmallModulo(i, limit);
    SmallModulo(product, limit);
    SmallModulo(start + product, limit);
  }

  lemma SmallModulo(x: nat, limit: nat)
    requires x < limit
    ensures x % limit == x
  {
  }

  // ---- counting ---------------------------------------------------------------------------------------

  function Total(segs: seq<GlobSeg>): nat {
    if segs == [] then 1 else Total(segs[..|segs| - 1]) * SegLen(segs[|segs| - 1])
  }

  /** One alternative chosen in every segment. */
  predicate Choice(segs: seq<GlobSeg>, idx: seq<nat>) {
    |idx| == |segs| && forall j :: 0 <= j < |segs| ==> idx[j] < SegLen(segs[j])
  }

  /** The number a choice stands for, the rightmost segment counting least. */
  function Rank(segs: seq<GlobSeg>, idx: seq<nat>): nat
    requires |idx| == |segs|
  {
    if segs == [] then 0
    else
      var n := |segs| - 1;
      Rank(segs[..n], idx[..n]) * SegLen(segs[n]) + idx[n]
  }

  /** The choice a number stands for. */
  function Digits(segs: seq<GlobSeg>, k: nat): (idx: seq<nat>)
    requires k < Total(segs)
    ensures |idx| == |segs|
  {
    if segs == [] then []
    else
      var n := |segs| - 1;
      var len := SegLen(segs[n]);
      DigitBound(k, Total(segs[..n]), len);
      Digits(segs[..n], k / len) + [k % len]
  }

  lemma DigitBound(k: nat, high: nat, len: nat)
    requires k < high * len
    ensures len > 0 && k / len < high
  {
    assert len == 0 ==> high * len == 0;
    DivisionParts(k, len);
    if k / len >= high {
      TimesMonotone(high, k / len, len);
    }
  }

  lemma DivisionParts(k: nat, len: nat)
    requires len > 0
    ensures k == k / len * len + k % len
  {
  }

  lemma RankBound(high: nat, r: nat, len: nat, d: nat)
    requires r < high && d < len
    ensures r * len + d < high * len
    ensures r * len + d + 1 == high * len <==> r + 1 == high && d + 1 == len
  {
    TimesMonotone(r + 1, high, len);
    assert (r + 1) * len == r * len + len;
    if r + 1 < high {
      TimesMonotone(r + 2, high, len);
      assert (r + 2) * len == r * len + len + len;
    }
  }

  lemma DivModOf(r: nat, len: nat, d: nat)
    requires d < len
    ensures (r * len + d) / len == r && (r * len + d) % len == d
  {
    DivUnique(r * len + d, len, r, d);
  }

  /** Every choice has a number below the total, and is what that number stands for. */
  lemma {:induction false} DigitsOfRank(segs: seq<GlobSeg>, idx: seq<nat>)
    requires Choice(segs, idx)
    ensures Rank(segs, idx) < Total(segs) && Digits(segs, Rank(segs, idx)) == idx
  {
    if segs != [] {
      var n := |segs| - 1;
      var r, len := Rank(segs[..n], idx[..n]), SegLen(segs[n]);
      DigitsOfRank(segs[..n], idx[..n]);
      RankBound(Total(segs[..n]), r, len, idx[n]);
      DivModOf(r, len, idx[n]);
      assert idx == idx[..n] + [idx[n]];
    }
  }

  /** Every number below the total stands for a choice, and is that choice's number. */
  lemma {:induction false} RankOfDigits(segs: seq<GlobSeg>, k: nat)
    requires k < Total(segs)
    ensures Choice(segs, Digits(segs, k)) && Rank(segs, Digits(segs, k)) == k
  {
    if segs != [] {
      var n := |segs| - 1;
      var len := SegLen(segs[n]);
      DigitBound(k, Total(segs[..n]), len);
      RankOfDigits(segs[..n], k / len);
      DivisionParts(k, len);
      var high, idx := Digits(segs[..n], k / len), Digits(segs, k);
      assert idx == high + [k % len];
      assert idx[..n] == high && idx[n] == k % len;
    }
  }

  // ---- the next choice -----------------------------------------------------------------------------------

  function ZeroDigits(n: nat): seq<nat> {
    seq(n, _ => 0)
  }

  /** The choice after `idx`, none after the last. */
  function After(segs: seq<GlobSeg>, idx: seq<nat>): Option<seq<nat>>
    requires |idx| == |segs|
  {
    if segs == [] then None
    else
      var n := |segs| - 1;
      if idx[n] + 1 < SegLen(segs[n]) then Some(idx[..n] + [idx[n] + 1])
      else
        var high :- After(segs[..n], idx[..n]);
        Some(high + [0])
  }

  lemma RankSnoc(segs: seq<GlobSeg>, high: seq<nat>, d: nat)
    requires segs != []
    requires Choice(segs[..|segs| - 1], high) && d < SegLen(segs[|segs| - 1])
    ensures Choice(segs, high + [d])
    ensures Rank(segs, high + [d]) == Rank(segs[..|segs| - 1], high) * SegLen(segs[|segs| - 1]) + d
  {
    assert (high + [d])[..|high|] == high;
  }

  lemma AfterSnoc(segs: seq<GlobSeg>, idx: seq<nat>, k: nat)
    requires |idx| == |segs| && k < |segs|
    ensures After(segs[..k + 1], idx[..k + 1])
         == if idx[k] + 1 < SegLen(segs[k]) then Some(idx[..k] + [idx[k] + 1]) else Carried(After(segs[..k], idx[..k]), 1)
  {
    assert segs[..k + 1][..k] == segs[..k] && idx[..k + 1][..k] == idx[..k];
    assert ZeroDigits(1) == [0];
  }

  lemma {:induction false} AfterCounts(segs: seq<GlobSeg>, idx: seq<nat>)
    requires Choice(segs, idx)
    ensures After(segs, idx).None? <==> Rank(segs, idx) + 1 == Total(segs)
    ensures After(segs, idx).Some? ==>
              Choice(segs, After(segs, idx).value) && Rank(segs, After(segs, idx).value) == Rank(segs, idx) + 1
  {
    hide Rank, Digits, Total;
    if segs == [] {
      EmptyCounts();
    } else {
      var n := |segs| - 1;
      var high, d := idx[..n], idx[n];
      ChoiceSnoc(segs, idx);
      AfterCounts(segs[..n], high);
      DigitsOfRank(segs[..n], high);
      assert idx == high + [d];
      RankSnoc(segs, high, d);
      AfterStep(segs, high, d);
    }
  }

  lemma EmptyCounts()
    ensures Rank([], []) == 0 && Total([]) == 1
  {
  }

  lemma ChoiceSnoc(segs: seq<GlobSeg>, idx: seq<nat>)
    requires segs != [] && Choice(segs, idx)
    ensures var n := |segs| - 1; Choice(segs[..n], idx[..n]) && idx[n] < SegLen(segs[n])
  {
  }

  lemma TotalSnoc(segs: seq<GlobSeg>)
    requires segs != []
    ensures Total(segs) == Total(segs[..|segs| - 1]) * SegLen(segs[|segs| - 1])
  {
  }

  lemma AfterStep(segs: seq<GlobSeg>, high: seq<nat>, d: nat)
    requires segs != [] && Choice(segs[..|segs| - 1], high) && d < SegLen(segs[|segs| - 1])
    requires Rank(segs[..|segs| - 1], high) < Total(segs[..|segs| - 1])
    requires var up := After(segs[..|segs| - 1], high); var r := Rank(segs[..|segs| - 1], high);
      && (up.None? <==> r + 1 == Total(segs[..|segs| - 1]))
      && (up.Some? ==> Choice(segs[..|segs| - 1], up.value) && Rank(segs[..|segs| - 1], up.value) == r + 1)
    requires |high + [d]| == |segs|
    ensures var next, k := After(segs, high + [d]), Rank(segs, high + [d]);
      && (next.None? <==> k + 1 == Total(segs))
      && (next.Some? ==> Choice(segs, next.value) && Rank(segs, next.value) == k + 1)
  {
    hide Rank, Total, Choice;
    var n := |segs| - 1;
    var r, len := Rank(segs[..n], high), SegLen(segs[n]);
    assert (high + [d])[..n] == high;
    RankSnoc(segs, high, d);
    TotalSnoc(segs);
    RankBound(Total(segs[..n]), r, len, d);
    if d + 1 < len {
      RankSnoc(segs, high, d + 1);
    } else if After(segs[..n], high).Some? {
      RankSnoc(segs, After(segs[..n], high).value, 0);
      OneMore(r, len);
    }
  }

  // ---- the iterator -----------------------------------------------------------------------------------------

  /** The URL and the captures of a choice. */
  function Expansion(segs: seq<GlobSeg>, idx: seq<nat>): (string, seq<string>)
    requires Choice(segs, idx)
  {
    if segs == [] then ("", [])
    else
      var n := |segs| - 1;
      var (url, caps) := Expansion(segs[..n], idx[..n]);
      var item := Item(segs[n], idx[n]);
      (url + item, if segs[n].Lit? then caps else caps + [item])
  }

  /** The k-th item of the glob. */
  function Nth(segs: seq<GlobSeg>, k: nat): (string, seq<string>)
    requires k < Total(segs)
  {
    RankOfDigits(segs, k);
    Expansion(segs, Digits(segs, k))
  }

  class GlobIter {
    const segs: seq<GlobSeg>
    var idx: seq<nat>
    var done: bool

    ghost predicate Valid()
      reads this
    {
      |idx| == |segs| && (!done ==> Choice(segs, idx))
    }

    /** How many items have been yielded. */
    ghost function Yielded(): (k: nat)
      reads this
      requires Valid()
      ensures k <= Total(segs) && (done <==> k == Total(segs))
    {
      if done then Total(segs)
      else
        DigitsOfRank(segs, idx);
        Rank(segs, idx)
    }

    constructor (segs: seq<GlobSeg>)
      ensures Valid() && this.segs == segs && Yielded() == 0
    {
      this.segs := segs;
      idx := ZeroDigits(|segs|);
      done := Total(segs) == 0;
      new;
      FirstChoice(segs);
    }

    /** The URL and captures of the present choice. */
    method Current() returns (url: string, caps: seq<string>)
      requires Choice(segs, idx)
      ensures (url, caps) == Expansion(segs, idx)
    {
      hide Item;
      url, caps := "", [];
      var j := 0;
      while j < |segs|
        invariant 0 <= j <= |segs|
        invariant Choice(segs[..j], idx[..j]) && (url, caps) == Expansion(segs[..j], idx[..j])
      {
        assert segs[..j + 1][..j] == segs[..j] && idx[..j + 1][..j] == idx[..j];
        if segs[j].Lit? {
          LitItem(segs[j]);
          url := url + segs[j].text;
        } else {
          var v := Item(segs[j], idx[j]);
          url := url + v;
          caps := caps + [v];
        }
        j := j + 1;
      }
      assert segs[..j] == segs && idx[..j] == idx;
    }

    /** Turns the odometer by one; done when it was at its last choice. */
    method Advance()
      requires |idx| == |segs|
      modifies this
      ensures done <==> After(segs, old(idx)).None?
      ensures |idx| == |segs| && (!done ==> idx == After(segs, old(idx)).value)
    {
      hide After, Carried, ZeroDigits, SegLen, Total, Choice;
      ghost var was := idx;
      done := true;
      var k := |segs|;
      assert segs[..k] == segs && was[..k] == was;
      CarriedNowhere(After(segs, was), was);
      while k > 0
        invariant 0 <= k <= |segs| && done
        invariant |idx| == |segs| && idx == was[..k] + ZeroDigits(|segs| - k)
        invariant After(segs, was) == Carried(After(segs[..k], was[..k]), |segs| - k)
      {
        k := k - 1;
        ghost var rest := |segs| - k - 1;
        AfterSnoc(segs, was, k);
        Turned(was, idx, k, rest);
        idx := idx[k := idx[k] + 1];
        if idx[k] < SegLen(segs[k]) {
          done := false;
          break;
        }
        idx := idx[k := 0];
        CarriedOnce(After(segs[..k], was[..k]), rest);
      }
      if done {
        NothingAfter();
        assert segs[..0] == [] && was[..0] == [];
      }
    }

    /** The next item, in counting order; none once all have been yielded. */
    method Next() returns (r: Option<(string, seq<string>)>)
      requires Valid()
      modifies this
      ensures Valid()
      ensures r.Some? <==> old(Yielded()) < Total(segs)
      ensures r.Some? ==> r.value == Nth(segs, old(Yielded())) && Yielded() == old(Yielded()) + 1
      ensures r.None? ==> Yielded() == old(Yielded())
    {
      hide Item, Expansion, After, Digits, Rank, Total;
      if done {
        return None;
      }
      DigitsOfRank(segs, idx);
      AfterCounts(segs, idx);
      var url, caps := Current();
      Advance();
      r := Some((url, caps));
    }
  }

  /** A higher part of a choice with `n` zeros behind it. */
  function Carried(high: Option<seq<nat>>, n: nat): Option<seq<nat>> {
    if high.None? then None else Some(high.value + ZeroDigits(n))
  }

  lemma CarriedNowhere(high: Option<seq<nat>>, idx: seq<nat>)
    ensures Carried(high, 0) == high && idx + ZeroDigits(0) == idx
  {
    if high.Some? {
      assert high.value + ZeroDigits(0) == high.value;
    }
  }

  lemma CarriedOnce(high: Option<seq<nat>>, n: nat)
    ensures Carried(Carried(high, 1), n) == Carried(high, n + 1)
  {
    if high.Some? {
      assert high.value + ZeroDigits(1) + ZeroDigits(n) == high.value + ZeroDigits(n + 1);
    }
  }

  /** One wheel is turned, or goes back to zero. */
  lemma Turned(was: seq<nat>, idx: seq<nat>, k: nat, n: nat)
    requires |was| == k + 1 + n && idx == was[..k + 1] + ZeroDigits(n)
    ensures |idx| == |was| && idx[k] == was[k] && idx[k := was[k] + 1][k] == was[k] + 1
    ensures Carried(Some(was[..k] + [was[k] + 1]), n) == Some(idx[k := was[k] + 1])
    ensures idx[k := was[k] + 1][k := 0] == was[..k] + ZeroDigits(n + 1)
  {
    assert idx[k := was[k] + 1] == was[..k] + [was[k] + 1] + ZeroDigits(n);
  }

  lemma NothingAfter()
    ensures After([], []) == None && forall n: nat :: Carried(None, n) == None
  {
  }

  lemma LitItem(seg: GlobSeg)
    requires seg.Lit?
    ensures Item(seg, 0) == seg.text
  {
  }

  lemma {:induction false} FirstChoice(segs: seq<GlobSeg>)
    ensures Total(segs) > 0 ==> Choice(segs, ZeroDigits(|segs|)) && Rank(segs, ZeroDigits(|segs|)) == 0
  {
    if segs != [] && Total(segs) > 0 {
      var n := |segs| - 1;
      DigitBound(0, Total(segs[..n]), SegLen(segs[n]));
      FirstChoice(segs[..n]);
      assert ZeroDigits(|segs|)[..n] == ZeroDigits(n);
    }
  }

  /** Running an iterator to its end. */
  method Collect(segs: seq<GlobSeg>) returns (items: seq<(string, seq<string>)>)
    ensures |items| == Total(segs)
    ensures forall k :: 0 <= k < |items| ==> items[k] == Nth(segs, k)
  {
    hide Nth, Total;
    var iter := new GlobIter(segs);
    items := [];
    var next := iter.Next();
    while next.Some?
      invariant iter.Valid() && iter.segs == segs
      invariant |items| == iter.Yielded() - if next.Some? then 1 else 0
      invariant next.None? ==> iter.Yielded() == Total(segs)
      invariant next.Some? ==> |items| < Total(segs) && next.value == Nth(segs, |items|)
      invariant forall k :: 0 <= k < |items| ==> items[k] == Nth(segs, k)
      decreases Total(segs) - |items|
    {
      items := items + [next.value];
      next := iter.Next();
    }
  }

  // ---- how many -------------------------------------------------------------------------------------------------

  const MAX_GLOB_URLS: nat := 10_000_000

  /** The product, unless a partial product leaves u64. */
  function CheckedTotal(segs: seq<GlobSeg>): Option<nat> {
    if segs == [] then Some(1)
    else
      var high :- CheckedTotal(segs[..|segs| - 1]);
      var n := high * SegLen(segs[|segs| - 1]);
      if n < U64_LIMIT then Some(n) else None
  }

  method Expand(segs: seq<GlobSeg>) returns (r: Option<GlobIter>)
    ensures r.Some? <==> CheckedTotal(segs).Some? && CheckedTotal(segs).value <= MAX_GLOB_URLS
    ensures r.Some? ==> fresh(r.value) && r.value.Valid() && r.value.segs == segs && r.value.Yielded() == 0
  {
    var total := Some(1);
    var j := 0;
    while j < |segs| && total.Some?
      invariant 0 <= j <= |segs|
      invariant total == CheckedTotal(segs[..j])
      invariant total.None? ==> CheckedTotal(segs).None?
    {
      assert segs[..j + 1][..j] == segs[..j];
      var n := total.value * SegLen(segs[j]);
      total := if n < U64_LIMIT then Some(n) else None;
      j := j + 1;
      if total.None? {
        OverflowStays(segs, j);
      }
    }
    assert segs[..|segs|] == segs;
    if total.None? || total.value > MAX_GLOB_URLS {
      return None;
    }
    var iter := new GlobIter(segs);
    r := Some(iter);
  }

  lemma {:induction false} OverflowStays(segs: seq<GlobSeg>, j: nat)
    requires j <= |segs| && CheckedTotal(segs[..j]).None?
    ensures CheckedTotal(segs).None?
  {
    if j < |segs| {
      assert segs[..|segs| - 1][..j] == segs[..j];
      OverflowStays(segs[..|segs| - 1], j);
    } else {
      assert segs[..j] == segs;
    }
  }

  /** Accepted are exactly the globs of at most MAX_GLOB_URLS combinations, when no set is empty. */
  lemma {:induction false} AcceptedExactly(segs: seq<GlobSeg>)
    requires forall j :: 0 <= j < |segs| ==> SegLen(segs[j]) > 0
    ensures CheckedTotal(segs) == if Total(segs) < U64_LIMIT then Some(Total(segs)) else None
    ensures Total(segs) > 0
  {
    if segs != [] {
      var n := |segs| - 1;
      AcceptedExactly(segs[..n]);
      TimesMonotone(1, SegLen(segs[n]), Total(segs[..n]));
    }
  }

  // ---- reading a glob -------------------------------------------------------------------------------------------

  /** A piece of the URL text: a literal character or a set. */
  datatype Piece = Chr(c: char) | Set(seg: GlobSeg)

  function Balance(s: string, open: char, close: char): int {
    if s == [] then 0
    else
      var n := |s| - 1;
      Balance(s[..n], open, close) + if s[n] == open then 1 else if s[n] == close then -1 else 0
  }

  /** From `k` on, the first closing bracket that balances the opening one at 0; the length if none. */
  function CloseFrom(s: string, k: nat, open: char, close: char): (r: nat)
    requires k <= |s|
    ensures k <= r <= |s|
    ensures r < |s| ==> s[r] == close && Balance(s[..r + 1], open, close) == 0
    decreases |s| - k
  {
    if k == |s| then k
    else if s[k] == close && Balance(s[..k + 1], open, close) == 0 then k
    else CloseFrom(s, k + 1, open, close)
  }

  /** find_close, on the text from the opening bracket on. */
  method FindClose(s: string, open: char, close: char) returns (r: nat)
    requires s != [] && s[0] == open && open != close
    ensures r == CloseFrom(s, 0, open, close)
  {
    hide CloseFrom;
    var depth := 0;
    var k := 0;
    while k < |s|
      invariant 0 <= k <= |s|
      invariant depth == Balance(s[..k], open, close)
      invariant CloseFrom(s, 0, open, close) == CloseFrom(s, k, open, close)
    {
      assert s[..k + 1][..k] == s[..k];
      CloseStep(s, k, open, close);
      if s[k] == open {
        depth := depth + 1;
      } else if s[k] == close {
        depth := depth - 1;
        if depth == 0 {
          return k;
        }
      }
      k := k + 1;
    }
    r := |s|;
  }

  lemma CloseStep(s: string, k: nat, open: char, close: char)
    requires k < |s|
    ensures CloseFrom(s, k, open, close)
         == if s[k] == close && Balance(s[..k + 1], open, close) == 0 then k else CloseFrom(s, k + 1, open, close)
  {
  }

  function Chars(s: string): seq<Piece> {
    seq(|s|, i requires 0 <= i < |s| => Chr(s[i]))
  }

  /** A bracketed address as it stands, or a range. */
  function BracketPiece(ipv6: string -> bool, s: string, close: nat): (r: Option<(seq<Piece>, string)>)
    requires s != [] && close <= |s|
    ensures r.Some? ==> |r.value.1| < |s|
  {
    if close == |s| then None
    else if ipv6(InBrackets(s, close)) then Some((Chars(s[..close + 1]), s[close + 1..]))
    else
      var seg :- ExpandRange(InBrackets(s, close));
      Some(([Set(seg)], s[close + 1..]))
  }

  /** The first piece of a text and what is left; `ipv6` recognises a bracketed address. */
  function FirstPiece(ipv6: string -> bool, s: string): (r: Option<(seq<Piece>, string)>)
    requires s != []
    ensures r.Some? ==> |r.value.1| < |s|
  {
    if s[0] == '\\' && |s| > 1 then Some(([Chr(s[1])], s[2..]))
    else if s[0] == '{' then
      var close := CloseFrom(s, 0, '{', '}');
      if close == |s| then None else Some(([Set(List(Split(InBrackets(s, close), ',')))], s[close + 1..]))
    else if s[0] == '[' then BracketPiece(ipv6, s, CloseFrom(s, 0, '[', ']'))
    else Some(([Chr(s[0])], s[1..]))
  }

  function InBrackets(s: string, close: nat): string
    requires close < |s|
  {
    if close == 0 then "" else s[1..close]
  }

  function Pieces(ipv6: string -> bool, s: string): Option<seq<Piece>>
    decreases |s|
  {
    if s == [] then Some([])
    else
      var (first, rest) :- FirstPiece(ipv6, s);
      var more :- Pieces(ipv6, rest);
      Some(first + more)
  }

  function LitOf(lit: string): seq<GlobSeg> {
    if lit == [] then [] else [Lit(lit)]
  }

  /** Runs of characters joined to literals; `lit` is the run so far. */
  function Merge(lit: string, pieces: seq<Piece>): seq<GlobSeg>
    decreases |pieces|
  {
    if pieces == [] then LitOf(lit)
    else
      match pieces[0]
      case Chr(c) => Merge(lit + [c], pieces[1..])
      case Set(seg) => LitOf(lit) + [seg] + Merge("", pieces[1..])
  }

  /** The segments of a URL; none for a malformed glob. */
  function GlobOf(ipv6: string -> bool, url: string): Option<seq<GlobSeg>> {
    var pieces :- Pieces(ipv6, url);
    Some(Merge("", pieces))
  }

  function Resume(segs: seq<GlobSeg>, lit: string, rest: Option<seq<Piece>>): Option<seq<GlobSeg>> {
    if rest.None? then None else Some(segs + Merge(lit, rest.value))
  }

  /** parse_glob */
  method ParseGlob(ipv6: string -> bool, url: string) returns (r: Option<seq<GlobSeg>>)
    ensures r == GlobOf(ipv6, url)
  {
    hide Pieces, FirstPiece, Merge, Split, ExpandRange, CloseFrom;
    var segs, lit, i := [], "", 0;
    assert url[0..] == url;
    StartsEmpty(ipv6, url);
    while i < |url|
      invariant 0 <= i <= |url|
      invariant GlobOf(ipv6, url) == Resume(segs, lit, Pieces(ipv6, url[i..]))
    {
      var s := url[i..];
      if s[0] == '\\' && |s| > 1 {
        EscapeStep(ipv6, s, segs, lit);
        assert s[2..] == url[i + 2..];
        lit := lit + [s[1]];
        i := i + 2;
      } else if s[0] == '{' {
        var close := FindClose(s, '{', '}');
        BraceStep(ipv6, s, segs, lit);
        if close == |s| {
          return None;
        }
        assert s[close + 1..] == url[i + close + 1..];
        segs := segs + LitOf(lit) + [List(Split(InBrackets(s, close), ','))];
        lit := "";
        i := i + close + 1;
      } else if s[0] == '[' {
        var close := FindClose(s, '[', ']');
        BracketStep(ipv6, s, segs, lit);
        if close == |s| {
          return None;
        }
        assert s[close + 1..] == url[i + close + 1..];
        if ipv6(InBrackets(s, close)) {
          lit := lit + s[..close + 1];
          i := i + close + 1;
          continue;
        }
        var seg := ExpandRange(InBrackets(s, close));
        if seg.None? {
          return None;
        }
        segs := segs + LitOf(lit) + [seg.value];
        lit := "";
        i := i + close + 1;
      } else {
        PlainStep(ipv6, s, segs, lit);
        assert s[1..] == url[i + 1..];
        lit := lit + [s[0]];
        i := i + 1;
      }
    }
    EndsWithLit(ipv6, url[i..], segs, lit);
    r := Some(segs + LitOf(lit));
  }

  lemma StartsEmpty(ipv6: string -> bool, url: string)
    ensures GlobOf(ipv6, url) == Resume([], "", Pieces(ipv6, url))
  {
    hide Pieces, Merge;
    if Pieces(ipv6, url).Some? {
      assert [] + Merge("", Pieces(ipv6, url).value) == Merge("", Pieces(ipv6, url).value);
    }
  }

  lemma EndsWithLit(ipv6: string -> bool, s: string, segs: seq<GlobSeg>, lit: string)
    requires s == []
    ensures Resume(segs, lit, Pieces(ipv6, s)) == Some(segs + LitOf(lit))
  {
  }

  lemma {:induction false} MergeChars(lit: string, s: string, pieces: seq<Piece>)
    ensures Merge(lit, Chars(s) + pieces) == Merge(lit + s, pieces)
    decreases |s|
  {
    if s == [] {
      assert Chars(s) + pieces == pieces && lit + s == lit;
    } else {
      assert (Chars(s) + pieces)[0] == Chr(s[0]);
      assert (Chars(s) + pieces)[1..] == Chars(s[1..]) + pieces;
      MergeChars(lit + [s[0]], s[1..], pieces);
      assert lit + [s[0]] + s[1..] == lit + s;
    }
  }

  lemma MergeSet(segs: seq<GlobSeg>, lit: string, seg: GlobSeg, pieces: seq<Piece>)
    ensures segs + Merge(lit, [Set(seg)] + pieces) == segs + LitOf(lit) + [seg] + Merge("", pieces)
  {
    assert ([Set(seg)] + pieces)[1..] == pieces;
  }

  lemma CharStep(segs: seq<GlobSeg>, lit: string, s: string, rest: Option<seq<Piece>>)
    ensures Resume(segs, lit + s, rest) == if rest.None? then None else Resume(segs, lit, Some(Chars(s) + rest.value))
  {
    hide Merge;
    if rest.Some? {
      MergeChars(lit, s, rest.value);
    }
  }

  lemma SetStep(segs: seq<GlobSeg>, lit: string, seg: GlobSeg, rest: Option<seq<Piece>>)
    ensures Resume(segs + LitOf(lit) + [seg], "", rest) == if rest.None? then None else Resume(segs, lit, Some([Set(seg)] + rest.value))
  {
    hide Merge;
    if rest.Some? {
      MergeSet(segs, lit, seg, rest.value);
    }
  }

  lemma NoneResumes(segs: seq<GlobSeg>, lit: string)
    ensures Resume(segs, lit, None) == None
  {
  }

  lemma PieceStep(ipv6: string -> bool, s: string)
    requires s != []
    ensures var first := FirstPiece(ipv6, s);
      if first.None? then Pieces(ipv6, s) == None
      else
        var rest := Pieces(ipv6, first.value.1);
        Pieces(ipv6, s) == if rest.None? then None else Some(first.value.0 + rest.value)
  {
    hide FirstPiece;
  }

  lemma EscapeStep(ipv6: string -> bool, s: string, segs: seq<GlobSeg>, lit: string)
    requires |s| > 1 && s[0] == '\\'
    ensures Resume(segs, lit, Pieces(ipv6, s)) == Resume(segs, lit + [s[1]], Pieces(ipv6, s[2..]))
  {
    hide Pieces, Merge;
    PieceStep(ipv6, s);
    CharStep(segs, lit, [s[1]], Pieces(ipv6, s[2..]));
    assert Chars([s[1]]) == [Chr(s[1])];
  }

  lemma PlainStep(ipv6: string -> bool, s: string, segs: seq<GlobSeg>, lit: string)
    requires s != [] && !(s[0] == '\\' && |s| > 1) && s[0] != '{' && s[0] != '['
    ensures Resume(segs, lit, Pieces(ipv6, s)) == Resume(segs, lit + [s[0]], Pieces(ipv6, s[1..]))
  {
    hide Pieces, Merge;
    PieceStep(ipv6, s);
    CharStep(segs, lit, [s[0]], Pieces(ipv6, s[1..]));
    assert Chars([s[0]]) == [Chr(s[0])];
  }

  lemma BraceFirst(ipv6: string -> bool, s: string)
    requires s != [] && s[0] == '{'
    ensures var close := CloseFrom(s, 0, '{', '}');
      FirstPiece(ipv6, s) == if close == |s| then None else Some(([Set(List(Split(InBrackets(s, close), ',')))], s[close + 1..]))
  {
    hide CloseFrom, Split, InBrackets, ExpandRange;
  }

  lemma BracketFirst(ipv6: string -> bool, s: string)
    requires s != [] && s[0] == '['
    ensures FirstPiece(ipv6, s) == BracketPiece(ipv6, s, CloseFrom(s, 0, '[', ']'))
  {
    hide CloseFrom, Split, InBrackets, BracketPiece;
  }

  lemma BraceStep(ipv6: string -> bool, s: string, segs: seq<GlobSeg>, lit: string)
    requires s != [] && s[0] == '{'
    ensures var close := CloseFrom(s, 0, '{', '}');
      Resume(segs, lit, Pieces(ipv6, s))
      == if close == |s| then None
         else Resume(segs + LitOf(lit) + [List(Split(InBrackets(s, close), ','))], "", Pieces(ipv6, s[close + 1..]))
  {
    hide Pieces, Merge, CloseFrom, Split, FirstPiece, InBrackets, Resume, LitOf;
    BraceFirst(ipv6, s);
    NoneResumes(segs, lit);
    PieceStep(ipv6, s);
    var close := CloseFrom(s, 0, '{', '}');
    if close < |s| {
      SetStep(segs, lit, List(Split(InBrackets(s, close), ',')), Pieces(ipv6, s[close + 1..]));
    }
  }

  lemma BracketStep(ipv6: string -> bool, s: string, segs: seq<GlobSeg>, lit: string)
    requires s != [] && s[0] == '['
    ensures var close := CloseFrom(s, 0, '[', ']');
      Resume(segs, lit, Pieces(ipv6, s))
      == if close == |s| then None
         else if ipv6(InBrackets(s, close)) then Resume(segs, lit + s[..close + 1], Pieces(ipv6, s[close + 1..]))
         else if ExpandRange(InBrackets(s, close)).None? then None
         else Resume(segs + LitOf(lit) + [ExpandRange(InBrackets(s, close)).value], "", Pieces(ipv6, s[close + 1..]))
  {
    hide Pieces, Merge, CloseFrom, Split, ExpandRange, FirstPiece, BracketPiece, InBrackets, Resume, LitOf, Chars;
    BracketFirst(ipv6, s);
    NoneResumes(segs, lit);
    PieceStep(ipv6, s);
    var close := CloseFrom(s, 0, '[', ']');
    BracketMeans(ipv6, s, close);
    if close < |s| {
      if ipv6(InBrackets(s, close)) {
        CharStep(segs, lit, s[..close + 1], Pieces(ipv6, s[close + 1..]));
      } else if ExpandRange(InBrackets(s, close)).Some? {
        SetStep(segs, lit, ExpandRange(InBrackets(s, close)).value, Pieces(ipv6, s[close + 1..]));
      }
    }
  }

  lemma BracketMeans(ipv6: string -> bool, s: string, close: nat)
    requires s != [] && close <= |s|
    ensures BracketPiece(ipv6, s, close)
         == if close == |s| then None
            else if ipv6(InBrackets(s, close)) then Some((Chars(s[..close + 1]), s[close + 1..]))
            else if ExpandRange(InBrackets(s, close)).None? then None
            else Some(([Set(ExpandRange(InBrackets(s, close)).value)], s[close + 1..]))
  {
    hide ExpandRange, InBrackets, Chars;
  }

  // ---- accepted globs ----------------------------------------------------------------------------------------------

  lemma RangeWellFormed(body: string)
    requires ExpandRange(body).Some?
    ensures WellFormed(ExpandRange(body).value) || WholeU64(ExpandRange(body).value)
  {
    hide SplitOnce;
    var seg := ExpandRange(body).value;
    var range := if SplitOnce(body, ':').Some? then SplitOnce(body, ':').value.0 else body;
    var (start, end) := SplitOnce(range, '-').value;
    if seg.Num? {
      UnsignedBelow(start, U64_LIMIT);
      UnsignedBelow(end, U64_LIMIT);
      var b := ParseUnsigned(end, U64_LIMIT).value;
      if SplitOnce(body, ':').Some? {
        UnsignedBelow(SplitOnce(body, ':').value.1, U64_LIMIT);
      }
      RangeCountExact(seg.start, b, seg.step);
    } else {
      CharsAreScalars(end[0]);
      AlphaCount(start[0] as nat, end[0] as nat, seg.step);
      assert StepsUpTo(seg.start, seg.step, seg.count, end[0] as nat, 0x11_0000);
    }
  }

  lemma UnsignedBelow(s: string, limit: nat)
    requires ParseUnsigned(s, limit).Some?
    ensures ParseUnsigned(s, limit).value < limit
  {
  }

  lemma {:induction false} PiecesWellFormed(ipv6: string -> bool, s: string)
    requires Pieces(ipv6, s).Some?
    ensures forall i :: 0 <= i < |Pieces(ipv6, s).value| && Pieces(ipv6, s).value[i].Set? ==>
              var seg := Pieces(ipv6, s).value[i].seg; !seg.Lit? && (WellFormed(seg) || WholeU64(seg))
    decreases |s|
  {
    hide ExpandRange, WellFormed, CloseFrom, Split;
    if s != [] {
      var (first, rest) := FirstPiece(ipv6, s).value;
      PiecesWellFormed(ipv6, rest);
      FirstWellFormed(ipv6, s);
    }
  }

  lemma FirstWellFormed(ipv6: string -> bool, s: string)
    requires s != [] && FirstPiece(ipv6, s).Some?
    ensures forall i :: 0 <= i < |FirstPiece(ipv6, s).value.0| && FirstPiece(ipv6, s).value.0[i].Set? ==>
              var seg := FirstPiece(ipv6, s).value.0[i].seg; !seg.Lit? && (WellFormed(seg) || WholeU64(seg))
  {
    hide CloseFrom, ExpandRange;
    if s[0] == '[' {
      var close := CloseFrom(s, 0, '[', ']');
      if close < |s| && ExpandRange(InBrackets(s, close)).Some? {
        RangeWellFormed(InBrackets(s, close));
        RangeNotLit(InBrackets(s, close));
      }
    }
  }

  lemma RangeNotLit(body: string)
    requires ExpandRange(body).Some?
    ensures !ExpandRange(body).value.Lit?
  {
  }

  lemma {:induction false} MergeWellFormed(lit: string, pieces: seq<Piece>)
    requires forall i :: 0 <= i < |pieces| && pieces[i].Set? ==> !pieces[i].seg.Lit? && (WellFormed(pieces[i].seg) || WholeU64(pieces[i].seg))
    ensures forall j :: 0 <= j < |Merge(lit, pieces)| ==> WellFormed(Merge(lit, pieces)[j]) || WholeU64(Merge(lit, pieces)[j])
    ensures forall j :: 0 < j < |Merge(lit, pieces)| ==> !(Merge(lit, pieces)[j - 1].Lit? && Merge(lit, pieces)[j].Lit?)
    decreases |pieces|
  {
    hide StepsUpTo;
    if pieces != [] {
      match pieces[0]
      case Chr(c) => MergeWellFormed(lit + [c], pieces[1..]);
      case Set(seg) => MergeWellFormed("", pieces[1..]);
    }
  }

  /**
   Every segment read from a URL is a literal run, a list, or a range of exactly the
   steps up to its end; the one exception is a range over all of u64, which counts to
   nothing. Runs are maximal.
   */
  lemma GlobWellFormed(ipv6: string -> bool, url: string)
    requires GlobOf(ipv6, url).Some?
    ensures var segs := GlobOf(ipv6, url).value;
      && (forall j :: 0 <= j < |segs| ==> WellFormed(segs[j]) || WholeU64(segs[j]))
      && (forall j :: 0 < j < |segs| ==> !(segs[j - 1].Lit? && segs[j].Lit?))
  {
    hide Pieces, Merge, WellFormed;
    PiecesWellFormed(ipv6, url);
    MergeWellFormed("", Pieces(ipv6, url).value);
  }

  lemma {:induction false} ZeroTotal(segs: seq<GlobSeg>)
    ensures Total(segs) == 0 <==> exists j :: 0 <= j < |segs| && SegLen(segs[j]) == 0
  {
    if segs != [] {
      var n := |segs| - 1;
      ZeroTotal(segs[..n]);
      var high, len := Total(segs[..n]), SegLen(segs[n]);
      ZeroProduct(high, len);
      if high == 0 {
        var j :| 0 <= j < n && SegLen(segs[..n][j]) == 0;
        assert SegLen(segs[j]) == 0;
      }
      if j :| 0 <= j < n && SegLen(segs[j]) == 0 {
        assert SegLen(segs[..n][j]) == 0;
      }
    }
  }

  lemma ZeroProduct(a: nat, b: nat)
    ensures a * b == 0 <==> a == 0 || b == 0
  {
    if a > 0 && b > 0 {
      TimesMonotone(1, a, b);
    }
  }

  /**
   A readable URL stands for no transfer at all exactly when it has a range over all of
   u64; without one, it is refused exactly when it stands for too many.
   */
  lemma AcceptedUrls(ipv6: string -> bool, url: string)
    requires GlobOf(ipv6, url).Some?
    ensures var segs := GlobOf(ipv6, url).value;
      && (Total(segs) == 0 <==> exists j :: 0 <= j < |segs| && WholeU64(segs[j]))
      && (Total(segs) > 0 ==>
            (CheckedTotal(segs).Some? && CheckedTotal(segs).value <= MAX_GLOB_URLS <==> Total(segs) <= MAX_GLOB_URLS))
  {
    hide GlobOf, Total, CheckedTotal, StepsUpTo;
    GlobWellFormed(ipv6, url);
    var segs := GlobOf(ipv6, url).value;
    ZeroTotal(segs);
    if forall j :: 0 <= j < |segs| ==> SegLen(segs[j]) > 0 {
      AcceptedExactly(segs);
    }
  }

  /** A backslash before every character that means something. */
  function Escaped(s: string): string {
    if s == [] then ""
    else (if s[0] == '\\' || s[0] == '{' || s[0] == '[' then ['\\', s[0]] else [s[0]]) + Escaped(s[1..])
  }

  function Prefixed(first: seq<Piece>, rest: Option<seq<Piece>>): Option<seq<Piece>> {
    if rest.None? then None else Some(first + rest.value)
  }

  lemma {:induction false} PlainReads(ipv6: string -> bool, s: string, rest: string)
    ensures Pieces(ipv6, Escaped(s) + rest) == Prefixed(Chars(s), Pieces(ipv6, rest))
    decreases |s|
  {
    hide Pieces, FirstPiece;
    if s == [] {
      assert Escaped(s) + rest == rest;
      assert Pieces(ipv6, rest).Some? ==> Chars(s) + Pieces(ipv6, rest).value == Pieces(ipv6, rest).value;
    } else {
      PlainReads(ipv6, s[1..], rest);
      FirstOfPlain(ipv6, s, rest);
      PieceStep(ipv6, Escaped(s) + rest);
      assert Chars(s) == [Chr(s[0])] + Chars(s[1..]);
      if Pieces(ipv6, rest).Some? {
        assert [Chr(s[0])] + (Chars(s[1..]) + Pieces(ipv6, rest).value) == Chars(s) + Pieces(ipv6, rest).value;
      }
    }
  }

  lemma FirstOfPlain(ipv6: string -> bool, s: string, rest: string)
    requires s != []
    ensures FirstPiece(ipv6, Escaped(s) + rest) == Some(([Chr(s[0])], Escaped(s[1..]) + rest))
  {
    hide FirstPiece, Escaped;
    var t, after := Escaped(s) + rest, Escaped(s[1..]) + rest;
    EscapedFirst(s);
    if s[0] == '\\' || s[0] == '{' || s[0] == '[' {
      assert t == ['\\', s[0]] + after;
      assert t[2..] == after;
      FirstEscaped(ipv6, t);
    } else {
      assert t == [s[0]] + after;
      assert t[1..] == after;
      FirstAsIs(ipv6, t);
    }
  }

  lemma EscapedFirst(s: string)
    requires s != []
    ensures Escaped(s) == (if s[0] == '\\' || s[0] == '{' || s[0] == '[' then ['\\', s[0]] else [s[0]]) + Escaped(s[1..])
  {
  }

  lemma FirstEscaped(ipv6: string -> bool, t: string)
    requires |t| > 1 && t[0] == '\\'
    ensures FirstPiece(ipv6, t) == Some(([Chr(t[1])], t[2..]))
  {
  }

  lemma FirstAsIs(ipv6: string -> bool, t: string)
    requires t != [] && t[0] != '\\' && t[0] != '{' && t[0] != '['
    ensures FirstPiece(ipv6, t) == Some(([Chr(t[0])], t[1..]))
  {
  }

  /** Escaping a text makes it a literal, whatever it contains. */
  lemma EscapedIsLiteral(ipv6: string -> bool, s: string)
    ensures GlobOf(ipv6, Escaped(s)) == Some(LitOf(s))
  {
    hide Pieces, Merge;
    PlainReads(ipv6, s, "");
    NoPieces(ipv6);
    assert Escaped(s) + "" == Escaped(s);
    MergeChars("", s, []);
    assert Chars(s) + [] == Chars(s) && "" + s == s;
    MergeEnd(s);
  }

  lemma NoPieces(ipv6: string -> bool)
    ensures Pieces(ipv6, "") == Some([])
  {
  }

  lemma MergeEnd(lit: string)
    ensures Merge(lit, []) == LitOf(lit)
  {
  }
}
