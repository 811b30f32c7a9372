/**
 What a partial download leaves on disk: the metadata blocks of src/download.rs
 (validators, stream and ranged metas, the chunk bitmap) and the `.rsurlpart`
 container of src/resume.rs that frames them.

 Strings are their UTF-8 bytes; the lossy decoding of the source is the identity on
 bytes that came from a string.
 */
module ResumeMeta {
  import opened Basics
  import opened Arithmetic

  type bytes = seq<byte>

  // ---- little-endian integers ------------------------------------------------------

  function Pow256(w: nat): (r: nat)
    ensures r > 0
  {
    if w == 0 then 1 else 256 * Pow256(w - 1)
  }

  /** The low `w` bytes of `n`; a narrowing cast followed by to_le_bytes. */
  function LeBytes(n: nat, w: nat): (r: bytes)
    ensures |r| == w
    decreases w
  {
    if w == 0 then [] else [n % 256] + LeBytes(n / 256, w - 1)
  }

  function LeValue(p: bytes): nat {
    if p == [] then 0 else p[0] + 256 * LeValue(p[1..])
  }

  /** The least significant byte comes first. */
  lemma {:induction false} LeBytesAt(n: nat, w: nat, i: nat)
    requires i < w
    ensures LeBytes(n, w)[i] == n / Pow256(i) % 256
    decreases w
  {
    hide Pow256;
    if i == 0 {
      PowerStep(0);
    } else {
      var tail := LeBytes(n / 256, w - 1);
      LeBytesAt(n / 256, w - 1, i - 1);
      assert LeBytes(n, w)[i] == tail[i - 1];
      PowerStep(i);
      DivideTwice(n, Pow256(i - 1));
    }
  }

  lemma PowerStep(w: nat)
    ensures Pow256(w) == if w == 0 then 1 else 256 * Pow256(w - 1)
  {
  }

  lemma DivideTwice(n: nat, k: nat)
    requires k > 0
    ensures n / 256 / k == n / (256 * k)
  {
    var m := n / 256;
    var a, b, q := n % 256, m % k, m / k;
    assert m == k * q + b;
    Regroup(k, q, b);
    DivUnique(n, 256 * k, q, 256 * b + a);
  }

  lemma Regroup(k: nat, q: nat, b: nat)
    ensures 256 * (k * q + b) == 256 * k * q + 256 * b
  {
  }

  lemma {:induction false} LeRoundTrip(n: nat, w: nat)
    requires n < Pow256(w)
    ensures LeValue(LeBytes(n, w)) == n
    decreases w
  {
    if w > 0 {
      LeRoundTrip(n / 256, w - 1);
      assert LeBytes(n, w)[1..] == LeBytes(n / 256, w - 1);
    }
  }

  lemma {:induction false} LeBounded(p: bytes)
    ensures LeValue(p) < Pow256(|p|)
  {
    if p != [] {
      LeBounded(p[1..]);
    }
  }

  lemma Widths()
    ensures Pow256(2) == U16_LIMIT && Pow256(4) == U32_LIMIT && Pow256(8) == U64_LIMIT
  {
    assert Pow256(4) == 256 * (256 * (256 * (256 * Pow256(0))));
    assert Pow256(8) == 256 * (256 * (256 * (256 * Pow256(4))));
  }

  // ---- validators ------------------------------------------------------------------

  datatype Validators = Validators(url: bytes, etag: bytes, lastModified: bytes)

  /** Rust's slice get(from..to). */
  function Slice(p: bytes, from: nat, to: nat): Option<bytes> {
    if from <= to <= |p| then Some(p[from..to]) else None
  }

  function EncodeString(s: bytes): bytes {
    LeBytes(|s|, 2) + s
  }

  function EncodeValidators(v: Validators): bytes {
    EncodeString(v.url) + EncodeString(v.etag) + EncodeString(v.lastModified)
  }

  /** One length-prefixed string and what follows it. */
  function TakeString(p: bytes): Option<(bytes, bytes)> {
    if |p| < 2 then None
    else
      var n := LeValue(p[..2]);
      var s :- Slice(p, 2, 2 + n);
      Some((s, p[2 + n..]))
  }

  function DecodeValidators(p: bytes): Option<Validators> {
    var (url, p1) :- TakeString(p);
    var (etag, p2) :- TakeString(p1);
    var (lm, _) :- TakeString(p2);
    Some(Validators(url, etag, lm))
  }

  /** The lengths the u16 prefixes can carry. */
  predicate Encodable(v: Validators) {
    |v.url| < U16_LIMIT && |v.etag| < U16_LIMIT && |v.lastModified| < U16_LIMIT
  }

  lemma TakeEncoded(s: bytes, rest: bytes)
    requires |s| < U16_LIMIT
    ensures TakeString(EncodeString(s) + rest) == Some((s, rest))
  {
    Widths();
    LeRoundTrip(|s|, 2);
    var p := EncodeString(s) + rest;
    assert p[..2] == LeBytes(|s|, 2);
    assert p[2..2 + |s|] == s;
    assert p[2 + |s|..] == rest;
  }

  lemma TakenIsShort(p: bytes)
    ensures TakeString(p).Some? ==> |TakeString(p).value.0| < U16_LIMIT
  {
    if |p| >= 2 {
      Widths();
      LeBounded(p[..2]);
    }
  }

  lemma DecodeEncodedValidators(v: Validators)
    requires Encodable(v)
    ensures DecodeValidators(EncodeValidators(v)) == Some(v)
  {
    var last := EncodeString(v.lastModified);
    assert EncodeValidators(v) == EncodeString(v.url) + (EncodeString(v.etag) + last);
    TakeEncoded(v.url, EncodeString(v.etag) + last);
    TakeEncoded(v.etag, last);
    assert last == last + [];
    TakeEncoded(v.lastModified, []);
  }

  lemma DecodedIsEncodable(p: bytes)
    ensures DecodeValidators(p).Some? ==> Encodable(DecodeValidators(p).value)
  {
    TakenIsShort(p);
    if TakeString(p).Some? {
      var p1 := TakeString(p).value.1;
      TakenIsShort(p1);
      if TakeString(p1).Some? {
        TakenIsShort(TakeString(p1).value.1);
      }
    }
  }

  // ---- the two meta blocks -----------------------------------------------------------

  function StreamMeta(total: nat, done: nat, v: Validators): bytes {
    LeBytes(total, 8) + LeBytes(done, 8) + EncodeValidators(v)
  }

  function ParseStreamMeta(meta: bytes): Option<(nat, Validators)> {
    if |meta| < 16 then None
    else
      var v :- DecodeValidators(meta[16..]);
      Some((LeValue(meta[8..16]), v))
  }

  function RangedMeta(key: nat, total: nat, v: Validators, bitmap: bytes): bytes {
    var tail := EncodeValidators(v);
    LeBytes(key, 4) + LeBytes(total, 8) + LeBytes(|tail|, 4) + tail + bitmap
  }

  function ParseRangedMeta(meta: bytes): Option<(nat, Validators, bytes)> {
    if |meta| < 16 then None
    else
      var vlen := LeValue(meta[12..16]);
      var rest := meta[16..];
      var tail :- Slice(rest, 0, vlen);
      var v :- DecodeValidators(tail);
      Some((LeValue(meta[0..4]), v, rest[vlen..]))
  }

  /** A stream meta reads back exactly when every validator string fits its u16 prefix. */
  lemma StreamMetaRoundTrip(total: nat, done: nat, v: Validators)
    requires total < U64_LIMIT && done < U64_LIMIT
    ensures ParseStreamMeta(StreamMeta(total, done, v)) == Some((done, v)) <==> Encodable(v)
  {
    var meta := StreamMeta(total, done, v);
    assert meta[16..] == EncodeValidators(v);
    assert meta[8..16] == LeBytes(done, 8);
    Widths();
    LeRoundTrip(done, 8);
    if Encodable(v) {
      DecodeEncodedValidators(v);
    } else {
      DecodedIsEncodable(meta[16..]);
    }
  }

  lemma ParseRangedIsEncodable(meta: bytes)
    ensures ParseRangedMeta(meta).Some? ==> Encodable(ParseRangedMeta(meta).value.1)
  {
    if |meta| >= 16 {
      var tail := Slice(meta[16..], 0, LeValue(meta[12..16]));
      if tail.Some? {
        DecodedIsEncodable(tail.value);
      }
    }
  }

  /** A field of a concatenation is where the lengths before it put it. */
  lemma Cut(p: bytes, pre: bytes, field: bytes, post: bytes)
    requires p == pre + field + post
    ensures p[|pre|..|pre| + |field|] == field && p[|pre| + |field|..] == post
  {
  }

  lemma RangedFields(k: bytes, n: bytes, l: bytes, tail: bytes)
    requires |k| == 4 && |n| == 8 && |l| == 4
    ensures
      var meta := k + n + l + tail;
      meta[0..4] == k && meta[12..16] == l && meta[16..] == tail
  {
    Cut(k + n + l + tail, k + n, l, tail);
  }

  /** A ranged meta reads back exactly when every validator string fits its u16 prefix. */
  lemma RangedMetaRoundTrip(key: nat, total: nat, v: Validators, bitmap: bytes)
    requires key < U32_LIMIT && total < U64_LIMIT
    ensures ParseRangedMeta(RangedMeta(key, total, v, bitmap)) == Some((key, v, bitmap)) <==> Encodable(v)
  {
    if Encodable(v) {
      var tail := EncodeValidators(v);
      RangedFields(LeBytes(key, 4), LeBytes(total, 8), LeBytes(|tail|, 4), tail + bitmap);
      assert RangedMeta(key, total, v, bitmap)
          == LeBytes(key, 4) + LeBytes(total, 8) + LeBytes(|tail|, 4) + (tail + bitmap);
      assert (tail + bitmap)[..|tail|] == tail && (tail + bitmap)[|tail|..] == bitmap;
      Widths();
      LeRoundTrip(key, 4);
      LeRoundTrip(|tail|, 4);
      DecodeEncodedValidators(v);
    } else {
      ParseRangedIsEncodable(RangedMeta(key, total, v, bitmap));
    }
  }

  // ---- the chunk bitmap ---------------------------------------------------------------

  /** `b & (1 << k) != 0` */
  predicate Bit(b: nat, k: nat) {
    if k == 0 then b % 2 == 1 else Bit(b / 2, k - 1)
  }

  /** `b | (1 << k)` */
  function OrBit(b: nat, k: nat): nat {
    if k == 0 then (if b % 2 == 1 then b else b + 1) else 2 * OrBit(b / 2, k - 1) + b % 2
  }

  function Pow2(n: nat): nat {
    if n == 0 then 1 else 2 * Pow2(n - 1)
  }

  lemma {:induction false} OrBitSets(b: nat, k: nat, j: nat)
    ensures Bit(OrBit(b, k), j) == (j == k || Bit(b, j))
    decreases k
  {
    if k > 0 && j > 0 {
      OrBitSets(b / 2, k - 1, j - 1);
    }
  }

  lemma {:induction false} OrBitFits(b: nat, k: nat, n: nat)
    requires b < Pow2(n) && k < n
    ensures OrBit(b, k) < Pow2(n)
    decreases k
  {
    if k > 0 {
      assert Pow2(n) == 2 * Pow2(n - 1);
      var half := OrBit(b / 2, k - 1);
      OrBitFits(b / 2, k - 1, n - 1);
      assert OrBit(b, k) == 2 * half + b % 2;
    }
  }

  /** Setting a bit of a byte gives a byte. */
  lemma OrBitIsByte(b: byte, k: nat)
    requires k < 8
    ensures OrBit(b, k) < 256
  {
    assert Pow2(4) == 16;
    assert Pow2(8) == 256;
    OrBitFits(b, k, 8);
  }

  predicate BitGet(bits: bytes, i: nat)
    requires i / 8 < |bits|
  {
    Bit(bits[i / 8], i % 8)
  }

  function BitSet(bits: bytes, i: nat): bytes
    requires i / 8 < |bits|
  {
    OrBitIsByte(bits[i / 8], i % 8);
    bits[i / 8 := OrBit(bits[i / 8], i % 8)]
  }

  /** Setting a bit makes that bit and only that bit read as set. */
  lemma BitSetGet(bits: bytes, i: nat, j: nat)
    requires i / 8 < |bits| && j / 8 < |bits|
    ensures BitGet(BitSet(bits, i), j) == (j == i || BitGet(bits, j))
  {
    if i / 8 == j / 8 {
      OrBitSets(bits[i / 8], i % 8, j % 8);
    }
  }

  /** vec![0; n.div_ceil(8)] */
  function EmptyBitmap(n: nat): bytes {
    seq(DivCeil(n, 8), _ => 0)
  }

  lemma EmptyBitmapClear(n: nat, i: nat)
    requires i < n
    ensures i / 8 < |EmptyBitmap(n)| && !BitGet(EmptyBitmap(n), i)
  {
    ZeroHasNoBits(i % 8);
  }

  lemma {:induction false} ZeroHasNoBits(k: nat)
    ensures !Bit(0, k)
  {
    if k > 0 {
      ZeroHasNoBits(k - 1);
    }
  }

  // ---- the .rsurlpart container ---------------------------------------------------------

  datatype Kind = Torrent | HttpStream | HttpRanged

  datatype ResumeState = ResumeState(realSize: nat, kind: Kind, meta: bytes)

  const MAGIC: bytes := [0x52, 0x53, 0x55, 0x52, 0x4C, 0x50, 0x52, 0x54]
  const VERSION: nat := 1
  const TRAILER_LEN: nat := 32

  function KindCode(k: Kind): nat {
    match k case Torrent => 1 case HttpStream => 2 case HttpRanged => 3
  }

  function KindOf(code: nat): Option<Kind> {
    if code == 1 then Some(Torrent)
    else if code == 2 then Some(HttpStream)
    else if code == 3 then Some(HttpRanged)
    else None
  }

  function Trailer(st: ResumeState, crc: nat): bytes {
    MAGIC + LeBytes(VERSION, 2) + LeBytes(KindCode(st.kind), 2)
    + LeBytes(st.realSize, 8) + LeBytes(|st.meta|, 8) + LeBytes(crc, 4)
  }

  /** The first `n` bytes of a file, reading a hole past its end as zeros. */
  function DataRegion(file: bytes, n: nat): bytes {
    if n <= |file| then file[..n] else file + seq(n - |file|, _ => 0)
  }

  /** write_state; None when the end offset overflows u64. */
  function WriteState(crc32: bytes -> nat, file: bytes, st: ResumeState): Option<bytes> {
    if st.realSize + |st.meta| + TRAILER_LEN >= U64_LIMIT then None
    else Some(DataRegion(file, st.realSize) + st.meta + Trailer(st, crc32(st.meta)))
  }

  /** read_state; None when there is no usable state. */
  function ReadState(crc32: bytes -> nat, file: bytes): Option<ResumeState> {
    if |file| < TRAILER_LEN then None
    else
      var t := file[|file| - TRAILER_LEN..];
      if t[0..8] != MAGIC || LeValue(t[8..10]) != VERSION then None
      else
        var kind :- KindOf(LeValue(t[10..12]));
        var size, metaLen := LeValue(t[12..20]), LeValue(t[20..28]);
        if size + metaLen + TRAILER_LEN != |file| then None
        else
          var meta := file[size..size + metaLen];
          if crc32(meta) != LeValue(t[28..32]) then None else Some(ResumeState(size, kind, meta))
  }

  lemma TrailerLayout(m: bytes, v: bytes, k: bytes, n: bytes, l: bytes, c: bytes)
    requires |m| == 8 && |v| == 2 && |k| == 2 && |n| == 8 && |l| == 8 && |c| == 4
    ensures
      var t := m + v + k + n + l + c;
      && t[0..8] == m && t[8..10] == v && t[10..12] == k && t[12..20] == n && t[20..28] == l && t[28..32] == c
  {
    var t4 := m + v + k + n;
    var t := t4 + l + c;
    assert t4[0..8] == m && t4[8..10] == v && t4[10..12] == k && t4[12..20] == n;
    assert t[0..8] == t4[0..8] && t[8..10] == t4[8..10] && t[10..12] == t4[10..12] && t[12..20] == t4[12..20];
  }

  /** The numbers a trailer-shaped block carries, for any widths' worth of values. */
  lemma LayoutValues(version: nat, code: nat, size: nat, metaLen: nat, crc: nat)
    requires version < U16_LIMIT && code < U16_LIMIT && size < U64_LIMIT && metaLen < U64_LIMIT && crc < U32_LIMIT
    ensures
      var t := MAGIC + LeBytes(version, 2) + LeBytes(code, 2) + LeBytes(size, 8) + LeBytes(metaLen, 8) + LeBytes(crc, 4);
      && t[0..8] == MAGIC && LeValue(t[8..10]) == version && LeValue(t[10..12]) == code
      && LeValue(t[12..20]) == size && LeValue(t[20..28]) == metaLen && LeValue(t[28..32]) == crc
  {
    Widths();
    TrailerLayout(MAGIC, LeBytes(version, 2), LeBytes(code, 2), LeBytes(size, 8), LeBytes(metaLen, 8), LeBytes(crc, 4));
    LeRoundTrip(version, 2);
    LeRoundTrip(code, 2);
    LeRoundTrip(size, 8);
    LeRoundTrip(metaLen, 8);
    LeRoundTrip(crc, 4);
  }

  lemma TrailerFields(st: ResumeState, crc: nat)
    requires st.realSize < U64_LIMIT && |st.meta| < U64_LIMIT && crc < U32_LIMIT
    ensures
      var t := Trailer(st, crc);
      && |t| == TRAILER_LEN && t[0..8] == MAGIC && LeValue(t[8..10]) == VERSION
      && KindOf(LeValue(t[10..12])) == Some(st.kind)
      && LeValue(t[12..20]) == st.realSize && LeValue(t[20..28]) == |st.meta| && LeValue(t[28..32]) == crc
  {
    LayoutValues(VERSION, KindCode(st.kind), st.realSize, |st.meta|, crc);
  }

  const CHECKSUM_AT: nat := 28

  /** A trailer right up to its checksum decides all but whether the meta block is believed. */
  lemma ReadWithChecksum(crc32: bytes -> nat, data: bytes, st: ResumeState, t: bytes)
    requires |data| == st.realSize && st.realSize + |st.meta| + TRAILER_LEN < U64_LIMIT
    requires |t| == TRAILER_LEN && t[..CHECKSUM_AT] == Trailer(st, 0)[..CHECKSUM_AT]
    ensures ReadState(crc32, data + st.meta + t) == if crc32(st.meta) == LeValue(t[28..32]) then Some(st) else None
  {
    hide LeValue, Trailer, KindOf;
    TrailerFields(st, 0);
    SameFields(t, Trailer(st, 0));
    var f := data + st.meta + t;
    assert f[|f| - TRAILER_LEN..] == t;
    assert f[st.realSize..st.realSize + |st.meta|] == st.meta;
  }

  lemma SameFields(a: bytes, b: bytes)
    requires |a| == |b| == TRAILER_LEN && a[..CHECKSUM_AT] == b[..CHECKSUM_AT]
    ensures a[0..8] == b[0..8] && a[8..10] == b[8..10] && a[10..12] == b[10..12]
         && a[12..20] == b[12..20] && a[20..28] == b[20..28]
  {
    SameSlice(a, b, 0, 8);
    SameSlice(a, b, 8, 10);
    SameSlice(a, b, 10, 12);
    SameSlice(a, b, 12, 20);
    SameSlice(a, b, 20, 28);
  }

  lemma SameSlice(a: bytes, b: bytes, i: nat, j: nat)
    requires |a| == |b| == TRAILER_LEN && a[..CHECKSUM_AT] == b[..CHECKSUM_AT] && i <= j <= CHECKSUM_AT
    ensures a[i..j] == b[i..j]
  {
    SliceOfPrefix(a, i, j, CHECKSUM_AT);
    SliceOfPrefix(b, i, j, CHECKSUM_AT);
  }

  lemma SliceOfPrefix(a: bytes, i: nat, j: nat, n: nat)
    requires i <= j <= n <= |a|
    ensures a[..n][i..j] == a[i..j]
  {
  }

  lemma HeadOfTrailer(st: ResumeState, crc: nat)
    ensures |Trailer(st, crc)| == TRAILER_LEN
    ensures Trailer(st, crc)[..CHECKSUM_AT] == TrailerHead(st) && Trailer(st, crc)[28..32] == LeBytes(crc, 4)
  {
    Cut(Trailer(st, crc), TrailerHead(st), LeBytes(crc, 4), []);
    var t := Trailer(st, crc);
    assert t[..CHECKSUM_AT] == TrailerHead(st);
  }

  function TrailerHead(st: ResumeState): (r: bytes)
    ensures |r| == CHECKSUM_AT
  {
    MAGIC + LeBytes(VERSION, 2) + LeBytes(KindCode(st.kind), 2) + LeBytes(st.realSize, 8) + LeBytes(|st.meta|, 8)
  }

  /** State written over any file reads back unchanged, and the data region is untouched. */
  lemma ContainerRoundTrip(crc32: bytes -> nat, file: bytes, st: ResumeState)
    requires crc32(st.meta) < U32_LIMIT
    ensures
      var out := WriteState(crc32, file, st);
      out.Some? ==>
        && ReadState(crc32, out.value) == Some(st)
        && DataRegion(out.value, st.realSize) == DataRegion(file, st.realSize)
  {
    hide ReadState, Trailer, LeValue;
    if WriteState(crc32, file, st).Some? {
      TrailerReads(crc32, DataRegion(file, st.realSize), st, crc32(st.meta));
    }
  }

  lemma TrailerReads(crc32: bytes -> nat, data: bytes, st: ResumeState, crc: nat)
    requires |data| == st.realSize && st.realSize + |st.meta| + TRAILER_LEN < U64_LIMIT && crc < U32_LIMIT
    ensures ReadState(crc32, data + st.meta + Trailer(st, crc)) == if crc32(st.meta) == crc then Some(st) else None
  {
    hide ReadState, Trailer, LeValue, TrailerHead;
    HeadOfTrailer(st, crc);
    HeadOfTrailer(st, 0);
    LeRoundTrip(crc, 4);
    Widths();
    ReadWithChecksum(crc32, data, st, Trailer(st, crc));
  }

  /** A meta block that its trailer's checksum does not fit is reported as no state. */
  lemma TornWriteIsNoState(crc32: bytes -> nat, data: bytes, st: ResumeState, torn: bytes)
    requires crc32(st.meta) < U32_LIMIT && st.realSize + |st.meta| + TRAILER_LEN < U64_LIMIT
    requires |data| == st.realSize && |torn| == |st.meta| && crc32(torn) != crc32(st.meta)
    ensures ReadState(crc32, data + torn + Trailer(st, crc32(st.meta))) == None
  {
    hide ReadState, LeValue;
    TrailerReads(crc32, data, st.(meta := torn), crc32(st.meta));
  }

  /** A block of the new bytes up to `k` and the earlier ones behind. */
  function Mixed(next: bytes, prior: bytes, k: nat): bytes
    requires |next| == |prior| && k <= |next|
  {
    next[..k] + prior[k..]
  }

  /** No blend of the two meta blocks passes for the earlier one by its checksum. */
  ghost predicate NoClash(crc32: bytes -> nat, next: bytes, prior: bytes)
    requires |next| == |prior|
  {
    forall k :: 0 <= k <= |next| && Mixed(next, prior, k) != prior && Mixed(next, prior, k) != next ==>
      crc32(Mixed(next, prior, k)) != crc32(prior)
  }

  /** What write_state puts behind the data. */
  function StateBytes(crc32: bytes -> nat, st: ResumeState): (r: bytes)
    ensures |r| == |st.meta| + TRAILER_LEN
  {
    st.meta + Trailer(st, crc32(st.meta))
  }

  /**
   A state saved over an earlier one of the same download, cut off after any number of
   bytes, reads as the earlier state, as the new one, or as none, unless checksums clash.
   */
  lemma InterruptedSave(crc32: bytes -> nat, data: bytes, prior: ResumeState, st: ResumeState, k: nat)
    requires |data| == st.realSize && st.realSize + |st.meta| + TRAILER_LEN < U64_LIMIT
    requires prior.realSize == st.realSize && prior.kind == st.kind && |prior.meta| == |st.meta|
    requires crc32(prior.meta) < U32_LIMIT && NoClash(crc32, st.meta, prior.meta)
    requires k <= |st.meta| + TRAILER_LEN
    ensures WriteState(crc32, data, prior) == Some(data + StateBytes(crc32, prior))
    ensures WriteState(crc32, data + StateBytes(crc32, prior), st) == Some(data + StateBytes(crc32, st))
    ensures ReadState(crc32, data + Mixed(StateBytes(crc32, st), StateBytes(crc32, prior), k)) in {None, Some(prior), Some(st)}
  {
    hide Trailer, ReadState, NoClash, LeValue, TrailerHead;
    var n := |st.meta|;
    assert DataRegion(data, st.realSize) == data && DataRegion(data + StateBytes(crc32, prior), st.realSize) == data;
    assert data + StateBytes(crc32, prior) == data + prior.meta + Trailer(prior, crc32(prior.meta));
    assert data + StateBytes(crc32, st) == data + st.meta + Trailer(st, crc32(st.meta));
    if k <= n {
      CutInMeta(crc32, data, prior, st, k);
    } else {
      CutInTrailer(crc32, data, prior, st, k - n);
    }
  }

  lemma MixedLeft(a: bytes, a': bytes, b: bytes, b': bytes, k: nat)
    requires |a| == |b| && |a'| == |b'| && k <= |a|
    ensures Mixed(a + a', b + b', k) == Mixed(a, b, k) + b'
  {
  }

  lemma MixedRight(a: bytes, a': bytes, b: bytes, b': bytes, j: nat)
    requires |a| == |b| && |a'| == |b'| && j <= |a'|
    ensures Mixed(a + a', b + b', |a| + j) == a + Mixed(a', b', j)
  {
    assert (a + a')[..|a| + j] == a + a'[..j];
    assert (b + b')[|a| + j..] == b'[j..];
    Associate(a, a'[..j], b'[j..]);
  }

  lemma CutInMeta(crc32: bytes -> nat, data: bytes, prior: ResumeState, st: ResumeState, k: nat)
    requires |data| == st.realSize && st.realSize + |st.meta| + TRAILER_LEN < U64_LIMIT
    requires prior.realSize == st.realSize && prior.kind == st.kind && |prior.meta| == |st.meta|
    requires crc32(prior.meta) < U32_LIMIT && NoClash(crc32, st.meta, prior.meta) && k <= |st.meta|
    ensures ReadState(crc32, data + Mixed(StateBytes(crc32, st), StateBytes(crc32, prior), k)) in {None, Some(prior), Some(st)}
  {
    hide ReadState, LeValue, TrailerHead;
    var blend := st.(meta := Mixed(st.meta, prior.meta, k));
    var b := Trailer(prior, crc32(prior.meta));
    HeadOfTrailer(prior, crc32(prior.meta));
    MixedLeft(st.meta, Trailer(st, crc32(st.meta)), prior.meta, b, k);
    HeadOfTrailer(st, crc32(st.meta));
    Associate(data, blend.meta, b);
    assert b == Trailer(blend, crc32(prior.meta));
    hide Trailer;
    TrailerReads(crc32, data, blend, crc32(prior.meta));
  }

  lemma CutInTrailer(crc32: bytes -> nat, data: bytes, prior: ResumeState, st: ResumeState, j: nat)
    requires |data| == st.realSize && st.realSize + |st.meta| + TRAILER_LEN < U64_LIMIT
    requires prior.realSize == st.realSize && prior.kind == st.kind && |prior.meta| == |st.meta| && j <= TRAILER_LEN
    ensures ReadState(crc32, data + Mixed(StateBytes(crc32, st), StateBytes(crc32, prior), |st.meta| + j)) in {None, Some(st)}
  {
    hide ReadState, LeValue, Trailer;
    var a, b := Trailer(st, crc32(st.meta)), Trailer(prior, crc32(prior.meta));
    HeadOfTrailer(st, crc32(st.meta));
    HeadOfTrailer(prior, crc32(prior.meta));
    HeadOfTrailer(st, 0);
    var t := Mixed(a, b, j);
    BlendedHead(a, b, j);
    MixedRight(st.meta, a, prior.meta, b, j);
    Associate(data, st.meta, t);
    ReadWithChecksum(crc32, data, st, t);
  }

  lemma BlendedHead(a: bytes, b: bytes, k: nat)
    requires |a| == |b| == TRAILER_LEN && a[..CHECKSUM_AT] == b[..CHECKSUM_AT] && k <= TRAILER_LEN
    ensures |Mixed(a, b, k)| == TRAILER_LEN && Mixed(a, b, k)[..CHECKSUM_AT] == a[..CHECKSUM_AT]
  {
    var t := Mixed(a, b, k);
    forall i | 0 <= i < CHECKSUM_AT
      ensures t[i] == a[i]
    {
      assert a[..CHECKSUM_AT][i] == b[..CHECKSUM_AT][i];
    }
  }
}
