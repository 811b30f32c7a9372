/**
 The storage of an in-flight download (`PartStore` in src/download.rs): bytes at
 absolute offsets, and one cell of resume state that only `SaveState` fills and that
 sizing or discarding the file clears.
 */
module PartStore {
  import opened Basics
  import opened ResumeMeta

  /** The size of the buffer that the copy loops read into. */
  const BUFFER: nat := 65536

  /** The file after writing `buf` at `at`, a hole before it reading as zeros. */
  function Patch(file: bytes, at: nat, buf: bytes): (r: bytes)
    ensures |r| == Max(|file|, at + |buf|)
    ensures forall i :: at <= i < at + |buf| ==> r[i] == buf[i - at]
    ensures forall i :: 0 <= i < |file| && (i < at || at + |buf| <= i) ==> r[i] == file[i]
  {
    DataRegion(file, at) + buf + (if at + |buf| <= |file| then file[at + |buf|..] else [])
  }

  /** `to` is `from` with nothing changed outside [at, at + size), grown at most to its end. */
  ghost predicate ChangedOnly(from: bytes, to: bytes, at: nat, size: nat) {
    && |from| <= |to| <= Max(|from|, at + size)
    && forall i :: 0 <= i < |from| && (i < at || at + size <= i) ==> to[i] == from[i]
  }

  /** The file holds `buf` at offset `at`. */
  ghost predicate HoldsAt(file: bytes, at: nat, buf: bytes) {
    && (buf != [] ==> at + |buf| <= |file|)
    && forall i :: at <= i < at + |buf| ==> file[i] == buf[i - at]
  }

  /** A successful write. */
  ghost predicate Written(from: bytes, to: bytes, at: nat, buf: bytes) {
    to == Patch(from, at, buf)
  }

  lemma NothingChanged(file: bytes, at: nat, size: nat)
    ensures ChangedOnly(file, file, at, size) && HoldsAt(file, at, [])
  {
  }

  lemma ChangesWiden(a: bytes, b: bytes, at: nat, size: nat, more: nat)
    requires ChangedOnly(a, b, at, size)
    ensures ChangedOnly(a, b, at, size + more)
  {
  }

  /** Copying the next `n` bytes of a body right after the bytes already copied. */
  lemma CopyOn(from: bytes, to: bytes, at: nat, body: bytes, wrote: nat, n: nat)
    requires wrote + n <= |body| && HoldsAt(from, at, body[..wrote])
    requires Written(from, to, at + wrote, body[wrote..wrote + n])
    ensures HoldsAt(to, at, body[..wrote + n])
  {
  }

  /** A write that failed further on leaves the copied bytes in place. */
  lemma CopyStays(from: bytes, to: bytes, at: nat, buf: bytes, size: nat)
    requires HoldsAt(from, at, buf) && ChangedOnly(from, to, at + |buf|, size)
    ensures HoldsAt(to, at, buf)
  {
  }

  lemma ChangesCompose(a: bytes, b: bytes, c: bytes, at: nat, size: nat, skip: nat)
    requires skip <= size && ChangedOnly(a, b, at, size) && ChangedOnly(b, c, at + skip, size - skip)
    ensures ChangedOnly(a, c, at, size)
  {
  }

  lemma HoldsThrough(a: bytes, b: bytes, at: nat, buf: bytes, more: bytes, size: nat)
    requires HoldsAt(a, at, buf) && ChangedOnly(a, b, at + |buf|, size) && HoldsAt(b, at + |buf|, more)
    ensures HoldsAt(b, at, buf + more)
  {
  }

  /** The file holds the content's bytes on [a, b). */
  ghost predicate Agree(file: bytes, content: bytes, a: int, b: int) {
    && 0 <= a <= b <= |file| && b <= |content|
    && forall i :: a <= i < b ==> file[i] == content[i]
  }

  lemma PatchAgrees(file: bytes, content: bytes, at: nat, k: nat, a: int, b: int)
    requires Agree(file, content, a, b) && at + k <= |content|
    ensures Agree(Patch(file, at, content[at..at + k]), content, a, b)
  {
  }

  lemma PatchExtends(file: bytes, content: bytes, at: nat, k: nat, a: int)
    requires Agree(file, content, a, at) && at + k <= |content|
    ensures Agree(Patch(file, at, content[at..at + k]), content, a, at + k)
  {
  }

  class Store {
    var file: bytes
    var state: Option<ResumeState>

    constructor ()
      ensures file == [] && state == None
    {
      file, state := [], None;
    }

    /** Write at an absolute offset. A failing write may have landed a prefix of `buf`. */
    method WriteAt(at: nat, buf: bytes, failsAfter: Option<nat>) returns (ok: bool, ghost landed: nat)
      modifies this`file
      ensures ok <==> failsAfter.None?
      ensures landed <= |buf| && (ok ==> landed == |buf|)
      ensures if landed == 0 then file == old(file) else Written(old(file), file, at, buf[..landed])
      ensures ChangedOnly(old(file), file, at, |buf|)
    {
      var k := if failsAfter.None? then |buf| else Min(failsAfter.value, |buf|);
      if k > 0 {
        file := Patch(file, at, buf[..k]);
      }
      return failsAfter.None?, k;
    }

    /** set_len: size the data region; the trailer past it is gone. */
    method SetLen(n: nat)
      modifies this
      ensures file == DataRegion(old(file), n) && state == None
    {
      file, state := DataRegion(file, n), None;
    }

    method Discard()
      modifies this
      ensures file == [] && state == None
    {
      file, state := [], None;
    }

    method SaveState(st: ResumeState)
      modifies this`state
      ensures state == Some(st)
    {
      state := Some(st);
    }
  }
}
