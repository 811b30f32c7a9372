/**
 The single-stream mode of src/download.rs: `run_single`, `attempt_single`,
 `stream_to_store` and the stream state they persist.

 Attempt `k` meets `env(k)`: a version of the resource and what goes wrong. The server
 is honest: `Respond` turns the environment's intent into a reply that carries bytes of
 one version, describes them truthfully, honours `If-Range`, and sends 206 or 416 only
 to a request with a `Range`. The process may be killed before any read and after any write.
 */
module SingleStream {
  import opened Basics
  import opened ResumeMeta
  import opened Origin
  import opened PartStore
  import opened RetryBudget

  /** One pass of the copy loop. */
  datatype Tick = Tick(kill: bool, readFails: bool, n: nat, writeFails: Option<nat>,
                       killAfterWrite: bool, slow: bool, save: bool, torn: bool)

  /** What the environment intends for one attempt, `w` being the version served. */
  datatype Intent =
    | NoResponse(transient: bool)
    | Status(code: nat)
    | Full(w: Version, end: nat, hasLength: bool, acceptsRanges: bool, setLenFails: bool, ticks: nat -> Tick)
    | Partial(w: Version, start: nat, end: nat, hasTotal: bool, setLenFails: bool, ticks: nat -> Tick)
    | Unsatisfied(w: Version, hasTotal: bool, ticks: nat -> Tick)

  /**
   The reply the client sees. Its body ends before byte `end` of the version: with a stated
   length that is the last, without one it is wherever the peer closes the connection.
   */
  datatype Reply =
    | SendFails(transient: bool)
    | OtherStatus(code: nat)
    | Ok200(w: Version, end: nat, length: Option<nat>, acceptsRanges: bool, setLenFails: bool, ticks: nat -> Tick)
    | Partial206(w: Version, start: nat, end: nat, total: Option<nat>, setLenFails: bool, ticks: nat -> Tick)
    | Unsatisfied416(total: Option<nat>)

  function FullReply(w: Version, end: nat, hasLength: bool, acceptsRanges: bool, setLenFails: bool, ticks: nat -> Tick): Reply {
    var size := |w.content|;
    Ok200(w, if hasLength || end > size then size else end, if hasLength then Some(size) else None, acceptsRanges, setLenFails, ticks)
  }

  /** The honest server, for a request with `Range: bytes=have-` (when have > 0) and this If-Range. */
  function Respond(url: bytes, intent: Intent, have: nat, ifRange: bytes): Reply {
    match intent
    case NoResponse(transient) => SendFails(transient)
    case Status(code) => if 300 <= code && code != 416 then OtherStatus(code) else OtherStatus(500)
    case Full(w, end, hasLength, acceptsRanges, fails, ticks) => FullReply(w, end, hasLength, acceptsRanges, fails, ticks)
    case Partial(w, start, end, hasTotal, fails, ticks) =>
      if have > 0 && Answers(url, ifRange, w) && start < |w.content| && start <= end <= |w.content| then
        Partial206(w, start, end, if hasTotal then Some(|w.content|) else None, fails, ticks)
      else FullReply(w, |w.content|, true, true, fails, ticks)
    case Unsatisfied(w, hasTotal, ticks) =>
      if have > 0 && Answers(url, ifRange, w) && have >= |w.content| then
        Unsatisfied416(if hasTotal then Some(|w.content|) else None)
      else FullReply(w, |w.content|, true, true, false, ticks)
  }

  /** The versions of one resource, told apart by validators that fit the meta block. */
  datatype Config = Config(url: bytes, versions: seq<Version>, maxSize: Option<nat>)

  ghost predicate World(cfg: Config) {
    && (forall v, w :: v in cfg.versions && w in cfg.versions ==> ToldApart(cfg, v, w))
    && (forall v :: v in cfg.versions ==> |v.content| < U64_LIMIT && Encodable(ValidatorsOf(cfg.url, v)))
  }

  predicate ToldApart(cfg: Config, v: Version, w: Version) {
    Answers(cfg.url, IfRange(ValidatorsOf(cfg.url, v)), w) ==> v == w
  }

  ghost predicate Serves(cfg: Config, intent: Intent) {
    intent.Full? || intent.Partial? || intent.Unsatisfied? ==> intent.w in cfg.versions
  }

  // ---- the persisted state ------------------------------------------------------------

  /** load_stream_state: the offset, validators and size a previous run left, if they are ours. */
  function LoadStream(url: bytes, state: Option<ResumeState>): Option<(nat, Validators, nat)> {
    var st :- state;
    if st.kind != HttpStream then None
    else
      var (done, v) :- ParseStreamMeta(st.meta);
      if v.url == url && done <= st.realSize then Some((done, v, st.realSize)) else None
  }

  /** What the state on disk claims is true of the file, for version `ver`. */
  ghost predicate StateSound(cfg: Config, file: bytes, state: Option<ResumeState>, ver: Version) {
    var l := LoadStream(cfg.url, state);
    l.Some? ==>
      && ver in cfg.versions && l.value.1 == ValidatorsOf(cfg.url, ver) && l.value.2 == |ver.content|
      && Agree(file, ver.content, 0, l.value.0)
  }

  /** The first `have` bytes are a prefix of the version the validators name, whose size is the known one. */
  ghost predicate HaveSound(cfg: Config, file: bytes, have: nat, v: Validators, known: Option<nat>, ver: Version) {
    have > 0 ==>
      && ver in cfg.versions && v == ValidatorsOf(cfg.url, ver)
      && Agree(file, ver.content, 0, have)
      && (known.Some? ==> known.value == |ver.content|)
  }

  lemma SavedIsSound(cfg: Config, file: bytes, done: nat, ver: Version)
    requires World(cfg) && ver in cfg.versions && Agree(file, ver.content, 0, done)
    ensures StateSound(cfg, file,
                       Some(ResumeState(|ver.content|, HttpStream,
                                        StreamMeta(|ver.content|, done, ValidatorsOf(cfg.url, ver)))), ver)
  {
    StreamMetaRoundTrip(|ver.content|, done, ValidatorsOf(cfg.url, ver));
  }

  /** Writing the version's own bytes further on keeps what the state claims. */
  lemma StateThroughWrite(cfg: Config, from: bytes, to: bytes, state: Option<ResumeState>, ver: Version, at: nat, buf: bytes)
    requires StateSound(cfg, from, state, ver) && at + |buf| <= |ver.content| && buf == ver.content[at..at + |buf|]
    requires Written(from, to, at, buf)
    ensures StateSound(cfg, to, state, ver)
  {
    var l := LoadStream(cfg.url, state);
    if l.Some? {
      PatchAgrees(from, ver.content, at, |buf|, 0, l.value.0);
    }
  }

  lemma PrefixGrows(from: bytes, to: bytes, ver: Version, at: nat, buf: bytes)
    requires Agree(from, ver.content, 0, at) && at + |buf| <= |ver.content| && buf == ver.content[at..at + |buf|]
    requires Written(from, to, at, buf)
    ensures Agree(to, ver.content, 0, at + |buf|)
  {
    PatchExtends(from, ver.content, at, |buf|, 0);
  }

  lemma PrefixStays(from: bytes, to: bytes, content: bytes, n: nat, size: nat)
    requires Agree(from, content, 0, n) && ChangedOnly(from, to, n, size)
    ensures Agree(to, content, 0, n)
  {
  }

  lemma NoStateIsSound(cfg: Config, file: bytes, ver: Version)
    ensures StateSound(cfg, file, None, ver)
  {
  }

  lemma PrefixThroughSetLen(file: bytes, content: bytes, have: nat, n: nat)
    requires Agree(file, content, 0, have) && have <= n
    ensures Agree(DataRegion(file, n), content, 0, have)
  {
  }

  /** A saved state of the segmented mode. */
  predicate Ranged(state: Option<ResumeState>) {
    state.Some? && state.value.kind == HttpRanged
  }

  lemma EmptyPrefix(file: bytes, content: bytes)
    ensures Agree(file, content, 0, 0)
  {
  }

  // ---- one attempt ---------------------------------------------------------------------------

  datatype Attempt =
    | Done(written: nat)
    | Fatal
    | Transient(written: nat, resumable: bool)
    | Killed

  /** persist_stream: nothing without a total; a torn write reads back as no state. */
  method Persist(cfg: Config, store: Store, total: Option<nat>, done: nat, v: Validators, torn: bool, ghost ver: Version)
    requires World(cfg) && ver in cfg.versions && v == ValidatorsOf(cfg.url, ver)
    requires StateSound(cfg, store.file, store.state, ver) && Agree(store.file, ver.content, 0, done)
    requires total.Some? ==> total.value == |ver.content|
    modifies store`state
    ensures StateSound(cfg, store.file, store.state, ver)
    ensures Ranged(store.state) ==> store.state == old(store.state)
    ensures total.None? ==> store.state == old(store.state)
    ensures total.Some? ==> LoadStream(cfg.url, store.state) == if torn then None else Some((done, v, total.value))
  {
    hide StateSound, Agree;
    if total.Some? {
      if torn {
        store.state := None;
        NoStateIsSound(cfg, store.file, ver);
      } else {
        store.SaveState(ResumeState(total.value, HttpStream, StreamMeta(total.value, done, v)));
        AgreeBounds(store.file, ver.content, done);
        SavedIsSound(cfg, store.file, done, ver);
        StreamMetaRoundTrip(total.value, done, v);
      }
    }
  }

  lemma AgreeBounds(file: bytes, content: bytes, n: nat)
    requires Agree(file, content, 0, n)
    ensures n <= |file| && n <= |content|
  {
  }

  /** The last state write of a copy: none yet, one that was torn, or one of this offset. */
  datatype Mark = Unsaved | Torn | SavedAt(offset: nat)

  function MarkOf(torn: bool, offset: nat): Mark {
    if torn then Torn else SavedAt(offset)
  }

  /** What a later run loads after such a write; a copy of unknown size writes nothing. */
  function LoadMark(mark: Mark, v: Validators, total: Option<nat>, before: Option<(nat, Validators, nat)>): Option<(nat, Validators, nat)> {
    if total.None? || mark.Unsaved? then before
    else if mark.Torn? then None
    else Some((mark.offset, v, total.value))
  }

  /** The last state write of a copy that goes on from here: where a read, a write or the speed breaks it, and when it is due. */
  function CopySaves(maxSize: Option<nat>, length: nat, offset: nat, ticks: nat -> Tick, written: nat, pass: nat, mark: Mark): Mark
    requires offset <= written <= offset + length
    decreases offset + length - written
  {
    var tick := ticks(pass);
    var n := Min(Min(Max(tick.n, 1), BUFFER), offset + length - written);
    if tick.kill then mark
    else if tick.readFails then MarkOf(tick.torn, written)
    else if n == 0 || (maxSize.Some? && written + n > maxSize.value) then mark
    else if tick.writeFails.Some? then MarkOf(tick.torn, written)
    else if tick.killAfterWrite then mark
    else if tick.slow then MarkOf(tick.torn, written + n)
    else CopySaves(maxSize, length, offset, ticks, written + n, pass + 1, if tick.save then MarkOf(tick.torn, written + n) else mark)
  }

  /** How the copy of a body of `length` bytes from `offset` goes on after `written` and `pass` passes. */
  function Copy(maxSize: Option<nat>, length: nat, offset: nat, resumable: bool, ticks: nat -> Tick, written: nat, pass: nat): (a: Attempt)
    requires offset <= written <= offset + length
    ensures a.Done? ==> a.written == offset + length
    ensures a.Transient? ==> a.resumable == resumable && written <= a.written <= offset + length
    decreases offset + length - written
  {
    var tick := ticks(pass);
    if tick.kill then Killed
    else if tick.readFails then Transient(written, resumable)
    else
      var n := Min(Min(Max(tick.n, 1), BUFFER), offset + length - written);
      if n == 0 then Done(written)
      else if maxSize.Some? && written + n > maxSize.value then Fatal
      else if tick.writeFails.Some? then Transient(written, resumable)
      else if tick.killAfterWrite then Killed
      else if tick.slow then Transient(written + n, resumable)
      else Copy(maxSize, length, offset, resumable, ticks, written + n, pass + 1)
  }

  /** A whole write of the version's next bytes. */
  lemma WriteLands(cfg: Config, from: bytes, to: bytes, state: Option<ResumeState>, ver: Version, at: nat, buf: bytes)
    requires StateSound(cfg, from, state, ver) && Agree(from, ver.content, 0, at)
    requires at + |buf| <= |ver.content| && buf == ver.content[at..at + |buf|] && Written(from, to, at, buf)
    ensures StateSound(cfg, to, state, ver) && Agree(to, ver.content, 0, at + |buf|)
  {
    hide StateSound, Agree, Written;
    StateThroughWrite(cfg, from, to, state, ver, at, buf);
    PrefixGrows(from, to, ver, at, buf);
  }

  /** A write of them that fails after `landed` bytes. */
  lemma WriteStops(cfg: Config, from: bytes, to: bytes, state: Option<ResumeState>, ver: Version, at: nat, buf: bytes, landed: nat)
    requires StateSound(cfg, from, state, ver) && Agree(from, ver.content, 0, at)
    requires at + |buf| <= |ver.content| && buf == ver.content[at..at + |buf|] && landed <= |buf|
    requires if landed == 0 then to == from else Written(from, to, at, buf[..landed])
    requires ChangedOnly(from, to, at, |buf|)
    ensures StateSound(cfg, to, state, ver) && Agree(to, ver.content, 0, at)
  {
    hide StateSound, Agree, Written, ChangedOnly;
    if landed > 0 {
      assert buf[..landed] == ver.content[at..at + landed];
      StateThroughWrite(cfg, from, to, state, ver, at, buf[..landed]);
    }
    PrefixStays(from, to, ver.content, at, |buf|);
  }

  lemma CopyStep(maxSize: Option<nat>, length: nat, offset: nat, resumable: bool, ticks: nat -> Tick, written: nat, pass: nat)
    requires offset <= written <= offset + length
    ensures
      var tick := ticks(pass);
      var n := Min(Min(Max(tick.n, 1), BUFFER), offset + length - written);
      Copy(maxSize, length, offset, resumable, ticks, written, pass)
      == if tick.kill then Killed
         else if tick.readFails then Transient(written, resumable)
         else if n == 0 then Done(written)
         else if maxSize.Some? && written + n > maxSize.value then Fatal
         else if tick.writeFails.Some? then Transient(written, resumable)
         else if tick.killAfterWrite then Killed
         else if tick.slow then Transient(written + n, resumable)
         else Copy(maxSize, length, offset, resumable, ticks, written + n, pass + 1)
  {
  }

  lemma SaveStep(maxSize: Option<nat>, length: nat, offset: nat, ticks: nat -> Tick, written: nat, pass: nat, mark: Mark)
    requires offset <= written <= offset + length
    ensures
      var tick := ticks(pass);
      var n := Min(Min(Max(tick.n, 1), BUFFER), offset + length - written);
      CopySaves(maxSize, length, offset, ticks, written, pass, mark)
      == if tick.kill then mark
         else if tick.readFails then MarkOf(tick.torn, written)
         else if n == 0 || (maxSize.Some? && written + n > maxSize.value) then mark
         else if tick.writeFails.Some? then MarkOf(tick.torn, written)
         else if tick.killAfterWrite then mark
         else if tick.slow then MarkOf(tick.torn, written + n)
         else CopySaves(maxSize, length, offset, ticks, written + n, pass + 1, if tick.save then MarkOf(tick.torn, written + n) else mark)
  {
  }

  /** A copy that breaks has just written the state, torn or for the very offset it reached. */
  lemma {:induction false} BrokenIsSaved(maxSize: Option<nat>, length: nat, offset: nat, resumable: bool, ticks: nat -> Tick,
                                         written: nat, pass: nat, mark: Mark)
    requires offset <= written <= offset + length
    ensures
      var a := Copy(maxSize, length, offset, resumable, ticks, written, pass);
      var m := CopySaves(maxSize, length, offset, ticks, written, pass, mark);
      && (a.Transient? ==> m == SavedAt(a.written) || (m == Torn && exists k: nat :: k >= pass && ticks(k).torn))
      && (!a.Transient? && (forall k: nat :: ticks(k).save ==> k < pass) ==> m == mark)
    decreases offset + length - written
  {
    CopyStep(maxSize, length, offset, resumable, ticks, written, pass);
    SaveStep(maxSize, length, offset, ticks, written, pass, mark);
    var tick := ticks(pass);
    var n := Min(Min(Max(tick.n, 1), BUFFER), offset + length - written);
    if n > 0 && !(maxSize.Some? && written + n > maxSize.value) {
      BrokenIsSaved(maxSize, length, offset, resumable, ticks, written + n, pass + 1,
                    if tick.save then MarkOf(tick.torn, written + n) else mark);
    }
  }

  /** The copy loop of stream_to_store, from a sized store; `body` is the rest of `ver` up to where the reply ends. */
  method CopyBody(cfg: Config, store: Store, body: bytes, offset: nat, total: Option<nat>, v: Validators,
                  resumable: bool, ticks: nat -> Tick, ghost ver: Version) returns (a: Attempt)
    requires World(cfg) && ver in cfg.versions && v == ValidatorsOf(cfg.url, ver)
    requires offset + |body| <= |ver.content| && body == ver.content[offset..offset + |body|]
    requires total.Some? ==> total.value == |ver.content|
    requires StateSound(cfg, store.file, store.state, ver) && Agree(store.file, ver.content, 0, offset)
    requires !Ranged(store.state)
    modifies store
    ensures a == Copy(cfg.maxSize, |body|, offset, resumable, ticks, offset, 0)
    ensures LoadStream(cfg.url, store.state)
         == LoadMark(CopySaves(cfg.maxSize, |body|, offset, ticks, offset, 0, Unsaved), v, total, LoadStream(cfg.url, old(store.state)))
    ensures StateSound(cfg, store.file, store.state, ver) && !Ranged(store.state)
    ensures a.Transient? || a.Done? ==> Agree(store.file, ver.content, 0, a.written)
  {
    hide StateSound, Agree, Written, ChangedOnly, World, Copy, CopySaves, LoadStream;
    var written, pass := offset, 0;
    ghost var mark := Unsaved;
    a := Fatal;
    while true
      invariant offset <= written <= offset + |body| && !Ranged(store.state)
      invariant Copy(cfg.maxSize, |body|, offset, resumable, ticks, offset, 0)
             == Copy(cfg.maxSize, |body|, offset, resumable, ticks, written, pass)
      invariant CopySaves(cfg.maxSize, |body|, offset, ticks, offset, 0, Unsaved)
             == CopySaves(cfg.maxSize, |body|, offset, ticks, written, pass, mark)
      invariant LoadStream(cfg.url, store.state) == LoadMark(mark, v, total, LoadStream(cfg.url, old(store.state)))
      invariant StateSound(cfg, store.file, store.state, ver) && Agree(store.file, ver.content, 0, written)
      decreases offset + |body| - written
    {
      CopyStep(cfg.maxSize, |body|, offset, resumable, ticks, written, pass);
      SaveStep(cfg.maxSize, |body|, offset, ticks, written, pass, mark);
      var tick := ticks(pass);
      if tick.kill {
        a := Killed;
        break;
      }
      if tick.readFails {
        Persist(cfg, store, total, written, v, tick.torn, ver);
        a := Transient(written, resumable);
        break;
      }
      var n := Min(Min(Max(tick.n, 1), BUFFER), offset + |body| - written);
      if n == 0 {
        a := Done(written);
        break;
      }
      if cfg.maxSize.Some? && written + n > cfg.maxSize.value {
        break;
      }
      var buf := body[written - offset..written - offset + n];
      assert buf == ver.content[written..written + n];
      ghost var before := store.file;
      var ok, landed := store.WriteAt(written, buf, tick.writeFails);
      if !ok {
        WriteStops(cfg, before, store.file, store.state, ver, written, buf, landed);
        Persist(cfg, store, total, written, v, tick.torn, ver);
        a := Transient(written, resumable);
        break;
      }
      assert buf[..landed] == buf;
      WriteLands(cfg, before, store.file, store.state, ver, written, buf);
      written, pass := written + n, pass + 1;
      if tick.killAfterWrite {
        a := Killed;
        break;
      }
      if tick.slow {
        Persist(cfg, store, total, written, v, tick.torn, ver);
        a := Transient(written, resumable);
        break;
      }
      if tick.save {
        Persist(cfg, store, total, written, v, tick.torn, ver);
        mark := MarkOf(tick.torn, written);
      }
    }
  }

  function StreamOutcome(maxSize: Option<nat>, length: nat, offset: nat, total: Option<nat>, resumable: bool,
                         setLenFails: bool, ticks: nat -> Tick): (a: Attempt)
    ensures a.Done? ==> a.written == offset + length
    ensures a.Transient? ==> a.resumable == resumable && offset <= a.written <= offset + length
  {
    if total.Some? && setLenFails then Fatal else Copy(maxSize, length, offset, resumable, ticks, offset, 0)
  }

  /** What a later run loads after stream_to_store: sizing the file drops the state there was. */
  function LoadAfterStream(maxSize: Option<nat>, length: nat, offset: nat, total: Option<nat>, v: Validators,
                           setLenFails: bool, ticks: nat -> Tick, before: Option<(nat, Validators, nat)>): Option<(nat, Validators, nat)>
  {
    if total.Some? && setLenFails then before
    else
      LoadMark(CopySaves(maxSize, length, offset, ticks, offset, 0, Unsaved), v, total,
               if total.Some? || offset == 0 then None else before)
  }

  /** stream_to_store: size the store for this body, then copy it. */
  method StreamToStore(cfg: Config, store: Store, body: bytes, offset: nat, total: Option<nat>, v: Validators,
                       resumable: bool, setLenFails: bool, ticks: nat -> Tick, ghost prior: Version, ghost ver: Version)
    returns (a: Attempt, ghost sound: Version)
    requires World(cfg) && ver in cfg.versions && v == ValidatorsOf(cfg.url, ver)
    requires offset + |body| <= |ver.content| && body == ver.content[offset..offset + |body|]
    requires total.Some? ==> total.value == |ver.content|
    requires StateSound(cfg, store.file, store.state, prior) && Agree(store.file, ver.content, 0, offset)
    requires offset == 0 || (prior == ver && !Ranged(store.state))
    modifies store
    ensures a == StreamOutcome(cfg.maxSize, |body|, offset, total, resumable, setLenFails, ticks)
    ensures LoadStream(cfg.url, store.state)
         == LoadAfterStream(cfg.maxSize, |body|, offset, total, v, setLenFails, ticks, LoadStream(cfg.url, old(store.state)))
    ensures StateSound(cfg, store.file, store.state, sound) && (sound == ver || a.Fatal?)
    ensures Ranged(store.state) ==> a.Fatal? && store.state == old(store.state) && store.file == old(store.file)
    ensures a.Transient? || a.Done? ==> Agree(store.file, ver.content, 0, a.written)
  {
    hide StateSound, Agree, World;
    sound := prior;
    if total.Some? {
      if setLenFails {
        return Fatal, prior;
      }
      PrefixThroughSetLen(store.file, ver.content, offset, total.value);
      store.SetLen(total.value);
      NoStateIsSound(cfg, store.file, ver);
    } else if offset == 0 {
      store.SetLen(0);
      NoStateIsSound(cfg, store.file, ver);
      EmptyPrefix(store.file, ver.content);
    }
    sound := ver;
    a := CopyBody(cfg, store, body, offset, total, v, resumable, ticks, ver);
  }

  /** Where the next attempt starts: the run keeps `have` unless the attempt's bytes can be continued or are fewer. */
  function NextHave(have: nat, written: nat, resumable: bool): nat {
    if resumable || written < have then written else have
  }

  /** A body that ends before the resource does: of a 206, or of a 200 that states no length. */
  predicate CutShort(reply: Reply) {
    (reply.Partial206? || reply.Ok200?) && reply.end < |reply.w.content|
  }

  predicate TooBig(cfg: Config, total: Option<nat>) {
    cfg.maxSize.Some? && total.Some? && total.value > cfg.maxSize.value
  }

  /** Where a run stands between attempts: the bytes held, their validators and the size they belong to. */
  datatype Position = Position(have: nat, v: Validators, known: Option<nat>)

  /** The reply to the request sent from this position. */
  function ReplyAt(cfg: Config, intent: Intent, p: Position): Reply {
    Respond(cfg.url, intent, p.have, if p.have > 0 then IfRange(p.v) else [])
  }

  /** What one attempt comes to, and the validators and size the run has afterwards. */
  datatype Step = Step(a: Attempt, v: Validators, known: Option<nat>)

  function FullStep(cfg: Config, reply: Reply, have: nat): Step
    requires reply.Ok200?
  {
    Step(if TooBig(cfg, reply.length) then Fatal
         else StreamOutcome(cfg.maxSize, reply.end, 0, reply.length, have == 0 && reply.acceptsRanges, reply.setLenFails, reply.ticks),
         ValidatorsOf(cfg.url, reply.w), reply.length)
  }

  function PartialStep(cfg: Config, reply: Reply, p: Position): Step
    requires reply.Partial206? && reply.start <= reply.end
  {
    if reply.start != p.have || (p.known.Some? && reply.total != p.known) then Step(Transient(0, false), p.v, None)
    else
      Step(if TooBig(cfg, reply.total) then Fatal
           else StreamOutcome(cfg.maxSize, reply.end - p.have, p.have, reply.total, true, reply.setLenFails, reply.ticks),
           p.v, reply.total)
  }

  function StepOf(cfg: Config, intent: Intent, p: Position): Step {
    match ReplyAt(cfg, intent, p)
    case SendFails(transient) => Step(if transient then Transient(p.have, false) else Fatal, p.v, p.known)
    case OtherStatus(code) => Step(if code >= 500 then Transient(p.have, false) else Fatal, p.v, p.known)
    case Unsatisfied416(total) =>
      if (if total.Some? then total else p.known) == Some(p.have) then Step(Done(p.have), p.v, p.known)
      else if total.Some? then Step(Transient(0, false), p.v, None)
      else Step(Fatal, p.v, p.known)
    case Ok200(_, _, _, _, _, _) => FullStep(cfg, ReplyAt(cfg, intent, p), p.have)
    case Partial206(_, _, _, _, _, _) => PartialStep(cfg, ReplyAt(cfg, intent, p), p)
  }

  /** What a later run loads after the attempt, given what it would have loaded before. */
  function LoadAfter(cfg: Config, intent: Intent, p: Position, before: Option<(nat, Validators, nat)>): Option<(nat, Validators, nat)> {
    match ReplyAt(cfg, intent, p)
    case SendFails(_) => before
    case OtherStatus(_) => before
    case Unsatisfied416(total) => if total.Some? && total != Some(p.have) then None else before
    case Ok200(w, end, length, _, fails, ticks) =>
      if TooBig(cfg, length) then before
      else LoadAfterStream(cfg.maxSize, end, 0, length, ValidatorsOf(cfg.url, w), fails, ticks, before)
    case Partial206(_, start, end, total, fails, ticks) =>
      if start != p.have || (p.known.Some? && total != p.known) then None
      else if TooBig(cfg, total) || end < p.have then before
      else LoadAfterStream(cfg.maxSize, end - p.have, p.have, total, p.v, fails, ticks, before)
  }

  /** What an attempt leaves: sound state, a sound offset to go on from, and on Done one version up to where it ended. */
  ghost predicate AttemptSound(cfg: Config, store: Store, reply: Reply, have: nat,
                               a: Attempt, v: Validators, known: Option<nat>, ver: Version)
    reads store
  {
    && StateSound(cfg, store.file, store.state, ver)
    && (Ranged(store.state) && a.Transient? ==> NextHave(have, a.written, a.resumable) == 0)
    && (a.Transient? ==> HaveSound(cfg, store.file, NextHave(have, a.written, a.resumable), v, known, ver))
    && (a.Done? ==>
          && ver in cfg.versions && Agree(store.file, ver.content, 0, a.written)
          && (a.written == |ver.content| <==> !CutShort(reply)))
  }

  /** attempt_single on a 200: everything restarts at 0 with this response's validators. */
  method AttemptFull(cfg: Config, store: Store, reply: Reply, have: nat, ghost ver: Version)
    returns (a: Attempt, v': Validators, known': Option<nat>, ghost ver': Version)
    requires World(cfg) && reply.Ok200? && reply.w in cfg.versions && reply.end <= |reply.w.content|
    requires reply.length.Some? ==> reply.length.value == |reply.w.content|
    requires StateSound(cfg, store.file, store.state, ver)
    modifies store
    ensures Step(a, v', known') == FullStep(cfg, reply, have)
    ensures LoadStream(cfg.url, store.state)
         == if TooBig(cfg, reply.length) then LoadStream(cfg.url, old(store.state))
            else LoadAfterStream(cfg.maxSize, reply.end, 0, reply.length, v', reply.setLenFails, reply.ticks, LoadStream(cfg.url, old(store.state)))
    ensures AttemptSound(cfg, store, reply, have, a, v', known', ver')
    ensures Ranged(store.state) ==> store.state == old(store.state) && store.file == old(store.file)
  {
    hide StateSound, Agree, World;
    v', known', ver' := ValidatorsOf(cfg.url, reply.w), reply.length, reply.w;
    if TooBig(cfg, reply.length) {
      return Fatal, v', known', ver;
    }
    EmptyPrefix(store.file, reply.w.content);
    var body := reply.w.content[..reply.end];
    assert body == reply.w.content[0..0 + |body|];
    a, ver' := StreamToStore(cfg, store, body, 0, reply.length, v', have == 0 && reply.acceptsRanges,
                             reply.setLenFails, reply.ticks, ver, reply.w);
    if a.Transient? {
      FullHave(cfg, store.file, have, a.written, a.resumable, reply.w, known');
    }
  }

  lemma FullHave(cfg: Config, file: bytes, have: nat, written: nat, resumable: bool, w: Version, known: Option<nat>)
    requires w in cfg.versions && Agree(file, w.content, 0, written)
    requires known.Some? ==> known.value == |w.content|
    ensures HaveSound(cfg, file, NextHave(have, written, resumable), ValidatorsOf(cfg.url, w), known, w)
  {
  }

  /** attempt_single on a 206: continue exactly where we are, or discard and start over. */
  method AttemptPartial(cfg: Config, store: Store, reply: Reply, have: nat, v: Validators, known: Option<nat>, ghost ver: Version)
    returns (a: Attempt, known': Option<nat>, ghost ver': Version)
    requires World(cfg) && reply.Partial206? && have > 0 && reply.w == ver && reply.start <= reply.end <= |ver.content|
    requires reply.total.Some? ==> reply.total.value == |ver.content|
    requires StateSound(cfg, store.file, store.state, ver) && HaveSound(cfg, store.file, have, v, known, ver)
    requires !Ranged(store.state)
    modifies store
    ensures Step(a, v, known') == PartialStep(cfg, reply, Position(have, v, known))
    ensures LoadStream(cfg.url, store.state)
         == if reply.start != have || (known.Some? && reply.total != known) then None
            else if TooBig(cfg, reply.total) then LoadStream(cfg.url, old(store.state))
            else LoadAfterStream(cfg.maxSize, reply.end - have, have, reply.total, v, reply.setLenFails, reply.ticks, LoadStream(cfg.url, old(store.state)))
    ensures AttemptSound(cfg, store, reply, have, a, v, known', ver') && !Ranged(store.state)
  {
    ver' := ver;
    if reply.start != have || (known.Some? && reply.total != known) {
      store.Discard();
      NoStateIsSound(cfg, store.file, ver);
      return Transient(0, false), None, ver;
    }
    known' := reply.total;
    if TooBig(cfg, reply.total) {
      return Fatal, known', ver;
    }
    hide StateSound, Agree, World;
    var body := reply.w.content[have..reply.end];
    assert body == ver.content[have..have + |body|];
    a, ver' := StreamToStore(cfg, store, body, have, reply.total, v, true, reply.setLenFails, reply.ticks, ver, ver);
    if a.Transient? {
      FullHave(cfg, store.file, have, a.written, a.resumable, ver, known');
    }
  }

  lemma NothingToLoad(url: bytes)
    ensures LoadStream(url, None) == None
  {
  }

  lemma SameVersion(cfg: Config, v: Validators, ver: Version, w: Version)
    requires World(cfg) && ver in cfg.versions && w in cfg.versions && v == ValidatorsOf(cfg.url, ver)
    ensures Answers(cfg.url, IfRange(v), w) ==> w == ver
  {
    assert ToldApart(cfg, ver, w);
  }

  /** attempt_single: one GET, ranged when have > 0. */
  method AttemptSingle(cfg: Config, store: Store, intent: Intent, have: nat, v: Validators, known: Option<nat>, ghost ver: Version)
    returns (a: Attempt, v': Validators, known': Option<nat>, ghost ver': Version)
    requires World(cfg) && Serves(cfg, intent)
    requires StateSound(cfg, store.file, store.state, ver) && HaveSound(cfg, store.file, have, v, known, ver)
    requires have > 0 ==> !Ranged(store.state)
    modifies store
    ensures Step(a, v', known') == StepOf(cfg, intent, Position(have, v, known))
    ensures LoadStream(cfg.url, store.state) == LoadAfter(cfg, intent, Position(have, v, known), LoadStream(cfg.url, old(store.state)))
    ensures AttemptSound(cfg, store, ReplyAt(cfg, intent, Position(have, v, known)), have, a, v', known', ver')
    ensures Ranged(store.state) ==> store.state == old(store.state) && store.file == old(store.file)
  {
    hide StateSound, Agree, LoadStream, LoadAfterStream, StreamOutcome, TooBig, World;
    NothingToLoad(cfg.url);
    v', known', ver' := v, known, ver;
    ghost var p := Position(have, v, known);
    var reply := Respond(cfg.url, intent, have, if have > 0 then IfRange(v) else []);
    assert reply == ReplyAt(cfg, intent, p);
    if have > 0 && (intent.Partial? || intent.Unsatisfied?) {
      SameVersion(cfg, v, ver, intent.w);
    }
    match reply
    case SendFails(transient) =>
      a := if transient then Transient(have, false) else Fatal;
    case OtherStatus(code) =>
      a := if code >= 500 then Transient(have, false) else Fatal;
    case Unsatisfied416(total) =>
      if (if total.Some? then total else known) == Some(have) {
        a := Done(have);
      } else if total.Some? {
        store.Discard();
        NoStateIsSound(cfg, store.file, ver);
        a, known' := Transient(0, false), None;
      } else {
        a := Fatal;
      }
    case Ok200(_, _, _, _, _, _) =>
      a, v', known', ver' := AttemptFull(cfg, store, reply, have, ver);
    case Partial206(_, _, _, _, _, _) =>
      a, known', ver' := AttemptPartial(cfg, store, reply, have, v, known, ver);
  }

  // ---- the run ---------------------------------------------------------------------------------

  datatype Outcome =
    | Finished(written: nat)
    | Failed           // a fatal reply, a bad hash
    | Exhausted        // the retry budget is spent
    | ProcessKilled
    | Unfinished       // still going after `limit` attempts

  /** Where the next attempt starts from. */
  function NextPosition(p: Position, s: Step): Position {
    Position(if s.a.Transient? then NextHave(p.have, s.a.written, s.a.resumable) else p.have, s.v, s.known)
  }

  /** The position after `k` attempts, attempt `j` meeting `env(j)`. */
  function At(cfg: Config, env: nat -> Intent, p0: Position, k: nat): Position {
    if k == 0 then p0
    else
      var p := At(cfg, env, p0, k - 1);
      NextPosition(p, StepOf(cfg, env(k - 1), p))
  }

  /** What attempt `k` comes to. */
  function Nth(cfg: Config, env: nat -> Intent, p0: Position, k: nat): Attempt {
    StepOf(cfg, env(k), At(cfg, env, p0, k)).a
  }

  /** Only resumable progress refreshes the budget. */
  predicate ProgressAt(cfg: Config, env: nat -> Intent, p0: Position, k: nat) {
    var a := Nth(cfg, env, p0, k);
    a.Transient? && a.resumable && a.written > At(cfg, env, p0, k).have
  }

  /** Which of the first `n` attempts made resumable progress. */
  function Trace(cfg: Config, env: nat -> Intent, p0: Position, n: nat): (t: seq<bool>)
    ensures |t| == n
  {
    if n == 0 then [] else Trace(cfg, env, p0, n - 1) + [ProgressAt(cfg, env, p0, n - 1)]
  }

  /** Attempt `k` may be followed by another. */
  predicate GoesOn(cfg: Config, env: nat -> Intent, p0: Position, maxRetries: nat, k: nat) {
    Nth(cfg, env, p0, k).Transient? && Stall(Trace(cfg, env, p0, k + 1)) <= maxRetries
  }

  /** What a later run would load after `k` attempts. */
  function LoadAt(cfg: Config, env: nat -> Intent, p0: Position, load0: Option<(nat, Validators, nat)>, k: nat): Option<(nat, Validators, nat)> {
    if k == 0 then load0
    else LoadAfter(cfg, env(k - 1), At(cfg, env, p0, k - 1), LoadAt(cfg, env, p0, load0, k - 1))
  }

  /** A run watched for `limit` attempts makes `n` of them and comes to `out`. */
  ghost predicate RunEnds(cfg: Config, env: nat -> Intent, p0: Position, maxRetries: nat, limit: nat, n: nat, out: Outcome) {
    && n <= limit
    && (forall k :: 0 <= k < n - 1 ==> GoesOn(cfg, env, p0, maxRetries, k))
    && match out
       case Unfinished => n == limit && (n > 0 ==> GoesOn(cfg, env, p0, maxRetries, n - 1))
       case Finished(written) => n > 0 && Nth(cfg, env, p0, n - 1) == Done(written)
       case Failed => n > 0 && (Nth(cfg, env, p0, n - 1).Fatal? || Nth(cfg, env, p0, n - 1).Done?)
       case ProcessKilled => n > 0 && Nth(cfg, env, p0, n - 1).Killed?
       case Exhausted => n > 0 && Nth(cfg, env, p0, n - 1).Transient? && Stall(Trace(cfg, env, p0, n)) > maxRetries
  }

  /** Where a run starts: at what a previous one left, if it is ours, else with nothing. */
  function Opening(url: bytes, state: Option<ResumeState>): Position {
    var l := LoadStream(url, state);
    if l.Some? then Position(l.value.0, l.value.1, Some(l.value.2)) else FRESH
  }

  const FRESH: Position := Position(0, Validators([], [], []), None)

  /** The reply to the last of `n` attempts. */
  function LastReply(cfg: Config, env: nat -> Intent, p0: Position, n: nat): Reply
    requires n > 0
  {
    ReplyAt(cfg, env(n - 1), At(cfg, env, p0, n - 1))
  }

  /**
   What a run leaves behind when it has not finished, and what it publishes when it has:
   the whole of one version exactly when the body of the last reply did not end early. What
   has been received to its end is published exactly when the hash check accepts it.
   */
  ghost predicate RunSound(cfg: Config, store: Store, env: nat -> Intent, p0: Position, n: nat, out: Outcome,
                           accept: bytes -> bool, ver: Version)
    reads store
  {
    if out.Finished? then
      && n > 0 && ver in cfg.versions && out.written <= |ver.content| && store.file == ver.content[..out.written]
      && store.state == None && accept(store.file)
      && (store.file == ver.content <==> !CutShort(LastReply(cfg, env, p0, n)))
    else
      && StateSound(cfg, store.file, store.state, ver)
      && (n > 0 && Nth(cfg, env, p0, n - 1).Done? ==>
            && store.file == [] && store.state == None && ver in cfg.versions
            && var written := Nth(cfg, env, p0, n - 1).written;
               written <= |ver.content| && !accept(ver.content[..written]))
  }

  lemma LoadedIsSound(cfg: Config, file: bytes, state: Option<ResumeState>, ver: Version)
    requires StateSound(cfg, file, state, ver)
    ensures
      var l := LoadStream(cfg.url, state);
      l.Some? ==> HaveSound(cfg, file, l.value.0, l.value.1, Some(l.value.2), ver)
  {
  }

  lemma NoHave(cfg: Config, file: bytes, v: Validators, known: Option<nat>, ver: Version)
    ensures HaveSound(cfg, file, 0, v, known, ver)
  {
  }

  lemma WholeVersion(file: bytes, content: bytes, n: nat)
    requires Agree(file, content, 0, n)
    ensures n <= |file| && n <= |content| && file[..n] == content[..n]
  {
  }

  /** verify_and_finalize: publish the first `size` bytes, or discard everything on a hash mismatch. */
  method VerifyAndFinalize(store: Store, size: nat, accept: bytes -> bool) returns (ok: bool)
    requires size <= |store.file|
    modifies store
    ensures ok <==> accept(old(store.file)[..size])
    ensures store.state == None && store.file == if ok then old(store.file)[..size] else []
  {
    ok := accept(store.file[..size]);
    if ok {
      store.SetLen(size);
    } else {
      store.Discard();
    }
  }

  /**
   run_single, observed for `limit` attempts. `accept` is the hash check. Started over any
   store a run has left behind, it leaves such a store behind; how it ends is decided by the
   replies and the budget.
   */
  method RunSingle(cfg: Config, store: Store, env: nat -> Intent, maxRetries: nat, limit: nat, accept: bytes -> bool,
                   ghost ver0: Version)
    returns (out: Outcome, attempts: nat, ghost ver: Version)
    requires World(cfg) && forall k :: Serves(cfg, env(k))
    requires StateSound(cfg, store.file, store.state, ver0)
    modifies store
    ensures RunEnds(cfg, env, Opening(cfg.url, old(store.state)), maxRetries, limit, attempts, out)
    ensures RunSound(cfg, store, env, Opening(cfg.url, old(store.state)), attempts, out, accept, ver)
    ensures attempts == 0 || !Nth(cfg, env, Opening(cfg.url, old(store.state)), attempts - 1).Done? ==>
              LoadStream(cfg.url, store.state)
              == LoadAt(cfg, env, Opening(cfg.url, old(store.state)), LoadStream(cfg.url, old(store.state)), attempts)
    ensures Ranged(store.state) ==> store.state == old(store.state) && store.file == old(store.file)
  {
    hide StateSound, HaveSound, Agree, World, Serves, ReplyAt, StepOf, CutShort, Stall, At, Trace, LoadStream, Nth, ProgressAt, Answers, LoadAfter, LoadAt;
    ver, out := ver0, Unfinished;
    var loaded := LoadStream(cfg.url, store.state);
    LoadedIsSound(cfg, store.file, store.state, ver0);
    var have, v, known := 0, Validators([], [], []), None;
    NoHave(cfg, store.file, v, known, ver);
    if loaded.Some? {
      have, v, known := loaded.value.0, loaded.value.1, Some(loaded.value.2);
    }
    ghost var p0 := Opening(cfg.url, store.state);
    StreamStateIsOurs(cfg.url, store.state);
    NoAttempts(cfg, env, p0);
    NothingLoaded(cfg, env, p0, loaded);
    var budget: nat := maxRetries;
    attempts := 0;
    while attempts < limit
      invariant StateSound(cfg, store.file, store.state, ver) && HaveSound(cfg, store.file, have, v, known, ver)
      invariant have > 0 ==> !Ranged(store.state)
      invariant Ranged(store.state) ==> store.state == old(store.state) && store.file == old(store.file)
      invariant out == Unfinished && attempts <= limit
      invariant Position(have, v, known) == At(cfg, env, p0, attempts)
      invariant LoadStream(cfg.url, store.state) == LoadAt(cfg, env, p0, LoadStream(cfg.url, old(store.state)), attempts)
      invariant budget + Stall(Trace(cfg, env, p0, attempts)) == maxRetries
      invariant forall k :: 0 <= k < attempts ==> GoesOn(cfg, env, p0, maxRetries, k)
    {
      var intent := env(attempts);
      assert Serves(cfg, env(attempts));
      var a;
      ghost var p := Position(have, v, known);
      a, v, known, ver := AttemptSingle(cfg, store, intent, have, v, known, ver);
      attempts := attempts + 1;
      AttemptMade(cfg, env, p0, attempts - 1);
      LoadMade(cfg, env, p0, LoadStream(cfg.url, old(store.state)), attempts - 1);
      if a.Fatal? || a.Killed? {
        out := if a.Fatal? then Failed else ProcessKilled;
        break;
      }
      if a.Done? {
        WholeVersion(store.file, ver.content, a.written);
        var ok := VerifyAndFinalize(store, a.written, accept);
        if ok {
          out := Finished(a.written);
        } else {
          out := Failed;
          NoStateIsSound(cfg, store.file, ver);
        }
        break;
      }
      var progressed := a.resumable && a.written > have;
      if a.resumable || a.written < have {
        have := a.written;
      }
      if progressed {
        budget := maxRetries;
      } else if budget == 0 {
        out := Exhausted;
        break;
      } else {
        budget := budget - 1;
      }
    }
  }

  lemma NothingLoaded(cfg: Config, env: nat -> Intent, p0: Position, load0: Option<(nat, Validators, nat)>)
    ensures LoadAt(cfg, env, p0, load0, 0) == load0
  {
  }

  lemma LoadMade(cfg: Config, env: nat -> Intent, p0: Position, load0: Option<(nat, Validators, nat)>, k: nat)
    ensures LoadAt(cfg, env, p0, load0, k + 1) == LoadAfter(cfg, env(k), At(cfg, env, p0, k), LoadAt(cfg, env, p0, load0, k))
  {
    hide LoadAfter;
  }

  lemma StreamStateIsOurs(url: bytes, state: Option<ResumeState>)
    ensures LoadStream(url, state).Some? ==> !Ranged(state)
  {
  }

  lemma NoAttempts(cfg: Config, env: nat -> Intent, p0: Position)
    ensures At(cfg, env, p0, 0) == p0 && Stall(Trace(cfg, env, p0, 0)) == 0
  {
  }

  /** One more attempt, seen from the outside. */
  lemma AttemptMade(cfg: Config, env: nat -> Intent, p0: Position, k: nat)
    ensures
      var p := At(cfg, env, p0, k);
      var s := StepOf(cfg, env(k), p);
      && At(cfg, env, p0, k + 1) == NextPosition(p, s) && Nth(cfg, env, p0, k) == s.a
      && Stall(Trace(cfg, env, p0, k + 1))
         == (if s.a.Transient? && s.a.resumable && s.a.written > p.have then 0 else 1 + Stall(Trace(cfg, env, p0, k)))
  {
    hide StepOf, Stall;
    StallSnoc(Trace(cfg, env, p0, k), ProgressAt(cfg, env, p0, k));
  }
}
