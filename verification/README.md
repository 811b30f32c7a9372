# rsurl verification model

A Dafny model of six parts of rsurl, a curl clone, with proofs about them:

- the resumable and segmented download engine (`ChunkPlan`, `ResumeMeta`, `Origin`, `PartStore`,
  `RetryBudget`, `ChunkFetch`, `Segmented`, `SegmentedRuns`, `SingleStream`, `SingleRuns`, `Download`),
- the cancellation token (`CancelToken`),
- the cookie jar (`Dates`, `HttpDates`, `CookieMatch`, `SetCookie`, `SetCookieText`, `CookieJars`,
  `CookieLaws`, `CookieHeader`, `Netscape`),
- URL globs and `Content-Disposition` parameters of the command line (`Glob`, `GlobText`, `Disposition`),
- the IMAP response reader (`ImapReader`),
- HTTP Digest authentication (`Digest`).

`Basics`, `Arithmetic`, `Text` and `Quoting` hold what they share. `dafny verify dfyconfig.toml`
checks the project.

## How the world enters

- Concurrency is interleaving. The token and the segmented download are state machines over single
  shared accesses; the theorems speak of every sequence of events, kills and restarts included.
- The server is an environment. In `ChunkFetch` a reply may be anything; an honest 206 carries the
  resource bytes from the offset its `Content-Range` states, and `If-Range` is honoured. In
  `SingleStream` the reply follows from the request and the version being served.
- The store is a byte sequence and one state cell, which `set_len` clears.
- A state write is a step of its own: until it has begun the state saved before is readable, while it is under way
  there is none. `ResumeMeta.InterruptedSave` is what justifies that for the container file.
- Hypotheses kept explicit: versions of one size are told apart by their validators
  (`Segmented.World`, `SingleStream.World`); the 32-bit layout key does not collide on the layouts in
  use (`NoCollision`); a body that stops before the last byte, of a 206 or of a 200 without a length, is
  ruled out only where a whole version is claimed for it (`SingleStream.CutShort`); a body of unknown
  length copied over a saved state in start-up (`Segmented.Clobbers`) is ruled out where segmented runs
  are called sound.
- The hash functions, CRC-32, the layout key, the public-suffix lookup, the IPv6 literal recogniser and
  the lossy UTF-8 decoder are function parameters; of the last, only that it never shortens its input
  and keeps ASCII endings is assumed. The clock is a parameter, and so is the decision that a
  connection is too slow.
- Strings are sequences of Unicode scalar values. Where the source compares or slices bytes of valid
  UTF-8 at ASCII characters the result is the same; where it counts bytes, `Text.ByteLength` does.
- Machine integers are written out where they can wrap, saturate or be refused: u16 lengths, u32 and
  u64 in ranges and plans, saturating expiry, i64 dates and expiries.

## What the proofs show about the code

- Documentation says only a unit that cannot advance is abandoned. For chunks that holds exactly when
  `max_retries` is above 0: after healthy progress the budget is refreshed to `max_retries` and then
  charged for the attempt (`ChunkFetch.AdvancingIsKeptExactly`, `ChunkFetch.AdvancesAndIsAbandoned`).
- The attempts of the single-stream mode are bounded only if `max_retries` is 0, or there is nothing to
  send: progress that a later attempt throws away still refreshes the budget
  (`SingleRuns.AttemptsBoundedExactly`, `SingleRuns.RunNeverEnds`). What bounds them is the number of
  such losses (`SingleRuns.AttemptsWithinLosses`).
- The single-stream mode never compares what it wrote with the size: it publishes a whole version exactly
  when the body of its last reply did not end early, as that of a 206 can, and that of a 200 without a
  length whose connection is closed (`SingleStream.RunSingle`, `SingleRuns.ShortRun`,
  `SingleRuns.ClosedRun`). The whole bodies that `bootstrap` takes are published the same way.
- `bootstrap` copies a 200 without a length over the file without clearing the state saved for it. If the
  process is then killed, a restart may trust that state and end with Ok over a mix of two versions
  (`SegmentedRuns.ClobberedIsTrusted`, `SegmentedRuns.ClobberedEndsInSplice`,
  `Download.StreamIsClobbered`). Only then: `SegmentedRuns.BodyKeepsStateExactly`.
- A validator string of 65536 bytes or more is cut by its length prefix, and the state then does not
  read back (`ResumeMeta.StreamMetaRoundTrip`, `ResumeMeta.RangedMetaRoundTrip`).
- `[0-18446744073709551615]` is accepted and stands for no URL at all in a release build, because its
  count wraps to 0 (`Glob.RangeCountExact`, `Glob.AcceptedUrls`).
- A challenge with a `-sess` algorithm and no `qop` is answered with a header that no server can always check:
  the response is computed from the client nonce, which is sent only with a `qop`
  (`Digest.CheckedExactly`, `Digest.AnsweredInVain`).
- Percent-escaped form names are not undone by the parser, and two names can share one form
  (`Disposition.PercentRoundTrip`, `Disposition.PercentCollides`).

## Model

| member | source | states |
|---|---|---|
| `CancelToken.NoLostCancellation` | src/cancel.rs:74-120 | In every interleaving of any number of cancel, register and drop threads: once a cancel and a register have both returned, the hook has been called, unless its guard was already dropped when that cancel took the lock |
| `CancelToken.GuardsOwnTheirSlots` | src/cancel.rs:89-120 | In every reachable state a live guard's index is in range and holds its own hook, and no two live guards share an index, although slots are reused |
| `CancelToken.DropRemovesOnlyItsOwn` | src/cancel.rs:130-139 | In every reachable state, dropping one guard leaves every other registration's hook in its slot |
| `CancelToken.DroppedHookStaysSilent` | src/cancel.rs:74-139 | A hook whose guard was dropped is called exactly as often as before, however the run goes on |
| `CancelToken.NoCallWithoutCancel` | src/cancel.rs:74-120 | In every run no hook has been called while no cancel has set the flag |
| `CancelToken.CallsOnlyForCancel` | src/cancel.rs:74-139 | In every reachable state a step calls a hook only with the flag set, and only as the sweep of a cancel, at its own slot, or as a registration not yet returned, its own hook; a drop never calls one |
| `CancelToken.DropAlone` | src/cancel.rs:130-139 | Taken as a step on a free lock, a drop vacates its guard's slot, calls nothing and touches no other thread |
| `CancelToken.RunKeepsInv` | src/cancel.rs:74-139 | The invariant that ties slots to owners, the lock to its holder and finished sweeps to called hooks holds after every run, also when hooks panic |
| `CancelToken.SoloSweep` | src/cancel.rs:74-79 | A sweep left alone calls exactly the remaining hooks in slot order, changes no slot and releases the lock |
| `CancelToken.RegisterAlone` | src/cancel.rs:89-121 | Run as single steps with nobody in between, except a cancel storing its flag after the insertion, a registration has exactly the effect of the in-place critical sections |
| `CancelToken.HookTable.Cancel` | src/cancel.rs:74-79 | Sets the flag, calls the registered hooks in slot order, keeps the table |
| `CancelToken.HookTable.InsertHook` | src/cancel.rs:97-109 | The hook lands in the first vacant slot, or in a new one, and nothing else moves |
| `CancelToken.HookTable.Register` | src/cancel.rs:89-121 | An already cancelled token fires at once and gives an expired guard; a cancel landing after the insertion is caught by the second look |
| `CancelToken.HookTable.DropGuard` | src/cancel.rs:130-139 | Vacates the guard's slot and nothing else; an expired guard does nothing |
| `ChunkPlan.PlanTiles` | src/download.rs:1366-1407 | For every size and either option: non-empty contiguous ranges from 0 to the last byte, at most 1024 of them, each at least 2^19 bytes in equal-segments mode |
| `ChunkPlan.EqualSegmentAt` | src/download.rs:1375-1386 | The products of an equal split stay within the resource size, so they fit u64; each part is non-empty |
| `ChunkPlan.GrownSizeNeedsFewChunks` | src/download.rs:1388-1403 | Growing the segment size alone brings the count to at most 1024, so the cap never cuts a plan short |
| `ChunkPlan.FallbackExactly` | src/download.rs:1366-1406 | No plan exactly when the size is at most one minimum segment or fewer than two segments are asked for, or no usable layout is |
| `ChunkPlan.OneChunkPerByte` | src/download.rs:1366-1407 | Every byte of the resource lies in exactly one planned range |
| `ChunkPlan.DoneBytesExact` | src/download.rs:1936-1942 | The done count stays within the size and equals it exactly when every chunk is marked |
| `ChunkPlan.SegmentsAsAsked` | src/download.rs:1366-1387 | A plan in equal parts has as many as asked for, or 1024, or as many as leave no part below a minimum segment; all but the last are of one size |
| `ChunkPlan.SizeAsAsked` | src/download.rs:1388-1403 | A plan by size has chunks of the size asked for, or of the least that needs no more than 1024; only the last may differ |
| `ResumeMeta.StreamMetaRoundTrip` | src/download.rs:2111-2155 | Decoding the stream meta gives back offset and validators if and only if each validator string is under 65536 bytes |
| `ResumeMeta.RangedMetaRoundTrip` | src/download.rs:2157-2181 | Decoding the ranged meta gives back key, validators and bitmap if and only if each validator string is under 65536 bytes |
| `ResumeMeta.LeBytesAt` | src/download.rs:2111-2126 | Byte i of a stored integer is its i-th base-256 digit, least significant first |
| `ResumeMeta.BitSetGet` | src/download.rs:2183-2188 | Setting a bit makes that bit and no other read as set, and keeps the length |
| `ResumeMeta.EmptyBitmapClear` | src/download.rs:1310-1313 | The fresh bitmap has a place for every chunk and marks none |
| `ResumeMeta.ContainerRoundTrip` | src/resume.rs:86-169 | State written behind any file reads back unchanged and the data region is untouched |
| `ResumeMeta.TornWriteIsNoState` | src/resume.rs:86-134 | A meta block of the right length that the checksum in its trailer does not fit reads back as no state |
| `ResumeMeta.InterruptedSave` | src/resume.rs:144-169 | A state saved over an earlier one of the same download, cut off after any number of bytes, reads as the earlier state, as the new one or as none, if no blend of the two meta blocks has the checksum of the earlier |
| `PartStore.Store.WriteAt` | src/download.rs:547-557 | A write puts the buffer at its offset and touches nothing else; a failing one lands a prefix at most |
| `PartStore.Store.SetLen` | src/download.rs:547-557 | Sizes the data region and clears the state cell |
| `ChunkFetch.PumpToStore` | src/download.rs:1875-1915 | The outcome follows from the body length and the passes alone; a prefix of the body, no more than asked, lands in the right place; without an error the body or the request is exhausted; too slow exactly on a speed cut |
| `ChunkFetch.StreamChunkOnce` | src/download.rs:1768-1820 | Bytes land only from a 206 that starts at the asked offset and states the planned size; a 200 or a mismatched 206 writes nothing and falls back |
| `ChunkFetch.FetchChunk` | src/download.rs:1690-1749 | Terminates on (bytes missing, budget) for every server; writes only inside the chunk; Ok only with every byte in place, the resource's own if the server is honest; ends at the first attempt, in the sequence the replies determine, that completes the chunk, is fatal, falls back, or uses up the attempts without healthy progress in a row that the budget allows |
| `ChunkFetch.AttemptsBounded` | src/download.rs:1701-1748 | For every server: no more than max_retries + 1 attempts in a row lack healthy progress, and the number of attempts is bounded by the bytes wanted and the budget |
| `ChunkFetch.AdvancingIsKeptExactly` | src/download.rs:74-82 | That no chunk is given up whose every attempt made healthy progress, as the documentation of max_retries has it, holds if and only if max_retries is above 0 |
| `ChunkFetch.AdvancesAndIsAbandoned` | src/download.rs:1722-1741 | With max_retries = 0 a server that sends one byte at a time has a two-byte chunk given up after its first, healthy, attempt |
| `ChunkFetch.OneEnd` | src/download.rs:1690-1749 | Replies and budget determine the number of attempts and the result |
| `ChunkFetch.RecoversFromBusy` | src/download.rs:1768-1820 | A 5xx or a transient send error followed by an honest 206 ends with the chunk fetched in two attempts where a retry is allowed, and given up after one otherwise |
| `ChunkFetch.RefusalsEndAtOnce` | src/download.rs:1768-1820 | A fatal send error or any other status ends the fetch at the first attempt, a 200 and a mismatched 206 as a fall back |
| `Segmented.SegmentedComplete` | src/download.rs:1414-1495 | Over every interleaving of workers, replies, refusals, breaks, failing saves, kills, restarts, layout changes and resource changes in which no body of unknown length is copied over a saved state: Ok means every chunk index was claimed exactly once, every bit is set, and the file is one whole version, the one the validators name |
| `Segmented.FullBodyIsOneVersion` | src/download.rs:1205-1235 | Under the same condition: a whole body that bootstrap has received to its end is a prefix of one version |
| `Segmented.CrashSafe` | src/download.rs:1164-1181 | In every state reached without copying a body of unknown length over a saved state, before, during and after every save, the bitmap a restart would accept marks only chunks whose bytes, of the version its validators name, are all in the file |
| `SegmentedRuns.ClobberedIsTrusted` | src/download.rs:1351-1358 | Where that does happen it fails: a partial, a start with another layout, one byte of a 200 without a length and a kill leave a bitmap that a restart accepts and that marks bytes of no version it could name |
| `SegmentedRuns.ClobberedEndsInSplice` | src/download.rs:1351-1358 | That restart ends with Ok over a file that is no version at all |
| `SegmentedRuns.BodyKeepsStateExactly` | src/download.rs:1205-1235 | Copying a whole body in start-up leaves what is saved true of the file, in every world, if and only if the reply states a length or no state is saved |
| `SegmentedRuns.OverwriteExactly` | src/download.rs:1217-1227 | Copied over a file from its start, a body leaves the marked chunks intact at every point if and only if it agrees with them as far as it reaches |
| `Segmented.StepKeeps` | src/download.rs:1186-1346 | Every step of start-up, whole bodies included, of a worker and of the join, and every kill, keeps the invariant behind the theorems, except a body of unknown length over a saved state |
| `Segmented.RunKeeps` | src/download.rs:1414-1495 | The invariant holds after every run of events without such a step |
| `SegmentedRuns.CanFinish` | src/download.rs:1102-1160 | From every such state in which no process runs, over a resource that has not changed since, some undisturbed run brings run_chunks to Ok and the whole resource into the file |
| `SegmentedRuns.JoinDecides` | src/download.rs:1436-1495 | For every run of the workers, told from its events: the join falls back if and only if some chunk request was refused or answered from another version and nothing failed or panicked, fails if and only if something did, and is Ok if and only if neither happened |
| `SegmentedRuns.ClaimsEnd` | src/download.rs:1449-1479 | In every run of the workers, from the first failure or refusal on: only workers already past the test claim another chunk, and each of them but one |
| `SegmentedRuns.BootKeepsGround` | src/download.rs:1280-1346 | Fetching the first chunk never loses ground: after a break the rest is asked for, of the same version and plan, and the workers start only once the chunk is whole |
| `SegmentedRuns.BootFallsBack` | src/download.rs:1236-1346 | Start-up falls back exactly on a 206 without a total or where a chunk request would be refused, leaving the disk as it was, and fails exactly on a failing step |
| `SegmentedRuns.ResumeAccepts` | src/download.rs:1164-1181 | A state saved for a layout is what a start with that layout resumes from, bitmap and validators included |
| `SegmentedRuns.SavedIsResumed` | src/download.rs:1164-1181 | In every state that satisfies the invariant: once a worker has saved, a kill and a restart with that layout go on from the very bitmap it saved |
| `SegmentedRuns.WholeCanFinish` | src/download.rs:1205-1258 | Where the server states a length but knows no ranges, the whole resource can arrive in one body |
| `SegmentedRuns.BrokenWholeIsAskedAgain` | src/download.rs:1236-1258 | A whole body that breaks, or whose write fails half way, is asked for again from its start, with nothing saved for it |
| `SegmentedRuns.WorkersAsAsked` | src/download.rs:1414-1440 | As many workers as asked for, at least one, at most 16 and no more than chunks |
| `SegmentedRuns.FetchIsRun` | src/download.rs:1458-1476 | However a fetch of a chunk ends, over honest replies, it is a run of the worker steps: the same bytes land, and the worker has the chunk landed, or the run failed or falling back |
| `Segmented.ResumeIsSound` | src/download.rs:1164-1181 | What resuming takes from the cell is true of the file, for the version and layout it was saved for |
| `SingleStream.RunSingle` | src/download.rs:824-866 | Over any run in which the resource may change between attempts: what was received to its end is published exactly when the hash check accepts it, and is a prefix of one version, the whole of it if and only if the body of the last reply did not end early; otherwise a state true of the file is left, and what it reads back as is that of the last save the passes of the copies made; how many attempts are made and how the run ends follows from the replies, giving up at max_retries + 1 attempts in a row without resumable progress |
| `SingleStream.AttemptSingle` | src/download.rs:870-974 | One attempt keeps the stored prefix a prefix of the one version the current validators name; its outcome follows from the reply and the position |
| `SingleStream.AttemptFull` | src/download.rs:870-974 | A 200 restarts at offset 0 under the new validators; without a length its body is taken as far as it goes |
| `SingleStream.AttemptPartial` | src/download.rs:870-974 | A 206 is appended only where it lines up with what is held; otherwise everything is discarded |
| `SingleStream.StreamToStore` | src/download.rs:980-1066 | The bytes copied continue the version held; what the saved state reads back as is the offset of the last save the passes made, so a copy of known size that breaks leaves the very offset it reached, with validators and size |
| `SingleStream.BrokenIsSaved` | src/download.rs:1000-1061 | A copy that breaks has just saved the offset it reached, or its save was torn; one that ends without a timed save leaves what was saved before |
| `SingleStream.Persist` | src/download.rs:1070-1075 | The saved state, torn or not, claims only bytes that are in the file; without a total nothing is saved |
| `SingleStream.VerifyAndFinalize` | src/download.rs:1515-1529 | Publishes exactly the verified bytes, or discards everything |
| `SingleRuns.AttemptsBoundedExactly` | src/download.rs:824-866 | One number bounds the attempts of every run, whatever the server does, if and only if max_retries is 0 or there is not a byte to send |
| `SingleRuns.RunNeverEnds` | src/download.rs:824-866 | With a retry allowed, a server that alternates a 200 breaking after one byte with a 206 from the wrong offset keeps the run going: it is unfinished after any number of attempts, and cannot come to anything else |
| `SingleRuns.AttemptsWithinLosses` | src/download.rs:824-866 | For every run: attempts <= (losses + 1) * longest version * (max_retries + 1) + max_retries + 1, a loss being an attempt that leaves fewer bytes than it found |
| `SingleRuns.AttemptsWithoutRestart` | src/download.rs:824-866 | Where no reply makes a run that holds bytes start over, attempts <= longest version * (max_retries + 1) + max_retries + 1 |
| `SingleRuns.LossNeedsRestart` | src/download.rs:894-956 | A run that holds bytes loses some only to a 200, to a 206 that does not line up, or to a 416 that states another size |
| `SingleRuns.ShortRun` | src/download.rs:980-1066 | A run that publishes two bytes of a version of three, after a 206 that ends early |
| `SingleRuns.ClosedRun` | src/http.rs:4326-4335 | A run that publishes two bytes of a version of three: a 200 without a length, closed by the peer |
| `SingleRuns.OpeningFits` | src/download.rs:1079-1091 | What a sound store lets a run start from is no more than some version holds, so the bounds hold of every run |
| `SingleRuns.BreakIsResumed` | src/download.rs:1079-1091 | For every run: where its last attempt broke in a body of known size with an untorn save, the next run starts at the very position reached, with the validators of that reply |
| `Download.RunDownload` | src/download.rs:808-820 | A whole run of the program, segmented and then, on a fall back, in one stream over the same store, with no body of unknown length copied over a saved state in start-up: what is received to its end is published exactly when the hash check accepts it, and is one version, whole from run_chunks, else as far as the last body went; what is left where nothing is published is a sound start for both modes |
| `Download.SegmentedLeavesSound` | src/download.rs:808-820 | However a segmented run goes without such a copy and wherever it is killed, the disk it leaves, started from a sound one, is sound for both modes |
| `Download.StreamIsClobbered` | src/download.rs:1351-1358 | With such a copy over the state of a single stream it is not |
| `Dates.CivilIsNaive` | src/cookie.rs:775-804 | The closed-form day number equals counting leap years and month lengths one by one |
| `Dates.CivilFromDaysCorrect` | src/cli.rs:4748-4778 | The date computed from a day number is a valid date with that day number |
| `HttpDates.EpochIsNaive` | src/cookie.rs:775-804 | For every valid date the epoch second is the naive count, clamped to 0 before 1970 |
| `HttpDates.HttpDateRoundTrip` | src/cli.rs:4711-4778 | Parsing a printed date gives the second back if and only if it is below 2^63 |
| `HttpDates.CookieDateReadsPrinted` | src/cookie.rs:671-724 | The cookie-date parser reads the printed date as the same second up to the end of the year 9999, and refuses it after |
| `HttpDates.PrintedWeekday` | src/cli.rs:4711-4778 | A printed date starts with the weekday found by counting days from a Thursday, 1970-01-01 |
| `HttpDates.ShortYearReads` | src/cookie.rs:671-720 | A date with a two-digit year is read in 1970 to 2069, for every valid date in those years |
| `HttpDates.ParseHttpDate` | src/cookie.rs:671-720 | The loop over tokens fills clock, day, month and year first come first served and assembles them |
| `CookieMatch.DomainMatchLower` | src/cookie.rs:411-433 | Domain matching does not depend on the case of the request host, IP literals included |
| `CookieMatch.DomainMatchByLabels` | src/cookie.rs:411-433 | A host matches a domain if and only if they are equal up to case, or the cookie is not host-only, the host is no IP literal, and its dot-separated labels end with those of the domain behind at least one more |
| `CookieMatch.GluedIsForeign` | src/cookie.rs:429-432 | A domain with other characters glued in front, as in evilexample.com, is no subdomain of it |
| `CookieMatch.PathMatchBySegments` | src/cookie.rs:463-473 | A request path matches a cookie path if and only if it is that path or lies below it, never inside a segment |
| `CookieMatch.SecureContextByLabels` | src/cookie.rs:448-459 | Secure contexts are TLS schemes, localhost and its subdomains by labels, ::1 and loopback addresses |
| `CookieMatch.LoopbackAddresses` | src/cookie.rs:456-458 | Every address of 127.0.0.0/8 in dotted decimal is loopback |
| `CookieMatch.DottedQuadIsIp` | src/cookie.rs:893-907 | Every address in dotted decimal is an IP literal |
| `CookieMatch.NameIsNotIp` | src/cookie.rs:893-907 | A host with a letter in it, no colon and no opening bracket is none |
| `CookieMatch.RequestPathStops` | src/cookie.rs:438-443 | The path of a request target ends before its query or fragment |
| `CookieMatch.DefaultPathIsDirectory` | src/cookie.rs:654-663 | The default path is the directory of the request path, or the root |
| `CookieMatch.IpLiteralLower` | src/cookie.rs:893-908 | Being an IP literal does not depend on case |
| `CookieMatch.DefaultPathCovers` | src/cookie.rs:654-663 | The default path covers the path it came from if and only if that path starts with a slash |
| `SetCookie.ParseSetCookie` | src/cookie.rs:479-649 | The parser returns the meaning of the line: per attribute the last usable occurrence decides, one foreign domain or forged path rejects the cookie, whatever the order |
| `SetCookie.ScanAttrs` | src/cookie.rs:513-604 | The attribute loop stops exactly on a rejecting attribute and otherwise ends with the last usable value of each |
| `SetCookie.AbsorbIsOverride` | src/cookie.rs:521-602 | One turn of the loop replaces exactly what its attribute speaks of, or rejects |
| `SetCookie.ScopeSound` | src/cookie.rs:521-567 | Whatever the attributes, the cookie is host-only for the lower-cased host, or scoped to a registrable domain that covers a non-IP host, label by label |
| `SetCookie.PrefixesHold` | src/cookie.rs:606-625 | Secure only from a secure context; __Secure- implies Secure; __Host- implies Secure, host-only and Path=/ |
| `SetCookie.ReturnsToItsUrl` | src/cookie.rs:378-395 | A live cookie is selected for the URL that set it exactly when its path covers it; set without Path=, exactly when the URL's path starts with a slash |
| `SetCookie.MatchesAsMeant` | src/cookie.rs:378-393 | A cookie is selected for a request exactly when it is alive, its domain covers the host by labels, its path the path by segments, and a Secure one meets a secure context |
| `SetCookieText.SetCookieReadsBack` | src/cookie.rs:479-649 | A cookie that a response from a URL can set, written as a Set-Cookie line with each of its attributes by name, is read as that very cookie: Domain, Path, Expires or Max-Age, Secure, HttpOnly, SameSite and Partitioned |
| `SetCookieText.KindIgnoresCase` | src/cookie.rs:513-604 | The case of an attribute name does not matter |
| `CookieJars.JarRefinesMap` | src/cookie.rs:91-187 | A jar built by any operations has one cookie per (name, case-folded domain, path), is the map those operations build, and every explicit key names a stored session cookie |
| `CookieJars.ApplyRefines` | src/cookie.rs:312-374 | Each operation is the matching map update and keeps the invariant |
| `CookieJars.CookieJar.AddSetCookie` | src/cookie.rs:136-160 | Parse, refuse what would shadow a Secure cookie from an insecure origin, delete on past expiry, else replace |
| `CookieJars.CookieJar.HasShadowedSecure` | src/cookie.rs:171-179 | True exactly when some stored Secure cookie of that name overlaps in domain and path |
| `CookieJars.CookieJar.IngestResponse` | src/cookie.rs:125-132 | All Set-Cookie headers of a response, in order, and no other header |
| `CookieJars.CookieJar.RemoveMatching` | src/cookie.rs:162-166 | Drops the key, ignoring the case of the domain, from both lists |
| `CookieJars.CookieJar.AddExplicit` | src/cookie.rs:312-336 | Replaces the key by a host-only session cookie and records it as explicit |
| `CookieJars.CookieJar.Insert` | src/cookie.rs:355-358 | Replaces the key by the given cookie |
| `CookieJars.CookieJar.Remove` | src/cookie.rs:362-368 | Removes the key and tells whether a cookie was there |
| `CookieJars.CookieJar.PurgeExpired` | src/cookie.rs:183-187 | Keeps exactly the cookies that expire later than now or not at all |
| `CookieLaws.SecureCookiesLeftAlone` | src/cookie.rs:136-179 | For every jar and every sequence of Set-Cookie lines from insecure origins, deletions included, the subsequence of Secure cookies is unchanged |
| `CookieLaws.RefusedExactly` | src/cookie.rs:136-179 | A Set-Cookie line changes nothing exactly when it is unreadable or, from an insecure origin, overlaps by labels and segments a stored Secure cookie of its name; otherwise the jar loses what its key named and gains the cookie exactly if it lives |
| `CookieLaws.ServerCookiesAreScoped` | src/cookie.rs:479-649 | In a jar filled by servers every cookie is scoped to the origin of a response that set it and honours its name prefix |
| `CookieLaws.MaxAgeDecides` | src/cookie.rs:627-634 | The last readable Max-Age alone decides: the cookie lives exactly when it is positive and the u64 clock has not run out, whatever Expires says; a line delivered with a cookie that does not live leaves none under its key |
| `CookieLaws.Provenance` | src/cookie.rs:136-160 | Every stored cookie is, unaltered, one that some operation offered |
| `CookieLaws.ExplicitIsLastWriter` | src/cookie.rs:312-346 | A key is explicit if and only if a command-line cookie was put under it and nothing replaced or removed it since; the jar then holds that very cookie |
| `CookieLaws.ExplicitGoesToItsHost` | src/cookie.rs:312-336 | A command-line cookie goes to the host it was given for, up to case, and to no other, on every path that starts with a slash, and never expires |
| `CookieHeader.BuildHeader` | src/cookie.rs:193-221 | Exactly the stored cookies meant for the request, by labels and path segments, and of printable name and value, or no header when there are none |
| `CookieHeader.LongestFirstIsStable` | src/cookie.rs:207-210 | Descending by path length in bytes, and cookies of one length in jar order |
| `CookieHeader.HeaderReadsBack` | src/cookie.rs:211-220 | A server splitting the header reads exactly the pairs sent, in order |
| `CookieHeader.HeaderCarriesTheJar` | src/cookie.rs:193-221 | Whatever servers set, no name or value can add, drop or alter a pair of a later request |
| `CookieHeader.MeaningIsSound` | src/cookie.rs:479-497 | An accepted name is non-empty, trimmed and free of = and ;, its value trimmed and free of ;, and both are printable |
| `Netscape.RecordReadsBack` | src/cookie.rs:930-1003 | A written record reads back as its cookie, up to SameSite and partition fields, if and only if the cookie is clean |
| `Netscape.SaveThenLoad` | src/cookie.rs:229-306 | Saving and loading gives the same cookies in the same order: all but those under an explicit key and those holding a separator, if the ones kept are clean |
| `Netscape.LoadsOnlyRecords` | src/cookie.rs:261-306 | For every jar, what is loaded is what the written records say, one by one; the heading says nothing |
| `Netscape.SaveNetscape` | src/cookie.rs:261-303 | The loop writes the heading and one record per cookie that is neither explicit nor holds a separator |
| `Netscape.LoadNetscape` | src/cookie.rs:229-244 | The loop keeps the cookies of the lines that hold one, skipping the rest |
| `Glob.GlobIter.Next` | src/cli.rs:837-863 | The k-th call yields the item of the mixed-radix digits of k, rightmost set fastest; after exactly the product of the set sizes there is none |
| `Glob.GlobIter.Advance` | src/cli.rs:851-860 | The odometer moves to the successor choice, or is done at the last |
| `Glob.GlobIter.Current` | src/cli.rs:841-850 | URL and captures of the present choice |
| `Glob.Collect` | src/cli.rs:834-864 | A whole iteration is the list of all items in counting order |
| `Glob.DigitsOfRank` | src/cli.rs:834-864 | Every choice of alternatives has a number below the product and is what that number stands for |
| `Glob.RankOfDigits` | src/cli.rs:834-864 | Every number below the product stands for a valid choice with that number, so no choice repeats |
| `Glob.AfterCounts` | src/cli.rs:851-860 | The successor choice has the next number; there is none exactly after the last number |
| `Glob.ItemsStayInRange` | src/cli.rs:808-820 | No value of a range overflows u64 or u32 or passes the end of the range |
| `Glob.RangeCountExact` | src/cli.rs:945-969 | A numeric range counts exactly the steps up to its end, except all of u64 step by step, where the count wraps to 0 |
| `Glob.ParseGlob` | src/cli.rs:877-926 | The loop returns the segments of the text, or nothing for a malformed glob |
| `Glob.FindClose` | src/cli.rs:928-941 | The first closing bracket at which the brackets balance |
| `Glob.GlobWellFormed` | src/cli.rs:877-981 | Every segment read is a non-empty run, a non-empty list or an exact range, the whole-u64 range aside; runs are maximal |
| `Glob.EscapedIsLiteral` | src/cli.rs:884-887 | Any text with its special characters escaped is one literal, that text |
| `Glob.Expand` | src/cli.rs:985-997 | Refuses exactly on an overflowing product or one above the limit; otherwise the iterator stands at the first item |
| `Glob.AcceptedUrls` | src/cli.rs:985-997 | A readable URL stands for nothing exactly when it holds the whole-u64 range; otherwise it is refused exactly above 10,000,000 items |
| `GlobText.WrittenMeansLoops` | src/cli.rs:834-981 | Any list of texts, lists, number ranges and letter ranges, written as a glob, is accepted, and the k-th item of the iterator is the k-th row of the nested loops over what was written, rightmost set fastest, captures included |
| `GlobText.SegOffers` | src/cli.rs:943-981 | A range read from its text offers exactly the numbers or characters counted from its first by its step up to its last, padded to the width of the first number when that has a leading zero |
| `GlobText.RangeReads` | src/cli.rs:943-981 | What a range body means, told from the two texts around its dash and its step |
| `GlobText.FallingIsRefused` | src/cli.rs:943-981 | A range that goes down is refused, of numbers or letters |
| `GlobText.UnclosedIsRefused` | src/cli.rs:877-941 | A set that is never closed makes the glob malformed, whatever stands before it |
| `Disposition.DispositionRoundTrip` | src/cli.rs:1669-1678 | With backslashes, every field name and file name reads back exactly, quotes, backslashes and semicolons included |
| `Disposition.PercentRoundTrip` | src/cli.rs:1703-1716 | With percent escapes the names read back as they were if and only if no character had to be escaped and all are ASCII |
| `Disposition.PercentCollides` | src/cli.rs:1703-1716 | Two different names share one percent form |
| `Disposition.PercentDecodes` | src/cli.rs:1703-1716 | The percent form of a text without percent signs decodes to the UTF-8 bytes of that text |
| `Disposition.Utf8Stands` | src/cli.rs:1703-1716 | The bytes a character is written as are as many as UTF-8 has and stand for that character |
| `Disposition.EncodeAttr` | src/cli.rs:1703-1727 | The loop encodes character by character, in either mode |
| `Disposition.ContentDispositionParams` | src/cli.rs:3429-3472 | The iterator loop reads the parameter list of the value |
| `Quoting.QuotedBack` | src/cli.rs:3447-3454 | Reading a backslash-escaped text up to its quote gives the text and what follows |
| `ImapReader.LineReader.ReadResponse` | src/imap.rs:796-852 | For every split of the stream into reads, the text, the literals, the failure and the leftover bytes are those of a naive reader of the whole stream, over-long responses included |
| `ImapReader.LineReader.ReadLine` | src/imap.rs:720-758 | For every split the line is the one before the first CRLF of the stream; too long only when that CRLF is beyond the cap |
| `ImapReader.LineReader.ReadExact` | src/imap.rs:762-779 | Exactly the next n bytes and not one more; end of stream only when fewer are left |
| `ImapReader.TailDecides` | src/imap.rs:722-734 | Scanning from one byte before the end of the old data finds the same CRLF as scanning everything |
| `ImapReader.LongLine` | src/imap.rs:735-747 | A line the per-line cap stops is one the aggregate cap refuses too |
| `ImapReader.MarkerReads` | src/imap.rs:666-679 | A printed literal marker reads back as its size, whatever precedes it, exactly while it fits 64 bits |
| `ImapReader.FramingReadsBack` | src/imap.rs:796-852 | A framed response reads back as its text and exactly its literals, even ones holding CRLF, the tag or a plus sign, and leaves what follows |
| `ImapReader.ResponseReadsBack` | src/imap.rs:796-852 | For a tag without blanks that does not start with * or +: any untagged lines, with their literals, and a last line that is the tag alone, the tag and a blank and any text, or a continuation request read back as that text and those literals, and leave what follows |
| `ImapReader.LongerTagGoesOn` | src/imap.rs:434-437 | A line that starts with a longer tag, a0010 for a001, does not end the response |
| `ImapReader.LiteralSizeExactly` | src/imap.rs:666-679 | A line announces a literal of n bytes exactly when it ends, blanks aside, in braces around the digits of n with at most one plus sign, below 2^64 |
| `Digest.AuthorizationReadsBack` | src/digest.rs:99-198 | Whenever a header is produced, reading it gives exactly the intended keys and values: no challenge or credential value adds, drops or alters one |
| `Digest.CheckedExactly` | src/digest.rs:99-198 | For every challenge that is answered: some server, knowing the request and the password, can compute the response from the rest of the header for all hash functions and client nonces if and only if a qop was offered or the algorithm is not a session one |
| `Digest.AnsweredInVain` | src/digest.rs:125-196 | The challenge Digest realm="r", nonce="n", algorithm=MD5-sess is answered with a header that no server can always check |
| `Digest.ResponseIsStandard` | src/digest.rs:156-175 | The response is the request digest of section 3.4 of RFC 7616, for every algorithm and qop, or its older form without qop |
| `Digest.HeaderEchoesChallenge` | src/digest.rs:99-198 | Read back, the header names the realm, nonce, opaque value and, up to case, algorithm of the challenge |
| `Digest.AlgorithmsMean` | src/digest.rs:125-132 | MD5 and SHA-256, plain or -sess and in any case, stand for their hash and session form; no algorithm means MD5; any other is refused |
| `Digest.QopChosen` | src/digest.rs:136-148 | auth before auth-int, whatever the order and case in which they are offered; a list with neither is refused |
| `Digest.QuotedCredentials` | src/digest.rs:85-97 | The quoted user and URI stand for the originals |
| `Digest.RenderedReads` | src/digest.rs:202-252 | A rendered list of readable parameters reads back as its keys and values in order |
| `Digest.ParseParams` | src/digest.rs:202-252 | The index loop builds the map of the entries of the text, later ones winning |
| `Digest.ScanEntry` | src/digest.rs:206-250 | One turn takes exactly one entry off the text and moves on |
| `Digest.QuoteText` | src/digest.rs:85-97 | Backslash before every quote and backslash; refused on CR, LF or NUL |

## Left out

- Sockets, TLS, proxies, HTTP wire parsing, `BodyReader`, URL parsing and file creation: environment steps or parameters.
- Sleeping, back-off durations, rate limits and the speed computation: a cut for low speed is a choice of the environment.
- `parse_content_range` and the header lookups: replies carry the parsed `Content-Range`.
- The retry budget of `bootstrap` and the maximum size there: a break may be followed by any number of further requests, and refusing a size is one of the errors.
- `plan_key` and its collisions: a parameter with an explicit no-collision hypothesis on the layouts in use.
- File data that happens to look like a resume trailer, and a `set_len(0)` that fails silently: `set_len` is taken as clearing the state cell.
- CancelToken.HookTable.Register: the class runs one thread at a time, the racing store of the flag being a parameter; the interleavings themselves are the state machine `CancelToken.Run`.
- CookieJars.CookieJar.IngestResponse: the clock is read once by the caller and passed in.
- CookieJars.CookieJar.PurgeExpired: the clock is passed in.
- Netscape.SaveNetscape: gives the text only; the owner-only temporary file and the rename are not modelled.
- ResumeMeta.InterruptedSave: is about a save over an earlier one with a meta block of the same length, as those of one run are; a first save into a file without one may be cut where the data mimics a trailer.
- SetCookie.ReturnsToItsUrl: allows paths without a leading slash, which URL parsing never produces (src/url.rs:83-89).
- Overflow inside the date arithmetic of hostile dates: the intermediate products are unbounded integers, only the final range test is the source's.
- HttpDates.HttpDateRoundTrip: speaks of printed dates; which malformed dates the lenient parsers accept is modelled but not characterised.
- Glob.GlobIter.Next: the segments are not changed by the source either, so they are a constant field.
- `apply_glob_output`, `content_disposition_filename` and the extended file name form.
- Digest: the hash functions are uninterpreted; `find_challenge`, `is_stale` and the random client nonce are left out.
- ImapReader.LineReader.ReadResponse: says nothing about a response cut by a failing connection, beyond that it fails.
- IMAP commands, SASL and URL parsing; FTP, DICT, Gopher, compression, BitTorrent, SSH, flag parsing and the C bindings.
