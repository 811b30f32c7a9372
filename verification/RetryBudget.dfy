/** How a retry budget that progress refreshes bounds the attempts of src/download.rs. */
module RetryBudget {

  /** Length of the run of attempts without progress at the end of the trace. */
  function Stall(trace: seq<bool>): (n: nat)
    ensures n <= |trace|
  {
    if trace == [] || trace[|trace| - 1] then 0 else 1 + Stall(trace[..|trace| - 1])
  }

  /** No stall anywhere in the trace is longer than `limit`. */
  ghost predicate StallsWithin(trace: seq<bool>, limit: nat) {
    forall k :: 0 <= k <= |trace| ==> Stall(trace[..k]) <= limit
  }

  /** The number of attempts that made progress. */
  function Progresses(trace: seq<bool>): nat {
    if trace == [] then 0
    else Progresses(trace[..|trace| - 1]) + if trace[|trace| - 1] then 1 else 0
  }

  lemma StallSnoc(trace: seq<bool>, progress: bool)
    ensures Stall(trace + [progress]) == if progress then 0 else 1 + Stall(trace)
    ensures Progresses(trace + [progress]) == Progresses(trace) + if progress then 1 else 0
  {
    assert (trace + [progress])[..|trace|] == trace;
  }

  lemma WithinSnoc(trace: seq<bool>, progress: bool, limit: nat)
    ensures StallsWithin(trace + [progress], limit) <==> StallsWithin(trace, limit) && Stall(trace + [progress]) <= limit
  {
    hide Stall;
    var t := trace + [progress];
    assert forall k :: 0 <= k <= |trace| ==> t[..k] == trace[..k];
    assert t[..|t|] == t;
  }

  /** Short stalls and few progresses make a short trace. */
  lemma {:induction false} TraceBound(trace: seq<bool>, limit: nat)
    requires StallsWithin(trace, limit)
    ensures |trace| <= Progresses(trace) * (limit + 1) + Stall(trace)
  {
    assert trace[..|trace|] == trace;
    if trace != [] {
      var rest, last := trace[..|trace| - 1], trace[|trace| - 1];
      assert trace == rest + [last];
      WithinSnoc(rest, last, limit);
      StallSnoc(rest, last);
      TraceBound(rest, limit);
      assert rest[..|rest|] == rest;
    }
  }
}
