/**
 The idle-action timer (quantra-logind/src/power.rs): a poll every thirty seconds
 that remembers since when all sessions have been idle and acts at a threshold.
 A run is a sequence of polls; each carries the two clock readings the source makes.
 */
module IdleAction {
  import opened Optional

  /** One poll: is idle inhibited, the idle hint of every session, the clock when the
      timer would start and the clock when the elapsed time is taken, in nanoseconds. */
  datatype Poll = Poll(inhibited: bool, idleHints: seq<bool>, startClock: nat, elapsedClock: nat)

  predicate Quiet(p: Poll) {
    !p.inhibited && p.idleHints != [] && forall i :: 0 <= i < |p.idleHints| ==> p.idleHints[i]
  }

  /** The clock is monotonic, within a poll and between polls. */
  predicate Clocked(polls: seq<Poll>) {
    && (forall i :: 0 <= i < |polls| ==> polls[i].startClock <= polls[i].elapsedClock)
    && (forall i, j :: 0 <= i < j < |polls| ==> polls[i].elapsedClock <= polls[j].startClock)
  }

  const NANOS: nat := 1_000_000_000

  /** `idle_action_sec.max(1)` seconds. */
  function Threshold(idleActionSec: nat): nat { NANOS * (if idleActionSec < 1 then 1 else idleActionSec) }

  /** At least one second, in nanoseconds. */
  lemma ThresholdIs(seconds: nat)
    ensures Threshold(0) == Threshold(1) == 1_000_000_000
    ensures seconds >= 1 ==> Threshold(seconds) == seconds * 1_000_000_000
  {
  }

  /** Polls j to k are one unbroken stretch: all quiet, none but perhaps the last fired, and it cannot start earlier. */
  predicate Stretch(polls: seq<Poll>, fired: seq<bool>, j: nat, k: nat)
    requires |fired| >= k && k < |polls|
  {
    && j <= k
    && (forall i :: j <= i <= k ==> Quiet(polls[i]))
    && (forall i :: j <= i < k ==> !fired[i])
    && (j == 0 || !Quiet(polls[j - 1]) || fired[j - 1])
  }

  /** The poll should act: the stretch it ends has lasted the threshold. */
  predicate Due(polls: seq<Poll>, fired: seq<bool>, threshold: nat, k: nat)
    requires |fired| >= k && k < |polls|
  {
    exists j: nat :: j <= k && Stretch(polls, fired, j, k) && polls[k].elapsedClock - polls[j].startClock >= threshold
  }

  /** A stretch ending at k has one start. */
  lemma StretchUnique(polls: seq<Poll>, fired: seq<bool>, i: nat, j: nat, k: nat)
    requires |fired| >= k && k < |polls| && Stretch(polls, fired, i, k) && Stretch(polls, fired, j, k)
    ensures i == j
  {
  }

  /** `iter().all(|s| s.idle_hint)`, and false for no sessions. */
  method AllIdle(hints: seq<bool>) returns (r: bool)
    ensures r <==> hints != [] && forall i :: 0 <= i < |hints| ==> hints[i]
  {
    if hints == [] { return false; }
    for i := 0 to |hints|
      invariant forall j :: 0 <= j < i ==> hints[j]
    {
      if !hints[i] { return false; }
    }
    return true;
  }

  /** The remembered instant is the start of the stretch that reaches the last poll, if there is one. */
  ghost predicate Timer(polls: seq<Poll>, fired: seq<bool>, since: Option<nat>, start: nat) {
    var n := |fired|;
    && n <= |polls|
    && (since.Some? ==>
      start < n && Stretch(polls, fired, start, n - 1) && !fired[n - 1] && since.value == polls[start].startClock)
    && (since.None? ==> n == 0 || !Quiet(polls[n - 1]) || fired[n - 1])
  }

  lemma StretchGrows(polls: seq<Poll>, fired: seq<bool>, since: Option<nat>, start: nat)
    requires Timer(polls, fired, since, start) && |fired| < |polls| && Quiet(polls[|fired|])
    ensures Stretch(polls, fired, if since.Some? then start else |fired|, |fired|)
  {
  }

  /** With the start of the stretch at hand, being due is one comparison. */
  lemma DueFromStart(polls: seq<Poll>, fired: seq<bool>, threshold: nat, start: nat, n: nat)
    requires |fired| >= n && n < |polls| && Stretch(polls, fired, start, n)
    ensures Due(polls, fired, threshold, n) <==> polls[n].elapsedClock - polls[start].startClock >= threshold
  {
    forall j: nat | j <= n && Stretch(polls, fired, j, n) ensures j == start {
      StretchUnique(polls, fired, j, start, n);
    }
  }

  lemma BusyNotDue(polls: seq<Poll>, fired: seq<bool>, threshold: nat, n: nat)
    requires |fired| >= n && n < |polls| && !Quiet(polls[n])
    ensures !Due(polls, fired, threshold, n)
  {
  }

  lemma StretchKept(polls: seq<Poll>, fired: seq<bool>, x: bool, start: nat, n: nat)
    requires |fired| == n < |polls| && Stretch(polls, fired, start, n)
    ensures Stretch(polls, fired + [x], start, n)
  {
  }

  /** One turn of the loop. */
  method OnePoll(polls: seq<Poll>, fired: seq<bool>, threshold: nat, allIdleSince: Option<nat>, ghost start: nat)
    returns (fire: bool, since: Option<nat>, ghost start': nat)
    requires Timer(polls, fired, allIdleSince, start) && |fired| < |polls|
    ensures fire <==> Due(polls, fired, threshold, |fired|)
    ensures Timer(polls, fired + [fire], since, start')
  {
    hide Due, Stretch;
    ghost var n := |fired|;
    var p := polls[|fired|];
    fire, since, start' := false, None, start;
    var allIdle := AllIdle(p.idleHints);
    if p.inhibited || !allIdle {
      BusyNotDue(polls, fired, threshold, n);
      return;
    }
    StretchGrows(polls, fired, allIdleSince, start);
    since := allIdleSince;
    if since.None? {
      since := Some(p.startClock);
      start' := n;
    }
    DueFromStart(polls, fired, threshold, start', n);
    if p.elapsedClock - since.value >= threshold {
      fire, since := true, None;
    }
    StretchKept(polls, fired, fire, start', n);
  }

  /** The loop, over any run of polls: it acts exactly when due. */
  method IdleActionLoop(polls: seq<Poll>, idleActionSec: nat) returns (fired: seq<bool>)
    ensures |fired| == |polls|
    ensures forall k :: 0 <= k < |polls| ==> (fired[k] <==> Due(polls, fired, Threshold(idleActionSec), k))
  {
    hide Due;
    var allIdleSince: Option<nat> := None;
    var threshold := NANOS * (if idleActionSec < 1 then 1 else idleActionSec);
    fired := [];
    ghost var start: nat := 0;
    for n := 0 to |polls|
      invariant |fired| == n && Timer(polls, fired, allIdleSince, start)
      invariant forall k :: 0 <= k < n ==> (fired[k] <==> Due(polls, fired, threshold, k))
    {
      var fire;
      fire, allIdleSince, start := OnePoll(polls, fired, threshold, allIdleSince, start);
      DuePrefix(polls, fired, fired + [fire], threshold, n);
      fired := fired + [fire];
    }
  }

  /** Appending a result does not change what was due before it. */
  lemma DuePrefix(polls: seq<Poll>, before: seq<bool>, after: seq<bool>, threshold: nat, n: nat)
    requires |before| == n < |polls| && |after| == n + 1 && after[..n] == before
    ensures forall k :: 0 <= k <= n ==> (Due(polls, before, threshold, k) <==> Due(polls, after, threshold, k))
    ensures forall k :: 0 <= k < n ==> after[k] == before[k]
    ensures forall j: nat :: Stretch(polls, before, j, n) <==> Stretch(polls, after, j, n)
  {
    assert forall k :: 0 <= k < n ==> after[k] == before[k];
    forall j: nat, k: nat | k <= n ensures Stretch(polls, before, j, k) <==> Stretch(polls, after, j, k) {
    }
    forall k | 0 <= k <= n ensures Due(polls, before, threshold, k) <==> Due(polls, after, threshold, k) {
    }
  }

  /** Two actions are never closer than the threshold. */
  lemma FiringsApart(polls: seq<Poll>, fired: seq<bool>, threshold: nat, k1: nat, k2: nat)
    requires Clocked(polls) && |fired| == |polls| && k1 < k2 < |polls|
    requires forall k :: 0 <= k < |polls| ==> (fired[k] <==> Due(polls, fired, threshold, k))
    requires fired[k1] && fired[k2]
    ensures polls[k2].elapsedClock - polls[k1].elapsedClock >= threshold
  {
    var j: nat :| j <= k2 && Stretch(polls, fired, j, k2) && polls[k2].elapsedClock - polls[j].startClock >= threshold;
    assert k1 < j;
  }

  /** An inhibitor, a busy session or an empty session list at any poll restarts the wait. */
  lemma BusyPollRestarts(polls: seq<Poll>, fired: seq<bool>, threshold: nat, busy: nat, k: nat)
    requires Clocked(polls) && |fired| == |polls| && busy < k < |polls| && !Quiet(polls[busy])
    requires Due(polls, fired, threshold, k)
    ensures polls[k].elapsedClock - polls[busy].elapsedClock >= threshold
  {
    var j: nat :| j <= k && Stretch(polls, fired, j, k) && polls[k].elapsedClock - polls[j].startClock >= threshold;
    assert busy < j;
  }
}
