/**
 The crash-loop breaker of the service supervisor (quantra/src/services/supervisor.rs):
 a sliding window over the times at which a service was allowed to restart.
 */
module RestartLimit {

  /** The clock never runs backwards. */
  predicate Monotonic(times: seq<nat>) { forall i, j :: 0 <= i < j < |times| ==> times[i] <= times[j] }

  /** How many of the times lie within the window that ends now. */
  function Recent(times: seq<nat>, now: nat, window: nat): nat {
    if times == [] then 0
    else Recent(times[..|times| - 1], now, window) + (if times[|times| - 1] + window >= now then 1 else 0)
  }

  lemma {:induction false} RecentIsTail(times: seq<nat>, k: nat, now: nat, window: nat)
    requires k <= |times|
    requires forall i :: 0 <= i < k ==> times[i] + window < now
    requires forall i :: k <= i < |times| ==> times[i] + window >= now
    ensures Recent(times, now, window) == |times| - k
    decreases |times|
  {
    if times != [] {
      var front := times[..|times| - 1];
      if k == |times| { RecentIsTail(front, k - 1, now, window); } else { RecentIsTail(front, k, now, window); }
    }
  }

  /** The deque is what the history holds from `evicted` on, and everything before is out of the window. */
  ghost predicate Window(deque: seq<nat>, history: seq<nat>, evicted: nat, window: nat, now: nat) {
    && evicted <= |history| && deque == history[evicted..]
    && forall i :: 0 <= i < evicted ==> history[i] + window < now
  }

  /** One exit of the service at time now: evict, then refuse or record.  `history` is every restart allowed so far. */
  method OnExit(restartTimes: seq<nat>, maxRestarts: nat, window: nat, now: nat, ghost history: seq<nat>,
      ghost evicted: nat)
    returns (ok: bool, times: seq<nat>, ghost evicted': nat)
    requires Monotonic(history) && (forall i :: 0 <= i < |history| ==> history[i] <= now)
    requires Window(restartTimes, history, evicted, window, now)
    ensures ok <==> Recent(history, now, window) < maxRestarts
    ensures Window(times, if ok then history + [now] else history, evicted', window, now)
  {
    times, evicted' := restartTimes, evicted;
    while times != [] && now - times[0] > window
      invariant Window(times, history, evicted', window, now)
      decreases |times|
    {
      assert times[0] == history[evicted'];
      times, evicted' := times[1..], evicted' + 1;
    }
    forall i | evicted' <= i < |history| ensures history[i] + window >= now {
      assert times[0] == history[evicted'] <= history[i];
    }
    RecentIsTail(history, evicted', now, window);
    ok := |times| < maxRestarts;
    if ok {
      assert (history + [now])[evicted'..] == times + [now];
      times := times + [now];
    }
  }

  /** The monitor over a run of exits: the times it allows, until it gives up. A limit of zero switches the
      breaker off. */
  method Monitor(exits: seq<nat>, maxRestarts: nat, window: nat) returns (allowed: seq<nat>, gaveUp: bool)
    requires Monotonic(exits)
    ensures allowed <= exits
    ensures !gaveUp <==> allowed == exits
    ensures maxRestarts == 0 ==> !gaveUp
    ensures gaveUp ==> |allowed| < |exits| && Recent(allowed, exits[|allowed|], window) >= maxRestarts
    ensures maxRestarts > 0 ==> SpreadOut(allowed, maxRestarts, window)
  {
    hide Recent, SpreadOut, Window;
    if maxRestarts == 0 { return exits, false; }
    allowed := [];
    var restartTimes := [];
    ghost var evicted: nat := 0;
    NothingYet(maxRestarts, window);
    ghost var last: nat := 0;
    for n := 0 to |exits|
      invariant allowed == exits[..n]
      invariant Window(restartTimes, allowed, evicted, window, last)
      invariant n < |exits| ==> last <= exits[n]
      invariant SpreadOut(allowed, maxRestarts, window)
    {
      var now := exits[n];
      WindowMoves(restartTimes, allowed, evicted, window, last, now);
      var ok, times;
      ok, times, evicted := OnExit(restartTimes, maxRestarts, window, now, allowed, evicted);
      if !ok { return allowed, true; }
      RecentBound(allowed, maxRestarts, window, now);
      allowed := allowed + [now];
      restartTimes, last := times, now;
    }
    gaveUp := false;
  }

  lemma NothingYet(maxRestarts: nat, window: nat)
    ensures Window([], [], 0, window, 0) && SpreadOut([], maxRestarts, window)
  {
  }

  lemma WindowMoves(deque: seq<nat>, history: seq<nat>, evicted: nat, window: nat, last: nat, now: nat)
    requires Window(deque, history, evicted, window, last) && last <= now
    ensures Window(deque, history, evicted, window, now)
  {
  }

  /** Any maxRestarts + 1 allowed restarts span more than the window. */
  predicate SpreadOut(times: seq<nat>, maxRestarts: nat, window: nat) {
    forall i, j :: 0 <= i && i + maxRestarts <= j < |times| ==> times[i] + window < times[j]
  }

  /** An allowed restart is more than a window after the one maxRestarts before it. */
  lemma RecentBound(times: seq<nat>, maxRestarts: nat, window: nat, now: nat)
    requires maxRestarts > 0 && Monotonic(times) && (forall i :: 0 <= i < |times| ==> times[i] <= now)
    requires SpreadOut(times, maxRestarts, window) && Recent(times, now, window) < maxRestarts
    ensures SpreadOut(times + [now], maxRestarts, window)
  {
    var n := |times|;
    forall i | 0 <= i && i + maxRestarts <= n ensures times[i] + window < now {
      if times[i] + window >= now { RecentAtLeast(times, i, now, window); }
    }
  }

  lemma {:induction false} RecentAtLeast(times: seq<nat>, i: nat, now: nat, window: nat)
    requires Monotonic(times) && i < |times| && times[i] + window >= now
    ensures Recent(times, now, window) >= |times| - i
    decreases |times|
  {
    if i < |times| - 1 {
      assert times[i] <= times[|times| - 1];
      RecentAtLeast(times[..|times| - 1], i, now, window);
    }
  }
}
