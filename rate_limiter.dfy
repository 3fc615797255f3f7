/**
 * The sliding-window rate limiter: for every identifier it keeps the
 * timestamps (milliseconds) of the requests it admitted, and admits a new
 * request only while fewer than `maxRequests` of those lie inside the
 * window of `windowMs` milliseconds ending now.
 *
 * The clock is not read here: every operation takes `now` as a parameter.
 * Timestamps are unbounded integers.
 */
module RateLimiting {

  /** The stored timestamps of one identifier; an unknown one has none. */
  function History(requests: map<string, seq<int>>, id: string): (h: seq<int>)
    ensures id !in requests ==> h == []
    ensures id in requests ==> h == requests[id]
  {
    if id in requests then requests[id] else []
  }

  /** The timestamps `t` with `now - t < windowMs`, in their stored order. */
  function InWindow(ts: seq<int>, now: int, windowMs: int): (r: seq<int>)
    ensures |r| <= |ts|
    ensures forall t :: t in r <==> t in ts && now - t < windowMs
    ensures forall t :: multiset(r)[t] == if now - t < windowMs then multiset(ts)[t] else 0
  {
    if ts == [] then []
    else
      assert ts == [ts[0]] + ts[1..];
      if now - ts[0] < windowMs then [ts[0]] + InWindow(ts[1..], now, windowMs)
      else InWindow(ts[1..], now, windowMs)
  }

  /** Pruning keeps the stored order: a timestamp appended to the history is
    * appended to the pruned history exactly when it is inside the window. */
  lemma {:induction false} InWindowAppend(ts: seq<int>, t: int, now: int, windowMs: int)
    ensures InWindow(ts + [t], now, windowMs)
              == InWindow(ts, now, windowMs) + (if now - t < windowMs then [t] else [])
    decreases |ts|
  {
    if ts == [] {
      assert ts + [t] == [t];
    } else {
      assert (ts + [t])[1..] == ts[1..] + [t];
      InWindowAppend(ts[1..], t, now, windowMs);
    }
  }

  /** When every timestamp is still inside the window, nothing is pruned. */
  lemma {:induction false} InWindowKeepsAll(ts: seq<int>, now: int, windowMs: int)
    requires forall i :: 0 <= i < |ts| ==> now - ts[i] < windowMs
    ensures InWindow(ts, now, windowMs) == ts
  {
    if ts != [] {
      InWindowKeepsAll(ts[1..], now, windowMs);
    }
  }

  /** When every timestamp has left the window, everything is pruned. */
  lemma {:induction false} InWindowDropsAll(ts: seq<int>, now: int, windowMs: int)
    requires forall i :: 0 <= i < |ts| ==> now - ts[i] >= windowMs
    ensures InWindow(ts, now, windowMs) == []
  {
    if ts != [] {
      InWindowDropsAll(ts[1..], now, windowMs);
    }
  }

  /** Pruning twice at the same instant prunes nothing more. */
  lemma InWindowIdempotent(ts: seq<int>, now: int, windowMs: int)
    ensures InWindow(InWindow(ts, now, windowMs), now, windowMs) == InWindow(ts, now, windowMs)
  {
    var r := InWindow(ts, now, windowMs);
    forall i | 0 <= i < |r|
      ensures now - r[i] < windowMs
    {
      assert r[i] in r;
    }
    InWindowKeepsAll(r, now, windowMs);
  }

  /** The outcome of one admission decision and the map it leaves behind. */
  datatype Decision = Decision(allowed: bool, requests: map<string, seq<int>>)

  /**
   * One admission decision: prune the identifier's history to the window;
   * reject, leaving the map as it was, when `maxRequests` or more remain;
   * otherwise store the pruned history followed by `now`.
   */
  function Admit(requests: map<string, seq<int>>, id: string, now: int,
                 maxRequests: int, windowMs: int): (d: Decision)
    ensures d.allowed <==> |InWindow(History(requests, id), now, windowMs)| < maxRequests
    ensures !d.allowed ==> d.requests == requests
    ensures d.allowed ==> d.requests.Keys == requests.Keys + {id}
    ensures d.allowed ==> d.requests[id] == InWindow(History(requests, id), now, windowMs) + [now]
    ensures d.allowed ==> |d.requests[id]| <= maxRequests
    ensures d.allowed ==> 1 <= |d.requests[id]| && d.requests[id][|d.requests[id]| - 1] == now
    ensures d.allowed ==> forall t :: t in d.requests[id] ==>
              t == now || (t in History(requests, id) && now - t < windowMs)
    ensures forall k :: k in requests && k != id ==> k in d.requests && d.requests[k] == requests[k]
  {
    var recent := InWindow(History(requests, id), now, windowMs);
    if |recent| >= maxRequests then Decision(false, requests)
    else Decision(true, requests[id := recent + [now]])
  }

  /** `Math.max(0, maxRequests - count)` over the pruned history. */
  function Remaining(requests: map<string, seq<int>>, id: string, now: int,
                     maxRequests: int, windowMs: int): (r: int)
    ensures r >= 0
    ensures maxRequests >= 0 ==> r <= maxRequests
    ensures r > 0 <==> Admit(requests, id, now, maxRequests, windowMs).allowed
    ensures r > 0 ==> r + |InWindow(History(requests, id), now, windowMs)| == maxRequests
  {
    var recent := InWindow(History(requests, id), now, windowMs);
    if maxRequests - |recent| > 0 then maxRequests - |recent| else 0
  }

  /** Every identifier stores at most `maxRequests` timestamps. */
  ghost predicate Bounded(requests: map<string, seq<int>>, maxRequests: int)
  {
    forall k :: k in requests ==> |requests[k]| <= maxRequests
  }

  /** Admission never lets any stored history grow past the limit. */
  lemma AdmitKeepsBound(requests: map<string, seq<int>>, id: string, now: int,
                        maxRequests: int, windowMs: int)
    requires Bounded(requests, maxRequests)
    ensures Bounded(Admit(requests, id, now, maxRequests, windowMs).requests, maxRequests)
  {
  }

  /**
   * A decision about one identifier does not change what is decided for
   * another one.
   */
  lemma IdentifiersIndependent(requests: map<string, seq<int>>, id: string, other: string,
                               now: int, later: int, maxRequests: int, windowMs: int)
    requires id != other
    ensures var after := Admit(requests, id, now, maxRequests, windowMs).requests;
            Admit(after, other, later, maxRequests, windowMs).allowed
              == Admit(requests, other, later, maxRequests, windowMs).allowed
  {
    var after := Admit(requests, id, now, maxRequests, windowMs).requests;
    assert History(after, other) == History(requests, other);
  }

  /**
   * Once all of an identifier's requests have left the window, its next
   * request is admitted (for a positive limit) and its history restarts.
   */
  lemma ExpiredHistoryFreesSlots(requests: map<string, seq<int>>, id: string, now: int,
                                 maxRequests: int, windowMs: int)
    requires maxRequests > 0
    requires forall t :: t in History(requests, id) ==> now - t >= windowMs
    ensures Admit(requests, id, now, maxRequests, windowMs).allowed
    ensures Admit(requests, id, now, maxRequests, windowMs).requests[id] == [now]
  {
    var h := History(requests, id);
    forall i | 0 <= i < |h|
      ensures now - h[i] >= windowMs
    {
      assert h[i] in h;
    }
    InWindowDropsAll(h, now, windowMs);
  }

  /** The answers to a sequence of requests from one identifier, in order. */
  function Replay(requests: map<string, seq<int>>, id: string, times: seq<int>,
                  maxRequests: int, windowMs: int): (answers: seq<bool>)
    ensures |answers| == |times|
    decreases |times|
  {
    if times == [] then []
    else
      var d := Admit(requests, id, times[0], maxRequests, windowMs);
      [d.allowed] + Replay(d.requests, id, times[1..], maxRequests, windowMs)
  }

  /**
   * Requests that all fall inside one window, after a history that lies in
   * that window too, are admitted exactly while the count stays below the
   * limit: the i-th is admitted iff `|history| + i < maxRequests`.
   */
  lemma {:induction false} BurstWithinOneWindow(requests: map<string, seq<int>>, id: string,
                                                times: seq<int>, lo: int,
                                                maxRequests: int, windowMs: int)
    requires forall t :: t in History(requests, id) ==> lo <= t < lo + windowMs
    requires forall i :: 0 <= i < |times| ==> lo <= times[i] < lo + windowMs
    ensures forall i :: 0 <= i < |times| ==>
              Replay(requests, id, times, maxRequests, windowMs)[i]
                == (|History(requests, id)| + i < maxRequests)
    decreases |times|
  {
    if times != [] {
      var h := History(requests, id);
      forall i | 0 <= i < |h|
        ensures times[0] - h[i] < windowMs
      {
        assert h[i] in h;
      }
      InWindowKeepsAll(h, times[0], windowMs);
      var d := Admit(requests, id, times[0], maxRequests, windowMs);
      assert forall i :: 0 <= i < |times[1..]| ==> times[1..][i] == times[i + 1];
      BurstWithinOneWindow(d.requests, id, times[1..], lo, maxRequests, windowMs);
      var answers := Replay(requests, id, times, maxRequests, windowMs);
      assert answers == [d.allowed] + Replay(d.requests, id, times[1..], maxRequests, windowMs);
      if d.allowed {
        assert History(d.requests, id) == h + [times[0]];
      }
    }
  }

  /**
   * With the default limit of 10 per 60000 ms, eleven requests from a fresh
   * identifier at one instant: the first ten are admitted, the eleventh is not.
   */
  lemma DefaultLimitAdmitsTen(requests: map<string, seq<int>>, id: string, now: int)
    requires id !in requests
    ensures var answers := Replay(requests, id, seq(11, _ => now), 10, 60000);
            (forall i :: 0 <= i < 10 ==> answers[i]) && !answers[10]
  {
    BurstWithinOneWindow(requests, id, seq(11, _ => now), now, 10, 60000);
  }

  /** The limiter: one map from identifier to admitted timestamps. */
  class RateLimiter {
    var requests: map<string, seq<int>>
    const maxRequests: int
    const windowMs: int

    /** No identifier holds more timestamps than the limit. */
    ghost predicate Valid()
      reads this
    {
      Bounded(requests, maxRequests)
    }

    constructor (maxRequests: int := 10, windowMs: int := 60000)
      ensures this.maxRequests == maxRequests && this.windowMs == windowMs
      ensures requests == map[]
      ensures Valid()
    {
      this.maxRequests := maxRequests;
      this.windowMs := windowMs;
      requests := map[];
    }

    /** Decides one request of `identifier` at time `now`, recording it if admitted. */
    method IsAllowed(identifier: string, now: int) returns (allowed: bool)
      requires Valid()
      modifies this
      ensures Valid()
      ensures allowed == Admit(old(requests), identifier, now, maxRequests, windowMs).allowed
      ensures requests == Admit(old(requests), identifier, now, maxRequests, windowMs).requests
    {
      var userRequests := if identifier in requests then requests[identifier] else [];
      var recentRequests := InWindow(userRequests, now, windowMs);
      if |recentRequests| >= maxRequests {
        return false;
      }
      recentRequests := recentRequests + [now];
      requests := requests[identifier := recentRequests];
      AdmitKeepsBound(old(requests), identifier, now, maxRequests, windowMs);
      return true;
    }

    /** How many more requests `identifier` may make at time `now`; changes nothing. */
    method GetRemaining(identifier: string, now: int) returns (remaining: int)
      ensures remaining == Remaining(requests, identifier, now, maxRequests, windowMs)
      ensures 0 <= remaining
      ensures maxRequests >= 0 ==> remaining <= maxRequests
    {
      var userRequests := if identifier in requests then requests[identifier] else [];
      var recentRequests := InWindow(userRequests, now, windowMs);
      remaining := if maxRequests - |recentRequests| > 0 then maxRequests - |recentRequests| else 0;
    }
  }
}
