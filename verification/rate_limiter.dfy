/**
 * The per-connection sliding-window rate limiter of the chat socket: for each
 * limited event kind it keeps the timestamps of the requests it let through,
 * and refuses a request once `limit` of them lie within the last `window`
 * milliseconds.
 */
module RateLimiting {
  import opened Common

  const SEND_MESSAGE := "send_message"
  const START_TYPING := "start_typing"
  const MARK_READ := "mark_read"
  const ADD_REACTION := "add_reaction"
  const EDIT_MESSAGE := "edit_message"
  const DELETE_MESSAGE := "delete_message"

  const WINDOW_MS := 60000

  datatype Limit = Limit(limit: nat, window: int)

  /** The `RATE_LIMITS` table; any other event kind is not limited. */
  function RateLimitFor(event: string): (r: Option<Limit>)
    ensures r.Some? <==> event in [SEND_MESSAGE, START_TYPING, MARK_READ, ADD_REACTION, EDIT_MESSAGE,
                                   DELETE_MESSAGE]
    ensures r.Some? ==> r.value.window == WINDOW_MS && r.value.limit >= 10
  {
    if event == SEND_MESSAGE then Some(Limit(20, WINDOW_MS))
    else if event == START_TYPING then Some(Limit(10, WINDOW_MS))
    else if event == MARK_READ then Some(Limit(30, WINDOW_MS))
    else if event == ADD_REACTION then Some(Limit(50, WINDOW_MS))
    else if event == EDIT_MESSAGE then Some(Limit(10, WINDOW_MS))
    else if event == DELETE_MESSAGE then Some(Limit(10, WINDOW_MS))
    else None
  }

  /** `time => now - time < window`. */
  function RecentAt(now: int, window: int): int -> bool
  {
    t => now - t < window
  }

  /** The stored timestamps still inside the window, in stored order. */
  function InWindow(ts: seq<int>, now: int, window: int): (r: seq<int>)
    ensures |r| <= |ts|
    ensures forall i :: 0 <= i < |r| ==> now - r[i] < window && r[i] in ts
    ensures forall i :: 0 <= i < |ts| && now - ts[i] < window ==> ts[i] in r
  {
    Filter(ts, RecentAt(now, window))
  }

  /** `this.limits.get(key) || []`. */
  function Stored(limits: map<string, seq<int>>, event: string): seq<int>
  {
    if event in limits then limits[event] else []
  }

  /** What `check(event)` answers at time `now`. */
  predicate Allows(limits: map<string, seq<int>>, event: string, now: int)
  {
    RateLimitFor(event).None? ||
    |InWindow(Stored(limits, event), now, RateLimitFor(event).value.window)| < RateLimitFor(event).value.limit
  }

  /**
   * The limiter's table after `check(event)`: unchanged for an unlimited kind
   * and for a refusal (the pruned list is not stored then); after an accepted
   * request, the in-window timestamps followed by `now`.
   */
  function AfterCheck(limits: map<string, seq<int>>, event: string, now: int): (r: map<string, seq<int>>)
    ensures !Allows(limits, event, now) ==> r == limits
    ensures RateLimitFor(event).None? ==> r == limits
    ensures Allows(limits, event, now) && RateLimitFor(event).Some? ==>
      r == limits[event := InWindow(Stored(limits, event), now, RateLimitFor(event).value.window) + [now]]
    ensures forall e :: e != event ==> (e in r <==> e in limits) && (e in r ==> r[e] == limits[e])
  {
    if RateLimitFor(event).None? || !Allows(limits, event, now) then limits
    else limits[event := InWindow(Stored(limits, event), now, RateLimitFor(event).value.window) + [now]]
  }

  /** The limiter holds lists only for limited kinds, each no longer than its limit. */
  predicate Bounded(limits: map<string, seq<int>>)
  {
    forall e :: e in limits ==> RateLimitFor(e).Some? && |limits[e]| <= RateLimitFor(e).value.limit
  }

  lemma CheckKeepsBounded(limits: map<string, seq<int>>, event: string, now: int)
    requires Bounded(limits)
    ensures Bounded(AfterCheck(limits, event, now))
  {
  }

  /** After an accepted request, the stored list is at most `limit` long and ends with `now`. */
  lemma AcceptedIsRecorded(limits: map<string, seq<int>>, event: string, now: int)
    requires RateLimitFor(event).Some? && Allows(limits, event, now)
    ensures var r := AfterCheck(limits, event, now);
      event in r && |r[event]| <= RateLimitFor(event).value.limit && r[event][|r[event]| - 1] == now
  {
  }

  /** The limiter object: one per connection. */
  class RateLimiter {
    const userId: Id
    var limits: map<string, seq<int>>

    constructor (userId: Id)
      ensures this.userId == userId && limits == map[]
    {
      this.userId := userId;
      limits := map[];
    }

    method Check(event: string, now: int) returns (ok: bool)
      modifies this
      ensures ok == Allows(old(limits), event, now)
      ensures limits == AfterCheck(old(limits), event, now)
    {
      var cfg := RateLimitFor(event);
      if cfg.None? {
        return true;
      }
      var requests := if event in limits then limits[event] else [];
      var valid := Filter(requests, RecentAt(now, cfg.value.window));
      if |valid| >= cfg.value.limit {
        return false;
      }
      valid := valid + [now];
      limits := limits[event := valid];
      return true;
    }

    method Clear()
      modifies this
      ensures limits == map[]
    {
      limits := map[];
    }
  }

  /** The answers of successive checks of one event kind at the given times. */
  function RunChecks(limits: map<string, seq<int>>, event: string, times: seq<int>): (r: seq<bool>)
    ensures |r| == |times|
    decreases |times|
  {
    if times == [] then []
    else [Allows(limits, event, times[0])] + RunChecks(AfterCheck(limits, event, times[0]), event, times[1..])
  }

  predicate WithinSpan(ts: seq<int>, lo: int, window: int)
  {
    forall i :: 0 <= i < |ts| ==> lo <= ts[i] < lo + window
  }

  /** One check inside the span: it answers by the stored count alone. */
  lemma BurstStep(limits: map<string, seq<int>>, event: string, stored: seq<int>, now: int, lo: int)
    requires RateLimitFor(event).Some?
    requires Stored(limits, event) == stored
    requires WithinSpan(stored, lo, RateLimitFor(event).value.window)
    requires lo <= now < lo + RateLimitFor(event).value.window
    ensures Allows(limits, event, now) == (|stored| < RateLimitFor(event).value.limit)
    ensures Stored(AfterCheck(limits, event, now), event) ==
      if |stored| < RateLimitFor(event).value.limit then stored + [now] else stored
  {
    var cfg := RateLimitFor(event).value;
    FilterAll(stored, RecentAt(now, cfg.window));
  }

  lemma RunChecksUnfold(limits: map<string, seq<int>>, event: string, times: seq<int>)
    requires times != []
    ensures RunChecks(limits, event, times)[0] == Allows(limits, event, times[0])
    ensures forall i :: 1 <= i < |times| ==> (RunChecks(limits, event, times)[i] ==
      RunChecks(AfterCheck(limits, event, times[0]), event, times[1..])[i - 1])
  {
  }

  /**
   * A burst whose timestamps all fall inside one window: starting from
   * `|stored|` recorded requests, the i-th further request is accepted
   * exactly when `|stored| + i < limit`.
   */
  lemma {:induction false} Burst(limits: map<string, seq<int>>, event: string, cfg: Limit,
                                 stored: seq<int>, rest: seq<int>, lo: int)
    requires RateLimitFor(event) == Some(cfg)
    requires Stored(limits, event) == stored
    requires WithinSpan(stored, lo, cfg.window)
    requires WithinSpan(rest, lo, cfg.window)
    ensures forall i :: 0 <= i < |rest| ==> RunChecks(limits, event, rest)[i] == (|stored| + i < cfg.limit)
    decreases |rest|
  {
    if rest != [] {
      var now := rest[0];
      BurstStep(limits, event, stored, now, lo);
      var next := AfterCheck(limits, event, now);
      var stored' := if |stored| < cfg.limit then stored + [now] else stored;
      assert WithinSpan(rest[1..], lo, cfg.window);
      assert WithinSpan(stored', lo, cfg.window);
      Burst(next, event, cfg, stored', rest[1..], lo);
      RunChecksUnfold(limits, event, rest);
    }
  }

  /**
   * From a fresh limiter, twenty `send_message` requests inside one minute
   * are accepted and the twenty-first is refused.
   */
  lemma TwentyFirstSendRefused(times: seq<int>, lo: int)
    requires |times| == 21 && WithinSpan(times, lo, WINDOW_MS)
    ensures var r := RunChecks(map[], SEND_MESSAGE, times);
      (forall i :: 0 <= i < 20 ==> r[i]) && !r[20]
  {
    Burst(map[], SEND_MESSAGE, Limit(20, WINDOW_MS), [], times, lo);
  }
}
