/** The in-memory fixed-window rate limiter of the edge, one window per client address. */
module RateLimit {
  import opened Wrappers

  datatype Window = Window(count: int, resetAt: int)
  datatype Request = Request(ip: string, now: int)
  datatype Config = Config(limit: int, windowMs: int) {
    /** What one window lets through: its first request always passes. */
    function Cap(): (m: int)
      ensures m >= 1 && m >= limit
    {
      if limit < 1 then 1 else limit
    }
  }

  /** One request against the address's window: the new window, and whether it passes. */
  function Hit(c: Config, w: Option<Window>, now: int): (Window, bool) {
    if w.None? || now >= w.value.resetAt then (Window(1, now + c.windowMs), true)
    else (Window(w.value.count + 1, w.value.resetAt), w.value.count + 1 <= c.limit)
  }

  /** An address's window after a log of requests; only its own requests matter. */
  function WindowAfter(c: Config, log: seq<Request>, ip: string): Option<Window> {
    if log == [] then None
    else
      var before, r := WindowAfter(c, log[..|log| - 1], ip), log[|log| - 1];
      if r.ip == ip then Some(Hit(c, before, r.now).0) else before
  }

  /** Whether the last request of the log passes. */
  predicate Passes(c: Config, log: seq<Request>)
    requires log != []
  {
    var r := log[|log| - 1];
    Hit(c, WindowAfter(c, log[..|log| - 1], r.ip), r.now).1
  }

  class RateLimiter {
    const config: Config
    var hits: map<string, Window>
    ghost var log: seq<Request>

    constructor (limit: int, windowMs: int)
      ensures Valid() && log == [] && config == Config(limit, windowMs)
    {
      config := Config(limit, windowMs);
      hits, log := map[], [];
    }

    ghost predicate Valid()
      reads this
    {
      forall ip :: WindowAfter(config, log, ip) == if ip in hits then Some(hits[ip]) else None
    }

    method RateLimit(ip: string, now: int) returns (passed: bool)
      requires Valid()
      modifies this
      ensures Valid() && log == old(log) + [Request(ip, now)] && passed == Passes(config, log)
    {
      log := log + [Request(ip, now)];
      assert log[..|log| - 1] == old(log);
      if ip !in hits || now >= hits[ip].resetAt {
        hits := hits[ip := Window(1, now + config.windowMs)];
        return true;
      }
      var rec := Window(hits[ip].count + 1, hits[ip].resetAt);
      hits := hits[ip := rec];
      passed := rec.count <= config.limit;
    }
  }

  // ---- addresses do not affect each other ----------------------------------------------------

  function Only(log: seq<Request>, ip: string): seq<Request> {
    if log == [] then []
    else
      var rest, r := Only(log[..|log| - 1], ip), log[|log| - 1];
      if r.ip == ip then rest + [r] else rest
  }

  /** An address is treated as if it were alone. */
  lemma {:induction false} Independent(c: Config, log: seq<Request>, ip: string)
    ensures WindowAfter(c, log, ip) == WindowAfter(c, Only(log, ip), ip)
    ensures log != [] && log[|log| - 1].ip == ip ==>
              Only(log, ip) != [] && Passes(c, log) == Passes(c, Only(log, ip))
  {
    if log != [] {
      var before, r := log[..|log| - 1], log[|log| - 1];
      Independent(c, before, ip);
      var mine := Only(before, ip);
      assert (mine + [r])[..|mine|] == mine;
    }
  }

  // ---- how much gets through -----------------------------------------------------------------

  predicate Monotone(log: seq<Request>) {
    forall i, j | 0 <= i < j < |log| :: log[i].now <= log[j].now
  }

  /** Requests of `ip` that passed since its current window began. */
  function InWindow(c: Config, log: seq<Request>, ip: string): nat {
    if log == [] then 0
    else
      var init, r := log[..|log| - 1], log[|log| - 1];
      var w := WindowAfter(c, init, ip);
      if r.ip != ip then InWindow(c, init, ip)
      else if w.None? || r.now >= w.value.resetAt then 1
      else InWindow(c, init, ip) + if Passes(c, log) then 1 else 0
  }

  /** Requests of `ip` that passed at a time in [t, t + windowMs). */
  function InInterval(c: Config, log: seq<Request>, ip: string, t: int): nat {
    if log == [] then 0
    else
      var init, r := log[..|log| - 1], log[|log| - 1];
      InInterval(c, init, ip, t) +
      if r.ip == ip && t <= r.now < t + c.windowMs && Passes(c, log) then 1 else 0
  }

  /** A window lets through its cap and no more. */
  lemma {:induction false} WindowCap(c: Config, log: seq<Request>, ip: string)
    ensures WindowAfter(c, log, ip).None? ==> InWindow(c, log, ip) == 0
    ensures WindowAfter(c, log, ip).Some? ==>
              var n := WindowAfter(c, log, ip).value.count;
              n >= 1 && InWindow(c, log, ip) == if n <= c.Cap() then n else c.Cap()
  {
    if log != [] {
      WindowCap(c, log[..|log| - 1], ip);
    }
  }

  /** Requests of `ip` in the log from index i on. */
  function CountFrom(log: seq<Request>, ip: string, i: nat): nat {
    if log == [] || |log| <= i then 0
    else CountFrom(log[..|log| - 1], ip, i) + if log[|log| - 1].ip == ip then 1 else 0
  }

  /**
   * An address's window was opened by one of its requests, lasts windowMs from then, and counts that
   * request and all of its later ones, none of which came after the window's end.
   */
  lemma {:induction false} WindowIs(c: Config, log: seq<Request>, ip: string) returns (i: nat)
    requires WindowAfter(c, log, ip).Some?
    ensures i < |log| && log[i].ip == ip
    ensures WindowAfter(c, log, ip) == Some(Window(CountFrom(log, ip, i), log[i].now + c.windowMs))
    ensures forall j | i < j < |log| && log[j].ip == ip :: log[j].now < log[i].now + c.windowMs
  {
    var n := |log| - 1;
    var before := WindowAfter(c, log[..n], ip);
    if log[n].ip == ip && (before.None? || log[n].now >= before.value.resetAt) {
      i := n;
      assert CountFrom(log[..n], ip, n) == 0;
    } else {
      i := WindowIs(c, log[..n], ip);
    }
  }

  /** A request opens a window unless its address has one that is still running. */
  lemma OpensUnlessRunning(c: Config, log: seq<Request>, r: Request)
    ensures WindowAfter(c, log + [r], r.ip) == Some(Window(1, r.now + c.windowMs)) ||
            (WindowAfter(c, log, r.ip).Some? && r.now < WindowAfter(c, log, r.ip).value.resetAt)
  {
    assert (log + [r])[..|log|] == log;
  }

  /** The n-th request of a window passes exactly when n is within the cap; so the first always does. */
  lemma PassesWithinCap(c: Config, log: seq<Request>)
    requires log != []
    ensures WindowAfter(c, log, log[|log| - 1].ip).Some?
    ensures Passes(c, log) <==> WindowAfter(c, log, log[|log| - 1].ip).value.count <= c.Cap()
  {
    WindowCap(c, log[..|log| - 1], log[|log| - 1].ip);
  }

  /** What the interval can hold, given where the current window starts. */
  ghost predicate IntervalOk(c: Config, w: Option<Window>, inWindow: nat, inInterval: nat, t: int) {
    match w
    case None => inInterval == 0
    case Some(Window(_, resetAt)) =>
      var start := resetAt - c.windowMs;
      && (resetAt <= t ==> inInterval == 0)
      && (start < t ==> inInterval < inWindow)
      && (start == t ==> inInterval <= inWindow)
      && (t < start < t + c.windowMs ==> inInterval <= c.Cap() - 1 + inWindow)
      && (start >= t + c.windowMs ==> inInterval <= 2 * c.Cap() - 1)
  }

  lemma {:induction false} IntervalInvariant(c: Config, log: seq<Request>, ip: string, t: int)
    requires c.windowMs > 0 && Monotone(log)
    ensures IntervalOk(c, WindowAfter(c, log, ip), InWindow(c, log, ip), InInterval(c, log, ip, t), t)
  {
    if log != [] {
      var init := log[..|log| - 1];
      IntervalInvariant(c, init, ip, t);
      WindowCap(c, init, ip);
      WindowCap(c, log, ip);
      WindowRunning(c, init, ip);
    }
  }

  /** A window is opened by a request, so it does not start in the future. */
  lemma {:induction false} WindowRunning(c: Config, log: seq<Request>, ip: string)
    requires c.windowMs > 0 && Monotone(log)
    ensures WindowAfter(c, log, ip).Some? ==>
              log != [] && WindowAfter(c, log, ip).value.resetAt - c.windowMs <= log[|log| - 1].now
  {
    if log != [] {
      WindowRunning(c, log[..|log| - 1], ip);
    }
  }

  lemma {:induction false} EmptyInterval(c: Config, log: seq<Request>, ip: string, t: int)
    requires c.windowMs <= 0
    ensures InInterval(c, log, ip, t) == 0
  {
    if log != [] {
      EmptyInterval(c, log[..|log| - 1], ip, t);
    }
  }

  /**
   * With a clock that does not run backwards, any half-open interval of one window's length lets an
   * address through at most twice the cap, less one.
   */
  lemma IntervalBound(c: Config, log: seq<Request>, ip: string, t: int)
    requires Monotone(log)
    ensures InInterval(c, log, ip, t) <= 2 * c.Cap() - 1
  {
    if c.windowMs > 0 {
      IntervalInvariant(c, log, ip, t);
      WindowCap(c, log, ip);
    } else {
      EmptyInterval(c, log, ip, t);
    }
  }

  // ---- the bound is reached ------------------------------------------------------------------

  function Burst(ip: string, now: int, k: nat): seq<Request> {
    if k == 0 then [] else Burst(ip, now, k - 1) + [Request(ip, now)]
  }

  /** Ordered, and nothing later than `now`. */
  ghost predicate OrderedUpTo(log: seq<Request>, now: int) {
    Monotone(log) && forall r | r in log :: r.now <= now
  }

  lemma OneMore(c: Config, log: seq<Request>, ip: string, now: int, t: int)
    ensures var log', hit := log + [Request(ip, now)], Hit(c, WindowAfter(c, log, ip), now);
            && WindowAfter(c, log', ip) == Some(hit.0)
            && InInterval(c, log', ip, t) ==
               InInterval(c, log, ip, t) + (if t <= now < t + c.windowMs && hit.1 then 1 else 0)
            && forall u | u <= now && OrderedUpTo(log, u) :: OrderedUpTo(log', now)
  {
    assert (log + [Request(ip, now)])[..|log|] == log;
  }

  lemma {:induction false} BurstInWindow(c: Config, log: seq<Request>, ip: string, now: int, k: nat, t: int)
    requires WindowAfter(c, log, ip).Some? && now < WindowAfter(c, log, ip).value.resetAt
    requires WindowAfter(c, log, ip).value.count + k <= c.limit && t <= now < t + c.windowMs
    requires OrderedUpTo(log, now)
    ensures var w, log' := WindowAfter(c, log, ip).value, log + Burst(ip, now, k);
            && WindowAfter(c, log', ip) == Some(Window(w.count + k, w.resetAt))
            && InInterval(c, log', ip, t) == InInterval(c, log, ip, t) + k
            && OrderedUpTo(log', now)
  {
    hide OrderedUpTo, WindowAfter, InInterval;
    if k == 0 {
      assert log + Burst(ip, now, 0) == log;
    } else {
      BurstInWindow(c, log, ip, now, k - 1, t);
      OneMore(c, log + Burst(ip, now, k - 1), ip, now, t);
      assert log + Burst(ip, now, k) == log + Burst(ip, now, k - 1) + [Request(ip, now)];
    }
  }

  ghost predicate Reaches(c: Config, log: seq<Request>, ip: string, t: int) {
    Monotone(log) && InInterval(c, log, ip, t) == 2 * c.Cap() - 1
  }

  lemma NothingYet(c: Config, ip: string, t: int)
    ensures WindowAfter(c, [], ip) == None && InInterval(c, [], ip, t) == 0 && OrderedUpTo([], 0)
  {
  }

  /** A burst at the end of one window and another at the start of the next reach the bound. */
  lemma BoundReached(c: Config, ip: string)
    requires c.limit >= 1 && c.windowMs >= 2
    ensures exists log, t :: Reaches(c, log, ip, t)
  {
    hide WindowAfter, InInterval;
    var m, w, t := c.limit, c.windowMs, c.windowMs - 1;
    NothingYet(c, ip, t);
    OneMore(c, [], ip, 0, t);
    var first := [] + [Request(ip, 0)];
    assert OrderedUpTo(first, w - 1);
    BurstInWindow(c, first, ip, w - 1, m - 1, t);
    var full := first + Burst(ip, w - 1, m - 1);
    OneMore(c, full, ip, w, t);
    var next := full + [Request(ip, w)];
    BurstInWindow(c, next, ip, w, m - 1, t);
    assert Reaches(c, next + Burst(ip, w, m - 1), ip, t);
  }
}
