/**
 * packages/skills-finance/src/market/cache.ts, RateLimiter
 *
 * The limiter of outgoing requests: a caller waits instead of being refused. Each turn of
 * its loop between two sleeps is one step.
 */
module ProviderLimit {
  import opened Prelude
  import W = SlidingWindow

  datatype Config = Config(windowMs: nat, maxRequests: nat)

  /** Drop the entries before the cutoff from the front. */
  function Shift(b: seq<int>, cutoff: int): seq<int> {
    if b != [] && b[0] < cutoff then Shift(b[1..], cutoff) else b
  }

  /** With a limit of zero there is no oldest entry, and the time to sleep is not a number. */
  datatype Turn = Acquired | WaitMs(ms: int) | WaitNaN

  function DoTurn(c: Config, b: seq<int>, now: int): (seq<int>, Turn) {
    var kept := Shift(b, now - c.windowMs);
    if |kept| < c.maxRequests then (kept + [now], Acquired)
    else if kept == [] then (kept, WaitNaN)
    else
      var wait := kept[0] + c.windowMs - now + 100;
      (kept, WaitMs(if wait < 50 then 50 else wait))
  }

  class RateLimiter {
    const config: Config
    var timestamps: seq<int>

    constructor (config: Config)
      ensures this.config == config && timestamps == []
    {
      this.config := config;
      timestamps := [];
    }

    /** One turn of the loop in `acquire`. */
    method TryAcquire(now: int) returns (t: Turn)
      modifies this
      ensures (timestamps, t) == DoTurn(config, old(timestamps), now)
    {
      while |timestamps| > 0 && timestamps[0] < now - config.windowMs
        invariant Shift(timestamps, now - config.windowMs) == Shift(old(timestamps), now - config.windowMs)
        decreases |timestamps|
      {
        timestamps := timestamps[1..];
      }
      if |timestamps| < config.maxRequests {
        timestamps := timestamps + [now];
        return Acquired;
      }
      if |timestamps| == 0 {
        return WaitNaN;
      }
      var oldestInWindow := timestamps[0];
      var waitMs := oldestInWindow + config.windowMs - now + 100;
      t := WaitMs(if waitMs < 50 then 50 else waitMs);
    }
  }

  /** `log`: all acquisitions, in order. */
  datatype Sys = Sys(buffer: seq<int>, now: int, log: seq<int>)

  function Step(c: Config, s: Sys, now: int): Sys {
    var (b, t) := DoTurn(c, s.buffer, now);
    Sys(b, now, if t.Acquired? then s.log + [now] else s.log)
  }

  predicate Monotone(now: int, times: seq<int>)
    decreases |times|
  {
    times == [] || (now <= times[0] && Monotone(times[0], times[1..]))
  }

  /** Turns of any number of waiting callers, at the given times. */
  function Run(c: Config, s: Sys, times: seq<int>): Sys
    decreases |times|
  {
    if times == [] then s else Run(c, Step(c, s, times[0]), times[1..])
  }

  /** What the buffer knows about the log; `maxRequests + 1` acquisitions span more than a window. */
  ghost predicate LogOk(c: Config, h: seq<int>, b: seq<int>, now: int) {
    && W.Ascending(h) && (forall i :: 0 <= i < |h| ==> h[i] <= now)
    && W.Remembers(h, b, now - c.windowMs - 1)
    && W.Spaced(h, c.maxRequests, c.windowMs + 1)
    && |b| <= c.maxRequests
  }

  ghost predicate Inv(c: Config, s: Sys) { LogOk(c, s.log, s.buffer, s.now) }

  lemma {:induction false} ShiftRemembers(h: seq<int>, b: seq<int>, before: int, cutoff: int)
    requires W.Ascending(h) && W.Remembers(h, b, before) && before < cutoff
    ensures W.Remembers(h, Shift(b, cutoff), cutoff - 1) && |Shift(b, cutoff)| <= |b|
    decreases |b|
  {
    if b != [] && b[0] < cutoff {
      ShiftRemembers(h, b[1..], cutoff - 1, cutoff);
    }
  }

  /** Time passes and the entries that left the window are shifted out. */
  lemma ShiftKeeps(c: Config, h: seq<int>, b: seq<int>, now: int, later: int)
    requires LogOk(c, h, b, now) && now <= later
    ensures LogOk(c, h, Shift(b, later - c.windowMs), later)
  {
    ShiftRemembers(h, b, now - c.windowMs - 1, later - c.windowMs);
  }

  lemma AdmitKeeps(c: Config, h: seq<int>, b: seq<int>, now: int)
    requires LogOk(c, h, b, now) && |b| < c.maxRequests
    ensures LogOk(c, h + [now], b + [now], now)
  {
    W.AdmitKeepsSpacing(h, b, c.maxRequests, c.windowMs + 1, now);
  }

  lemma StepKeepsInv(c: Config, s: Sys, now: int)
    requires Inv(c, s) && s.now <= now
    ensures Inv(c, Step(c, s, now))
  {
    hide LogOk, Shift;
    ShiftKeeps(c, s.log, s.buffer, s.now, now);
    var kept := Shift(s.buffer, now - c.windowMs);
    if |kept| < c.maxRequests {
      AdmitKeeps(c, s.log, kept, now);
    }
  }

  lemma {:induction false} RunKeepsInv(c: Config, s: Sys, times: seq<int>)
    requires Inv(c, s) && Monotone(s.now, times)
    ensures Inv(c, Run(c, s, times))
    decreases |times|
  {
    if times != [] {
      StepKeepsInv(c, s, times[0]);
      RunKeepsInv(c, Step(c, s, times[0]), times[1..]);
    }
  }

  /** Any stretch of time up to and including a whole window holds at most `maxRequests` acquisitions. */
  lemma {:induction false} WindowBound(c: Config, start: int, times: seq<int>, i: nat, j: nat)
    requires Monotone(start, times)
    requires var h := Run(c, Sys([], start, []), times).log; i <= j < |h| && h[j] - h[i] <= c.windowMs
    ensures j - i + 1 <= c.maxRequests
  {
    RunKeepsInv(c, Sys([], start, []), times);
    W.SpacedMeansBounded(Run(c, Sys([], start, []), times).log, c.maxRequests, c.windowMs + 1, i, j);
  }

  /** A caller that sleeps as told acquires on its next turn unless someone else did first. */
  lemma {:induction false} WaitingWorks(c: Config, s: Sys, now: int, times: seq<int>, later: int)
    requires Inv(c, s) && s.now <= now && DoTurn(c, s.buffer, now).1.WaitMs?
    requires Monotone(now, times)
    requires var u := Run(c, Step(c, s, now), times);
             u.log == s.log && later >= u.now && later >= now + DoTurn(c, s.buffer, now).1.ms
    ensures DoTurn(c, Run(c, Step(c, s, now), times).buffer, later).1.Acquired?
  {
    StepKeepsInv(c, s, now);
    RunKeepsInv(c, Step(c, s, now), times);
    var u := Run(c, Step(c, s, now), times);
    TurnAfterWait(c, s.log, s.buffer, s.now, now, u.buffer, u.now, later);
  }

  /** The same, in terms of the buffers before the sleep and after it. */
  lemma TurnAfterWait(c: Config, h: seq<int>, b: seq<int>, before: int, now: int, d: seq<int>, after: int, later: int)
    requires LogOk(c, h, b, before) && LogOk(c, h, d, after)
    requires before <= now && after <= later && DoTurn(c, b, now).1.WaitMs?
    requires later >= now + DoTurn(c, b, now).1.ms
    ensures DoTurn(c, d, later).1.Acquired?
  {
    hide Shift;
    ShiftKeeps(c, h, b, before, now);
    ShiftKeeps(c, h, d, after, later);
    ShiftIsLate(d, later - c.windowMs);
    var kept, e := Shift(b, now - c.windowMs), Shift(d, later - c.windowMs);
    if |e| >= c.maxRequests {
      W.SameFirst(h, kept, e, now - c.windowMs - 1, later - c.windowMs - 1);
    }
  }

  lemma {:induction false} ShiftIsLate(b: seq<int>, cutoff: int)
    ensures Shift(b, cutoff) != [] ==> Shift(b, cutoff)[0] >= cutoff
  {
    if b != [] && b[0] < cutoff {
      ShiftIsLate(b[1..], cutoff);
    }
  }

  /** A limit of zero is accepted and never met: in every run each turn sleeps for no defined time. */
  lemma {:induction false} ZeroNeverAcquires(c: Config, s: Sys, times: seq<int>, now: int)
    requires c.maxRequests == 0 && s.buffer == [] && s.log == []
    ensures var t := Run(c, s, times);
            t.log == [] && DoTurn(c, t.buffer, now).1.WaitNaN?
    decreases |times|
  {
    if times != [] {
      ZeroNeverAcquires(c, Step(c, s, times[0]), times[1..], now);
    }
  }

  /**
   * The wait is exact but for the margin of 100 ms: as long as no other call acquires, a caller that
   * has to wait acquires at a later time exactly if that comes after `ms - 100` from now.
   */
  lemma {:induction false} MarginIs100(c: Config, s: Sys, now: int, later: int)
    requires Inv(c, s) && s.now <= now <= later && DoTurn(c, s.buffer, now).1.WaitMs?
    ensures var (b, t) := DoTurn(c, s.buffer, now);
            t.ms >= 100 && (DoTurn(c, b, later).1.Acquired? <==> later > now + t.ms - 100)
  {
    hide Shift;
    ShiftKeeps(c, s.log, s.buffer, s.now, now);
    var kept := Shift(s.buffer, now - c.windowMs);
    ShiftIsLate(s.buffer, now - c.windowMs);
    ShiftKeeps(c, s.log, kept, now, later);
    ShiftIsLate(kept, later - c.windowMs);
    ShiftOfOld(kept, later - c.windowMs);
  }

  lemma ShiftOfOld(b: seq<int>, cutoff: int)
    requires b != []
    ensures |Shift(b, cutoff)| < |b| <==> b[0] < cutoff
    ensures b[0] >= cutoff ==> Shift(b, cutoff) == b
  {
    ShiftIsShorter(b, cutoff);
    ShiftIsShorter(b[1..], cutoff);
  }

  lemma {:induction false} ShiftIsShorter(b: seq<int>, cutoff: int)
    ensures |Shift(b, cutoff)| <= |b|
  {
    if b != [] && b[0] < cutoff {
      ShiftIsShorter(b[1..], cutoff);
    }
  }
}
