/**
 * packages/infra/src/circuit-breaker.ts
 *
 * `execute` is two steps: `Begin` up to the call of the protected function, and its
 * completion. Any number of calls may be in flight between them.
 */
module CircuitBreaking {
  import opened Prelude

  datatype State = Closed | Open | HalfOpen

  datatype Config = Config(failureThreshold: int, resetTimeoutMs: int, halfOpenMaxAttempts: int)

  datatype Value = Value(state: State, failures: nat, lastFailureAt: int, halfOpenAttempts: nat)

  const Fresh := Value(Closed, 0, 0, 0)

  function DoBegin(c: Config, v: Value, now: int): (Value, bool) {
    if v.state.Open? && now - v.lastFailureAt < c.resetTimeoutMs then (v, false)
    else
      var w := if v.state.Open? then v.(state := HalfOpen, halfOpenAttempts := 0) else v;
      if !w.state.HalfOpen? then (w, true)
      else if w.halfOpenAttempts >= c.halfOpenMaxAttempts then (w, false)
      else (w.(halfOpenAttempts := w.halfOpenAttempts + 1), true)
  }

  function DoSuccess(v: Value): Value { v.(failures := 0, state := Closed) }

  function DoFailure(c: Config, v: Value, now: int): Value {
    Value(if v.failures + 1 >= c.failureThreshold then Open else v.state, v.failures + 1, now, v.halfOpenAttempts)
  }

  function DoReset(v: Value): Value { Value(Closed, 0, v.lastFailureAt, 0) }

  class CircuitBreaker {
    const config: Config
    var state: State
    var failures: nat
    var lastFailureAt: int
    var halfOpenAttempts: nat

    function Contents(): Value
      reads this
    {
      Value(state, failures, lastFailureAt, halfOpenAttempts)
    }

    constructor (config: Config)
      ensures this.config == config && Contents() == Fresh
    {
      this.config := config;
      state, failures, lastFailureAt, halfOpenAttempts := Closed, 0, 0, 0;
    }

    /** `execute` until it calls the function, or refuses to. */
    method Begin(now: int) returns (admitted: bool)
      modifies this
      ensures (Contents(), admitted) == DoBegin(config, old(Contents()), now)
    {
      if state == Open {
        if now - lastFailureAt >= config.resetTimeoutMs {
          state := HalfOpen;
          halfOpenAttempts := 0;
        } else {
          return false;
        }
      }
      if state == HalfOpen {
        if halfOpenAttempts >= config.halfOpenMaxAttempts {
          return false;
        }
        halfOpenAttempts := halfOpenAttempts + 1;
      }
      admitted := true;
    }

    method OnSuccess()
      modifies this
      ensures Contents() == DoSuccess(old(Contents()))
    {
      failures := 0;
      state := Closed;
    }

    method OnFailure(now: int)
      modifies this
      ensures Contents() == DoFailure(config, old(Contents()), now)
    {
      failures := failures + 1;
      lastFailureAt := now;
      if failures >= config.failureThreshold {
        state := Open;
      }
    }

    method Reset()
      modifies this
      ensures Contents() == DoReset(old(Contents()))
    {
      state := Closed;
      failures := 0;
      halfOpenAttempts := 0;
    }
  }

  // ----- Overlapping calls ------------------------------------------------------------------------

  /** A call, and the half-open episode it is a probe of (none if it was admitted while closed). */
  datatype Call = Call(id: nat, episode: nat)

  const NO_EPISODE := 0

  /** `episode` numbers the times the breaker became half-open; `admitted` is all calls ever let through. */
  datatype Sys = Sys(v: Value, episode: nat, inFlight: seq<Call>, admitted: seq<Call>)

  datatype Event = BeginAt(id: nat, now: int) | Succeed(k: nat) | Fail(k: nat, now: int) | ResetBreaker

  const Init := Sys(Fresh, NO_EPISODE, [], [])

  /** Completions are of calls in flight, by their place in the list. */
  predicate Enabled(s: Sys, e: Event) {
    match e
    case Succeed(k) => k < |s.inFlight|
    case Fail(k, now) => k < |s.inFlight|
    case _ => true
  }

  function Step(c: Config, s: Sys, e: Event): Sys
    requires Enabled(s, e)
  {
    match e
    case BeginAt(id, now) =>
      var (w, ok) := DoBegin(c, s.v, now);
      var episode := if s.v.state.Open? && w.state.HalfOpen? then s.episode + 1 else s.episode;
      var call := Call(id, if w.state.HalfOpen? then episode else NO_EPISODE);
      if ok then Sys(w, episode, s.inFlight + [call], s.admitted + [call]) else s.(v := w, episode := episode)
    case Succeed(k) => s.(v := DoSuccess(s.v), inFlight := s.inFlight[..k] + s.inFlight[k + 1..])
    case Fail(k, now) => s.(v := DoFailure(c, s.v, now), inFlight := s.inFlight[..k] + s.inFlight[k + 1..])
    case ResetBreaker => s.(v := DoReset(s.v))
  }

  predicate Feasible(c: Config, s: Sys, es: seq<Event>)
    decreases |es|
  {
    es == [] || (Enabled(s, es[0]) && Feasible(c, Step(c, s, es[0]), es[1..]))
  }

  function Run(c: Config, s: Sys, es: seq<Event>): Sys
    requires Feasible(c, s, es)
    decreases |es|
  {
    if es == [] then s else Run(c, Step(c, s, es[0]), es[1..])
  }

  function Probes(calls: seq<Call>, episode: nat): seq<Call> {
    if calls == [] then []
    else
      var init, last := Probes(calls[..|calls| - 1], episode), calls[|calls| - 1];
      if last.episode == episode then init + [last] else init
  }

  lemma ProbesSnoc(calls: seq<Call>, call: Call, episode: nat)
    ensures Probes(calls + [call], episode) ==
            Probes(calls, episode) + (if call.episode == episode then [call] else [])
  {
    assert (calls + [call])[..|calls|] == calls;
  }

  lemma {:induction false} NoProbesYet(calls: seq<Call>, episode: nat)
    requires forall call :: call in calls ==> call.episode < episode
    ensures Probes(calls, episode) == []
  {
    if calls != [] {
      assert calls[|calls| - 1] in calls;
      NoProbesYet(calls[..|calls| - 1], episode);
    }
  }

  ghost predicate StateOk(c: Config, v: Value) { v.state.Closed? <==> v.failures < c.failureThreshold }

  ghost predicate Known(s: Sys) {
    && (forall call :: call in s.inFlight ==> call.episode <= s.episode)
    && (forall call :: call in s.admitted ==> call.episode <= s.episode)
  }

  /** The probes of the current episode: at most so many, and all of them still in flight. */
  ghost predicate HalfOpenOk(c: Config, s: Sys) {
    s.v.state.HalfOpen? ==>
      && s.episode > NO_EPISODE
      && Probes(s.admitted, s.episode) == Probes(s.inFlight, s.episode)
      && |Probes(s.inFlight, s.episode)| == s.v.halfOpenAttempts
      && (c.halfOpenMaxAttempts >= 1 ==> s.v.halfOpenAttempts >= 1)
  }

  ghost predicate FewProbes(c: Config, s: Sys) {
    forall e :: e > NO_EPISODE ==> |Probes(s.admitted, e)| <= if c.halfOpenMaxAttempts > 0 then c.halfOpenMaxAttempts else 0
  }

  ghost predicate Inv(c: Config, s: Sys) { StateOk(c, s.v) && Known(s) && HalfOpenOk(c, s) && FewProbes(c, s) }

  lemma BeginKeepsInv(c: Config, s: Sys, id: nat, now: int)
    requires c.failureThreshold >= 1 && Inv(c, s)
    ensures Inv(c, Step(c, s, BeginAt(id, now)))
  {
    var (w, ok) := DoBegin(c, s.v, now);
    var t := Step(c, s, BeginAt(id, now));
    if s.v.state.Open? && w.state.HalfOpen? {
      NoProbesYet(s.inFlight, t.episode);
      NoProbesYet(s.admitted, t.episode);
    }
    if ok {
      var call := Call(id, if w.state.HalfOpen? then t.episode else NO_EPISODE);
      ProbesSnoc(s.inFlight, call, t.episode);
      forall e | e > NO_EPISODE
        ensures |Probes(t.admitted, e)| <= if c.halfOpenMaxAttempts > 0 then c.halfOpenMaxAttempts else 0
      {
        ProbesSnoc(s.admitted, call, e);
      }
      ProbesSnoc(s.admitted, call, t.episode);
    }
  }

  lemma CompletionKeepsInv(c: Config, s: Sys, e: Event)
    requires c.failureThreshold >= 1 && Inv(c, s) && Enabled(s, e) && !e.BeginAt?
    ensures Inv(c, Step(c, s, e)) && !Step(c, s, e).v.state.HalfOpen?
  {
    var t := Step(c, s, e);
    assert forall call :: call in t.inFlight ==> call in s.inFlight;
  }

  lemma {:induction false} RunKeepsInv(c: Config, s: Sys, es: seq<Event>)
    requires c.failureThreshold >= 1 && Inv(c, s) && Feasible(c, s, es)
    ensures Inv(c, Run(c, s, es))
    decreases |es|
  {
    if es != [] {
      if es[0].BeginAt? {
        BeginKeepsInv(c, s, es[0].id, es[0].now);
      } else {
        CompletionKeepsInv(c, s, es[0]);
      }
      hide Inv;
      RunKeepsInv(c, Step(c, s, es[0]), es[1..]);
    }
  }

  lemma InitInv(c: Config)
    requires c.failureThreshold >= 1
    ensures Inv(c, Init)
  {
    assert forall e :: Probes([], e) == [];
  }

  /** However calls overlap, the breaker is closed exactly while it has counted fewer failures than the threshold. */
  lemma {:induction false} ClosedIffBelowThreshold(c: Config, es: seq<Event>)
    requires c.failureThreshold >= 1 && Feasible(c, Init, es)
    ensures var v := Run(c, Init, es).v; v.state.Closed? <==> v.failures < c.failureThreshold
  {
    InitInv(c);
    RunKeepsInv(c, Init, es);
  }

  /** A threshold below one breaks this from the start. */
  lemma ThresholdBelowOne(c: Config)
    requires c.failureThreshold < 1
    ensures Init.v.state.Closed? && !(Init.v.failures < c.failureThreshold)
  {
  }

  /** No half-open episode admits more probes than it may. */
  lemma {:induction false} ProbesPerEpisode(c: Config, es: seq<Event>, episode: nat)
    requires c.failureThreshold >= 1 && Feasible(c, Init, es) && episode > NO_EPISODE
    ensures |Probes(Run(c, Init, es).admitted, episode)| <= if c.halfOpenMaxAttempts > 0 then c.halfOpenMaxAttempts else 0
  {
    InitInv(c);
    RunKeepsInv(c, Init, es);
  }

  /**
   * While the breaker is half-open every probe of the episode is still in flight and, unless
   * no probe is allowed at all, there is one: it never waits for nothing.
   */
  lemma {:induction false} HalfOpenHasProbes(c: Config, es: seq<Event>)
    requires c.failureThreshold >= 1 && Feasible(c, Init, es) && Run(c, Init, es).v.state.HalfOpen?
    ensures var s := Run(c, Init, es);
            && Probes(s.admitted, s.episode) == Probes(s.inFlight, s.episode)
            && (c.halfOpenMaxAttempts >= 1 ==> Probes(s.inFlight, s.episode) != [])
  {
    InitInv(c);
    RunKeepsInv(c, Init, es);
  }

  /** With no probe allowed, a half-open breaker without calls refuses everything until it is reset. */
  lemma {:induction false} WedgedWithoutProbes(c: Config, s: Sys, es: seq<Event>)
    requires c.halfOpenMaxAttempts <= 0 && s.v.state.HalfOpen? && s.inFlight == [] && Feasible(c, s, es)
    requires forall i :: 0 <= i < |es| ==> !es[i].ResetBreaker?
    ensures var t := Run(c, s, es); t.v.state.HalfOpen? && t.admitted == s.admitted
    decreases |es|
  {
    if es != [] {
      assert es[0].BeginAt?;
      WedgedWithoutProbes(c, Step(c, s, es[0]), es[1..]);
    }
  }

  /**
   * Once the breaker is open nothing new is let through for `resetTimeoutMs`, whatever fails
   * in the meantime, unless a call still in flight succeeds.
   */
  lemma {:induction false} QuietWhileOpen(c: Config, s: Sys, es: seq<Event>, since: int)
    requires c.failureThreshold >= 1 && StateOk(c, s.v) && s.v.state.Open? && Feasible(c, s, es)
    requires since <= s.v.lastFailureAt
    requires forall i :: 0 <= i < |es| ==> Quiet(es[i], since, since + c.resetTimeoutMs)
    ensures var t := Run(c, s, es); t.v.state.Open? && t.admitted == s.admitted
    decreases |es|
  {
    if es != [] {
      assert Quiet(es[0], since, since + c.resetTimeoutMs);
      QuietWhileOpen(c, Step(c, s, es[0]), es[1..], since);
    }
  }

  /** A call before the time is up, or a failure, which can only put the time off. */
  predicate Quiet(e: Event, since: int, until: int) {
    match e
    case BeginAt(_, now) => now < until
    case Fail(_, now) => now >= since
    case _ => false
  }

  // ----- Callers that look first, and retries that do not ----------------------------------------

  /**
   * The model fallback looks at the state before its first call of a model and passes over a
   * breaker that is open; its retries of the same model call without looking again.
   */
  datatype Use = First(id: nat, now: int) | Retry(id: nat, now: int) | Ended(k: nat) | Broke(k: nat, now: int) | ResetUse

  function EventOf(u: Use): Event {
    match u
    case First(id, now) => BeginAt(id, now)
    case Retry(id, now) => BeginAt(id, now)
    case Ended(k) => Succeed(k)
    case Broke(k, now) => Fail(k, now)
    case ResetUse => ResetBreaker
  }

  function UseStep(c: Config, s: Sys, u: Use): Sys
    requires Enabled(s, EventOf(u))
  {
    if u.First? && s.v.state.Open? then s else Step(c, s, EventOf(u))
  }

  predicate UseFeasible(c: Config, s: Sys, us: seq<Use>)
    decreases |us|
  {
    us == [] || (Enabled(s, EventOf(us[0])) && UseFeasible(c, UseStep(c, s, us[0]), us[1..]))
  }

  /** The breaker is open before, between and after all these uses. */
  predicate StaysOpen(c: Config, s: Sys, us: seq<Use>)
    requires UseFeasible(c, s, us)
    decreases |us|
  {
    s.v.state.Open? && (us == [] || StaysOpen(c, UseStep(c, s, us[0]), us[1..]))
  }

  /** When the last failure was, given that it was at `since` before. */
  function FailedAt(us: seq<Use>, since: int): int {
    if us == [] then since
    else if us[|us| - 1].Broke? then us[|us| - 1].now
    else FailedAt(us[..|us| - 1], since)
  }

  /** A reset, a success of a call in flight, or a retry when the time since the last failure is up. */
  predicate Leaves(c: Config, u: Use, since: int) {
    u.ResetUse? || u.Ended? || (u.Retry? && u.now - since >= c.resetTimeoutMs)
  }

  ghost predicate NothingLeaves(c: Config, us: seq<Use>, since: int) {
    forall i :: 0 <= i < |us| ==> !Leaves(c, us[i], FailedAt(us[..i], since))
  }

  lemma {:induction false} FailedAtCons(u: Use, us: seq<Use>, since: int)
    ensures FailedAt([u] + us, since) == FailedAt(us, if u.Broke? then u.now else since)
  {
    if us == [] {
      assert [u] + us == [u] && [u][..0] == [];
    } else {
      assert ([u] + us)[..|us|] == [u] + us[..|us| - 1];
      FailedAtCons(u, us[..|us| - 1], since);
    }
  }

  lemma NothingLeavesCons(c: Config, us: seq<Use>, since: int)
    requires us != []
    ensures NothingLeaves(c, us, since) <==>
            !Leaves(c, us[0], since) && NothingLeaves(c, us[1..], if us[0].Broke? then us[0].now else since)
  {
    var later := if us[0].Broke? then us[0].now else since;
    forall i | 0 <= i < |us| - 1 ensures FailedAt(us[..i + 1], since) == FailedAt(us[1..][..i], later) {
      assert us[..i + 1] == [us[0]] + us[1..][..i];
      FailedAtCons(us[0], us[1..][..i], since);
    }
    assert us[..0] == [];
    if NothingLeaves(c, us, since) {
      assert !Leaves(c, us[0], FailedAt(us[..0], since));
      forall i | 0 <= i < |us[1..]| ensures !Leaves(c, us[1..][i], FailedAt(us[1..][..i], later)) {
        assert us[1..][i] == us[i + 1];
        assert !Leaves(c, us[i + 1], FailedAt(us[..i + 1], since));
      }
    }
    if !Leaves(c, us[0], since) && NothingLeaves(c, us[1..], later) {
      forall i | 0 <= i < |us| ensures !Leaves(c, us[i], FailedAt(us[..i], since)) {
        if i > 0 {
          assert us[1..][i - 1] == us[i];
          assert !Leaves(c, us[1..][i - 1], FailedAt(us[1..][..i - 1], later));
        }
      }
    }
  }

  /** One use leaves an open breaker open, unless it is one of the three. */
  lemma UseLeavesIff(c: Config, s: Sys, u: Use)
    requires c.failureThreshold >= 1 && StateOk(c, s.v) && s.v.state.Open? && Enabled(s, EventOf(u))
    ensures var t := UseStep(c, s, u);
            && StateOk(c, t.v)
            && (t.v.state.Open? <==> !Leaves(c, u, s.v.lastFailureAt))
            && (t.v.state.Open? ==> t.v.lastFailureAt == if u.Broke? then u.now else s.v.lastFailureAt)
  {
  }

  /**
   * Exactly when an open breaker stays open through any first calls, retries, and ends of calls
   * that were in flight: as long as there is no reset, no call ends well, and no retry comes
   * `resetTimeoutMs` or more after the last failure. First calls never change it.
   */
  lemma {:induction false} StaysOpenIff(c: Config, s: Sys, us: seq<Use>)
    requires c.failureThreshold >= 1 && StateOk(c, s.v) && s.v.state.Open? && UseFeasible(c, s, us)
    ensures StaysOpen(c, s, us) <==> NothingLeaves(c, us, s.v.lastFailureAt)
    decreases |us|
  {
    if us != [] {
      var t := UseStep(c, s, us[0]);
      UseLeavesIff(c, s, us[0]);
      NothingLeavesCons(c, us, s.v.lastFailureAt);
      if t.v.state.Open? {
        StaysOpenIff(c, t, us[1..]);
      }
    }
  }

  /** In particular first calls alone, however late, never let an open breaker recover. */
  lemma {:induction false} LookingFirstNeverRecovers(c: Config, s: Sys, us: seq<Use>)
    requires c.failureThreshold >= 1 && StateOk(c, s.v) && s.v.state.Open? && UseFeasible(c, s, us)
    requires forall i :: 0 <= i < |us| ==> us[i].First? || us[i].Broke?
    ensures StaysOpen(c, s, us)
  {
    StaysOpenIff(c, s, us);
  }

  /** A retry that comes late enough is let through, and its success closes the breaker. */
  lemma ProbeRecovers(c: Config, s: Sys, id: nat, now: int)
    requires c.halfOpenMaxAttempts >= 1 && s.v.state.Open? && now - s.v.lastFailureAt >= c.resetTimeoutMs
    ensures var es := [BeginAt(id, now), Succeed(|s.inFlight|)];
            Feasible(c, s, es) && Run(c, s, es).v.state.Closed?
  {
    var es := [BeginAt(id, now), Succeed(|s.inFlight|)];
    var t := Step(c, s, es[0]);
    assert |t.inFlight| == |s.inFlight| + 1 && es[1..] == [es[1]] && es[1..][1..] == [];
    var u := Step(c, t, es[1]);
    assert Feasible(c, u, []) && Feasible(c, t, es[1..]);
    assert Run(c, t, es[1..]) == Run(c, u, []) == u;
  }

  // ----- The state from the history --------------------------------------------------------------

  /** How many calls have failed since one ended well, or since a reset. */
  function FailuresInARow(es: seq<Event>): nat {
    if es == [] then 0
    else
      var earlier := FailuresInARow(es[..|es| - 1]);
      match es[|es| - 1]
      case Fail(_, _) => earlier + 1
      case BeginAt(_, _) => earlier
      case Succeed(_) => 0
      case ResetBreaker => 0
  }

  /** The time of the last failure (0, the source's initial value, if there was none). */
  function LastFailure(es: seq<Event>): int {
    if es == [] then 0
    else if es[|es| - 1].Fail? then es[|es| - 1].now
    else LastFailure(es[..|es| - 1])
  }

  /** Since the last call ended, and since the last reset, a call has come `resetTimeoutMs` or more after the last failure. */
  function Woken(c: Config, es: seq<Event>): bool {
    if es == [] then false
    else
      var init := es[..|es| - 1];
      match es[|es| - 1]
      case BeginAt(_, now) => Woken(c, init) || now - LastFailure(init) >= c.resetTimeoutMs
      case _ => false
  }

  ghost predicate Told(c: Config, s: Sys, es: seq<Event>) {
    && s.v.failures == FailuresInARow(es) && s.v.lastFailureAt == LastFailure(es)
    && s.v.state == (if FailuresInARow(es) < c.failureThreshold then Closed else if Woken(c, es) then HalfOpen else Open)
  }

  lemma StepTold(c: Config, s: Sys, init: seq<Event>, e: Event)
    requires Told(c, s, init) && Enabled(s, e) && c.failureThreshold >= 1
    ensures Told(c, Step(c, s, e), init + [e])
  {
    var es := init + [e];
    assert es[..|es| - 1] == init && es[|es| - 1] == e;
  }

  lemma {:induction false} RunTold(c: Config, s: Sys, before: seq<Event>, es: seq<Event>)
    requires Told(c, s, before) && Feasible(c, s, es) && c.failureThreshold >= 1
    ensures Told(c, Run(c, s, es), before + es)
    decreases |es|
  {
    hide Told, Step;
    if es == [] {
      assert before + es == before;
    } else {
      StepTold(c, s, before, es[0]);
      RunTold(c, Step(c, s, es[0]), before + [es[0]], es[1..]);
      assert (before + [es[0]]) + es[1..] == before + es;
    }
  }

  /** The breaker after any run: closed below the threshold of failures in a row, else half-open once it was woken, else open. */
  lemma {:induction false} StateIs(c: Config, es: seq<Event>)
    requires c.failureThreshold >= 1 && Feasible(c, Init, es)
    ensures Run(c, Init, es).v.state ==
            if FailuresInARow(es) < c.failureThreshold then Closed else if Woken(c, es) then HalfOpen else Open
  {
    RunTold(c, Init, [], es);
    assert [] + es == es;
  }

  /**
   * Which call is let through, in any run: every one while the breaker is closed; while it is open one
   * that comes `resetTimeoutMs` or more after the last failure, if probes are allowed at all; and
   * while it is half-open one for which there are not yet enough probes in flight.
   */
  lemma {:induction false} LetThroughIff(c: Config, es: seq<Event>, now: int)
    requires c.failureThreshold >= 1 && Feasible(c, Init, es)
    ensures var s := Run(c, Init, es);
            DoBegin(c, s.v, now).1 <==>
              || FailuresInARow(es) < c.failureThreshold
              || (!Woken(c, es) && now - LastFailure(es) >= c.resetTimeoutMs && c.halfOpenMaxAttempts >= 1)
              || (Woken(c, es) && |Probes(s.inFlight, s.episode)| < c.halfOpenMaxAttempts)
  {
    RunTold(c, Init, [], es);
    assert [] + es == es;
    InitInv(c);
    RunKeepsInv(c, Init, es);
  }
}
