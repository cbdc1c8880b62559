/**
 * packages/skills-finance/src/shared/key-rotator.ts
 *
 * API keys in turn; a key that fails too often in a row is set aside for a while.
 */
module KeyRotation {
  import opened Prelude

  datatype KeyState = KeyState(failures: nat, cooldownUntil: int)

  datatype Config = Config(keys: seq<string>, failureThreshold: int, cooldownMs: nat)

  datatype Value = Value(cursor: nat, states: map<string, KeyState>)

  const Unused := KeyState(0, 0)

  function StateOf(v: Value, key: string): KeyState { GetOr(v.states, key, Unused) }

  predicate Cooling(v: Value, key: string, now: int) { StateOf(v, key).cooldownUntil > now }

  function Initial(c: Config): Value { Value(0, map k | k in c.keys :: Unused) }

  /** The cursor is a place in the list, and every key has a state. */
  ghost predicate Valid(c: Config, v: Value) {
    v.cursor < |c.keys| && forall k :: k in v.states <==> k in c.keys
  }

  function Place(c: Config, v: Value, attempt: nat): nat
    requires c.keys != []
  {
    (v.cursor + attempt) % |c.keys|
  }

  /** The first place from `attempt` on, going round, whose key is usable. */
  function Find(c: Config, v: Value, now: int, attempt: nat): (r: Option<nat>)
    requires c.keys != []
    decreases |c.keys| - attempt
  {
    if attempt >= |c.keys| then None
    else if !Cooling(v, c.keys[Place(c, v, attempt)], now) then Some(Place(c, v, attempt))
    else Find(c, v, now, attempt + 1)
  }

  /** The least end of a cooldown among the keys. */
  function Earliest(v: Value, keys: seq<string>): int
    requires keys != []
  {
    var e := StateOf(v, keys[|keys| - 1]).cooldownUntil;
    if |keys| == 1 then e
    else
      var rest := Earliest(v, keys[..|keys| - 1]);
      if e < rest then e else rest
  }

  /** Err is AllKeysCooldownError with its `retryAfterMs`. */
  function DoNext(c: Config, v: Value, now: int): (Value, Result<string, int>)
    requires c.keys != []
  {
    var found := Find(c, v, now, 0);
    if found.Some? then (v.(cursor := (found.value + 1) % |c.keys|), Ok(c.keys[found.value % |c.keys|]))
    else (v, Err(Earliest(v, c.keys) - now))
  }

  function DoFailure(c: Config, v: Value, key: string, now: int): Value {
    if key !in v.states then v
    else
      var f := v.states[key].failures + 1;
      v.(states := v.states[key := KeyState(f, if f >= c.failureThreshold then now + c.cooldownMs else v.states[key].cooldownUntil)])
  }

  function DoSuccess(v: Value, key: string): Value {
    if key !in v.states then v else v.(states := v.states[key := Unused])
  }

  // ----- The search -----------------------------------------------------------------------------

  lemma Wraps(a: nat, n: nat)
    requires 0 < n && a < 2 * n
    ensures a % n == if a < n then a else a - n
  {
    if a < n {
      SmallMod(a, n);
    } else {
      SmallMod(a - n, n);
      assert a % n == (a - n) % n;
    }
  }

  lemma SmallMod(a: nat, n: nat)
    requires a < n
    ensures a % n == a
  {
  }

  /** Every place is passed in some attempt. */
  function Distance(c: Config, v: Value, place: nat): nat
    requires Valid(c, v) && place < |c.keys|
  {
    if place >= v.cursor then place - v.cursor else place + |c.keys| - v.cursor
  }

  lemma DistanceReaches(c: Config, v: Value, place: nat)
    requires Valid(c, v) && place < |c.keys|
    ensures Distance(c, v, place) < |c.keys| && Place(c, v, Distance(c, v, place)) == place
  {
    Wraps(v.cursor + Distance(c, v, place), |c.keys|);
  }

  lemma {:induction false} FindIsFirst(c: Config, v: Value, now: int, attempt: nat)
    requires Valid(c, v)
    ensures match Find(c, v, now, attempt)
            case None => forall a :: attempt <= a < |c.keys| ==> Cooling(v, c.keys[Place(c, v, a)], now)
            case Some(p) => exists a :: attempt <= a < |c.keys| && Place(c, v, a) == p && !Cooling(v, c.keys[p], now)
                              && forall b :: attempt <= b < a ==> Cooling(v, c.keys[Place(c, v, b)], now)
    decreases |c.keys| - attempt
  {
    if attempt < |c.keys| && Cooling(v, c.keys[Place(c, v, attempt)], now) {
      FindIsFirst(c, v, now, attempt + 1);
    }
  }

  lemma {:induction false} EarliestIsBound(v: Value, keys: seq<string>, k: string)
    requires k in keys
    ensures Earliest(v, keys) <= StateOf(v, k).cooldownUntil
  {
    var init, last := keys[..|keys| - 1], keys[|keys| - 1];
    if k != last {
      assert k in init;
      EarliestIsBound(v, init, k);
    }
  }

  lemma {:induction false} EarliestIsReached(v: Value, keys: seq<string>) returns (k: string)
    requires keys != []
    ensures k in keys && StateOf(v, k).cooldownUntil == Earliest(v, keys)
  {
    k := keys[|keys| - 1];
    if Earliest(v, keys) != StateOf(v, k).cooldownUntil {
      k := EarliestIsReached(v, keys[..|keys| - 1]);
    }
  }

  lemma EarliestIsLeast(v: Value, keys: seq<string>)
    requires keys != []
    ensures forall k :: k in keys ==> Earliest(v, keys) <= StateOf(v, k).cooldownUntil
    ensures exists k :: k in keys && StateOf(v, k).cooldownUntil == Earliest(v, keys)
  {
    forall k | k in keys ensures Earliest(v, keys) <= StateOf(v, k).cooldownUntil {
      EarliestIsBound(v, keys, k);
    }
    var k := EarliestIsReached(v, keys);
  }

  /** `next` fails exactly when every key is cooling down. */
  lemma {:induction false} FailsIffAllCooling(c: Config, v: Value, now: int)
    requires Valid(c, v)
    ensures DoNext(c, v, now).1.Err? <==> forall k :: k in c.keys ==> Cooling(v, k, now)
  {
    FindIsFirst(c, v, now, 0);
    if DoNext(c, v, now).1.Err? {
      forall k | k in c.keys ensures Cooling(v, k, now) {
        var p :| 0 <= p < |c.keys| && c.keys[p] == k;
        DistanceReaches(c, v, p);
      }
    } else {
      var p := Find(c, v, now, 0).value;
      assert p < |c.keys| && c.keys[p] in c.keys;
    }
  }

  /** The key that is handed out is one of the keys and usable, and the cursor stands behind it. */
  lemma {:induction false} NextIsUsable(c: Config, v: Value, now: int)
    requires Valid(c, v) && DoNext(c, v, now).1.Ok?
    ensures var (w, r) := DoNext(c, v, now); r.value in c.keys && !Cooling(v, r.value, now) && Valid(c, w) && w.states == v.states
  {
    FindIsFirst(c, v, now, 0);
    SmallMod(Find(c, v, now, 0).value, |c.keys|);
  }

  /**
   * The wait that a failure reports is positive and exact: while nothing is marked, `next`
   * fails at every earlier time and succeeds at every later one.
   */
  lemma {:induction false} RetryAfterIsExact(c: Config, v: Value, now: int, later: int)
    requires Valid(c, v) && DoNext(c, v, now).1.Err?
    ensures DoNext(c, v, now).1.error > 0
    ensures DoNext(c, v, later).1.Ok? <==> later >= now + DoNext(c, v, now).1.error
  {
    FailsIffAllCooling(c, v, now);
    FailsIffAllCooling(c, v, later);
    EarliestIsLeast(v, c.keys);
  }

  // ----- The class ---------------------------------------------------------------------------------

  class KeyRotator {
    const config: Config
    var cursor: nat
    var states: map<string, KeyState>

    function Contents(): Value
      reads this
    {
      Value(cursor, states)
    }

    /** The source refuses an empty list of keys. */
    constructor (config: Config)
      requires config.keys != []
      ensures this.config == config && Contents() == Initial(config) && Valid(config, Contents())
    {
      this.config := config;
      cursor, states := 0, map k | k in config.keys :: Unused;
    }

    method Next(now: int) returns (r: Result<string, int>)
      requires Valid(config, Contents())
      modifies this
      ensures (Contents(), r) == DoNext(config, old(Contents()), now)
      ensures Valid(config, Contents())
    {
      var n := |config.keys|;
      var earliest: Option<int> := None;
      ghost var v := Contents();
      FindIsFirst(config, v, now, 0);
      for attempt := 0 to n
        invariant Contents() == v && Find(config, v, now, attempt) == Find(config, v, now, 0)
        invariant earliest.None? <==> attempt == 0
        invariant forall a :: 0 <= a < attempt ==>
                    Cooling(v, config.keys[Place(config, v, a)], now)
                    && earliest.value <= StateOf(v, config.keys[Place(config, v, a)]).cooldownUntil
        invariant earliest.Some? ==> exists k :: k in config.keys && StateOf(v, k).cooldownUntil == earliest.value
      {
        var idx := (cursor + attempt) % n;
        assert idx == Place(config, v, attempt);
        var key := config.keys[idx];
        assert key in config.keys;
        var state := states[key];
        if state.cooldownUntil <= now {
          SmallMod(idx, n);
          cursor := (idx + 1) % n;
          return Ok(key);
        }
        earliest := Some(if earliest.Some? && earliest.value < state.cooldownUntil then earliest.value else state.cooldownUntil);
      }
      LeastIsEarliest(config, v, earliest.value);
      r := Err(earliest.value - now);
    }

    method MarkFailure(key: string, now: int)
      requires Valid(config, Contents())
      modifies this
      ensures Contents() == DoFailure(config, old(Contents()), key, now) && Valid(config, Contents())
    {
      if key !in states {
        return;
      }
      var state := states[key];
      state := state.(failures := state.failures + 1);
      if state.failures >= config.failureThreshold {
        state := state.(cooldownUntil := now + config.cooldownMs);
      }
      states := states[key := state];
    }

    method MarkSuccess(key: string)
      requires Valid(config, Contents())
      modifies this
      ensures Contents() == DoSuccess(old(Contents()), key) && Valid(config, Contents())
    {
      if key in states {
        states := states[key := Unused];
      }
    }
  }

  lemma LeastIsEarliest(c: Config, v: Value, e: int)
    requires Valid(c, v)
    requires forall a :: 0 <= a < |c.keys| ==> e <= StateOf(v, c.keys[Place(c, v, a)]).cooldownUntil
    requires exists k :: k in c.keys && StateOf(v, k).cooldownUntil == e
    ensures e == Earliest(v, c.keys)
  {
    EarliestIsLeast(v, c.keys);
    var k :| k in c.keys && StateOf(v, k).cooldownUntil == Earliest(v, c.keys);
    var p :| 0 <= p < |c.keys| && c.keys[p] == k;
    DistanceReaches(c, v, p);
  }

  // ----- Runs ---------------------------------------------------------------------------------------

  /** `log`: the keys handed out. */
  datatype Sys = Sys(v: Value, log: seq<string>)

  datatype Event = NextAt(now: int) | FailureAt(key: string, now: int) | SuccessOf(key: string)

  function Step(c: Config, s: Sys, e: Event): Sys
    requires c.keys != []
  {
    match e
    case NextAt(now) =>
      var (w, r) := DoNext(c, s.v, now);
      Sys(w, if r.Ok? then s.log + [r.value] else s.log)
    case FailureAt(key, now) => s.(v := DoFailure(c, s.v, key, now))
    case SuccessOf(key) => s.(v := DoSuccess(s.v, key))
  }

  function Run(c: Config, s: Sys, es: seq<Event>): Sys
    requires c.keys != []
    decreases |es|
  {
    if es == [] then s else Run(c, Step(c, s, es[0]), es[1..])
  }

  lemma StepKeepsValid(c: Config, s: Sys, e: Event)
    requires Valid(c, s.v)
    ensures Valid(c, Step(c, s, e).v) && s.log <= Step(c, s, e).log
  {
    if e.NextAt? && DoNext(c, s.v, e.now).1.Ok? {
      NextIsUsable(c, s.v, e.now);
    }
  }

  lemma {:induction false} RunKeepsValid(c: Config, s: Sys, es: seq<Event>)
    requires Valid(c, s.v)
    ensures Valid(c, Run(c, s, es).v) && s.log <= Run(c, s, es).log
    decreases |es|
  {
    if es != [] {
      StepKeepsValid(c, s, es[0]);
      RunKeepsValid(c, Step(c, s, es[0]), es[1..]);
    }
  }

  // ----- The history of a key ---------------------------------------------------------------------

  /** How often the key has failed since it last succeeded. */
  function FailuresSince(es: seq<Event>, key: string): nat {
    if es == [] then 0
    else
      var earlier := FailuresSince(es[..|es| - 1], key);
      match es[|es| - 1]
      case FailureAt(k, _) => if k == key then earlier + 1 else earlier
      case SuccessOf(k) => if k == key then 0 else earlier
      case NextAt(_) => earlier
  }

  /** When the key failed last. */
  function LastFailure(es: seq<Event>, key: string): Option<int> {
    if es == [] then None
    else if es[|es| - 1].FailureAt? && es[|es| - 1].key == key then Some(es[|es| - 1].now)
    else LastFailure(es[..|es| - 1], key)
  }

  lemma {:induction false} RunSnoc(c: Config, s: Sys, es: seq<Event>, e: Event)
    requires c.keys != []
    ensures Run(c, s, es + [e]) == Step(c, Run(c, s, es), e)
    decreases |es|
  {
    if es == [] {
      assert es + [e] == [e] && [e][1..] == [];
    } else {
      assert (es + [e])[1..] == es[1..] + [e];
      RunSnoc(c, Step(c, s, es[0]), es[1..], e);
    }
  }

  /** What the state of a key says about its history, for a key in the list. */
  ghost predicate StateTells(c: Config, st: KeyState, es: seq<Event>, key: string) {
    && st.failures == FailuresSince(es, key)
    && (st.failures > 0 ==> LastFailure(es, key).Some?)
    && st.cooldownUntil == if st.failures > 0 && st.failures >= c.failureThreshold
                           then LastFailure(es, key).value + c.cooldownMs else 0
  }

  lemma StepTells(c: Config, s: Sys, es: seq<Event>, e: Event, key: string)
    requires Valid(c, s.v) && key in c.keys && StateTells(c, StateOf(s.v, key), es, key)
    ensures StateTells(c, StateOf(Step(c, s, e).v, key), es + [e], key)
  {
    assert (es + [e])[..|es|] == es;
    if e.NextAt? {
      assert Step(c, s, e).v.states == s.v.states;
    }
  }

  lemma {:induction false} RunTells(c: Config, es: seq<Event>, key: string)
    requires key in c.keys
    ensures Valid(c, Run(c, Sys(Initial(c), []), es).v)
    ensures StateTells(c, StateOf(Run(c, Sys(Initial(c), []), es).v, key), es, key)
    decreases |es|
  {
    var start := Sys(Initial(c), []);
    RunKeepsValid(c, start, es);
    if es != [] {
      var init, e := es[..|es| - 1], es[|es| - 1];
      assert es == init + [e];
      RunTells(c, init, key);
      RunSnoc(c, start, init, e);
      StepTells(c, Run(c, start, init), init, e, key);
    }
  }

  /**
   * In every run: the counter of a key is the number of its failures since its last success,
   * and the key is set aside exactly if that number has reached the threshold and less than
   * `cooldownMs` have passed since its last failure.
   */
  lemma {:induction false} CoolingIffHistory(c: Config, es: seq<Event>, key: string, later: int)
    requires key in c.keys && later >= 0
    ensures var v := Run(c, Sys(Initial(c), []), es).v;
            var n := FailuresSince(es, key);
            && StateOf(v, key).failures == n
            && (n > 0 ==> LastFailure(es, key).Some?)
            && (Cooling(v, key, later) <==> n > 0 && n >= c.failureThreshold && later < LastFailure(es, key).value + c.cooldownMs)
  {
    RunTells(c, es, key);
  }

  /** So a key that has failed fewer times than the threshold since its last success is never set aside. */
  lemma {:induction false} BelowThresholdIsUsable(c: Config, es: seq<Event>, key: string, now: int)
    requires key in c.keys && now >= 0
    ensures FailuresSince(es, key) < c.failureThreshold ==> !Cooling(Run(c, Sys(Initial(c), []), es).v, key, now)
  {
    CoolingIffHistory(c, es, key, now);
  }

  ghost predicate NotAbout(es: seq<Event>, key: string) { forall e :: e in es ==> e.NextAt? || e.key != key }

  lemma {:induction false} HistoryStays(es: seq<Event>, more: seq<Event>, key: string)
    requires NotAbout(more, key)
    ensures FailuresSince(es + more, key) == FailuresSince(es, key) && LastFailure(es + more, key) == LastFailure(es, key)
  {
    if more == [] {
      assert es + more == es;
    } else {
      var init, e := more[..|more| - 1], more[|more| - 1];
      assert e in more && forall x :: x in init ==> x in more;
      assert (es + more)[..|es + more| - 1] == es + init;
      HistoryStays(es, init, key);
    }
  }

  /**
   * The failure that reaches the threshold, at any distance from the earlier ones, sets the
   * key aside for exactly `cooldownMs`, as long as nothing more happens to the key itself.
   */
  lemma {:induction false} ThresholdSetsAside(c: Config, es: seq<Event>, key: string, now: int, more: seq<Event>, later: int)
    requires key in c.keys && later >= 0 && NotAbout(more, key)
    requires FailuresSince(es + [FailureAt(key, now)], key) >= c.failureThreshold
    ensures Cooling(Run(c, Sys(Initial(c), []), es + [FailureAt(key, now)] + more).v, key, later) <==> later < now + c.cooldownMs
  {
    var failed := es + [FailureAt(key, now)];
    assert failed[..|failed| - 1] == es;
    HistoryStays(failed, more, key);
    CoolingIffHistory(c, failed + more, key, later);
  }

  /** What is done with a key does not touch any other key. */
  lemma OthersStay(c: Config, s: Sys, e: Event, other: string)
    requires Valid(c, s.v)
    requires e.FailureAt? || e.SuccessOf? ==> e.key != other
    ensures StateOf(Step(c, s, e).v, other) == StateOf(s.v, other)
  {
    if e.NextAt? {
      assert Step(c, s, e).v.states == s.v.states;
    }
  }

  // ----- Fairness -------------------------------------------------------------------------------------

  /** The key is usable whenever a key is asked for. */
  predicate StaysUsable(c: Config, s: Sys, es: seq<Event>, key: string)
    requires c.keys != []
    decreases |es|
  {
    es != [] ==>
      && (es[0].NextAt? ==> !Cooling(s.v, key, es[0].now))
      && StaysUsable(c, Step(c, s, es[0]), es[1..], key)
  }

  /** A request that passes over a usable key's place hands that key out; otherwise it comes nearer to it. */
  lemma NextComesNearer(c: Config, v: Value, now: int, place: nat)
    requires Valid(c, v) && place < |c.keys| && !Cooling(v, c.keys[place], now)
    ensures var (w, r) := DoNext(c, v, now);
            && r.Ok? && Valid(c, w)
            && (r.value != c.keys[place] ==> Distance(c, w, place) < Distance(c, v, place))
  {
    FindIsFirst(c, v, now, 0);
    DistanceReaches(c, v, place);
    var d := Distance(c, v, place);
    FailsIffAllCooling(c, v, now);
    assert c.keys[place] in c.keys;
    var p := Find(c, v, now, 0).value;
    var a :| 0 <= a < |c.keys| && Place(c, v, a) == p && !Cooling(v, c.keys[p], now)
          && forall b :: 0 <= b < a ==> Cooling(v, c.keys[Place(c, v, b)], now);
    assert a <= d;
    SmallMod(p, |c.keys|);
    Wraps(v.cursor + a, |c.keys|);
    Wraps(p + 1, |c.keys|);
  }

  lemma {:induction false} NearerUntilHandedOut(c: Config, s: Sys, es: seq<Event>, place: nat)
    requires Valid(c, s.v) && place < |c.keys| && StaysUsable(c, s, es, c.keys[place])
    ensures var t := Run(c, s, es);
            s.log <= t.log && (c.keys[place] in t.log[|s.log|..] || |t.log| - |s.log| <= Distance(c, s.v, place))
    decreases |es|
  {
    if es != [] {
      var u := Step(c, s, es[0]);
      StepKeepsValid(c, s, es[0]);
      RunKeepsValid(c, u, es[1..]);
      var t := Run(c, s, es);
      var key := c.keys[place];
      NearerUntilHandedOut(c, u, es[1..], place);
      if es[0].NextAt? {
        NextComesNearer(c, s.v, es[0].now, place);
        assert t.log[|s.log|..] == [u.log[|s.log|]] + t.log[|u.log|..];
      }
    }
  }

  /** A key that stays usable is handed out at least once in every |keys| requests that succeed. */
  lemma {:induction false} EveryUsableKeyHasItsTurn(c: Config, s: Sys, es: seq<Event>, key: string)
    requires Valid(c, s.v) && key in c.keys && StaysUsable(c, s, es, key)
    requires |Run(c, s, es).log| - |s.log| >= |c.keys|
    ensures s.log <= Run(c, s, es).log && key in Run(c, s, es).log[|s.log|..]
  {
    var p :| 0 <= p < |c.keys| && c.keys[p] == key;
    DistanceReaches(c, s.v, p);
    NearerUntilHandedOut(c, s, es, p);
  }

  /** The key `d` places from the cursor on, going round. */
  function Onwards(c: Config, v: Value, d: nat): string
    requires c.keys != []
  {
    c.keys[(v.cursor + d) % |c.keys|]
  }

  ghost predicate FirstUsable(c: Config, v: Value, now: int, d: nat) {
    && d < |c.keys| && !Cooling(v, Onwards(c, v, d), now)
    && forall b :: 0 <= b < d ==> Cooling(v, Onwards(c, v, b), now)
  }

  /** The keys are handed out in turn: the first usable one from the cursor on, which then moves past it. */
  lemma {:induction false} NextInTurn(c: Config, v: Value, now: int) returns (d: nat)
    requires Valid(c, v) && DoNext(c, v, now).1.Ok?
    ensures FirstUsable(c, v, now, d)
    ensures var (w, r) := DoNext(c, v, now);
            w.states == v.states && r.value == Onwards(c, v, d) && w.cursor == (v.cursor + d + 1) % |c.keys|
  {
    FindIsFirst(c, v, now, 0);
    var p := Find(c, v, now, 0).value;
    d :| 0 <= d < |c.keys| && Place(c, v, d) == p && !Cooling(v, c.keys[p], now)
         && forall b :: 0 <= b < d ==> Cooling(v, c.keys[Place(c, v, b)], now);
    hide Find, Cooling;
    forall b | 0 <= b < |c.keys| ensures c.keys[Place(c, v, b)] == Onwards(c, v, b) {
    }
    MoveOn(c, v, d, p);
  }

  lemma MoveOn(c: Config, v: Value, d: nat, p: nat)
    requires Valid(c, v) && d < |c.keys| && Place(c, v, d) == p
    ensures p < |c.keys| && p % |c.keys| == p && (p + 1) % |c.keys| == (v.cursor + d + 1) % |c.keys|
  {
    Wraps(v.cursor + d, |c.keys|);
    SmallMod(p, |c.keys|);
    NextPlace(v.cursor + d, |c.keys|);
  }

  lemma NextPlace(a: nat, n: nat)
    requires 0 < n && a + 1 < 2 * n
    ensures (a % n + 1) % n == (a + 1) % n
  {
    Wraps(a, n);
    Wraps(a + 1, n);
    if a % n + 1 < n {
      SmallMod(a % n + 1, n);
    }
  }
}
