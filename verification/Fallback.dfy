/**
 * packages/agent/src/models/fallback.ts, runWithModelFallback
 *
 * The calls to the model, the circuit breakers and the pauses between retries are an
 * arbitrary environment: whatever they do in a run, the facts below hold.
 */
module Fallback {
  import opened Prelude
  import opened Routing

  datatype Trigger = RateLimit | ServerError | Timeout | ContextOverflow | ModelUnavailable

  /** An error as `classifyFallbackError` sees it; a breaker that refuses a call gives no trigger. */
  datatype Error = Error(id: nat, trigger: Option<Trigger>)

  datatype Reply<T> = Success(value: T) | Aborted | Failed(error: Error)

  /** By the position of the model in the chain, and the number of the retry. */
  datatype World<T> = World(isOpen: nat -> bool, reply: (nat, nat) -> Reply<T>, pauseAborted: (nat, nat) -> bool)

  datatype Resolved = Resolved(provider: string, modelId: string)

  /** `resolveModel` throws for a name it does not know. */
  type Resolver = string -> Option<Resolved>

  datatype Config = Config(models: seq<string>, maxRetries: nat, fallbackOn: set<Trigger>, floor: Option<Tier>,
                           automation: bool, strictFallback: bool, allowCrossProvider: bool)

  datatype Attempt = Attempt(model: Resolved, error: Option<Error>)

  datatype Outcome<T> =
    | Done(value: T, modelUsed: Resolved, attempts: seq<Attempt>)
    | FloorExhausted(floor: Tier, chainAttempted: seq<string>)
    | AllFailed(errors: seq<Error>)
    | Cancelled
    | NotRetryable(error: Error)
    | Unresolvable(raw: string)

  // ----- The chain that is really used ----------------------------------------------------------

  function RawRank(raw: string): nat { Rank(ModelIdToTier(raw)) }

  /** Keep the entries that pass the floor and, in strict automation, no higher ones either. */
  function FloorFilter(c: Config, models: seq<string>): seq<string> {
    if models == [] || c.floor.None? then models
    else (if PassesFloor(c, models[0]) then [models[0]] else []) + FloorFilter(c, models[1..])
  }

  predicate PassesFloor(c: Config, raw: string) {
    c.floor.Some? ==>
      && RawRank(raw) >= Rank(c.floor.value)
      && (c.automation && c.strictFallback ==> RawRank(raw) == Rank(c.floor.value))
  }

  function ProviderFilter(resolve: Resolver, models: seq<string>, provider: string): seq<string> {
    if models == [] then []
    else
      var r := resolve(models[0]);
      (if r.Some? && r.value.provider == provider then [models[0]] else []) + ProviderFilter(resolve, models[1..], provider)
  }

  function FirstUnresolved(resolve: Resolver, models: seq<string>): Option<string> {
    if models == [] then None
    else if resolve(models[0]).None? then Some(models[0])
    else FirstUnresolved(resolve, models[1..])
  }

  /** The chain after both filters, or the outcome when it cannot be formed. */
  function Chain<T>(c: Config, resolve: Resolver): Result<seq<string>, Outcome<T>> {
    var passing := FloorFilter(c, c.models);
    if c.floor.Some? && passing == [] then Err(FloorExhausted(c.floor.value, []))
    else if c.allowCrossProvider || passing == [] then Ok(passing)
    else
      var bad := FirstUnresolved(resolve, passing);
      if bad.Some? then Err(Unresolvable(bad.value))
      else Ok(ProviderFilter(resolve, passing, GetProvider(resolve, passing[0])))
  }

  function GetProvider(resolve: Resolver, raw: string): string {
    if resolve(raw).Some? then resolve(raw).value.provider else ""
  }

  /** `part` is `whole` with some entries left out. */
  ghost predicate Subsequence<A>(part: seq<A>, whole: seq<A>)
    decreases |whole|
  {
    if part == [] then true
    else if whole == [] then false
    else if part[0] == whole[0] && Subsequence(part[1..], whole[1..]) then true
    else Subsequence(part, whole[1..])
  }

  lemma {:induction false} FloorFilterMeans(c: Config, models: seq<string>)
    ensures forall m :: m in FloorFilter(c, models) <==> m in models && PassesFloor(c, m)
    ensures Subsequence(FloorFilter(c, models), models)
  {
    if models != [] && c.floor.Some? {
      FloorFilterMeans(c, models[1..]);
      assert models == [models[0]] + models[1..];
      var f := FloorFilter(c, models);
      if PassesFloor(c, models[0]) {
        assert f[1..] == FloorFilter(c, models[1..]);
      } else {
        assert f == FloorFilter(c, models[1..]);
      }
    } else {
      SubsequenceOfSelf(models);
    }
  }

  lemma {:induction false} SubsequenceOfSelf<A>(s: seq<A>)
    ensures Subsequence(s, s)
  {
    if s != [] {
      SubsequenceOfSelf(s[1..]);
    }
  }

  lemma {:induction false} SubsequenceTransitive<A>(a: seq<A>, b: seq<A>, c: seq<A>)
    requires Subsequence(a, b) && Subsequence(b, c)
    ensures Subsequence(a, c)
    decreases |b| + |c|
  {
    if a != [] {
      if b[0] == c[0] && Subsequence(b[1..], c[1..]) {
        if a[0] == b[0] && Subsequence(a[1..], b[1..]) {
          SubsequenceTransitive(a[1..], b[1..], c[1..]);
        } else {
          SubsequenceTransitive(a, b[1..], c[1..]);
        }
      } else {
        SubsequenceTransitive(a, b, c[1..]);
      }
    }
  }

  lemma {:induction false} ProviderFilterMeans(resolve: Resolver, models: seq<string>, provider: string)
    ensures forall m :: m in ProviderFilter(resolve, models, provider) <==>
                        m in models && resolve(m).Some? && resolve(m).value.provider == provider
    ensures Subsequence(ProviderFilter(resolve, models, provider), models)
  {
    if models != [] {
      ProviderFilterMeans(resolve, models[1..], provider);
      assert models == [models[0]] + models[1..];
      var f, g := ProviderFilter(resolve, models, provider), ProviderFilter(resolve, models[1..], provider);
      if f != g {
        assert f[1..] == g;
      }
    }
  }

  /** The chain is part of the configured one, in its order; its entries pass the floor and share a provider. */
  lemma {:induction false} ChainMeans<T>(c: Config, resolve: Resolver)
    requires Chain<T>(c, resolve).Ok?
    ensures var chain := Chain<T>(c, resolve).value;
            && Subsequence(chain, c.models)
            && (forall m :: m in chain ==> m in c.models && PassesFloor(c, m))
            && (!c.allowCrossProvider ==> forall m, n :: m in chain && n in chain ==>
                  resolve(m).Some? && resolve(n).Some? && resolve(m).value.provider == resolve(n).value.provider)
  {
    var passing := FloorFilter(c, c.models);
    FloorFilterMeans(c, c.models);
    if !c.allowCrossProvider && passing != [] {
      var p := GetProvider(resolve, passing[0]);
      ProviderFilterMeans(resolve, passing, p);
      SubsequenceTransitive(ProviderFilter(resolve, passing, p), passing, c.models);
    }
  }

  // ----- Exactly which entries remain --------------------------------------------------------------

  /** The name's tier is the floor, or above it and that is allowed. */
  predicate Reaches(c: Config, raw: string) {
    match c.floor
    case None => true
    case Some(floor) =>
      var tier := ModelIdToTier(raw);
      if c.automation && c.strictFallback then tier == floor else AtMost(floor, tier)
  }

  predicate SameProvider(resolve: Resolver, a: string, b: string) {
    resolve(a).Some? && resolve(b).Some? && resolve(a).value.provider == resolve(b).value.provider
  }

  predicate Wanted(c: Config, resolve: Resolver, first: string, raw: string) {
    Reaches(c, raw) && (c.allowCrossProvider || SameProvider(resolve, first, raw))
  }

  /** `part` consists of the entries at these places, which are all that are to be kept. */
  ghost predicate Picks(at: seq<int>, part: seq<string>, whole: seq<string>, keep: string -> bool) {
    StrictlyIncreasing(at) && PartAt(at, part, whole) && AllKept(at, whole, keep)
  }

  ghost predicate PartAt(at: seq<int>, part: seq<string>, whole: seq<string>) {
    |at| == |part| && forall i :: 0 <= i < |at| ==> 0 <= at[i] < |whole| && part[i] == whole[at[i]]
  }

  ghost predicate AllKept(at: seq<int>, whole: seq<string>, keep: string -> bool) {
    forall j :: 0 <= j < |whole| ==> (j in at <==> keep(whole[j]))
  }

  function Kept(models: seq<string>, keep: string -> bool): seq<string> {
    if models == [] then [] else (if keep(models[0]) then [models[0]] else []) + Kept(models[1..], keep)
  }

  lemma {:induction false} KeptPicks(models: seq<string>, keep: string -> bool) returns (at: seq<int>)
    ensures Picks(at, Kept(models, keep), models, keep)
  {
    at := [];
    if models != [] {
      var rest := KeptPicks(models[1..], keep);
      var tail := Kept(models[1..], keep);
      if keep(models[0]) {
        at := [0] + Shifted(rest);
        assert Kept(models, keep) == [models[0]] + tail;
        PicksFirst(rest, tail, models, keep);
      } else {
        at := Shifted(rest);
        assert Kept(models, keep) == tail;
        PicksLater(rest, tail, models, keep);
      }
    }
  }

  function Shifted(at: seq<int>): (r: seq<int>)
    ensures |r| == |at| && forall i :: 0 <= i < |at| ==> r[i] == at[i] + 1
  {
    seq(|at|, i requires 0 <= i < |at| => at[i] + 1)
  }

  lemma ShiftedHas(at: seq<int>, j: int)
    ensures j in Shifted(at) <==> j - 1 in at
  {
    if j - 1 in at {
      var i :| 0 <= i < |at| && at[i] == j - 1;
      assert Shifted(at)[i] == j;
    }
  }

  lemma PicksLater(rest: seq<int>, tail: seq<string>, models: seq<string>, keep: string -> bool)
    requires models != [] && Picks(rest, tail, models[1..], keep) && !keep(models[0])
    ensures Picks(Shifted(rest), tail, models, keep)
  {
    LaterKept(rest, models, keep);
    hide AllKept, Shifted;
  }

  lemma LaterKept(rest: seq<int>, models: seq<string>, keep: string -> bool)
    requires models != [] && AllKept(rest, models[1..], keep) && forall i :: 0 <= i < |rest| ==> rest[i] >= 0
    ensures !keep(models[0]) ==> AllKept(Shifted(rest), models, keep)
    ensures keep(models[0]) ==> AllKept([0] + Shifted(rest), models, keep)
  {
    hide Shifted;
    forall j | 0 <= j < |models| ensures j in Shifted(rest) <==> j > 0 && keep(models[j]) {
      ShiftedHas(rest, j);
      if j > 0 {
        assert models[1..][j - 1] == models[j];
      }
    }
  }

  lemma PicksFirst(rest: seq<int>, tail: seq<string>, models: seq<string>, keep: string -> bool)
    requires models != [] && Picks(rest, tail, models[1..], keep) && keep(models[0])
    ensures Picks([0] + Shifted(rest), [models[0]] + tail, models, keep)
  {
    LaterKept(rest, models, keep);
    hide AllKept, Shifted;
    var at := [0] + Shifted(rest);
    assert forall i :: 0 < i < |at| ==> at[i] == rest[i - 1] + 1;
  }

  lemma {:induction false} FloorKeeps(c: Config, models: seq<string>)
    ensures FloorFilter(c, models) == Kept(models, m => Reaches(c, m))
  {
    if models != [] {
      FloorKeeps(c, models[1..]);
      assert models == [models[0]] + models[1..];
      assert c.floor.None? ==> FloorFilter(c, models[1..]) == models[1..];
    }
  }

  lemma {:induction false} ProviderKeeps(resolve: Resolver, models: seq<string>, first: string)
    requires resolve(first).Some?
    ensures ProviderFilter(resolve, models, GetProvider(resolve, first)) == Kept(models, m => SameProvider(resolve, first, m))
  {
    if models != [] {
      ProviderKeeps(resolve, models[1..], first);
    }
  }

  lemma {:induction false} KeptTwice(models: seq<string>, p: string -> bool, q: string -> bool, r: string -> bool)
    requires forall m :: r(m) <==> p(m) && q(m)
    ensures Kept(Kept(models, p), q) == Kept(models, r)
  {
    if models != [] {
      var rest := Kept(models[1..], p);
      KeptTwice(models[1..], p, q, r);
      if p(models[0]) {
        assert ([models[0]] + rest)[1..] == rest;
      } else {
        assert [] + rest == rest;
      }
    }
  }

  lemma {:induction false} FirstUnresolvedIs(resolve: Resolver, models: seq<string>, keep: string -> bool)
    ensures match FirstUnresolved(resolve, Kept(models, keep))
            case Some(raw) => FirstUnknown(resolve, models, keep, raw)
            case None => forall m :: m in models && keep(m) ==> resolve(m).Some?
  {
    if models != [] {
      var rest := Kept(models[1..], keep);
      FirstUnresolvedIs(resolve, models[1..], keep);
      assert [] + rest == rest && ([models[0]] + rest)[1..] == rest && models == [models[0]] + models[1..];
      if keep(models[0]) && resolve(models[0]).None? {
        assert UnknownAt(resolve, models, keep, models[0], 0);
      } else if FirstUnresolved(resolve, rest).Some? {
        var raw := FirstUnresolved(resolve, rest).value;
        var j :| 0 <= j < |models[1..]| && UnknownAt(resolve, models[1..], keep, raw, j);
        forall i | 0 <= i < j + 1 && keep(models[i]) ensures resolve(models[i]).Some? {
          assert i > 0 ==> models[1..][i - 1] == models[i];
        }
        assert UnknownAt(resolve, models, keep, raw, j + 1);
      }
    }
  }

  ghost predicate FirstUnknown(resolve: Resolver, models: seq<string>, keep: string -> bool, raw: string) {
    exists j :: 0 <= j < |models| && UnknownAt(resolve, models, keep, raw, j)
  }

  /** The first entry to be kept whose name is not known. */
  ghost predicate UnknownAt(resolve: Resolver, models: seq<string>, keep: string -> bool, raw: string, j: nat)
    requires j < |models|
  {
    && models[j] == raw && keep(raw) && resolve(raw).None?
    && forall i :: 0 <= i < j && keep(models[i]) ==> resolve(models[i]).Some?
  }

  /**
   * Exactly which entries of the configured chain are worked through, duplicates included: those that reach
   * the floor, and unless crossing over is allowed share the provider of the first of them. There is no chain
   * exactly if none reaches the floor, or if crossing over is not allowed and one of them is not known.
   */
  lemma {:induction false} ChainIff<T>(c: Config, resolve: Resolver) returns (at: seq<int>)
    ensures match Chain<T>(c, resolve)
            case Ok(chain) =>
              && (chain == [] <==> c.models == []) && (chain == [] ==> c.floor.None?)
              && (!c.allowCrossProvider ==> forall m :: m in c.models && Reaches(c, m) ==> resolve(m).Some?)
              && (chain != [] ==>
                    && Picks(at, chain, c.models, m => Wanted(c, resolve, chain[0], m))
                    && forall i :: 0 <= i < at[0] ==> !Reaches(c, c.models[i]))
            case Err(FloorExhausted(floor, attempted)) =>
              c.floor == Some(floor) && attempted == [] && forall m :: m in c.models ==> !Reaches(c, m)
            case Err(Unresolvable(raw)) => !c.allowCrossProvider && FirstUnknown(resolve, c.models, m => Reaches(c, m), raw)
            case Err(_) => false
  {
    at := [];
    var reaches := m => Reaches(c, m);
    var passing := FloorFilter(c, c.models);
    FloorKeeps(c, c.models);
    var from := KeptPicks(c.models, reaches);
    hide ModelIdToTier, Kept, FloorFilter, ProviderFilter, FirstUnresolved, FirstUnknown, SameProvider;
    PickedFirst(from, passing, c.models, reaches);
    if passing == [] {
      assert c.floor.None? ==> c.models == [] by { assert c.models != [] ==> c.models[0] in c.models; }
    } else {
      FirstUnresolvedIs(resolve, c.models, reaches);
      if c.allowCrossProvider {
        at := from;
        SamePicks(at, passing, c.models, reaches, m => Wanted(c, resolve, passing[0], m));
      } else if FirstUnresolved(resolve, passing).None? {
        at := ProviderPicks(c, resolve, passing, from);
      }
    }
  }

  lemma PickedFirst(at: seq<int>, part: seq<string>, whole: seq<string>, keep: string -> bool)
    requires Picks(at, part, whole, keep)
    ensures part == [] ==> forall m :: m in whole ==> !keep(m)
    ensures part != [] ==> keep(part[0]) && part[0] in whole && forall i :: 0 <= i < at[0] ==> !keep(whole[i])
  {
    if part != [] {
      assert forall k :: 0 <= k < |at| ==> at[0] <= at[k];
      assert at[0] in at && whole[at[0]] == part[0];
    }
  }

  lemma SamePicks(at: seq<int>, part: seq<string>, whole: seq<string>, p: string -> bool, q: string -> bool)
    requires Picks(at, part, whole, p) && forall m :: p(m) <==> q(m)
    ensures Picks(at, part, whole, q)
  {
  }

  lemma ProviderPicks(c: Config, resolve: Resolver, passing: seq<string>, from: seq<int>) returns (at: seq<int>)
    requires passing == FloorFilter(c, c.models) && passing != [] && !c.allowCrossProvider && resolve(passing[0]).Some?
    requires Picks(from, passing, c.models, m => Reaches(c, m))
    ensures var chain := ProviderFilter(resolve, passing, GetProvider(resolve, passing[0]));
            && chain != [] && chain[0] == passing[0]
            && Picks(at, chain, c.models, m => Wanted(c, resolve, chain[0], m))
            && forall i :: 0 <= i < at[0] ==> !Reaches(c, c.models[i])
  {
    var first := passing[0];
    var same, wanted := m => SameProvider(resolve, first, m), m => Wanted(c, resolve, first, m);
    var reaches := m => Reaches(c, m);
    FloorKeeps(c, c.models);
    ProviderKeeps(resolve, passing, first);
    KeptTwice(c.models, reaches, same, wanted);
    at := KeptPicks(c.models, wanted);
    var chain := ProviderFilter(resolve, passing, GetProvider(resolve, first));
    assert chain == Kept(c.models, wanted) && chain[0] == first;
    hide Reaches, Kept, FloorFilter, ProviderFilter;
    PickedFirst(at, chain, c.models, wanted);
    PickedFirst(from, passing, c.models, reaches);
    FirstPlace(at, chain, from, passing, c.models, wanted, reaches);
  }

  /** If the first entry that passes one test passes both, the first that passes both is at the same place. */
  lemma FirstPlace(at: seq<int>, chain: seq<string>, from: seq<int>, passing: seq<string>, whole: seq<string>,
                   both: string -> bool, one: string -> bool)
    requires Picks(at, chain, whole, both) && Picks(from, passing, whole, one) && chain != [] && passing != []
    requires both(passing[0]) && forall i :: 0 <= i < from[0] ==> !one(whole[i])
    requires forall i :: 0 <= i < at[0] ==> !both(whole[i])
    ensures forall i :: 0 <= i < at[0] ==> !one(whole[i])
  {
    assert whole[from[0]] == passing[0];
  }

  // ----- The run -----------------------------------------------------------------------------

  /** A call of the model: its position in the chain and its number. */
  datatype Call = Call(pos: nat, retry: nat)

  datatype Progress<T> =
    | Next(attempts: seq<Attempt>, calls: seq<Call>)
    | Stop(outcome: Outcome<T>, calls: seq<Call>)

  /** The retries of one model, from number `retry` on. */
  function TryModel<T>(c: Config, w: World<T>, model: Resolved, pos: nat, retry: nat, attempts: seq<Attempt>,
                       calls: seq<Call>): Progress<T>
    decreases c.maxRetries + 1 - retry
  {
    if retry > c.maxRetries then Next(attempts, calls)
    else
      var made := calls + [Call(pos, retry)];
      match w.reply(pos, retry)
      case Success(value) => Stop(Done(value, model, attempts + [Attempt(model, None)]), made)
      case Aborted => Stop(Cancelled, made)
      case Failed(error) =>
        if error.trigger.None? || error.trigger.value !in c.fallbackOn then Stop(NotRetryable(error), made)
        else if retry < c.maxRetries && w.pauseAborted(pos, retry) then Stop(Cancelled, made)
        else TryModel(c, w, model, pos, retry + 1, attempts + [Attempt(model, Some(error))], made)
  }

  function TryChain<T>(c: Config, resolve: Resolver, w: World<T>, chain: seq<string>, pos: nat,
                       attempts: seq<Attempt>, calls: seq<Call>): Progress<T>
    decreases |chain| - pos
  {
    if pos >= |chain| then Next(attempts, calls)
    else
      var r := resolve(chain[pos]);
      if r.None? then Stop(Unresolvable(chain[pos]), calls)
      else if w.isOpen(pos) then TryChain(c, resolve, w, chain, pos + 1, attempts, calls)
      else
        var p := TryModel(c, w, r.value, pos, 0, attempts, calls);
        if p.Stop? then p else TryChain(c, resolve, w, chain, pos + 1, p.attempts, p.calls)
  }

  function ErrorsOf(attempts: seq<Attempt>): seq<Error> {
    if attempts == [] then []
    else
      var rest, last := ErrorsOf(attempts[..|attempts| - 1]), attempts[|attempts| - 1];
      if last.error.Some? then rest + [last.error.value] else rest
  }

  function Exhausted<T>(c: Config, chain: seq<string>, attempts: seq<Attempt>): Outcome<T> {
    if c.floor.Some? then FloorExhausted(c.floor.value, chain) else AllFailed(ErrorsOf(attempts))
  }

  /** The outcome, and the calls that were made for it. */
  function Run<T>(c: Config, resolve: Resolver, w: World<T>): (Outcome<T>, seq<Call>) {
    var chain := Chain<T>(c, resolve);
    if chain.Err? then (chain.error, [])
    else
      var p := TryChain(c, resolve, w, chain.value, 0, [], []);
      if p.Stop? then (p.outcome, p.calls) else (Exhausted(c, chain.value, p.attempts), p.calls)
  }

  method RunWithModelFallback<T>(c: Config, resolve: Resolver, w: World<T>) returns (outcome: Outcome<T>, calls: seq<Call>)
    ensures (outcome, calls) == Run(c, resolve, w)
  {
    var attempts: seq<Attempt> := [];
    calls := [];
    var effective := FloorFilter(c, c.models);
    if c.floor.Some? && effective == [] {
      return FloorExhausted(c.floor.value, []), [];
    }
    if !c.allowCrossProvider && |effective| > 0 {
      var bad := FirstUnresolved(resolve, effective);
      if bad.Some? {
        return Unresolvable(bad.value), [];
      }
      effective := ProviderFilter(resolve, effective, GetProvider(resolve, effective[0]));
    }
    var pos := 0;
    while pos < |effective|
      invariant pos <= |effective|
      invariant TryChain(c, resolve, w, effective, pos, attempts, calls) == TryChain(c, resolve, w, effective, 0, [], [])
    {
      var resolved := resolve(effective[pos]);
      if resolved.None? {
        return Unresolvable(effective[pos]), calls;
      }
      if w.isOpen(pos) {
        pos := pos + 1;
        continue;
      }
      ghost var before, made := attempts, calls;
      var retry := 0;
      while retry <= c.maxRetries
        invariant retry <= c.maxRetries + 1
        invariant TryModel(c, w, resolved.value, pos, retry, attempts, calls) == TryModel(c, w, resolved.value, pos, 0, before, made)
      {
        calls := calls + [Call(pos, retry)];
        match w.reply(pos, retry) {
          case Success(value) =>
            return Done(value, resolved.value, attempts + [Attempt(resolved.value, None)]), calls;
          case Aborted =>
            return Cancelled, calls;
          case Failed(error) =>
            attempts := attempts + [Attempt(resolved.value, Some(error))];
            if error.trigger.None? || error.trigger.value !in c.fallbackOn {
              return NotRetryable(error), calls;
            }
            if retry < c.maxRetries && w.pauseAborted(pos, retry) {
              return Cancelled, calls;
            }
        }
        retry := retry + 1;
      }
      pos := pos + 1;
    }
    if c.floor.Some? {
      return FloorExhausted(c.floor.value, effective), calls;
    }
    outcome := AllFailed(ErrorsOf(attempts));
  }

  // ----- Order and number of the calls -----------------------------------------------------------

  predicate Before(a: Call, b: Call) { a.pos < b.pos || (a.pos == b.pos && a.retry < b.retry) }

  /** Calls go along the chain and, within a model, along its retries; open models are not called. */
  ghost predicate Orderly<T>(c: Config, w: World<T>, calls: seq<Call>, bound: Call) {
    && (forall i, j :: 0 <= i < j < |calls| ==> Before(calls[i], calls[j]))
    && (forall i :: 0 <= i < |calls| ==> Before(calls[i], bound) && calls[i].retry <= c.maxRetries && !w.isOpen(calls[i].pos))
  }

  lemma {:induction false} TryModelOrderly<T>(c: Config, w: World<T>, model: Resolved, pos: nat, retry: nat,
                                             attempts: seq<Attempt>, calls: seq<Call>)
    requires Orderly(c, w, calls, Call(pos, retry)) && !w.isOpen(pos)
    ensures Orderly(c, w, TryModel(c, w, model, pos, retry, attempts, calls).calls, Call(pos + 1, 0))
    decreases c.maxRetries + 1 - retry
  {
    if retry <= c.maxRetries {
      var made := calls + [Call(pos, retry)];
      assert Orderly(c, w, made, Call(pos, retry + 1));
      match w.reply(pos, retry) {
        case Failed(error) =>
          if TryModel(c, w, model, pos, retry, attempts, calls).calls != made {
            TryModelOrderly(c, w, model, pos, retry + 1, attempts + [Attempt(model, Some(error))], made);
          }
        case _ =>
      }
    }
  }

  lemma {:induction false} TryChainOrderly<T>(c: Config, resolve: Resolver, w: World<T>, chain: seq<string>, pos: nat,
                                             attempts: seq<Attempt>, calls: seq<Call>)
    requires pos <= |chain| && Orderly(c, w, calls, Call(pos, 0))
    ensures Orderly(c, w, TryChain(c, resolve, w, chain, pos, attempts, calls).calls, Call(|chain|, 0))
    decreases |chain| - pos
  {
    if pos < |chain| && resolve(chain[pos]).Some? {
      if w.isOpen(pos) {
        TryChainOrderly(c, resolve, w, chain, pos + 1, attempts, calls);
      } else {
        var p := TryModel(c, w, resolve(chain[pos]).value, pos, 0, attempts, calls);
        TryModelOrderly(c, w, resolve(chain[pos]).value, pos, 0, attempts, calls);
        if p.Next? {
          TryChainOrderly(c, resolve, w, chain, pos + 1, p.attempts, p.calls);
        }
      }
    }
  }

  /** The calls of a run, in the order they were made. */
  lemma {:induction false} CallsAreOrderly<T>(c: Config, resolve: Resolver, w: World<T>)
    ensures var calls := Run(c, resolve, w).1;
            var chain := Chain<T>(c, resolve);
            if chain.Err? then calls == [] else Orderly(c, w, calls, Call(|chain.value|, 0))
  {
    var chain := Chain<T>(c, resolve);
    if chain.Ok? {
      TryChainOrderly(c, resolve, w, chain.value, 0, [], []);
    }
  }

  /** The number of calls that come before a call. */
  function Place(call: Call, n: nat): nat { call.pos * n + call.retry }

  lemma PlaceGrows(a: Call, b: Call, n: nat)
    requires Before(a, b) && a.retry < n
    ensures Place(a, n) < Place(b, n)
  {
    if a.pos < b.pos {
      Scale(a.pos + 1, b.pos, n);
      assert (a.pos + 1) * n == a.pos * n + n;
    }
  }

  /** Orderly calls are at most one for each model and retry. */
  lemma {:induction false} CountOrderly<T>(c: Config, w: World<T>, calls: seq<Call>, bound: Call)
    requires Orderly(c, w, calls, bound)
    ensures |calls| <= Place(bound, c.maxRetries + 1)
  {
    hide Place;
    if calls != [] {
      var init, last := calls[..|calls| - 1], calls[|calls| - 1];
      CountOrderly(c, w, init, last);
      PlaceGrows(last, bound, c.maxRetries + 1);
    }
  }

  /** A request costs at most (retries + 1) calls for every model of the chain. */
  lemma {:induction false} CallBound<T>(c: Config, resolve: Resolver, w: World<T>)
    ensures |Run(c, resolve, w).1| <= |c.models| * (c.maxRetries + 1)
  {
    var chain := Chain<T>(c, resolve);
    CallsAreOrderly(c, resolve, w);
    if chain.Ok? {
      ChainMeans<T>(c, resolve);
      SubsequenceIsShorter(chain.value, c.models);
      CountOrderly(c, w, Run(c, resolve, w).1, Call(|chain.value|, 0));
      Scale(|chain.value|, |c.models|, c.maxRetries + 1);
    }
  }

  lemma Scale(a: nat, b: nat, n: nat)
    requires a <= b
    ensures a * n <= b * n
  {
    assert b * n == a * n + (b - a) * n;
  }

  lemma {:induction false} SubsequenceIsShorter<A>(a: seq<A>, b: seq<A>)
    requires Subsequence(a, b)
    ensures |a| <= |b|
    decreases |b|
  {
    if a != [] {
      if a[0] == b[0] && Subsequence(a[1..], b[1..]) {
        SubsequenceIsShorter(a[1..], b[1..]);
      } else {
        SubsequenceIsShorter(a, b[1..]);
      }
    }
  }

  /**
   * Every model that is ever called is one of the configured ones, its name is of a tier
   * at or above the floor (exactly the floor in strict automation), it resolves, and all of
   * them are of one provider unless crossing over is allowed.
   */
  lemma {:induction false} CalledModels<T>(c: Config, resolve: Resolver, w: World<T>, a: Call, b: Call)
    requires a in Run(c, resolve, w).1 && b in Run(c, resolve, w).1
    ensures Chain<T>(c, resolve).Ok?
    ensures var chain := Chain<T>(c, resolve).value;
            && a.pos < |chain| && b.pos < |chain|
            && chain[a.pos] in c.models && PassesFloor(c, chain[a.pos])
            && (!c.allowCrossProvider ==>
                  && resolve(chain[a.pos]).Some? && resolve(chain[b.pos]).Some?
                  && resolve(chain[a.pos]).value.provider == resolve(chain[b.pos]).value.provider)
  {
    CallsAreOrderly(c, resolve, w);
    ChainMeans<T>(c, resolve);
    var chain := Chain<T>(c, resolve).value;
    assert a.pos < |chain| && b.pos < |chain|;
    assert chain[a.pos] in chain && chain[b.pos] in chain;
  }

  // ----- Which calls -----------------------------------------------------------------------------

  /** How far the chain can be worked through: up to the first name that is not known. */
  function Reach(resolve: Resolver, chain: seq<string>): (n: nat)
    ensures n <= |chain| && (forall i :: 0 <= i < n ==> resolve(chain[i]).Some?) && (n < |chain| ==> resolve(chain[n]).None?)
  {
    if chain == [] || resolve(chain[0]).None? then 0 else 1 + Reach(resolve, chain[1..])
  }

  /** The first model from `pos` on whose breaker is not open. */
  function FirstClosed<T>(w: World<T>, n: nat, pos: nat): (r: Option<nat>)
    ensures r.Some? ==> pos <= r.value < n && !w.isOpen(r.value) && forall i :: pos <= i < r.value ==> w.isOpen(i)
    ensures r.None? ==> forall i :: pos <= i < n ==> w.isOpen(i)
    decreases n - pos
  {
    if pos >= n then None else if !w.isOpen(pos) then Some(pos) else FirstClosed(w, n, pos + 1)
  }

  /** The call that follows: none after anything but a failure that allows a fallback, else the next retry, else the next model. */
  ghost function Following<T>(c: Config, w: World<T>, n: nat, a: Call): Option<Call> {
    if !Retryable(c, w, a.pos, a.retry) then None
    else if a.retry < c.maxRetries then Some(Call(a.pos, a.retry + 1))
    else
      var next := FirstClosed(w, n, a.pos + 1);
      if next.Some? then Some(Call(next.value, 0)) else None
  }

  /** The calls from `a` on, each following the one before. */
  ghost function Trail<T>(c: Config, w: World<T>, n: nat, a: Call): seq<Call>
    requires a.pos < n && a.retry <= c.maxRetries
    decreases n - a.pos, c.maxRetries - a.retry
  {
    var b := Following(c, w, n, a);
    [a] + if b.Some? then Trail(c, w, n, b.value) else []
  }

  ghost function TrailFrom<T>(c: Config, w: World<T>, n: nat, pos: nat): seq<Call> {
    var first := FirstClosed(w, n, pos);
    if first.Some? then Trail(c, w, n, Call(first.value, 0)) else []
  }

  lemma {:induction false} TryModelTrail<T>(c: Config, w: World<T>, model: Resolved, n: nat, pos: nat, retry: nat,
                                           attempts: seq<Attempt>, calls: seq<Call>)
    requires pos < n && retry <= c.maxRetries
    ensures var p := TryModel(c, w, model, pos, retry, attempts, calls);
            calls + Trail(c, w, n, Call(pos, retry)) == if p.Stop? then p.calls else p.calls + TrailFrom(c, w, n, pos + 1)
    decreases c.maxRetries - retry
  {
    var made := calls + [Call(pos, retry)];
    var b := Following(c, w, n, Call(pos, retry));
    assert b.None? ==> calls + ([Call(pos, retry)] + []) == made;
    if Retryable(c, w, pos, retry) {
      var more := attempts + [Attempt(model, Some(w.reply(pos, retry).error))];
      assert TryModel(c, w, model, pos, retry, attempts, calls) == TryModel(c, w, model, pos, retry + 1, more, made);
      if retry < c.maxRetries {
        TryModelTrail(c, w, model, n, pos, retry + 1, more, made);
        assert calls + ([Call(pos, retry)] + Trail(c, w, n, Call(pos, retry + 1))) == made + Trail(c, w, n, Call(pos, retry + 1));
      } else {
        assert calls + ([Call(pos, retry)] + TrailFrom(c, w, n, pos + 1)) == made + TrailFrom(c, w, n, pos + 1);
      }
    }
  }

  lemma {:induction false} TryChainTrail<T>(c: Config, resolve: Resolver, w: World<T>, chain: seq<string>, pos: nat,
                                           attempts: seq<Attempt>, calls: seq<Call>)
    requires pos <= Reach(resolve, chain)
    ensures TryChain(c, resolve, w, chain, pos, attempts, calls).calls == calls + TrailFrom(c, w, Reach(resolve, chain), pos)
    decreases |chain| - pos
  {
    hide TryModel, Trail, Reach;
    var n := Reach(resolve, chain);
    if pos == n {
      assert calls + [] == calls;
    } else if w.isOpen(pos) {
      TryChainTrail(c, resolve, w, chain, pos + 1, attempts, calls);
    } else {
      var model := resolve(chain[pos]).value;
      var p := TryModel(c, w, model, pos, 0, attempts, calls);
      TryModelTrail(c, w, model, n, pos, 0, attempts, calls);
      if p.Next? {
        TryChainTrail(c, resolve, w, chain, pos + 1, p.attempts, p.calls);
      }
    }
  }

  /** The call after number `i`, if there is one. */
  function After(calls: seq<Call>, i: nat): Option<Call> { if i + 1 < |calls| then Some(calls[i + 1]) else None }

  ghost predicate Chained<T>(c: Config, w: World<T>, n: nat, calls: seq<Call>) {
    forall i :: 0 <= i < |calls| ==> After(calls, i) == Following(c, w, n, calls[i])
  }

  lemma {:induction false} TrailFollows<T>(c: Config, w: World<T>, n: nat, a: Call)
    requires a.pos < n && a.retry <= c.maxRetries
    ensures var t := Trail(c, w, n, a); t != [] && t[0] == a && Chained(c, w, n, t)
    decreases n - a.pos, c.maxRetries - a.retry
  {
    hide Retryable;
    var b, t := Following(c, w, n, a), Trail(c, w, n, a);
    if b.Some? {
      TrailFollows(c, w, n, b.value);
      var rest := Trail(c, w, n, b.value);
      assert t == [a] + rest;
      hide Following, Trail;
      forall i | 0 <= i < |t| ensures After(t, i) == Following(c, w, n, t[i]) {
        if i > 0 {
          assert t[i] == rest[i - 1] && After(t, i) == After(rest, i - 1);
        }
      }
    } else {
      assert t == [a];
    }
  }

  /**
   * Exactly which calls are made: the first is to the first model whose breaker is not open; a
   * failure that allows a fallback is followed by the next retry of the same model, and by the
   * next such model when the retries are used up; nothing follows any other reply or a pause
   * that is aborted.
   */
  lemma {:induction false} CallsAre<T>(c: Config, resolve: Resolver, w: World<T>)
    requires Chain<T>(c, resolve).Ok?
    ensures var calls, n := Run(c, resolve, w).1, Reach(resolve, Chain<T>(c, resolve).value);
            && (calls == [] <==> FirstClosed(w, n, 0).None?)
            && (calls != [] ==> FirstClosed(w, n, 0) == Some(calls[0].pos) && calls[0].retry == 0)
            && Chained(c, w, n, calls)
  {
    var chain := Chain<T>(c, resolve).value;
    var n := Reach(resolve, chain);
    TryChainTrail(c, resolve, w, chain, 0, [], []);
    assert Run(c, resolve, w).1 == [] + TrailFrom(c, w, n, 0) == TrailFrom(c, w, n, 0);
    var first := FirstClosed(w, n, 0);
    if first.Some? {
      TrailFollows(c, w, n, Call(first.value, 0));
    }
  }

  // ----- The log ---------------------------------------------------------------------------------

  /** Failures that allow a fallback, one for each call, on the model of that call. */
  ghost predicate LogOk<T>(c: Config, resolve: Resolver, w: World<T>, chain: seq<string>, attempts: seq<Attempt>, calls: seq<Call>) {
    && |attempts| == |calls|
    && forall i :: 0 <= i < |calls| ==> FailedCall(c, resolve, w, chain, attempts[i], calls[i])
  }

  ghost predicate FailedCall<T>(c: Config, resolve: Resolver, w: World<T>, chain: seq<string>, a: Attempt, call: Call) {
    && call.pos < |chain| && resolve(chain[call.pos]) == Some(a.model)
    && a.error.Some? && w.reply(call.pos, call.retry) == Failed(a.error.value)
    && a.error.value.trigger.Some? && a.error.value.trigger.value in c.fallbackOn
  }

  /** What is known of a stop: all calls but the last failed, and the last explains the outcome. */
  ghost predicate StopOk<T>(c: Config, resolve: Resolver, w: World<T>, chain: seq<string>, outcome: Outcome<T>, calls: seq<Call>) {
    match outcome
    case Done(value, model, attempts) =>
      && |attempts| == |calls| > 0
      && var last := calls[|calls| - 1];
      && LogOk(c, resolve, w, chain, attempts[..|attempts| - 1], calls[..|calls| - 1])
      && attempts[|attempts| - 1] == Attempt(model, None)
      && last.pos < |chain| && resolve(chain[last.pos]) == Some(model)
      && w.reply(last.pos, last.retry) == Success(value)
    case NotRetryable(error) =>
      && calls != []
      && w.reply(calls[|calls| - 1].pos, calls[|calls| - 1].retry) == Failed(error)
      && (error.trigger.None? || error.trigger.value !in c.fallbackOn)
    case Cancelled =>
      && calls != []
      && var last := calls[|calls| - 1];
      w.reply(last.pos, last.retry) == Aborted || w.pauseAborted(last.pos, last.retry)
    case Unresolvable(raw) => raw in chain && resolve(raw).None?
    case _ => false
  }

  lemma {:induction false} TryModelLog<T>(c: Config, resolve: Resolver, w: World<T>, chain: seq<string>, model: Resolved,
                                         pos: nat, retry: nat, attempts: seq<Attempt>, calls: seq<Call>)
    requires pos < |chain| && resolve(chain[pos]) == Some(model) && LogOk(c, resolve, w, chain, attempts, calls)
    ensures var p := TryModel(c, w, model, pos, retry, attempts, calls);
            if p.Next? then LogOk(c, resolve, w, chain, p.attempts, p.calls)
            else StopOk(c, resolve, w, chain, p.outcome, p.calls)
    decreases c.maxRetries + 1 - retry
  {
    if retry <= c.maxRetries {
      var made := calls + [Call(pos, retry)];
      assert made[..|made| - 1] == calls && made[|made| - 1] == Call(pos, retry);
      match w.reply(pos, retry) {
        case Success(value) =>
          var all := attempts + [Attempt(model, None)];
          assert all[..|all| - 1] == attempts;
        case Aborted =>
        case Failed(error) =>
          var more := attempts + [Attempt(model, Some(error))];
          if error.trigger.Some? && error.trigger.value in c.fallbackOn && !(retry < c.maxRetries && w.pauseAborted(pos, retry)) {
            assert FailedCall(c, resolve, w, chain, Attempt(model, Some(error)), Call(pos, retry));
            assert LogOk(c, resolve, w, chain, more, made);
            TryModelLog(c, resolve, w, chain, model, pos, retry + 1, more, made);
          }
      }
    }
  }

  lemma {:induction false} TryChainLog<T>(c: Config, resolve: Resolver, w: World<T>, chain: seq<string>, pos: nat,
                                         attempts: seq<Attempt>, calls: seq<Call>)
    requires LogOk(c, resolve, w, chain, attempts, calls)
    ensures var p := TryChain(c, resolve, w, chain, pos, attempts, calls);
            if p.Next? then LogOk(c, resolve, w, chain, p.attempts, p.calls)
            else StopOk(c, resolve, w, chain, p.outcome, p.calls)
    decreases |chain| - pos
  {
    if pos < |chain| && resolve(chain[pos]).Some? {
      if w.isOpen(pos) {
        TryChainLog(c, resolve, w, chain, pos + 1, attempts, calls);
      } else {
        var p := TryModel(c, w, resolve(chain[pos]).value, pos, 0, attempts, calls);
        TryModelLog(c, resolve, w, chain, resolve(chain[pos]).value, pos, 0, attempts, calls);
        if p.Next? {
          TryChainLog(c, resolve, w, chain, pos + 1, p.attempts, p.calls);
        }
      }
    }
  }

  /**
   * A success comes with a log of failures, each of a kind that allows a fallback, one per
   * call, and then the one success on the model that is reported. An error that is thrown as
   * it is, a cancellation and an unknown name each come from the last call.
   */
  lemma {:induction false} OutcomeExplained<T>(c: Config, resolve: Resolver, w: World<T>)
    requires Chain<T>(c, resolve).Ok?
    ensures var (outcome, calls) := Run(c, resolve, w);
            outcome.Done? || outcome.NotRetryable? || outcome.Cancelled? || outcome.Unresolvable? ==>
              StopOk(c, resolve, w, Chain<T>(c, resolve).value, outcome, calls)
  {
    TryChainLog(c, resolve, w, Chain<T>(c, resolve).value, 0, [], []);
  }

  lemma {:induction false} ErrorsOfAll(attempts: seq<Attempt>)
    requires forall i :: 0 <= i < |attempts| ==> attempts[i].error.Some?
    ensures |ErrorsOf(attempts)| == |attempts|
    ensures forall i :: 0 <= i < |attempts| ==> ErrorsOf(attempts)[i] == attempts[i].error.value
  {
    if attempts != [] {
      ErrorsOfAll(attempts[..|attempts| - 1]);
    }
  }

  /** When all models failed the collected errors are those of the calls, one for each and in their order. */
  lemma {:induction false} CollectedErrors<T>(c: Config, resolve: Resolver, w: World<T>)
    requires Run(c, resolve, w).0.AllFailed?
    ensures var (outcome, calls) := Run(c, resolve, w);
            |outcome.errors| == |calls|
            && forall i :: 0 <= i < |calls| ==> w.reply(calls[i].pos, calls[i].retry) == Failed(outcome.errors[i])
  {
    var chain := Chain<T>(c, resolve);
    assert chain.Ok?;
    TryChainLog(c, resolve, w, chain.value, 0, [], []);
    var p := TryChain(c, resolve, w, chain.value, 0, [], []);
    forall i | 0 <= i < |p.calls| ensures FailedCall(c, resolve, w, chain.value, p.attempts[i], p.calls[i]) {
    }
    ErrorsOfAll(p.attempts);
  }

  // ----- When all models are used up ---------------------------------------------------------------

  /** The model at this position was skipped, or failed as often as it may be tried. */
  ghost predicate UsedUp<T>(c: Config, w: World<T>, pos: nat) {
    w.isOpen(pos) || forall r :: 0 <= r <= c.maxRetries ==> Retryable(c, w, pos, r)
  }

  ghost predicate Retryable<T>(c: Config, w: World<T>, pos: nat, r: nat) {
    && w.reply(pos, r).Failed?
    && w.reply(pos, r).error.trigger.Some? && w.reply(pos, r).error.trigger.value in c.fallbackOn
    && (r < c.maxRetries ==> !w.pauseAborted(pos, r))
  }

  lemma {:induction false} TryModelEnds<T>(c: Config, w: World<T>, model: Resolved, pos: nat, retry: nat,
                                          attempts: seq<Attempt>, calls: seq<Call>)
    ensures TryModel(c, w, model, pos, retry, attempts, calls).Next? <==>
            forall r :: retry <= r <= c.maxRetries ==> Retryable(c, w, pos, r)
    decreases c.maxRetries + 1 - retry
  {
    if retry <= c.maxRetries {
      if Retryable(c, w, pos, retry) {
        TryModelEnds(c, w, model, pos, retry + 1, attempts + [Attempt(model, Some(w.reply(pos, retry).error))],
                     calls + [Call(pos, retry)]);
      }
    }
  }

  lemma {:induction false} TryChainEnds<T>(c: Config, resolve: Resolver, w: World<T>, chain: seq<string>, pos: nat,
                                          attempts: seq<Attempt>, calls: seq<Call>)
    ensures TryChain(c, resolve, w, chain, pos, attempts, calls).Next? <==>
            forall k :: pos <= k < |chain| ==> resolve(chain[k]).Some? && UsedUp(c, w, k)
    decreases |chain| - pos
  {
    if pos < |chain| && resolve(chain[pos]).Some? {
      if w.isOpen(pos) {
        TryChainEnds(c, resolve, w, chain, pos + 1, attempts, calls);
      } else {
        var p := TryModel(c, w, resolve(chain[pos]).value, pos, 0, attempts, calls);
        TryModelEnds(c, w, resolve(chain[pos]).value, pos, 0, attempts, calls);
        if p.Next? {
          TryChainEnds(c, resolve, w, chain, pos + 1, p.attempts, p.calls);
        }
      }
    }
  }

  /**
   * The caller is told that the chain is exhausted exactly when every model of it was
   * skipped or failed on every retry; with a floor the error names the floor.
   */
  lemma {:induction false} ExhaustedIff<T>(c: Config, resolve: Resolver, w: World<T>)
    requires Chain<T>(c, resolve).Ok?
    ensures var outcome := Run(c, resolve, w).0;
            var chain := Chain<T>(c, resolve).value;
            && (outcome.FloorExhausted? || outcome.AllFailed? <==>
                forall k :: 0 <= k < |chain| ==> resolve(chain[k]).Some? && UsedUp(c, w, k))
            && (outcome.FloorExhausted? ==> c.floor == Some(outcome.floor) && outcome.chainAttempted == chain)
            && (outcome.AllFailed? ==> c.floor.None?)
  {
    var chain := Chain<T>(c, resolve).value;
    TryChainEnds(c, resolve, w, chain, 0, [], []);
    TryChainLog(c, resolve, w, chain, 0, [], []);
  }
}
