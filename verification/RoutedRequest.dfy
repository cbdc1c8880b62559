/**
 * packages/server/src/auto-reply/execution-adapter.ts, applyRouting and the call of
 * runWithModelFallback in execute and executeForTui
 *
 * From the message's role to the models that are called, end to end.
 */
module RoutedRequest {
  import opened Prelude
  import R = Routing
  import F = Fallback
  import S = Selection
  import Text

  datatype Routed = Routed(chain: seq<string>, floor: R.Tier, allowedToolNames: seq<string>)

  function Others(chain: seq<string>, modelId: string): seq<string> {
    if chain == [] then []
    else (if chain[0] != modelId then [chain[0]] else []) + Others(chain[1..], modelId)
  }

  /** Everything a request brings along, and what the server was configured with. */
  datatype Setup = Setup(cfg: R.Config, skills: seq<seq<R.ToolMeta>>, index: map<string, R.ToolMeta>,
                         fallbackChain: seq<string>, role: R.Role, tools: seq<string>, hint: Option<R.Tier>)

  ghost predicate Valid(s: Setup) { R.FirstWins(s.index, R.Flatten(s.skills)) }

  function ApplyRouting(s: Setup): Routed {
    var r := R.Route(s.cfg, s.index, s.role, s.tools, s.hint);
    Routed([r.modelId] + Others(s.fallbackChain, r.modelId), r.decision.floor, r.allowedToolNames)
  }

  /** The tools the model is told about. */
  function Exposed(tools: seq<string>, allowed: seq<string>): seq<string> {
    if tools == [] then []
    else (if tools[0] in allowed then [tools[0]] else []) + Exposed(tools[1..], allowed)
  }

  const DEFAULT_TRIGGERS: set<F.Trigger> := {F.RateLimit, F.ServerError, F.Timeout, F.ModelUnavailable}

  function FallbackConfig(s: Setup): F.Config {
    var routed := ApplyRouting(s);
    F.Config(routed.chain, 1, DEFAULT_TRIGGERS, Some(routed.floor), false, false, false)
  }

  lemma {:induction false} ExposedMeans(tools: seq<string>, allowed: seq<string>)
    ensures forall t :: t in Exposed(tools, allowed) <==> t in tools && t in allowed
  {
    if tools != [] {
      ExposedMeans(tools[1..], allowed);
      assert tools == [tools[0]] + tools[1..];
    }
  }

  /** The router's choice passes the floor it computed, so it stays the first model of the chain. */
  lemma {:induction false} RouterChoiceSurvives<T>(s: Setup, resolve: F.Resolver)
    ensures var c := FallbackConfig(s);
            var chain := F.Chain<T>(c, resolve);
            && (chain.Ok? ==> chain.value != [] && chain.value[0] == c.models[0] && resolve(c.models[0]).Some?)
            && (chain.Err? ==> chain.error.Unresolvable?)
  {
    var c := FallbackConfig(s);
    var d := R.Route(s.cfg, s.index, s.role, s.tools, s.hint).decision;
    R.DecisionCoversTools(R.Request(s.role, R.MetasOf(s.index, s.tools), s.hint), s.cfg);
    R.TierRoundTrip(d.tier);
    assert F.PassesFloor(c, c.models[0]);
    var passing := F.FloorFilter(c, c.models);
    assert passing != [] && passing[0] == c.models[0];
  }

  /**
   * Whatever the models, breakers and pauses do: every model that is called for a request is
   * named after a tier at or above what each tool shown to it needs, and comes from the
   * provider of the model that the router chose.
   */
  lemma {:induction false} CalledModelsServeTools<T>(s: Setup, resolve: F.Resolver, w: F.World<T>, call: F.Call, tool: string)
    requires Valid(s)
    requires call in F.Run(FallbackConfig(s), resolve, w).1
    requires tool in Exposed(s.tools, ApplyRouting(s).allowedToolNames)
    ensures F.Chain<T>(FallbackConfig(s), resolve).Ok?
    ensures var chain := F.Chain<T>(FallbackConfig(s), resolve).value;
            && call.pos < |chain|
            && R.Rank(R.Needs(R.MetaOf(s.index, tool))) <= R.Rank(R.ModelIdToTier(chain[call.pos]))
            && resolve(chain[call.pos]).Some? && resolve(chain[0]).Some?
            && resolve(chain[call.pos]).value.provider == resolve(chain[0]).value.provider
  {
    var c := FallbackConfig(s);
    F.CalledModels(c, resolve, w, call, call);
    F.ChainMeans<T>(c, resolve);
    var chain := F.Chain<T>(c, resolve).value;
    assert chain[call.pos] in chain && chain[0] in chain;
    ExposedMeans(s.tools, ApplyRouting(s).allowedToolNames);
    R.AllowedNamesFitFloor(s.cfg, s.index, R.Flatten(s.skills), s.role, s.tools, s.hint, tool);
  }

  /** A request that the chosen model's breaker lets through goes to the chosen model first. */
  lemma {:induction false} ChosenModelFirst<T>(s: Setup, resolve: F.Resolver, w: F.World<T>)
    requires F.Chain<T>(FallbackConfig(s), resolve).Ok? && !w.isOpen(0)
    ensures var calls := F.Run(FallbackConfig(s), resolve, w).1;
            calls != [] && calls[0] == F.Call(0, 0)
  {
    var c := FallbackConfig(s);
    RouterChoiceSurvives<T>(s, resolve);
    var chain := F.Chain<T>(c, resolve).value;
    var model := resolve(chain[0]).value;
    var p := F.TryModel(c, w, model, 0, 0, [], []);
    assert p == F.TryModel(c, w, model, 0, 0, [], []);
    ModelCallsExtend(c, w, model, 0, 0, [], []);
    if p.Next? {
      ChainCallsExtend(c, resolve, w, chain, 1, p.attempts, p.calls);
    }
  }

  lemma {:induction false} ModelCallsExtend<T>(c: F.Config, w: F.World<T>, model: F.Resolved, pos: nat, retry: nat,
                                              attempts: seq<F.Attempt>, calls: seq<F.Call>)
    ensures var made := F.TryModel(c, w, model, pos, retry, attempts, calls).calls;
            calls <= made && (retry <= c.maxRetries ==> calls + [F.Call(pos, retry)] <= made)
    decreases c.maxRetries + 1 - retry
  {
    if retry <= c.maxRetries && F.Retryable(c, w, pos, retry) {
      ModelCallsExtend(c, w, model, pos, retry + 1, attempts + [F.Attempt(model, Some(w.reply(pos, retry).error))],
                       calls + [F.Call(pos, retry)]);
    }
  }

  lemma {:induction false} ChainCallsExtend<T>(c: F.Config, resolve: F.Resolver, w: F.World<T>, chain: seq<string>, pos: nat,
                                              attempts: seq<F.Attempt>, calls: seq<F.Call>)
    ensures calls <= F.TryChain(c, resolve, w, chain, pos, attempts, calls).calls
    decreases |chain| - pos
  {
    if pos < |chain| && resolve(chain[pos]).Some? {
      if w.isOpen(pos) {
        ChainCallsExtend(c, resolve, w, chain, pos + 1, attempts, calls);
      } else {
        var p := F.TryModel(c, w, resolve(chain[pos]).value, pos, 0, attempts, calls);
        ModelCallsExtend(c, w, resolve(chain[pos]).value, pos, 0, attempts, calls);
        if p.Next? {
          ChainCallsExtend(c, resolve, w, chain, pos + 1, p.attempts, p.calls);
        }
      }
    }
  }

  /** A request costs at most two calls for the chosen model and for each entry of the fallback chain. */
  lemma {:induction false} CallsPerRequest<T>(s: Setup, resolve: F.Resolver, w: F.World<T>)
    ensures |F.Run(FallbackConfig(s), resolve, w).1| <= 2 * (1 + |s.fallbackChain|)
  {
    F.CallBound(FallbackConfig(s), resolve, w);
    OthersIsShorter(s.fallbackChain, R.Route(s.cfg, s.index, s.role, s.tools, s.hint).modelId);
  }

  lemma {:induction false} OthersIsShorter(chain: seq<string>, modelId: string)
    ensures |Others(chain, modelId)| <= |chain|
  {
    if chain != [] {
      OthersIsShorter(chain[1..], modelId);
    }
  }

  /** A failure after which another attempt may help: the request limit, the server, the time or the model itself. */
  ghost predicate MayHelp<T>(r: F.Reply<T>) {
    && r.Failed? && r.error.trigger.Some?
    && (r.error.trigger.value.RateLimit? || r.error.trigger.value.ServerError? || r.error.trigger.value.Timeout?
        || r.error.trigger.value.ModelUnavailable?)
  }

  /**
   * A request whose chosen model is let through: if the model fails in such a way it is called once
   * more, unless the pause is aborted; if it fails so again, the next model of the chain that is
   * let through is called, and if there is none the request ends with the floor that was not met.
   * After anything else nothing is called.
   */
  lemma {:induction false} FailureMovesOn<T>(s: Setup, resolve: F.Resolver, w: F.World<T>)
    requires F.Chain<T>(FallbackConfig(s), resolve).Ok? && !w.isOpen(0)
    ensures var chain := F.Chain<T>(FallbackConfig(s), resolve).value;
            var (outcome, calls) := F.Run(FallbackConfig(s), resolve, w);
            var again := MayHelp(w.reply(0, 0)) && !w.pauseAborted(0, 0);
            && calls != [] && calls[0] == F.Call(0, 0) && (|calls| >= 2 <==> again)
            && (again ==> calls[1] == F.Call(0, 1))
            && (again && MayHelp(w.reply(0, 1)) ==>
                  && (forall p :: 1 <= p < |chain| && !w.isOpen(p) && (forall q :: 1 <= q < p ==> w.isOpen(q)) ==>
                        |calls| >= 3 && calls[2] == F.Call(p, 0))
                  && ((forall p :: 1 <= p < |chain| ==> w.isOpen(p)) ==>
                        |calls| == 2 && outcome == F.FloorExhausted(ApplyRouting(s).floor, chain)))
            && (again && !MayHelp(w.reply(0, 1)) ==> |calls| == 2)
  {
    var c := FallbackConfig(s);
    var chain := F.Chain<T>(c, resolve).value;
    RouterChoiceSurvives<T>(s, resolve);
    F.ChainMeans<T>(c, resolve);
    assert chain[0] in chain && forall i :: 0 <= i < |chain| ==> chain[i] in chain;
    var n := F.Reach(resolve, chain);
    assert n == |chain|;
    F.CallsAre(c, resolve, w);
    var calls := F.Run(c, resolve, w).1;
    hide F.Run, F.Chain, ApplyRouting, F.Reach;
    MayHelpIff(s, w, 0, 0);
    MayHelpIff(s, w, 0, 1);
    assert F.FirstClosed(w, n, 0) == Some(0);
    assert F.After(calls, 0) == F.Following(c, w, n, calls[0]);
    if MayHelp(w.reply(0, 0)) && !w.pauseAborted(0, 0) {
      assert calls[1] == F.Call(0, 1);
      assert F.After(calls, 1) == F.Following(c, w, n, calls[1]);
      if MayHelp(w.reply(0, 1)) && forall p :: 1 <= p < |chain| ==> w.isOpen(p) {
        EndsAtFloor(s, resolve, w);
      }
    }
  }

  lemma MayHelpIff<T>(s: Setup, w: F.World<T>, pos: nat, retry: nat)
    requires retry <= 1
    ensures F.Retryable(FallbackConfig(s), w, pos, retry) <==> MayHelp(w.reply(pos, retry)) && (retry == 0 ==> !w.pauseAborted(pos, retry))
  {
  }

  /** When no other model is let through. */
  lemma {:induction false} EndsAtFloor<T>(s: Setup, resolve: F.Resolver, w: F.World<T>)
    requires F.Chain<T>(FallbackConfig(s), resolve).Ok? && !w.isOpen(0)
    requires MayHelp(w.reply(0, 0)) && !w.pauseAborted(0, 0) && MayHelp(w.reply(0, 1))
    requires forall p :: 1 <= p < |F.Chain<T>(FallbackConfig(s), resolve).value| ==> w.isOpen(p)
    ensures F.Run(FallbackConfig(s), resolve, w).0 == F.FloorExhausted(ApplyRouting(s).floor, F.Chain<T>(FallbackConfig(s), resolve).value)
  {
    var c := FallbackConfig(s);
    var chain := F.Chain<T>(c, resolve).value;
    F.ChainMeans<T>(c, resolve);
    MayHelpIff(s, w, 0, 0);
    MayHelpIff(s, w, 0, 1);
    F.ExhaustedIff(c, resolve, w);
    hide F.Run, F.Chain, F.Retryable, ApplyRouting;
    assert F.UsedUp(c, w, 0);
    assert forall k :: 0 <= k < |chain| ==> chain[k] in chain && F.UsedUp(c, w, k);
  }

  // ----- Names and the models they stand for --------------------------------------------------------

  function ResolverOf(models: S.Catalog, index: S.Index): F.Resolver {
    raw => var e := S.ResolveModel(models, index, raw); if e.None? then None else Some(F.Resolved(e.value.provider, e.value.id))
  }

  /**
   * Down to the model itself: with a catalog none of whose names shows a higher tier than the
   * model it is registered for, every model that is called serves every tool shown to it.
   */
  lemma {:induction false} ResolvedModelsServeTools<T>(s: Setup, models: S.Catalog, index: S.Index, w: F.World<T>, call: F.Call,
                                                       tool: string)
    requires Valid(s) && S.IsIndex(models, index) && S.NamesFit(models)
    requires call in F.Run(FallbackConfig(s), ResolverOf(models, index), w).1
    requires tool in Exposed(s.tools, ApplyRouting(s).allowedToolNames)
    ensures var chain := F.Chain<T>(FallbackConfig(s), ResolverOf(models, index));
            && chain.Ok? && call.pos < |chain.value|
            && var model := S.ResolveModel(models, index, chain.value[call.pos]);
            model.Some? && R.Rank(R.Needs(R.MetaOf(s.index, tool))) <= R.Rank(S.TierOf(model.value))
  {
    var resolve := ResolverOf(models, index);
    CalledModelsServeTools(s, resolve, w, call, tool);
    var raw := F.Chain<T>(FallbackConfig(s), resolve).value[call.pos];
    S.FittingNamesBound(models, index, raw);
  }

  /** The built-in catalog is such a one. */
  lemma BuiltInModelsServeTools<T>(s: Setup, index: S.Index, w: F.World<T>, call: F.Call, tool: string)
    requires Valid(s) && S.IsIndex(S.BUILT_IN_MODELS, index)
    requires call in F.Run(FallbackConfig(s), ResolverOf(S.BUILT_IN_MODELS, index), w).1
    requires tool in Exposed(s.tools, ApplyRouting(s).allowedToolNames)
    ensures var chain := F.Chain<T>(FallbackConfig(s), ResolverOf(S.BUILT_IN_MODELS, index));
            && chain.Ok? && call.pos < |chain.value|
            && var model := S.ResolveModel(S.BUILT_IN_MODELS, index, chain.value[call.pos]);
            model.Some? && R.Rank(R.Needs(R.MetaOf(s.index, tool))) <= R.Rank(S.TierOf(model.value))
  {
    S.BuiltInIsNamedAfterTier();
    S.NamedAfterTierFits(S.BUILT_IN_MODELS);
    ResolvedModelsServeTools(s, S.BUILT_IN_MODELS, index, w, call, tool);
  }

  lemma {:induction false} OthersHas(chain: seq<string>, modelId: string, raw: string)
    ensures raw in Others(chain, modelId) <==> raw in chain && raw != modelId
  {
    if chain != [] {
      OthersHas(chain[1..], modelId, raw);
      assert chain == [chain[0]] + chain[1..];
    }
  }

  /** The router's own ids are ids of Anthropic models of the catalog. */
  lemma RouterIdResolves(index: S.Index, t: R.Tier)
    ensures var e := S.ResolveModel(S.BUILT_IN_MODELS, index, R.TierToModelId(t));
            e.Some? && e.value.provider == "anthropic" && e.value.id == R.TierToModelId(t)
  {
    hide Text.Trim;
    var id := R.TierToModelId(t);
    var e := match t case Opus => S.CLAUDE_OPUS case Sonnet => S.CLAUDE_SONNET case Haiku => S.CLAUDE_HAIKU;
    assert id in S.Names(e);
    S.BuiltInNames(e, id);
    S.KeyIsNormal(id);
    S.GetModelHas(S.BUILT_IN_MODELS, id);
  }

  /** A chain keeps exactly the entries that pass the floor and come from the first one's provider. */
  lemma KeptIff<T>(c: F.Config, resolve: F.Resolver, raw: string)
    requires F.Chain<T>(c, resolve).Ok? && !c.allowCrossProvider
    requires c.models != [] && F.PassesFloor(c, c.models[0]) && raw in c.models
    requires resolve(raw).Some? && resolve(c.models[0]).Some?
    ensures raw in F.Chain<T>(c, resolve).value <==>
            F.PassesFloor(c, raw) && resolve(raw).value.provider == resolve(c.models[0]).value.provider
  {
    var passing := F.FloorFilter(c, c.models);
    F.FloorFilterMeans(c, c.models);
    assert passing != [] && passing[0] == c.models[0];
    F.ProviderFilterMeans(resolve, passing, F.GetProvider(resolve, passing[0]));
  }

  /**
   * Of the entries configured for fallback that stand for a model of the router's provider at or
   * above the floor, those are dropped without a word whose tier is not written in small letters.
   */
  lemma {:induction false} DroppedIffCapitals<T>(s: Setup, index: S.Index, raw: string)
    requires S.IsIndex(S.BUILT_IN_MODELS, index) && raw in s.fallbackChain
    requires var e := S.ResolveModel(S.BUILT_IN_MODELS, index, raw);
             e.Some? && e.value.provider == "anthropic" && R.Rank(S.TierOf(e.value)) >= R.Rank(ApplyRouting(s).floor)
    requires F.Chain<T>(FallbackConfig(s), ResolverOf(S.BUILT_IN_MODELS, index)).Ok?
    ensures var t := S.TierOf(S.ResolveModel(S.BUILT_IN_MODELS, index, raw).value);
            raw !in F.Chain<T>(FallbackConfig(s), ResolverOf(S.BUILT_IN_MODELS, index)).value
            <==> ApplyRouting(s).floor != R.Haiku && !R.Includes(raw, S.Word(t))
  {
    hide S.ResolveModel, R.ModelIdToTier, R.Includes;
    var c, resolve := FallbackConfig(s), ResolverOf(S.BUILT_IN_MODELS, index);
    var r := R.Route(s.cfg, s.index, s.role, s.tools, s.hint);
    R.DecisionCoversTools(R.Request(s.role, R.MetasOf(s.index, s.tools), s.hint), s.cfg);
    R.TierRoundTrip(r.decision.tier);
    RouterIdResolves(index, r.decision.tier);
    OthersHas(s.fallbackChain, r.modelId, raw);
    KeptIff<T>(c, resolve, raw);
    S.BuiltInJudgedIff(index, raw);
  }

  /** Such a request: the only tool needs Sonnet, and the operator has written "OPUS" as the fallback. */
  lemma CapitalsAreDropped<T>(index: S.Index)
    requires S.IsIndex(S.BUILT_IN_MODELS, index)
    ensures var tool := R.ToolMeta("quote", Some(R.Sonnet));
            var s := Setup(R.Config(_ => R.Sonnet, false, false), [[tool]], map["quote" := tool], ["OPUS"], R.Chat, ["quote"], None);
            var resolve := ResolverOf(S.BUILT_IN_MODELS, index);
            && Valid(s)
            && resolve("OPUS") == Some(F.Resolved("anthropic", "claude-opus-4-7"))
            && FallbackConfig(s).models == ["claude-sonnet-4-6", "OPUS"]
            && F.Chain<T>(FallbackConfig(s), resolve) == Ok(["claude-sonnet-4-6"])
  {
    hide S.ResolveModel, R.ModelIdToTier, R.Route, F.Chain;
    var tool := R.ToolMeta("quote", Some(R.Sonnet));
    var s := Setup(R.Config(_ => R.Sonnet, false, false), [[tool]], map["quote" := tool], ["OPUS"], R.Chat, ["quote"], None);
    var c, resolve := FallbackConfig(s), ResolverOf(S.BUILT_IN_MODELS, index);
    OneTool(s, tool);
    assert R.TierToModelId(R.Sonnet) == "claude-sonnet-4-6";
    OthersOfOther("OPUS", "claude-sonnet-4-6");
    assert c.floor == Some(R.Sonnet) && c.models == ["claude-sonnet-4-6", "OPUS"];
    CapitalsResolve(index);
    RouterIdResolves(index, R.Sonnet);
    R.TierRoundTrip(R.Sonnet);
    CapitalsLookLow();
    ChainOfTwo<T>(c, resolve, "claude-sonnet-4-6", "OPUS");
  }

  lemma OneTool(s: Setup, tool: R.ToolMeta)
    requires s.skills == [[tool]] && s.index == map[tool.name := tool] && s.tools == [tool.name]
    requires s.hint.None? && !s.cfg.respectMinModel && s.cfg.preferred(s.role) == R.Needs(tool)
    ensures Valid(s)
    ensures var r := R.Route(s.cfg, s.index, s.role, s.tools, s.hint);
            r.decision.floor == R.Needs(tool) && r.modelId == R.TierToModelId(R.Needs(tool))
  {
    assert R.Flatten(s.skills) == R.Flatten(s.skills[..0]) + [tool] == [tool];
    assert [tool][1..] == [] && forall name :: R.Registered([], name) == None;
    assert forall name :: R.Registered([tool], name) == if name == tool.name then Some(tool) else None;
    var metas := R.MetasOf(s.index, s.tools);
    assert metas == [tool];
    R.FloorIsHighestNeed(metas);
    assert tool in metas;
  }

  lemma CapitalsLookLow()
    ensures R.ModelIdToTier("OPUS") == R.Haiku
  {
    R.NoLetter("OPUS", "opus", 'o', 0);
    R.NoLetter("OPUS", "sonnet", 's', 0);
  }

  lemma OthersOfOther(raw: string, modelId: string)
    requires raw != modelId
    ensures [modelId] + Others([raw], modelId) == [modelId, raw]
  {
    assert [raw][1..] == [];
  }

  lemma CapitalsResolve(index: S.Index)
    requires S.IsIndex(S.BUILT_IN_MODELS, index)
    ensures S.ResolveModel(S.BUILT_IN_MODELS, index, "OPUS") == Some(S.CLAUDE_OPUS)
  {
    assert Text.Trim("OPUS") == "OPUS";
    S.GetModelHas(S.BUILT_IN_MODELS, "OPUS");
    assert S.Lower("OPUS") == "opus";
    assert "opus" in S.Names(S.CLAUDE_OPUS);
    S.BuiltInNames(S.CLAUDE_OPUS, "opus");
    assert S.Lookup(index, "opus") == S.FindAlias(S.BUILT_IN_MODELS, "opus");
  }

  lemma ChainOfTwo<T>(c: F.Config, resolve: F.Resolver, first: string, second: string)
    requires c.models == [first, second] && c.floor.Some? && F.PassesFloor(c, first) && !F.PassesFloor(c, second)
    requires resolve(first).Some?
    ensures F.Chain<T>(c, resolve) == Ok([first])
  {
    assert c.models[1..] == [second] && c.models[1..][1..] == [];
    assert F.FloorFilter(c, [second]) == [];
    assert F.FloorFilter(c, c.models) == [first];
    assert [first][1..] == [];
    assert F.FirstUnresolved(resolve, [first]) == None;
    assert F.ProviderFilter(resolve, [first], F.GetProvider(resolve, first)) == [first];
  }
}
