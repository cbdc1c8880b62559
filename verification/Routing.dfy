/**
 * packages/agent/src/models/routing.ts and packages/server/src/auto-reply/router-helper.ts
 *
 * The choice of a model tier for a request, and the tools the model may see.
 */
module Routing {
  import opened Prelude

  datatype Tier = Haiku | Sonnet | Opus

  function Rank(t: Tier): nat {
    match t
    case Haiku => 0
    case Sonnet => 1
    case Opus => 2
  }

  function TierOfRank(r: nat): Tier { if r == 0 then Haiku else if r == 1 then Sonnet else Opus }

  /** `maxTier`, where undefined entries are skipped: the least upper bound of those present. */
  method MaxTier(tiers: seq<Option<Tier>>) returns (r: Tier)
    ensures forall t :: Some(t) in tiers ==> Rank(t) <= Rank(r)
    ensures r == Haiku || Some(r) in tiers
    ensures r == Highest(tiers)
  {
    var max := 0;
    for i := 0 to |tiers|
      invariant max <= 2 && TierOfRank(max) == Highest(tiers[..i])
    {
      assert tiers[..i + 1][..i] == tiers[..i];
      if tiers[i].Some? {
        var rank := Rank(tiers[i].value);
        if rank > max {
          max := rank;
        }
      }
    }
    assert tiers[..|tiers|] == tiers;
    HighestIsLeastBound(tiers);
    r := TierOfRank(max);
  }

  function Highest(tiers: seq<Option<Tier>>): Tier {
    if tiers == [] then Haiku
    else
      var rest, last := Highest(tiers[..|tiers| - 1]), tiers[|tiers| - 1];
      if last.Some? && Rank(last.value) > Rank(rest) then last.value else rest
  }

  lemma {:induction false} HighestIsLeastBound(tiers: seq<Option<Tier>>)
    ensures forall t :: Some(t) in tiers ==> Rank(t) <= Rank(Highest(tiers))
    ensures Highest(tiers) == Haiku || Some(Highest(tiers)) in tiers
  {
    if tiers != [] {
      HighestIsLeastBound(tiers[..|tiers| - 1]);
      assert tiers == tiers[..|tiers| - 1] + [tiers[|tiers| - 1]];
    }
  }

  datatype ToolMeta = ToolMeta(name: string, minModel: Option<Tier>)

  /** The tier a tool needs. */
  function Needs(t: ToolMeta): Tier { if t.minModel.Some? then t.minModel.value else Haiku }

  function NeedsOf(tools: seq<ToolMeta>): seq<Option<Tier>> {
    seq(|tools|, i requires 0 <= i < |tools| => Some(Needs(tools[i])))
  }

  function ComputeFloor(tools: seq<ToolMeta>): Tier {
    if tools == [] then Haiku else Highest(NeedsOf(tools))
  }

  lemma FloorIsHighestNeed(tools: seq<ToolMeta>)
    ensures forall t :: t in tools ==> Rank(Needs(t)) <= Rank(ComputeFloor(tools))
    ensures ComputeFloor(tools) == Haiku || exists t :: t in tools && Needs(t) == ComputeFloor(tools)
  {
    var needs := NeedsOf(tools);
    HighestIsLeastBound(needs);
    forall t | t in tools ensures Some(Needs(t)) in needs {
      var i :| 0 <= i < |tools| && tools[i] == t;
      assert needs[i] == Some(Needs(t));
    }
    var f := ComputeFloor(tools);
    if tools != [] && f != Haiku {
      var i :| 0 <= i < |needs| && needs[i] == Some(f);
      assert tools[i] in tools && Needs(tools[i]) == f;
    }
  }

  datatype Role = Fetch | Chat | Analysis | Summarize

  datatype Config = Config(preferred: Role -> Tier, allowClientHint: bool, respectMinModel: bool)

  datatype Request = Request(role: Role, availableTools: seq<ToolMeta>, userHint: Option<Tier>)

  datatype Reason = ByRole | ByToolMin | ByHint

  datatype Decision = Decision(tier: Tier, floor: Tier, overriddenBy: Reason, allowedTools: seq<ToolMeta>)

  function Hint(req: Request, cfg: Config): Option<Tier> { if cfg.allowClientHint then req.userHint else None }

  /** The tier that the role or the hint asks for, whatever the tools. */
  function Effective(req: Request, cfg: Config): Tier {
    var h := Hint(req, cfg);
    if h.Some? then h.value else cfg.preferred(req.role)
  }

  function WithinTier(tools: seq<ToolMeta>, t: Tier): seq<ToolMeta> {
    if tools == [] then []
    else (if Rank(Needs(tools[0])) <= Rank(t) then [tools[0]] else []) + WithinTier(tools[1..], t)
  }

  function Max(a: Tier, b: Tier): Tier { if Rank(b) > Rank(a) then b else a }

  function Resolve(req: Request, cfg: Config): Decision {
    var a := cfg.preferred(req.role);
    var hint := Hint(req, cfg);
    var allowed := if cfg.respectMinModel then WithinTier(req.availableTools, Effective(req, cfg)) else req.availableTools;
    var c := ComputeFloor(allowed);
    if hint.Some? then
      var chosen := Max(hint.value, c);
      Decision(chosen, c, if chosen == c && c != hint.value then ByToolMin else ByHint, allowed)
    else
      var chosen := Max(a, c);
      Decision(chosen, c, if chosen == c && c != a then ByToolMin else ByRole, allowed)
  }

  lemma {:induction false} WithinTierMeans(tools: seq<ToolMeta>, t: Tier)
    ensures forall x :: x in WithinTier(tools, t) <==> x in tools && Rank(Needs(x)) <= Rank(t)
  {
    if tools != [] {
      WithinTierMeans(tools[1..], t);
      assert tools == [tools[0]] + tools[1..];
    }
  }

  /** Every tool that is allowed can be served at the floor, and the chosen tier is not below the floor. */
  lemma DecisionCoversTools(req: Request, cfg: Config)
    ensures var d := Resolve(req, cfg);
            && Rank(d.floor) <= Rank(d.tier) && Rank(Effective(req, cfg)) <= Rank(d.tier)
            && (forall t :: t in d.allowedTools ==> t in req.availableTools && Rank(Needs(t)) <= Rank(d.floor))
  {
    var d := Resolve(req, cfg);
    FloorIsHighestNeed(d.allowedTools);
    WithinTierMeans(req.availableTools, Effective(req, cfg));
  }

  /**
   * Respecting `minModel` hides exactly the tools that need more than the requested tier,
   * and then a tool never raises the tier.
   */
  lemma RespectHidesTools(req: Request, cfg: Config)
    requires cfg.respectMinModel
    ensures var d := Resolve(req, cfg);
            && d.tier == Effective(req, cfg) && d.overriddenBy != ByToolMin
            && forall t :: t in d.allowedTools <==> t in req.availableTools && Rank(Needs(t)) <= Rank(Effective(req, cfg))
  {
    var d := Resolve(req, cfg);
    FloorIsHighestNeed(d.allowedTools);
    WithinTierMeans(req.availableTools, Effective(req, cfg));
  }

  /** Otherwise every tool stays and the tier is raised, exactly when some tool needs more. */
  lemma DisrespectRaisesTier(req: Request, cfg: Config)
    requires !cfg.respectMinModel
    ensures var d := Resolve(req, cfg);
            && d.allowedTools == req.availableTools
            && (d.overriddenBy == ByToolMin <==> d.tier != Effective(req, cfg))
            && (d.tier != Effective(req, cfg) <==>
                exists t :: t in req.availableTools && Rank(Needs(t)) > Rank(Effective(req, cfg)))
  {
    FloorIsHighestNeed(req.availableTools);
  }

  /** The reported reason is the true one: a tool if the tier was raised, else the hint if there was one, else the role. */
  lemma ReasonIsTrue(req: Request, cfg: Config)
    ensures var d := Resolve(req, cfg);
            d.overriddenBy == if d.tier != Effective(req, cfg) then ByToolMin
                              else if Hint(req, cfg).Some? then ByHint else ByRole
  {
    FloorIsHighestNeed(Resolve(req, cfg).allowedTools);
  }

  /**
   * The tier that is asked for: the client's hint where hints are allowed and there is one, else
   * the one preferred for the role.
   */
  ghost predicate AskedFor(req: Request, cfg: Config, w: Tier) {
    if cfg.allowClientHint && req.userHint.Some? then w == req.userHint.value else w == cfg.preferred(req.role)
  }

  /** A hint that is not allowed makes no difference. */
  lemma ForbiddenHintIsIgnored(req: Request, cfg: Config)
    requires !cfg.allowClientHint
    ensures Resolve(req, cfg) == Resolve(req.(userHint := None), cfg)
  {
  }

  /** Haiku is the lowest tier and opus the highest. */
  predicate AtMost(a: Tier, b: Tier) { a.Haiku? || b.Opus? || a == b }

  /** A tool without a `minModel` is served at every tier. */
  predicate CanServe(t: Tier, x: ToolMeta) { x.minModel.Some? ==> AtMost(x.minModel.value, t) }

  ghost predicate Serves(t: Tier, tools: seq<ToolMeta>) { forall x :: x in tools ==> CanServe(t, x) }

  /**
   * The whole decision, from the tier `w` that is asked for. With respectMinModel that is the tier, and
   * the tools it serves are allowed; without, all tools are allowed, and the tier is the least
   * one that is not below `w` and serves them all.
   */
  lemma {:induction false} DecisionIs(req: Request, cfg: Config, w: Tier)
    requires AskedFor(req, cfg, w)
    ensures var d := Resolve(req, cfg);
            && (cfg.respectMinModel ==>
                  && d.tier == w
                  && forall x :: x in d.allowedTools <==> x in req.availableTools && CanServe(w, x))
            && (!cfg.respectMinModel ==>
                  && d.allowedTools == req.availableTools && Serves(d.tier, req.availableTools) && AtMost(w, d.tier)
                  && forall t :: Serves(t, req.availableTools) && AtMost(w, t) ==> AtMost(d.tier, t))
            && Serves(d.floor, d.allowedTools) && (forall t :: Serves(t, d.allowedTools) ==> AtMost(d.floor, t))
            && d.overriddenBy == (if d.tier != w then ByToolMin else if cfg.allowClientHint && req.userHint.Some? then ByHint else ByRole)
  {
    var d := Resolve(req, cfg);
    FloorIsHighestNeed(d.allowedTools);
    WithinTierMeans(req.availableTools, Effective(req, cfg));
    if d.floor != Haiku {
      var x :| x in d.allowedTools && Needs(x) == d.floor;
      assert forall t :: Serves(t, d.allowedTools) ==> AtMost(d.floor, t);
    }
  }

  // ----- Tiers and model ids ------------------------------------------------------------------

  function TierToModelId(t: Tier): string {
    match t
    case Haiku => "claude-haiku-4-5-20251001"
    case Sonnet => "claude-sonnet-4-6"
    case Opus => "claude-opus-4-7"
  }

  predicate At(s: string, sub: string, i: nat) { i + |sub| <= |s| && s[i..i + |sub|] == sub }

  predicate Includes(s: string, sub: string) { exists i: nat :: i <= |s| && At(s, sub, i) }

  function ModelIdToTier(id: string): Tier {
    if Includes(id, "opus") then Opus else if Includes(id, "sonnet") then Sonnet else Haiku
  }

  /** The tier of a chosen model id is the tier it was chosen for. */
  lemma TierRoundTrip(t: Tier)
    ensures ModelIdToTier(TierToModelId(t)) == t
  {
    var id := TierToModelId(t);
    match t {
      case Opus => assert At(id, "opus", 7);
      case Sonnet =>
        assert At(id, "sonnet", 7);
        NoLetter(id, "opus", 'p', 1);
      case Haiku =>
        NoLetter(id, "opus", 'p', 1);
        NoLetter(id, "sonnet", 's', 0);
    }
  }

  lemma NoLetter(s: string, sub: string, c: char, k: nat)
    requires k < |sub| && sub[k] == c && c !in s
    ensures !Includes(s, sub)
  {
    forall i: nat | i + |sub| <= |s| ensures !At(s, sub, i) {
      assert s[i..i + |sub|][k] == s[i + k] != sub[k];
    }
  }

  // ----- The helper that works with tool names -------------------------------------------------

  /** The first registration of a name. */
  function Registered(tools: seq<ToolMeta>, name: string): Option<ToolMeta> {
    if tools == [] then None else if tools[0].name == name then Some(tools[0]) else Registered(tools[1..], name)
  }

  function Flatten(skills: seq<seq<ToolMeta>>): seq<ToolMeta> {
    if skills == [] then [] else Flatten(skills[..|skills| - 1]) + skills[|skills| - 1]
  }

  ghost predicate FirstWins(index: map<string, ToolMeta>, tools: seq<ToolMeta>) {
    forall name :: (if name in index then Some(index[name]) else None) == Registered(tools, name)
  }

  lemma {:induction false} RegisteredSnoc(tools: seq<ToolMeta>, t: ToolMeta, name: string)
    ensures Registered(tools + [t], name) ==
            if Registered(tools, name).Some? then Registered(tools, name)
            else if t.name == name then Some(t) else None
  {
    if tools != [] {
      assert (tools + [t])[1..] == tools[1..] + [t];
      RegisteredSnoc(tools[1..], t, name);
    }
  }

  lemma {:induction false} RegisteredHasName(tools: seq<ToolMeta>, name: string)
    ensures Registered(tools, name).Some? ==> Registered(tools, name).value.name == name && Registered(tools, name).value in tools
    ensures Registered(tools, name).None? ==> forall t :: t in tools ==> t.name != name
  {
    if tools != [] && tools[0].name != name {
      RegisteredHasName(tools[1..], name);
    }
  }

  /** `buildToolMetaIndex`: of several registrations of a name the first is kept. */
  method BuildToolMetaIndex(skills: seq<seq<ToolMeta>>) returns (index: map<string, ToolMeta>)
    ensures FirstWins(index, Flatten(skills))
  {
    index := map[];
    for i := 0 to |skills|
      invariant FirstWins(index, Flatten(skills[..i]))
    {
      var tools := skills[i];
      assert Flatten(skills[..i]) + tools[..0] == Flatten(skills[..i]);
      for j := 0 to |tools|
        invariant FirstWins(index, Flatten(skills[..i]) + tools[..j])
      {
        var before := Flatten(skills[..i]) + tools[..j];
        assert Flatten(skills[..i]) + tools[..j + 1] == before + [tools[j]];
        forall name ensures Registered(before + [tools[j]], name) ==
            if Registered(before, name).Some? then Registered(before, name)
            else if tools[j].name == name then Some(tools[j]) else None {
          RegisteredSnoc(before, tools[j], name);
        }
        if tools[j].name !in index {
          index := index[tools[j].name := tools[j]];
        }
      }
      assert tools[..|tools|] == tools;
      assert skills[..i + 1][..i] == skills[..i];
    }
    assert skills[..|skills|] == skills;
  }

  /** The metadata of a name; a name that is not registered needs nothing. */
  function MetaOf(index: map<string, ToolMeta>, name: string): ToolMeta { GetOr(index, name, ToolMeta(name, None)) }

  function MetasOf(index: map<string, ToolMeta>, names: seq<string>): seq<ToolMeta> {
    seq(|names|, i requires 0 <= i < |names| => MetaOf(index, names[i]))
  }

  function NamesOf(tools: seq<ToolMeta>): seq<string> {
    seq(|tools|, i requires 0 <= i < |tools| => tools[i].name)
  }

  datatype HelperResult = HelperResult(decision: Decision, modelId: string, allowedToolNames: seq<string>)

  /** The function that `makeRouterHelper` returns. */
  function Route(cfg: Config, index: map<string, ToolMeta>, role: Role, names: seq<string>, hint: Option<Tier>): HelperResult {
    var d := Resolve(Request(role, MetasOf(index, names), hint), cfg);
    HelperResult(d, TierToModelId(d.tier), NamesOf(d.allowedTools))
  }

  /** Every allowed name is one of those asked for, and what it needs is at most the floor. */
  lemma AllowedNamesFitFloor(cfg: Config, index: map<string, ToolMeta>, tools: seq<ToolMeta>, role: Role,
                             names: seq<string>, hint: Option<Tier>, name: string)
    requires FirstWins(index, tools)
    requires name in Route(cfg, index, role, names, hint).allowedToolNames
    ensures name in names
    ensures Rank(Needs(MetaOf(index, name))) <= Rank(Route(cfg, index, role, names, hint).decision.floor)
  {
    var req := Request(role, MetasOf(index, names), hint);
    var d := Resolve(req, cfg);
    DecisionCoversTools(req, cfg);
    var allowed := NamesOf(d.allowedTools);
    var i :| 0 <= i < |allowed| && allowed[i] == name;
    var t := d.allowedTools[i];
    assert t in d.allowedTools && t.name == name;
    var k :| 0 <= k < |names| && MetasOf(index, names)[k] == t;
    RegisteredHasName(tools, names[k]);
    assert MetaOf(index, names[k]) == t;
  }

  lemma WithinTierNames(index: map<string, ToolMeta>, tools: seq<ToolMeta>, names: seq<string>, name: string)
    requires FirstWins(index, tools)
    ensures name in NamesOf(MetasOf(index, names)) <==> name in names
    ensures forall m :: m in MetasOf(index, names) ==> m == MetaOf(index, m.name)
  {
    forall n ensures MetaOf(index, n).name == n {
      RegisteredHasName(tools, n);
    }
    var metas := MetasOf(index, names);
    assert forall i :: 0 <= i < |names| ==> metas[i].name == names[i] && NamesOf(metas)[i] == names[i];
  }

  /** A name that is asked for is allowed exactly if it is unknown, or its tool needs no more than the tier asked for, or nobody minds. */
  lemma {:induction false} AllowedNamesIff(cfg: Config, index: map<string, ToolMeta>, tools: seq<ToolMeta>, role: Role,
                                           names: seq<string>, hint: Option<Tier>, name: string, w: Tier)
    requires FirstWins(index, tools) && AskedFor(Request(role, MetasOf(index, names), hint), cfg, w)
    ensures name in Route(cfg, index, role, names, hint).allowedToolNames
            <==> name in names && (cfg.respectMinModel && name in index ==> CanServe(w, index[name]))
  {
    var metas := MetasOf(index, names);
    var req := Request(role, metas, hint);
    var allowed := Resolve(req, cfg).allowedTools;
    DecisionIs(req, cfg, w);
    WithinTierNames(index, tools, names, name);
    assert forall x :: x in allowed <==> x in metas && (cfg.respectMinModel ==> CanServe(w, x));
    assert CanServe(w, MetaOf(index, name)) <==> (name in index ==> CanServe(w, index[name]));
    hide Resolve, MetaOf, MetasOf, CanServe, AskedFor, FirstWins;
    NamedIn(allowed, name);
    NamedIn(metas, name);
  }

  lemma NamedIn(tools: seq<ToolMeta>, name: string)
    ensures name in NamesOf(tools) <==> exists x :: x in tools && x.name == name
  {
    forall i | 0 <= i < |tools| ensures NamesOf(tools)[i] == tools[i].name && tools[i] in tools {
    }
    if x :| x in tools && x.name == name {
      var i :| 0 <= i < |tools| && tools[i] == x;
      assert NamesOf(tools)[i] == name;
    }
  }
}
