/**
 * packages/config/src/merge-config.ts, includes.ts and defaults.ts
 *
 * Configuration objects, the two functions that merge them, and files that include others.
 */
module ConfigMerge {
  import opened Prelude

  datatype Json =
    | Null
    | Bool(b: bool)
    | Num(n: real)
    | Str(s: string)
    | Arr(items: seq<Json>)
    | Obj(fields: map<string, Json>)

  predicate Forbidden(key: string) { key == "__proto__" || key == "constructor" || key == "prototype" }

  // ----- What merging means ---------------------------------------------------------------------

  /** The value of a key that both sides have. */
  function Combine(t: Json, s: Json): Json
    decreases s, 1
  {
    if t.Arr? && s.Arr? then Arr(t.items + s.items)
    else if t.Obj? && s.Obj? then Merge(t, s)
    else s
  }

  /** Keys of either side; forbidden keys of the source are passed over. */
  function Merge(t: Json, s: Json): Json
    requires t.Obj? && s.Obj?
    decreases s, 0
  {
    Obj(map k | k in t.fields.Keys + s.fields.Keys && (k in t.fields || !Forbidden(k)) ::
      if k !in s.fields || Forbidden(k) then t.fields[k]
      else if k in t.fields then Combine(t.fields[k], s.fields[k])
      else s.fields[k])
  }

  // ----- The two functions of the source ----------------------------------------------------------

  /** `Object.keys`: every key once, in the order of the object. */
  ghost predicate Lists(keys: seq<string>, o: Json)
    requires o.Obj?
  {
    && (forall k :: k in keys <==> k in o.fields)
    && (forall i, j :: 0 <= i < j < |keys| ==> keys[i] != keys[j])
  }

  /** The target with the keys of the source merged in that were visited. */
  ghost predicate MergedUpTo(t: Json, s: Json, visited: seq<string>, r: map<string, Json>)
    requires t.Obj? && s.Obj?
  {
    && (forall k :: k in r <==> k in t.fields || (k in visited && k in s.fields && !Forbidden(k)))
    && (forall k :: k in r ==> r[k] == MergedValue(t, s, visited, k))
  }

  ghost function MergedValue(t: Json, s: Json, visited: seq<string>, k: string): Json
    requires t.Obj? && s.Obj? && (k in t.fields || (k in visited && k in s.fields && !Forbidden(k)))
  {
    if k !in visited || k !in s.fields || Forbidden(k) then t.fields[k]
    else if k in t.fields then Combine(t.fields[k], s.fields[k])
    else s.fields[k]
  }

  lemma MergedAll(t: Json, s: Json, keys: seq<string>, r: map<string, Json>)
    requires t.Obj? && s.Obj? && Lists(keys, s) && MergedUpTo(t, s, keys, r)
    ensures Obj(r) == Merge(t, s)
  {
    hide Combine, Forbidden;
    var m := Merge(t, s).fields;
    assert forall k :: k in r <==> k in m;
    assert forall k :: k in r ==> r[k] == m[k];
  }

  lemma MergeOne(t: Json, s: Json, keys: seq<string>, i: nat, r: map<string, Json>)
    requires t.Obj? && s.Obj? && Lists(keys, s) && i < |keys| && MergedUpTo(t, s, keys[..i], r)
    ensures keys[i] in s.fields && (keys[i] in r <==> keys[i] in t.fields) && (keys[i] in r ==> r[keys[i]] == t.fields[keys[i]])
    ensures var k := keys[i];
            var v := if k in t.fields then Combine(t.fields[k], s.fields[k]) else s.fields[k];
            MergedUpTo(t, s, keys[..i + 1], if Forbidden(k) then r else r[k := v])
  {
    hide Combine, Forbidden;
    assert keys[i] in keys && keys[i] !in keys[..i];
    assert keys[..i + 1] == keys[..i] + [keys[i]];
  }

  /** The result does not depend on the order in which the keys are visited. */
  method MergeConfig(target: Json, source: Json, keysOf: Json -> seq<string>) returns (r: Json)
    requires target.Obj? && source.Obj?
    requires forall o: Json :: o.Obj? ==> Lists(keysOf(o), o)
    ensures r == Merge(target, source)
    decreases source
  {
    var result := target.fields;
    var keys := keysOf(source);
    for i := 0 to |keys|
      invariant MergedUpTo(target, source, keys[..i], result)
    {
      var key := keys[i];
      MergeOne(target, source, keys, i, result);
      hide MergedUpTo, Lists;
      if Forbidden(key) {
        continue;
      }
      var sVal := source.fields[key];
      if key in result && result[key].Arr? && sVal.Arr? {
        result := result[key := Arr(result[key].items + sVal.items)];
      } else if key in result && result[key].Obj? && sVal.Obj? {
        var merged := MergeConfig(result[key], sVal, keysOf);
        result := result[key := merged];
      } else {
        result := result[key := sVal];
      }
    }
    assert keys[..|keys|] == keys;
    MergedAll(target, source, keys, result);
    r := Obj(result);
  }

  method DeepMerge(target: Json, source: Json, keysOf: Json -> seq<string>) returns (r: Json)
    requires forall o: Json :: o.Obj? ==> Lists(keysOf(o), o)
    ensures r == Combine(target, source)
    decreases source
  {
    if target.Arr? && source.Arr? {
      return Arr(target.items + source.items);
    }
    if target.Obj? && source.Obj? {
      var result := target.fields;
      var keys := keysOf(source);
      for i := 0 to |keys|
        invariant MergedUpTo(target, source, keys[..i], result)
      {
        var key := keys[i];
        MergeOne(target, source, keys, i, result);
        hide MergedUpTo, Lists;
        if Forbidden(key) {
          continue;
        }
        var merged := source.fields[key];
        if key in result {
          merged := DeepMerge(result[key], source.fields[key], keysOf);
        }
        result := result[key := merged];
      }
      assert keys[..|keys|] == keys;
      MergedAll(target, source, keys, result);
      return Obj(result);
    }
    r := source;
  }

  // ----- Who wins ----------------------------------------------------------------------------------

  function Lookup(v: Json, path: seq<string>): Option<Json>
    decreases |path|
  {
    if path == [] then Some(v)
    else if v.Obj? && path[0] in v.fields then Lookup(v.fields[path[0]], path[1..])
    else None
  }

  /** A plain value of the source is found in the result at the same path. */
  lemma {:induction false} SourceWins(t: Json, s: Json, path: seq<string>, x: Json)
    requires Lookup(s, path) == Some(x) && !x.Obj? && !x.Arr?
    requires forall k :: k in path ==> !Forbidden(k)
    ensures Lookup(Combine(t, s), path) == Some(x)
    decreases |path|
  {
    if path != [] && t.Obj? {
      var k := path[0];
      assert k in path && forall l :: l in path[1..] ==> l in path;
      if k in t.fields {
        SourceWins(t.fields[k], s.fields[k], path[1..], x);
      }
    }
  }

  /** The source says nothing about the path: on the way to it a key is missing. */
  predicate Silent(s: Json, path: seq<string>)
    decreases |path|
  {
    path != [] && s.Obj? && (path[0] !in s.fields || Silent(s.fields[path[0]], path[1..]))
  }

  /** Where the source is silent the target's value stays. */
  lemma {:induction false} TargetFillsGaps(t: Json, s: Json, path: seq<string>, x: Json)
    requires Lookup(t, path) == Some(x) && Silent(s, path)
    ensures Lookup(Combine(t, s), path) == Some(x)
    decreases |path|
  {
    var k := path[0];
    if k in s.fields && !Forbidden(k) {
      TargetFillsGaps(t.fields[k], s.fields[k], path[1..], x);
    }
  }

  /** The value at a path where both sides have one, by their kinds: two objects give an object again. */
  ghost predicate Joined(y: Json, x: Json, r: Json) {
    if y.Arr? && x.Arr? then r == Arr(y.items + x.items)
    else if y.Obj? && x.Obj? then r.Obj?
    else r == x
  }

  /**
   * Every value of the result, path by path (without forbidden keys): arrays are the target's items and
   * then the source's, values of different kinds are the source's, what one side has is there,
   * unless the source has something other than an object on the way, and there is nothing else.
   */
  lemma {:induction false} MergedAt(t: Json, s: Json, path: seq<string>)
    requires forall k :: k in path ==> k !in {"__proto__", "constructor", "prototype"}
    ensures var r := Lookup(Combine(t, s), path);
            match (Lookup(t, path), Lookup(s, path))
            case (Some(y), Some(x)) => r.Some? && Joined(y, x, r.value)
            case (None, Some(x)) => r == Some(x)
            case (Some(y), None) => r == if Silent(s, path) then Some(y) else None
            case (None, None) => r == None
    decreases |path|
  {
    if path != [] && s.Obj? && t.Obj? {
      var k := path[0];
      assert k in path && forall l :: l in path[1..] ==> l in path;
      if k in s.fields && k in t.fields {
        MergedAt(t.fields[k], s.fields[k], path[1..]);
      }
    }
  }

  /** A forbidden key never comes from the source. */
  lemma ForbiddenKeysStay(t: Json, s: Json, k: string)
    requires t.Obj? && s.Obj? && k in {"__proto__", "constructor", "prototype"}
    ensures var r := Merge(t, s).fields; (k in r <==> k in t.fields) && (k in r ==> r[k] == t.fields[k])
  {
  }

  // ----- Merging twice -------------------------------------------------------------------------------

  /** No array that merging can reach holds anything. */
  predicate EmptyArrays(v: Json) {
    match v
    case Arr(items) => items == []
    case Obj(fields) => forall k :: k in fields && !Forbidden(k) ==> EmptyArrays(fields[k])
    case _ => true
  }

  lemma {:induction false} SelfMerge(d: Json)
    ensures Combine(d, d) == d <==> EmptyArrays(d)
    decreases d
  {
    match d
    case Arr(items) => assert |items + items| == |items| + |items|;
    case Obj(fields) =>
      forall k | k in fields ensures Combine(fields[k], fields[k]) == fields[k] <==> EmptyArrays(fields[k]) {
        SelfMerge(fields[k]);
      }
      hide Combine, EmptyArrays;
      SelfMergeFields(d);
    case _ =>
  }

  lemma SelfMergeFields(d: Json)
    requires d.Obj?
    requires forall k :: k in d.fields ==> (Combine(d.fields[k], d.fields[k]) == d.fields[k] <==> EmptyArrays(d.fields[k]))
    ensures Combine(d, d) == d <==> EmptyArrays(d)
  {
    var m := Merge(d, d);
    assert Combine(d, d) == m;
    assert forall k :: k in m.fields <==> k in d.fields;
    if m == d {
      forall k | k in d.fields && !Forbidden(k) ensures EmptyArrays(d.fields[k]) {
        assert m.fields[k] == Combine(d.fields[k], d.fields[k]);
      }
    }
    if EmptyArrays(d) {
      assert m.fields == d.fields;
    }
  }

  lemma {:induction false} MergeTwice(d: Json, u: Json)
    requires EmptyArrays(d)
    ensures Combine(d, Combine(d, u)) == Combine(d, u)
    decreases u
  {
    if d.Arr? && u.Arr? {
      assert [] + u.items == u.items;
    } else if d.Obj? && u.Obj? {
      forall k | k in d.fields && !Forbidden(k) ensures Combine(d.fields[k], d.fields[k]) == d.fields[k] {
        SelfMerge(d.fields[k]);
      }
      forall k | k in d.fields && k in u.fields && !Forbidden(k)
        ensures Combine(d.fields[k], Combine(d.fields[k], u.fields[k])) == Combine(d.fields[k], u.fields[k])
      {
        MergeTwice(d.fields[k], u.fields[k]);
      }
      MergeTwiceFields(d, u);
    }
  }

  lemma MergeTwiceFields(d: Json, u: Json)
    requires d.Obj? && u.Obj?
    requires forall k :: k in d.fields && !Forbidden(k) ==> Combine(d.fields[k], d.fields[k]) == d.fields[k]
    requires forall k :: k in d.fields && k in u.fields && !Forbidden(k) ==>
               Combine(d.fields[k], Combine(d.fields[k], u.fields[k])) == Combine(d.fields[k], u.fields[k])
    ensures Merge(d, Merge(d, u)) == Merge(d, u)
  {
    hide Combine, Forbidden;
    var r := Merge(d, u);
    var t := Merge(d, r);
    assert forall k :: k in t.fields <==> k in r.fields;
    forall k | k in r.fields ensures t.fields[k] == r.fields[k] {
    }
    assert t.fields == r.fields;
  }

  /** Merging into a target twice is the same as once, for every source, exactly if the target's arrays are all empty. */
  lemma {:induction false} TwiceIsOnceIff(d: Json)
    requires d.Obj?
    ensures (forall u: Json :: u.Obj? ==> Merge(d, Merge(d, u)) == Merge(d, u)) <==> EmptyArrays(d)
  {
    if EmptyArrays(d) {
      forall u: Json | u.Obj? ensures Merge(d, Merge(d, u)) == Merge(d, u) {
        MergeTwice(d, u);
      }
    }
    if forall u: Json :: u.Obj? ==> Merge(d, Merge(d, u)) == Merge(d, u) {
      assert Merge(d, Obj(map[])).fields == d.fields;
      SelfMerge(d);
    }
  }

  // ----- Defaults --------------------------------------------------------------------------------------

  function Role(preferred: string, maxTokens: real): Json {
    Obj(map["preferred" := Str(preferred), "maxTokens" := Num(maxTokens)])
  }

  const GATEWAY := Obj(map["port" := Num(3000.0), "host" := Str("127.0.0.1"), "tls" := Bool(false), "corsOrigins" := Arr([])])
  const AGENTS := Obj(map[
    "defaults" := Obj(map["model" := Str("claude-sonnet-4-6"), "provider" := Str("anthropic"), "maxConcurrent" := Num(2.0),
                          "maxTokens" := Num(4096.0), "temperature" := Num(0.7)]),
    "entries" := Obj(map[])])
  const CHANNELS := Obj(map[
    "cli" := Obj(map["enabled" := Bool(true)]),
    "web" := Obj(map["enabled" := Bool(false), "port" := Num(3001.0)])])
  const SESSION := Obj(map["mainKey" := Str("default"), "resetPolicy" := Str("idle"), "idleTimeoutMs" := Num(1800000.0)])
  const LOGGING := Obj(map["level" := Str("info"), "file" := Bool(false), "redactSensitive" := Bool(true)])
  const MODELS := Obj(map["definitions" := Obj(map[]), "aliases" := Obj(map[])])
  const PLUGINS := Obj(map["enabled" := Arr([]), "disabled" := Arr([])])
  const ROUTING := Obj(map[
    "roles" := Obj(map["fetch" := Role("haiku", 1024.0), "chat" := Role("sonnet", 4096.0),
                       "analysis" := Role("opus", 8192.0), "summarize" := Role("haiku", 2048.0)]),
    "automation" := Obj(map["strictFallback" := Bool(true), "logVerbose" := Bool(true)]),
    "override" := Obj(map["allowClientHint" := Bool(true), "respectMinModel" := Bool(true)])])

  const DEFAULTS := Obj(map["gateway" := GATEWAY, "agents" := AGENTS, "channels" := CHANNELS, "session" := SESSION,
                            "logging" := LOGGING, "models" := MODELS, "plugins" := PLUGINS, "routing" := ROUTING])

  function ApplyDefaults(userConfig: Json): Json
    requires userConfig.Obj?
  {
    Merge(DEFAULTS, userConfig)
  }

  lemma SectionEmpty(o: Json)
    requires o.Obj? && forall k :: k in o.fields ==> EmptyArrays(o.fields[k])
    ensures EmptyArrays(o)
  {
  }

  lemma RoutingEmpty()
    ensures EmptyArrays(ROUTING)
  {
    var roles := ROUTING.fields["roles"];
    forall k | k in roles.fields ensures EmptyArrays(roles.fields[k]) {
      assert roles.fields[k] in {Role("haiku", 1024.0), Role("sonnet", 4096.0), Role("opus", 8192.0), Role("haiku", 2048.0)};
    }
    SectionEmpty(roles);
    SectionEmpty(ROUTING.fields["automation"]);
    SectionEmpty(ROUTING.fields["override"]);
    SectionEmpty(ROUTING);
  }

  lemma AgentsEmpty()
    ensures EmptyArrays(AGENTS)
  {
    SectionEmpty(AGENTS.fields["defaults"]);
    SectionEmpty(AGENTS.fields["entries"]);
    SectionEmpty(AGENTS);
  }

  lemma ChannelsAndModelsEmpty()
    ensures EmptyArrays(CHANNELS) && EmptyArrays(MODELS)
  {
    SectionEmpty(CHANNELS.fields["cli"]);
    SectionEmpty(CHANNELS.fields["web"]);
    SectionEmpty(CHANNELS);
    SectionEmpty(MODELS);
  }

  lemma FlatSectionsEmpty()
    ensures EmptyArrays(GATEWAY) && EmptyArrays(SESSION) && EmptyArrays(LOGGING) && EmptyArrays(PLUGINS)
  {
  }

  lemma DefaultsHaveEmptyArrays()
    ensures EmptyArrays(DEFAULTS)
  {
    RoutingEmpty();
    AgentsEmpty();
    ChannelsAndModelsEmpty();
    FlatSectionsEmpty();
    hide EmptyArrays;
    EightSections(GATEWAY, AGENTS, CHANNELS, SESSION, LOGGING, MODELS, PLUGINS, ROUTING);
  }

  lemma EightSections(g: Json, a: Json, c: Json, s: Json, l: Json, m: Json, p: Json, r: Json)
    requires EmptyArrays(g) && EmptyArrays(a) && EmptyArrays(c) && EmptyArrays(s)
    requires EmptyArrays(l) && EmptyArrays(m) && EmptyArrays(p) && EmptyArrays(r)
    ensures EmptyArrays(Obj(map["gateway" := g, "agents" := a, "channels" := c, "session" := s,
                                "logging" := l, "models" := m, "plugins" := p, "routing" := r]))
  {
    hide EmptyArrays;
    SectionEmpty(Obj(map["gateway" := g, "agents" := a, "channels" := c, "session" := s,
                         "logging" := l, "models" := m, "plugins" := p, "routing" := r]));
  }

  /** Applying the defaults twice is the same as once. */
  lemma {:induction false} DefaultsTwice(userConfig: Json)
    requires userConfig.Obj?
    ensures ApplyDefaults(ApplyDefaults(userConfig)) == ApplyDefaults(userConfig)
  {
    DefaultsHaveEmptyArrays();
    MergeTwice(DEFAULTS, userConfig);
  }
}
