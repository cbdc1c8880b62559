/** packages/agent/src/models/selection.ts, alias-index.ts and catalog-data.ts: from a name to a model. */
module Selection {
  import opened Prelude
  import opened Text
  import opened Routing

  /** What the resolution of names looks at. */
  datatype Entry = Entry(id: string, provider: string, aliases: seq<string>)

  /** The catalog, in the order of `listModels`. */
  type Catalog = seq<Entry>

  type Index = map<string, Entry>

  function LowerChar(c: char): char {
    if 'A' <= c <= 'Z' then (c as int - 'A' as int + 'a' as int) as char else c
  }

  /** `s.toLowerCase()`, on ASCII letters. */
  function Lower(s: string): (r: string)
    ensures |r| == |s| && forall i :: 0 <= i < |s| ==> r[i] == LowerChar(s[i])
  {
    seq(|s|, i requires 0 <= i < |s| => LowerChar(s[i]))
  }

  function Names(e: Entry): seq<string> { [e.id] + e.aliases }

  /** The form in which a name is registered. */
  function Key(name: string): string { Trim(Lower(name)) }

  predicate HasKey(names: seq<string>, k: string) { exists a :: a in names && Key(a) == k }

  /** The first model that registers the key. */
  function FindAlias(models: Catalog, k: string): Option<Entry> {
    if models == [] then None else if HasKey(Names(models[0]), k) then Some(models[0]) else FindAlias(models[1..], k)
  }

  function Lookup(index: Index, k: string): Option<Entry> { if k in index then Some(index[k]) else None }

  ghost predicate IsIndex(models: Catalog, index: Index) {
    forall k :: Lookup(index, k) == FindAlias(models, k)
  }

  lemma {:induction false} FindAliasSnoc(models: Catalog, m: Entry, k: string)
    ensures FindAlias(models + [m], k) == (if FindAlias(models, k).Some? then FindAlias(models, k)
                                           else if HasKey(Names(m), k) then Some(m) else None)
  {
    if models == [] {
      assert [m][1..] == [];
    } else {
      FindAliasSnoc(models[1..], m, k);
      assert (models + [m])[1..] == models[1..] + [m];
    }
  }

  lemma HasKeySnoc(names: seq<string>, a: string, k: string)
    ensures HasKey(names + [a], k) <==> HasKey(names, k) || Key(a) == k
  {
    assert a in names + [a] && forall b :: b in names ==> b in names + [a];
  }

  method BuildModelAliasIndex(models: Catalog) returns (index: Index)
    ensures IsIndex(models, index)
  {
    index := map[];
    for i := 0 to |models|
      invariant forall k :: Lookup(index, k) == FindAlias(models[..i], k)
    {
      var model := models[i];
      var names := Names(model);
      ghost var before := index;
      assert !exists k :: HasKey(names[..0], k);
      for j := 0 to |names|
        invariant forall k :: Lookup(index, k) == if k in before then Some(before[k])
                                                  else if HasKey(names[..j], k) then Some(model) else None
      {
        forall k ensures HasKey(names[..j + 1], k) <==> HasKey(names[..j], k) || Key(names[j]) == k {
          assert names[..j + 1] == names[..j] + [names[j]];
          HasKeySnoc(names[..j], names[j], k);
        }
        var normalized := Key(names[j]);
        if normalized !in index {
          index := index[normalized := model];
        }
      }
      assert names[..|names|] == names;
      forall k ensures Lookup(index, k) == FindAlias(models[..i + 1], k) {
        FindAliasSnoc(models[..i], model, k);
        assert models[..i + 1] == models[..i] + [model];
        assert Lookup(before, k) == FindAlias(models[..i], k);
      }
    }
    assert models[..|models|] == models;
  }

  function GetModel(models: Catalog, id: string): Option<Entry> {
    if models == [] then None else if models[0].id == id then Some(models[0]) else GetModel(models[1..], id)
  }

  /** `resolveModel` without a default, as every caller uses it; None is the error it throws. */
  function ResolveModel(models: Catalog, index: Index, raw: string): Option<Entry> {
    var name := Trim(raw);
    var byId := GetModel(models, name);
    if byId.Some? then byId else Lookup(index, Lower(name))
  }

  function TierOf(e: Entry): Tier { ModelIdToTier(e.id) }

  /** The word by which a tier is recognized in a name. */
  function Word(t: Tier): string {
    match t
    case Haiku => ""
    case Sonnet => "sonnet"
    case Opus => "opus"
  }

  // ----- Words in names --------------------------------------------------------------------------

  lemma LowerKeepsWord(s: string, w: string)
    requires Includes(s, w) && forall c :: c in w ==> !('A' <= c <= 'Z')
    ensures Includes(Lower(s), w)
  {
    var i: nat :| i <= |s| && At(s, w, i);
    forall j | 0 <= j < |w| ensures Lower(s)[i..i + |w|][j] == w[j] {
      assert w[j] == s[i..i + |w|][j] == s[i + j] && w[j] in w;
    }
    assert At(Lower(s), w, i);
  }

  lemma {:induction false} TrimStartKeepsWord(s: string, w: string)
    requires w != [] && !IsSpace(w[0])
    ensures Includes(TrimStart(s), w) <==> Includes(s, w)
  {
    if s != [] && IsSpace(s[0]) {
      TrimStartKeepsWord(s[1..], w);
      forall i: nat | i + |w| <= |s| && At(s, w, i) ensures i > 0 && At(s[1..], w, i - 1) {
        assert s[i..i + |w|][0] == s[i];
        assert s[1..][i - 1..i - 1 + |w|] == s[i..i + |w|];
      }
      forall i: nat | i + |w| <= |s[1..]| && At(s[1..], w, i) ensures At(s, w, i + 1) {
        assert s[1..][i..i + |w|] == s[i + 1..i + 1 + |w|];
      }
    }
  }

  lemma {:induction false} TrimEndKeepsWord(s: string, w: string)
    requires w != [] && !IsSpace(w[|w| - 1])
    ensures Includes(TrimEnd(s), w) <==> Includes(s, w)
  {
    if s != [] && IsSpace(s[|s| - 1]) {
      var t := s[..|s| - 1];
      TrimEndKeepsWord(t, w);
      forall i: nat | i + |w| <= |s| && At(s, w, i) ensures At(t, w, i) {
        assert s[i..i + |w|][|w| - 1] == s[i + |w| - 1];
        assert t[i..i + |w|] == s[i..i + |w|];
      }
      forall i: nat | i + |w| <= |t| && At(t, w, i) ensures At(s, w, i) {
        assert t[i..i + |w|] == s[i..i + |w|];
      }
    }
  }

  /** Trimming and lowering a name can only raise the tier it is judged to be of. */
  lemma NormalizingRaises(raw: string)
    ensures Includes(raw, "opus") ==> Includes(Lower(Trim(raw)), "opus")
    ensures Includes(raw, "sonnet") ==> Includes(Lower(Trim(raw)), "sonnet")
    ensures Rank(ModelIdToTier(raw)) <= Rank(ModelIdToTier(Lower(Trim(raw))))
  {
    forall w | (w == "opus" || w == "sonnet") && Includes(raw, w) ensures Includes(Lower(Trim(raw)), w) {
      TrimStartKeepsWord(raw, w);
      TrimEndKeepsWord(TrimStart(raw), w);
      LowerKeepsWord(Trim(raw), w);
    }
  }

  lemma TrimKeepsTier(raw: string)
    ensures ModelIdToTier(Trim(raw)) == ModelIdToTier(raw)
    ensures Includes(Trim(raw), "opus") <==> Includes(raw, "opus")
    ensures Includes(Trim(raw), "sonnet") <==> Includes(raw, "sonnet")
  {
    forall w | w == "opus" || w == "sonnet" ensures Includes(Trim(raw), w) <==> Includes(raw, w) {
      TrimStartKeepsWord(raw, w);
      TrimEndKeepsWord(TrimStart(raw), w);
    }
  }

  // ----- The tier a name is judged to be of, and that of the model it stands for -------------------

  lemma {:induction false} GetModelHas(models: Catalog, id: string)
    ensures match GetModel(models, id)
            case Some(e) => e in models && e.id == id
            case None => forall e :: e in models ==> e.id != id
  {
    if models != [] {
      GetModelHas(models[1..], id);
      assert models == [models[0]] + models[1..];
    }
  }

  lemma {:induction false} FindAliasHas(models: Catalog, k: string)
    ensures match FindAlias(models, k)
            case Some(e) => e in models && HasKey(Names(e), k)
            case None => forall e :: e in models ==> !HasKey(Names(e), k)
  {
    if models != [] {
      FindAliasHas(models[1..], k);
      assert models == [models[0]] + models[1..];
    }
  }

  /** Model `i` is the first one that registers the key. */
  ghost predicate FirstToRegister(models: Catalog, k: string, i: nat) {
    i < |models| && forall j :: 0 <= j <= i ==> (HasKey(Names(models[j]), k) <==> j == i)
  }

  /**
   * A name stands for a model exactly if, trimmed, it is the id of one, or is a registered name in
   * any mixture of capitals; and in the second case for the first model that registers it.
   */
  lemma ResolvesIff(models: Catalog, index: Index, raw: string)
    requires IsIndex(models, index)
    ensures var r, k := ResolveModel(models, index, raw), Lower(Trim(raw));
            && (r.Some? <==> exists e :: e in models && (e.id == Trim(raw) || HasKey(Names(e), k)))
            && (r.Some? && r.value.id != Trim(raw) ==> exists i: nat :: FirstToRegister(models, k, i) && models[i] == r.value)
  {
    hide HasKey, Trim, Lower;
    var k := Lower(Trim(raw));
    GetModelHas(models, Trim(raw));
    FindAliasHas(models, k);
    assert Lookup(index, k) == FindAlias(models, k);
    if FindAlias(models, k).Some? {
      var i := FindAliasIsFirst(models, k);
    }
  }

  lemma {:induction false} FindAliasIsFirst(models: Catalog, k: string) returns (i: nat)
    requires FindAlias(models, k).Some?
    ensures FirstToRegister(models, k, i) && FindAlias(models, k) == Some(models[i])
  {
    if HasKey(Names(models[0]), k) {
      i := 0;
    } else {
      var later := FindAliasIsFirst(models[1..], k);
      i := later + 1;
      assert forall j :: 0 < j <= i ==> models[j] == models[1..][j - 1];
    }
  }

  /** The same letter of the alphabet, one in capitals. */
  ghost predicate IsCapitalOf(c: char, d: char) {
    'A' <= c <= 'Z' && 'a' <= d <= 'z' && c as int - 'A' as int == d as int - 'a' as int
  }

  ghost predicate SameLetter(a: char, b: char) { a == b || IsCapitalOf(a, b) || IsCapitalOf(b, a) }

  ghost predicate SameLetters(a: string, b: string) { |a| == |b| && forall i :: 0 <= i < |a| ==> SameLetter(a[i], b[i]) }

  lemma SameLetterIff(a: char, b: char)
    ensures LowerChar(a) == LowerChar(b) <==> SameLetter(a, b)
  {
  }

  lemma {:induction false} TrimStartLower(s: string)
    ensures TrimStart(Lower(s)) == Lower(TrimStart(s))
  {
    if s != [] && IsSpace(s[0]) {
      assert Lower(s)[1..] == Lower(s[1..]);
      TrimStartLower(s[1..]);
    }
  }

  lemma {:induction false} TrimEndLower(s: string)
    ensures TrimEnd(Lower(s)) == Lower(TrimEnd(s))
  {
    if s != [] && IsSpace(s[|s| - 1]) {
      assert Lower(s)[..|s| - 1] == Lower(s[..|s| - 1]);
      TrimEndLower(s[..|s| - 1]);
    }
  }

  /** Two names are registered and looked up alike exactly if, without the white space around them, they differ in capitals only. */
  lemma SameNameIff(name: string, raw: string)
    ensures Key(name) == Lower(Trim(raw)) <==> SameLetters(Trim(name), Trim(raw))
  {
    TrimStartLower(name);
    TrimEndLower(TrimStart(name));
    var x, y := Trim(name), Trim(raw);
    assert Key(name) == Lower(x);
    hide Trim, SameLetter, LowerChar;
    forall a, b ensures LowerChar(a) == LowerChar(b) <==> SameLetter(a, b) {
      SameLetterIff(a, b);
    }
    assert SameLetters(x, y) ==> Lower(x) == Lower(y);
    assert Lower(x) == Lower(y) ==> |x| == |y| && forall i :: 0 <= i < |x| ==> LowerChar(x[i]) == Lower(x)[i] == LowerChar(y[i]);
  }

  /** Every name of a model shows the model's tier. */
  ghost predicate NamedAfterTier(models: Catalog) {
    forall e, a :: e in models && a in Names(e) ==> ModelIdToTier(Key(a)) == TierOf(e)
  }

  /**
   * When the names of the catalog show their models' tiers: no entry of a chain is judged above
   * the model it resolves to, and it is judged below exactly if the word of the model's tier does
   * not stand in it in small letters.
   */
  lemma JudgedBelowIff(models: Catalog, index: Index, raw: string)
    requires IsIndex(models, index) && NamedAfterTier(models) && ResolveModel(models, index, raw).Some?
    ensures var t := TierOf(ResolveModel(models, index, raw).value);
            && Rank(ModelIdToTier(raw)) <= Rank(t)
            && (Rank(ModelIdToTier(raw)) < Rank(t) <==> t != Haiku && !Includes(raw, Word(t)))
  {
    hide Trim, Includes;
    var e := ResolveModel(models, index, raw).value;
    TrimKeepsTier(raw);
    if GetModel(models, Trim(raw)).Some? {
      GetModelHas(models, Trim(raw));
    } else {
      var k := Lower(Trim(raw));
      assert Lookup(index, k) == FindAlias(models, k);
      FindAliasHas(models, k);
      var a :| a in Names(e) && Key(a) == k;
      NormalizingRaises(raw);
    }
  }

  /** A caller can check these of a catalog, name by name: no alias is the id of another model, ... */
  ghost predicate NoClash(models: Catalog) {
    forall k :: GetModel(models, k).Some? && FindAlias(models, k).Some? ==> GetModel(models, k) == FindAlias(models, k)
  }

  /** ... and no name shows a higher tier than the model that it is registered for. */
  ghost predicate NamesFit(models: Catalog) {
    forall e, a :: e in models && a in Names(e) && FindAlias(models, Key(a)).Some? ==>
      Rank(ModelIdToTier(Key(a))) <= Rank(TierOf(FindAlias(models, Key(a)).value))
  }

  ghost predicate NeverAbove(models: Catalog, index: Index) {
    forall raw :: ResolveModel(models, index, raw).Some? ==>
      Rank(ModelIdToTier(raw)) <= Rank(TierOf(ResolveModel(models, index, raw).value))
  }

  /** A registered key is found as it stands. */
  lemma KeyIsNormal(name: string)
    ensures var k := Key(name); Trim(k) == k && Lower(k) == k
  {
    var k := Key(name);
    TrimKeeps(Lower(name));
    assert forall i :: 0 <= i < |k| ==> k[i] == Lower(name)[|name| - |TrimStart(Lower(name))| + i];
    assert forall i :: 0 <= i < |k| ==> Lower(k)[i] == k[i];
    assert TrimStart(k) == k;
  }

  /** Without clashes: no entry of any chain is judged above its model iff no name of the catalog is. */
  lemma {:induction false} NeverAboveIff(models: Catalog, index: Index)
    requires IsIndex(models, index) && NoClash(models)
    ensures NeverAbove(models, index) <==> NamesFit(models)
  {
    hide Includes, Trim, ModelIdToTier;
    if NamesFit(models) {
      forall raw | ResolveModel(models, index, raw).Some?
        ensures Rank(ModelIdToTier(raw)) <= Rank(TierOf(ResolveModel(models, index, raw).value)) {
        FittingNamesBound(models, index, raw);
      }
    }
    if NeverAbove(models, index) {
      forall e, a | e in models && a in Names(e) && FindAlias(models, Key(a)).Some?
        ensures Rank(ModelIdToTier(Key(a))) <= Rank(TierOf(FindAlias(models, Key(a)).value)) {
        KeyIsNormal(a);
        assert Lookup(index, Key(a)) == FindAlias(models, Key(a));
        assert ResolveModel(models, index, Key(a)) == FindAlias(models, Key(a));
      }
    }
  }

  lemma FittingNamesBound(models: Catalog, index: Index, raw: string)
    requires IsIndex(models, index) && NamesFit(models) && ResolveModel(models, index, raw).Some?
    ensures Rank(ModelIdToTier(raw)) <= Rank(TierOf(ResolveModel(models, index, raw).value))
  {
    hide Trim, Includes;
    TrimKeepsTier(raw);
    if GetModel(models, Trim(raw)).Some? {
      GetModelHas(models, Trim(raw));
    } else {
      var k := Lower(Trim(raw));
      assert Lookup(index, k) == FindAlias(models, k);
      FindAliasHas(models, k);
      var e := FindAlias(models, k).value;
      var a :| a in Names(e) && Key(a) == k;
      NormalizingRaises(raw);
    }
  }

  /** Names that show their models' tiers show no higher ones. */
  lemma NamedAfterTierFits(models: Catalog)
    requires NamedAfterTier(models)
    ensures NamesFit(models)
  {
    hide Key, ModelIdToTier;
    forall e, a | e in models && a in Names(e) && FindAlias(models, Key(a)).Some?
      ensures ModelIdToTier(Key(a)) == TierOf(FindAlias(models, Key(a)).value) {
      FindAliasHas(models, Key(a));
    }
  }

  // ----- The built-in catalog ----------------------------------------------------------------------

  const CLAUDE_OPUS := Entry("claude-opus-4-7", "anthropic", ["opus", "opus-4", "claude-opus"])
  const CLAUDE_SONNET := Entry("claude-sonnet-4-6", "anthropic", ["sonnet", "sonnet-4", "claude-sonnet"])
  const CLAUDE_HAIKU := Entry("claude-haiku-4-5-20251001", "anthropic", ["haiku", "haiku-4.5", "claude-haiku"])
  const GPT_4O := Entry("gpt-4o", "openai", ["gpt-4o", "openai-4o"])
  const GPT_4O_MINI := Entry("gpt-4o-mini", "openai", ["gpt-4o-mini", "openai-4o-mini"])

  const BUILT_IN_MODELS: Catalog := [CLAUDE_OPUS, CLAUDE_SONNET, CLAUDE_HAIKU, GPT_4O, GPT_4O_MINI]

  predicate Small(a: string) {
    a != [] && !IsSpace(a[0]) && !IsSpace(a[|a| - 1]) && forall i :: 0 <= i < |a| ==> !('A' <= a[i] <= 'Z')
  }

  lemma SmallIsKey(a: string)
    requires Small(a)
    ensures Key(a) == a
  {
    assert Lower(a) == a;
  }

  lemma OpusName(a: string, i: nat)
    requires Small(a) && At(a, "opus", i)
    ensures Named(a, Opus)
  {
    SmallIsKey(a);
  }

  lemma SonnetName(a: string, i: nat)
    requires Small(a) && At(a, "sonnet", i) && 'p' !in a
    ensures Named(a, Sonnet)
  {
    SmallIsKey(a);
    NoLetter(a, "opus", 'p', 1);
  }

  lemma OtherName(a: string)
    requires Small(a) && 's' !in a
    ensures Named(a, Haiku)
  {
    SmallIsKey(a);
    NoLetter(a, "opus", 's', 3);
    NoLetter(a, "sonnet", 's', 0);
  }

  /** The name is registered as it stands, and shows the tier. */
  predicate Named(a: string, t: Tier) { Key(a) == a && ModelIdToTier(a) == t }

  lemma OpusLongNames()
    ensures Named("claude-opus-4-7", Opus) && Named("claude-opus", Opus)
  {
    hide Named;
    OpusName("claude-opus-4-7", 7);
    OpusName("claude-opus", 7);
  }

  lemma OpusNames(a: string)
    requires a in Names(CLAUDE_OPUS)
    ensures Named(a, Opus) && 't' !in a
  {
    hide Named;
    OpusLongNames();
    OpusName("opus", 0);
    OpusName("opus-4", 0);
  }

  lemma SonnetLongNames()
    ensures Named("claude-sonnet-4-6", Sonnet) && Named("claude-sonnet", Sonnet)
  {
    hide Named;
    SonnetName("claude-sonnet-4-6", 7);
    SonnetName("claude-sonnet", 7);
  }

  lemma SonnetNames(a: string)
    requires a in Names(CLAUDE_SONNET)
    ensures Named(a, Sonnet)
  {
    hide Named;
    SonnetLongNames();
    SonnetName("sonnet", 0);
    SonnetName("sonnet-4", 0);
  }

  lemma HaikuLongNames()
    ensures Named("claude-haiku-4-5-20251001", Haiku) && Named("claude-haiku", Haiku)
  {
    hide Named;
    OtherName("claude-haiku-4-5-20251001");
    OtherName("claude-haiku");
  }

  lemma HaikuNames(a: string)
    requires a in Names(CLAUDE_HAIKU)
    ensures Named(a, Haiku)
  {
    hide Named;
    HaikuLongNames();
    OtherName("haiku");
    OtherName("haiku-4.5");
  }

  lemma OpenAiNames(a: string)
    requires a in Names(GPT_4O)
    ensures Named(a, Haiku)
  {
    hide Named;
    OtherName("gpt-4o");
    OtherName("openai-4o");
  }

  lemma OpenAiMiniLongName()
    ensures Named("openai-4o-mini", Haiku)
  {
    hide Named;
    OtherName("openai-4o-mini");
  }

  lemma OpenAiMiniNames(a: string)
    requires a in Names(GPT_4O_MINI)
    ensures Named(a, Haiku)
  {
    hide Named;
    OtherName("gpt-4o-mini");
    OpenAiMiniLongName();
  }

  lemma BuiltInNames(e: Entry, a: string)
    requires e in BUILT_IN_MODELS && a in Names(e)
    ensures Key(a) == a && ModelIdToTier(a) == TierOf(e)
    ensures TierOf(e) == Opus ==> 't' !in a
  {
    hide Key, ModelIdToTier;
    if e == CLAUDE_OPUS {
      OpusNames(a);
      OpusNames(e.id);
    } else if e == CLAUDE_SONNET {
      SonnetNames(a);
      SonnetNames(e.id);
    } else if e == CLAUDE_HAIKU {
      HaikuNames(a);
      HaikuNames(e.id);
    } else if e == GPT_4O {
      OpenAiNames(a);
      OpenAiNames(e.id);
    } else {
      OpenAiMiniNames(a);
      OpenAiMiniNames(e.id);
    }
  }

  lemma BuiltInIsNamedAfterTier()
    ensures NamedAfterTier(BUILT_IN_MODELS)
  {
    forall e, a | e in BUILT_IN_MODELS && a in Names(e) ensures ModelIdToTier(Key(a)) == TierOf(e) {
      BuiltInNames(e, a);
    }
  }

  /** Of the built-in models: judged below exactly if a capital hides the word of the tier. */
  lemma BuiltInJudgedIff(index: Index, raw: string)
    requires IsIndex(BUILT_IN_MODELS, index) && ResolveModel(BUILT_IN_MODELS, index, raw).Some?
    ensures var t := TierOf(ResolveModel(BUILT_IN_MODELS, index, raw).value);
            ModelIdToTier(raw) == if t == Haiku || !Includes(raw, Word(t)) then Haiku else t
  {
    hide Trim, Includes;
    var models := BUILT_IN_MODELS;
    BuiltInIsNamedAfterTier();
    JudgedBelowIff(models, index, raw);
    var e := ResolveModel(models, index, raw).value;
    if TierOf(e) == Opus && !Includes(raw, "opus") {
      OpusIsNoSonnet(index, raw);
    }
  }

  lemma OpusIsNoSonnet(index: Index, raw: string)
    requires IsIndex(BUILT_IN_MODELS, index) && ResolveModel(BUILT_IN_MODELS, index, raw).Some?
    requires TierOf(ResolveModel(BUILT_IN_MODELS, index, raw).value) == Opus
    ensures !Includes(raw, "sonnet")
  {
    hide Trim, Includes;
    var models := BUILT_IN_MODELS;
    var e := ResolveModel(models, index, raw).value;
    TrimKeepsTier(raw);
    if GetModel(models, Trim(raw)).Some? {
      GetModelHas(models, Trim(raw));
      BuiltInNames(e, e.id);
      NoLetter(e.id, "sonnet", 't', 5);
    } else {
      var k := Lower(Trim(raw));
      assert Lookup(index, k) == FindAlias(models, k);
      FindAliasHas(models, k);
      var a :| a in Names(e) && Key(a) == k;
      BuiltInNames(e, a);
      NoLetter(a, "sonnet", 't', 5);
      NormalizingRaises(raw);
    }
  }
}
