/**
 * The provider registry (src/providers/__init__.py): `create_providers`
 * fills an insertion-ordered dictionary from whichever API keys are truthy.
 * The dictionary is an ordered sequence of (name, provider) pairs here; the
 * names are distinct, so it has one entry per key.
 *
 * Inworld AI, Hume and Speechify are network clients only; the registry needs
 * their names, their stored keys and, for Hume, its default voice version.
 */
module Registry {
  import opened Wrappers
  import Base
  import Cartesia
  import ElevenLabs

  /** The five backends, in the order `create_providers` inserts them. */
  datatype Kind = CartesiaKind | InworldKind | ElevenLabsKind | HumeKind | SpeechifyKind {
    function Rank(): nat
    {
      match this
      case CartesiaKind => 0
      case InworldKind => 1
      case ElevenLabsKind => 2
      case HumeKind => 3
      case SpeechifyKind => 4
    }
  }

  const Order: seq<Kind> := [CartesiaKind, InworldKind, ElevenLabsKind, HumeKind, SpeechifyKind]

  /** `HumeProvider.DEFAULT_VERSION`. */
  const HumeDefaultVersion: string := "2"

  /** A constructed adapter.  Only Cartesia and ElevenLabs define `settings`
      and `can_emote`. */
  datatype Provider =
    | CartesiaProvider(cartesia: Cartesia.CartesiaProvider)
    | InworldProvider(inworldKey: Option<string>)
    | ElevenLabsProvider(elevenLabs: ElevenLabs.ElevenLabsProvider)
    | HumeProvider(humeKey: Option<string>, version: string)
    | SpeechifyProvider(speechifyKey: Option<string>)
  {
    function Kind(): Kind
    {
      match this
      case CartesiaProvider(_) => CartesiaKind
      case InworldProvider(_) => InworldKind
      case ElevenLabsProvider(_) => ElevenLabsKind
      case HumeProvider(_, _) => HumeKind
      case SpeechifyProvider(_) => SpeechifyKind
    }

    /** The `name` property of each adapter. */
    function Name(): string
    {
      match this
      case CartesiaProvider(p) => p.Name()
      case InworldProvider(_) => "Inworld AI"
      case ElevenLabsProvider(p) => p.Name()
      case HumeProvider(_, _) => "Hume"
      case SpeechifyProvider(_) => "Speechify"
    }

    /** The `api_key` field the base constructor stores. */
    function ApiKey(): Option<string>
    {
      match this
      case CartesiaProvider(p) => p.apiKey
      case InworldProvider(k) => k
      case ElevenLabsProvider(p) => p.apiKey
      case HumeProvider(k, _) => k
      case SpeechifyProvider(k) => k
    }

    /** The `settings` property, absent on the adapters that do not define it. */
    function Settings(): Option<Base.Settings>
    {
      match this
      case CartesiaProvider(p) => Some(p.Settings())
      case ElevenLabsProvider(p) => Some(p.Settings())
      case _ => None
    }

    /** The `can_emote` property, absent on the adapters that do not define it. */
    function CanEmote(): Option<bool>
    {
      match this
      case CartesiaProvider(p) => Some(p.CanEmote())
      case ElevenLabsProvider(p) => Some(p.CanEmote())
      case _ => None
    }

    /** `validate_api_key`, inherited from the base class. */
    function ValidateApiKey(): bool
    {
      Base.ValidateApiKey(ApiKey())
    }
  }

  /** The keyword arguments of `create_providers`. */
  datatype Keys = Keys(
    cartesia: Option<string>, inworld: Option<string>, elevenLabs: Option<string>,
    hume: Option<string>, speechify: Option<string>)
  {
    function For(k: Kind): Option<string>
    {
      match k
      case CartesiaKind => cartesia
      case InworldKind => inworld
      case ElevenLabsKind => elevenLabs
      case HumeKind => hume
      case SpeechifyKind => speechify
    }
  }

  /** Python truthiness of an optional string: present and non-empty. */
  predicate Truthy(key: Option<string>)
  {
    key.Some? && key.value != []
  }

  /** The adapter each branch constructs: one positional argument, the key, so
      every optional model falls back to its default. */
  function Build(k: Kind, key: string): (p: Provider)
    ensures p.Kind() == k
  {
    match k
    case CartesiaKind => CartesiaProvider(Cartesia.NewProvider(Some(key), None))
    case InworldKind => InworldProvider(Some(key))
    case ElevenLabsKind => ElevenLabsProvider(ElevenLabs.NewProvider(Some(key), None))
    case HumeKind => HumeProvider(Some(key), HumeDefaultVersion)
    case SpeechifyKind => SpeechifyProvider(Some(key))
  }

  /** The entries the registry holds for the backends in `kinds`: one for
      each backend whose key is truthy, in the order of `kinds`. */
  function Select(kinds: seq<Kind>, keys: Keys): seq<(string, Provider)>
  {
    if kinds == [] then []
    else
      var k := kinds[0];
      var rest := Select(kinds[1..], keys);
      if Truthy(keys.For(k)) then
        var p := Build(k, keys.For(k).value);
        [(p.Name(), p)] + rest
      else rest
  }

  /** `create_providers`: the empty dictionary filled by five conditional
      inserts, one per backend, in the fixed order. */
  method CreateProviders(keys: Keys) returns (providers: seq<(string, Provider)>)
    ensures providers == Select(Order, keys)
  {
    providers := [];
    if Truthy(keys.cartesia) {
      providers := providers + [("Cartesia", Build(CartesiaKind, keys.cartesia.value))];
    }
    assert providers == EntryFor(CartesiaKind, keys);
    if Truthy(keys.inworld) {
      providers := providers + [("Inworld AI", Build(InworldKind, keys.inworld.value))];
    }
    ghost var two := providers;
    assert two == EntryFor(CartesiaKind, keys) + EntryFor(InworldKind, keys);
    if Truthy(keys.elevenLabs) {
      providers := providers + [("ElevenLabs", Build(ElevenLabsKind, keys.elevenLabs.value))];
    }
    ghost var three := providers;
    assert three == two + EntryFor(ElevenLabsKind, keys);
    if Truthy(keys.hume) {
      providers := providers + [("Hume", Build(HumeKind, keys.hume.value))];
    }
    ghost var four := providers;
    assert four == three + EntryFor(HumeKind, keys);
    if Truthy(keys.speechify) {
      providers := providers + [("Speechify", Build(SpeechifyKind, keys.speechify.value))];
    }
    assert providers == four + EntryFor(SpeechifyKind, keys);
    SelectUnrolled(keys);
    Regroup(EntryFor(CartesiaKind, keys), EntryFor(InworldKind, keys), EntryFor(ElevenLabsKind, keys),
      EntryFor(HumeKind, keys), EntryFor(SpeechifyKind, keys));
  }

  lemma Regroup<T>(a: seq<T>, b: seq<T>, c: seq<T>, d: seq<T>, e: seq<T>)
    ensures a + b + c + d + e == a + (b + (c + (d + e)))
  {
  }

  /** The entry one backend contributes. */
  function EntryFor(k: Kind, keys: Keys): seq<(string, Provider)>
  {
    if Truthy(keys.For(k)) then [(Build(k, keys.For(k).value).Name(), Build(k, keys.For(k).value))] else []
  }

  /** `Select` over the fixed order, written out backend by backend. */
  lemma SelectUnrolled(keys: Keys)
    ensures Select(Order, keys) ==
      EntryFor(CartesiaKind, keys) + (EntryFor(InworldKind, keys) + (EntryFor(ElevenLabsKind, keys) +
      (EntryFor(HumeKind, keys) + EntryFor(SpeechifyKind, keys))))
  {
    var t := [InworldKind, ElevenLabsKind, HumeKind, SpeechifyKind];
    SelectFromInworld(keys);
    assert Order == [CartesiaKind] + t;
    SelectCons(CartesiaKind, t, keys);
  }

  lemma SelectFromInworld(keys: Keys)
    ensures Select([InworldKind, ElevenLabsKind, HumeKind, SpeechifyKind], keys) ==
      EntryFor(InworldKind, keys) + (EntryFor(ElevenLabsKind, keys) + (EntryFor(HumeKind, keys) + EntryFor(SpeechifyKind, keys)))
  {
    var t := [ElevenLabsKind, HumeKind, SpeechifyKind];
    SelectFromElevenLabs(keys);
    assert [InworldKind, ElevenLabsKind, HumeKind, SpeechifyKind] == [InworldKind] + t;
    SelectCons(InworldKind, t, keys);
  }

  lemma SelectFromElevenLabs(keys: Keys)
    ensures Select([ElevenLabsKind, HumeKind, SpeechifyKind], keys) ==
      EntryFor(ElevenLabsKind, keys) + (EntryFor(HumeKind, keys) + EntryFor(SpeechifyKind, keys))
  {
    var t := [HumeKind, SpeechifyKind];
    SelectFromHume(keys);
    assert [ElevenLabsKind, HumeKind, SpeechifyKind] == [ElevenLabsKind] + t;
    SelectCons(ElevenLabsKind, t, keys);
  }

  lemma SelectFromHume(keys: Keys)
    ensures Select([HumeKind, SpeechifyKind], keys) == EntryFor(HumeKind, keys) + EntryFor(SpeechifyKind, keys)
  {
    SelectCons(SpeechifyKind, [], keys);
    assert [SpeechifyKind] + [] == [SpeechifyKind];
    assert EntryFor(SpeechifyKind, keys) + [] == EntryFor(SpeechifyKind, keys);
    assert [HumeKind, SpeechifyKind] == [HumeKind] + [SpeechifyKind];
    SelectCons(HumeKind, [SpeechifyKind], keys);
  }

  lemma SelectCons(k: Kind, t: seq<Kind>, keys: Keys)
    ensures Select([k] + t, keys) == EntryFor(k, keys) + Select(t, keys)
  {
    assert ([k] + t)[1..] == t;
  }

  // ---------------------------------------------------------------------------
  // What the registry promises

  /** A backend is registered exactly when its key is truthy and it is one of
      the backends asked for. */
  lemma SelectMembership(kinds: seq<Kind>, keys: Keys, k: Kind)
    ensures (exists i :: 0 <= i < |Select(kinds, keys)| && Select(kinds, keys)[i].1.Kind() == k)
      <==> k in kinds && Truthy(keys.For(k))
  {
    SelectEntries(kinds, keys);
    if k in kinds && Truthy(keys.For(k)) {
      var i := SelectComplete(kinds, keys, k);
    }
  }

  /** The position of a backend whose key is truthy. */
  lemma {:induction false} SelectComplete(kinds: seq<Kind>, keys: Keys, k: Kind) returns (i: nat)
    requires k in kinds && Truthy(keys.For(k))
    ensures i < |Select(kinds, keys)| && Select(kinds, keys)[i].1.Kind() == k
  {
    var rest := Select(kinds[1..], keys);
    if kinds[0] == k {
      i := 0;
    } else {
      assert k in kinds[1..];
      var j := SelectComplete(kinds[1..], keys, k);
      if Truthy(keys.For(kinds[0])) {
        i := j + 1;
        assert Select(kinds, keys)[i] == rest[j];
      } else {
        i := j;
      }
    }
  }

  /** Every entry is keyed by its provider's `name`, holds the key given for
      its backend, and that key is truthy. */
  lemma {:induction false} SelectEntries(kinds: seq<Kind>, keys: Keys)
    ensures forall i :: 0 <= i < |Select(kinds, keys)| ==>
      var e := Select(kinds, keys)[i];
      e.0 == e.1.Name() && e.1.ApiKey() == keys.For(e.1.Kind()) && Truthy(e.1.ApiKey()) &&
      e.1.Kind() in kinds
  {
    if kinds != [] {
      SelectEntries(kinds[1..], keys);
    }
  }

  /** Entries appear in the order of `kinds`. */
  lemma {:induction false} SelectOrdered(kinds: seq<Kind>, keys: Keys)
    requires forall i, j :: 0 <= i < j < |kinds| ==> kinds[i].Rank() < kinds[j].Rank()
    ensures forall i, j :: 0 <= i < j < |Select(kinds, keys)| ==>
      Select(kinds, keys)[i].1.Kind().Rank() < Select(kinds, keys)[j].1.Kind().Rank()
  {
    if kinds != [] {
      SelectOrdered(kinds[1..], keys);
      SelectEntries(kinds[1..], keys);
      var s := Select(kinds, keys);
      var rest := Select(kinds[1..], keys);
      forall j | 0 <= j < |rest| ensures kinds[0].Rank() < rest[j].1.Kind().Rank() {
        var k := rest[j].1.Kind();
        var m :| 0 <= m < |kinds[1..]| && kinds[1..][m] == k;
        assert kinds[m + 1] == k;
      }
      if Truthy(keys.For(kinds[0])) {
        assert s[1..] == rest;
      }
    }
  }

  /** There are never more entries than backends asked for. */
  lemma {:induction false} SelectLength(kinds: seq<Kind>, keys: Keys)
    ensures |Select(kinds, keys)| <= |kinds|
  {
    if kinds != [] {
      SelectLength(kinds[1..], keys);
    }
  }

  /** The registry `create_providers` returns: a backend is present exactly
      when its key is truthy; entries follow the order Cartesia, Inworld AI,
      ElevenLabs, Hume, Speechify; each is keyed by the provider's `name` and
      holds exactly the key it was given; there are at most five. */
  lemma RegistryShape(keys: Keys)
    ensures var r := Select(Order, keys);
      |r| <= 5 &&
      (forall k: Kind :: (exists i :: 0 <= i < |r| && r[i].1.Kind() == k) <==> Truthy(keys.For(k))) &&
      (forall i, j :: 0 <= i < j < |r| ==> r[i].1.Kind().Rank() < r[j].1.Kind().Rank()) &&
      (forall i :: 0 <= i < |r| ==> r[i].0 == r[i].1.Name() && r[i].1.ApiKey() == keys.For(r[i].1.Kind()))
  {
    SelectLength(Order, keys);
    forall k: Kind ensures (exists i :: 0 <= i < |Select(Order, keys)| && Select(Order, keys)[i].1.Kind() == k) <==> Truthy(keys.For(k)) {
      SelectMembership(Order, keys, k);
      assert k in Order by {
        assert k == Order[k.Rank()];
      }
    }
    SelectOrdered(Order, keys);
    SelectEntries(Order, keys);
  }

  /** Names are distinct, so the dictionary has one entry per provider. */
  lemma NamesDistinct(keys: Keys)
    ensures var r := Select(Order, keys);
      forall i, j :: 0 <= i < j < |r| ==> r[i].0 != r[j].0
  {
    RegistryShape(keys);
    var r := Select(Order, keys);
    forall i, j | 0 <= i < j < |r| ensures r[i].0 != r[j].0 {
      NameFromKind(r[i].1, r[j].1);
    }
  }

  /** Different backends have different names. */
  lemma NameFromKind(p: Provider, q: Provider)
    requires p.Kind() != q.Kind()
    ensures p.Name() != q.Name()
  {
    assert "Cartesia"[0] != "Inworld AI"[0] && "Cartesia"[0] != "ElevenLabs"[0];
    assert "Cartesia"[0] != "Hume"[0] && "Cartesia"[0] != "Speechify"[0];
    assert "Inworld AI"[0] != "ElevenLabs"[0] && "Inworld AI"[0] != "Hume"[0];
    assert "Inworld AI"[0] != "Speechify"[0] && "ElevenLabs"[0] != "Hume"[0];
    assert "ElevenLabs"[0] != "Speechify"[0] && "Hume"[0] != "Speechify"[0];
  }

  /** No key at all gives the empty registry. */
  lemma NoKeysNoProviders()
    ensures Select(Order, Keys(None, None, None, None, None)) == []
  {
    RegistryShape(Keys(None, None, None, None, None));
  }

  /** The registry is built without a model argument: Cartesia runs sonic-3 and
      ElevenLabs eleven_v3, so both can emote, and Hume uses version 2. */
  lemma RegistryDefaults(keys: Keys)
    ensures forall i :: 0 <= i < |Select(Order, keys)| ==>
      var p := Select(Order, keys)[i].1;
      (p.CartesiaProvider? ==> p.cartesia.model == Cartesia.DefaultModel && p.cartesia.CanEmote()) &&
      (p.ElevenLabsProvider? ==> p.elevenLabs.model == ElevenLabs.DefaultModel && p.elevenLabs.CanEmote()) &&
      (p.HumeProvider? ==> p.version == "2")
  {
    DefaultsOf(Order, keys);
  }

  lemma {:induction false} DefaultsOf(kinds: seq<Kind>, keys: Keys)
    ensures forall i :: 0 <= i < |Select(kinds, keys)| ==>
      var p := Select(kinds, keys)[i].1;
      (p.CartesiaProvider? ==> p.cartesia.model == Cartesia.DefaultModel && p.cartesia.CanEmote()) &&
      (p.ElevenLabsProvider? ==> p.elevenLabs.model == ElevenLabs.DefaultModel && p.elevenLabs.CanEmote()) &&
      (p.HumeProvider? ==> p.version == "2")
  {
    if kinds != [] {
      DefaultsOf(kinds[1..], keys);
    }
  }

  /** Registration tests truthiness, not `validate_api_key`: a key of blanks
      registers a provider whose own validation then fails. */
  lemma BlankKeyRegisters()
    ensures var r := Select(Order, Keys(Some(" "), None, None, None, None));
      |r| == 1 && r[0].0 == "Cartesia" && !r[0].1.ValidateApiKey()
  {
    var keys := Keys(Some(" "), None, None, None, None);
    RegistryShape(keys);
    SelectLength(Order, keys);
    var r := Select(Order, keys);
    assert !Base.ValidateApiKey(Some(" "));
  }
}
