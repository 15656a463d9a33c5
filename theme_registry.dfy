/**
 * The theme registry: a constant record from domain id to theme, the list of
 * domains a user can pick, and the lookup with its `default` fallback.
 * Only the theme fields the loader reads are transcribed; colours,
 * animations, opacities and metadata are not part of this model.
 */
module ThemeRegistry {
  import opened Options

  datatype Fonts = Fonts(heading: string, body: string, code: Option<string>)
  datatype Avatars = Avatars(assistant: string, user: string)
  datatype Patterns = Patterns(background: Option<string>, decoration: Option<string>)
  datatype Theme = Theme(id: string, name: string, fonts: Fonts, avatars: Avatars, patterns: Patterns)

  const MahabharataTheme := Theme(
    "mahabharata", "Mahabharata",
    Fonts("\"Cinzel\", serif", "\"Lora\", serif", Some("\"Fira Code\", monospace")),
    Avatars("/avatars/mahabharata/krishna.png", "/avatars/mahabharata/arjuna.png"),
    Patterns(Some("/patterns/mahabharata/lotus-mandala.svg"), Some("/patterns/mahabharata/om-border.svg")))

  const BibleTheme := Theme(
    "bible", "Holy Bible",
    Fonts("\"Crimson Text\", serif", "\"EB Garamond\", serif", Some("\"Courier Prime\", monospace")),
    Avatars("/avatars/bible/angel.png", "/avatars/bible/pilgrim.png"),
    Patterns(Some("/patterns/bible/cross-subtle.svg"), Some("/patterns/bible/vine-border.svg")))

  const QuranTheme := Theme(
    "quran", "Al-Quran",
    Fonts("\"Amiri\", serif", "\"Noto Naskh Arabic\", serif", Some("\"Fira Code\", monospace")),
    Avatars("/avatars/quran/scholar.png", "/avatars/quran/believer.png"),
    Patterns(Some("/patterns/quran/geometric-islamic.svg"), Some("/patterns/quran/arabesque.svg")))

  const DefaultTheme := Theme(
    "default", "Knowledge Assistant",
    Fonts("\"Inter\", sans-serif", "\"Inter\", sans-serif", Some("\"Fira Code\", monospace")),
    Avatars("/avatars/default/assistant.png", "/avatars/default/user.png"),
    Patterns(None, None))

  /** The registry's own properties, in the order `Object.keys` lists them. */
  const Registry: seq<(string, Theme)> := [
    ("mahabharata", MahabharataTheme),
    ("bible", BibleTheme),
    ("quran", QuranTheme),
    ("default", DefaultTheme)
  ]

  function Keys(entries: seq<(string, Theme)>): (ks: seq<string>)
    ensures |ks| == |entries|
    ensures forall i :: 0 <= i < |entries| ==> ks[i] == entries[i].0
  {
    if entries == [] then [] else [entries[0].0] + Keys(entries[1..])
  }

  /** The own property `key` of a record, if there is one. */
  function Find(entries: seq<(string, Theme)>, key: string): (r: Option<Theme>)
    ensures r.Some? <==> key in Keys(entries)
    ensures r.Some? ==> (key, r.value) in entries
  {
    if entries == [] then None
    else if entries[0].0 == key then Some(entries[0].1)
    else Find(entries[1..], key)
  }

  /** `Array.prototype.filter` keeping the keys other than `"default"`. */
  function WithoutDefault(ks: seq<string>): (r: seq<string>)
    ensures forall k :: k in r <==> k in ks && k != "default"
  {
    if ks == [] then []
    else if ks[0] == "default" then WithoutDefault(ks[1..])
    else [ks[0]] + WithoutDefault(ks[1..])
  }

  /** The domains offered for selection: every registry key except `"default"`. */
  function AvailableDomains(): seq<string> {
    WithoutDefault(Keys(Registry))
  }

  /**
   * `getTheme` as intended: the registered theme for `domainId`, or the
   * default theme. A theme object is always truthy, so `||` falls back
   * exactly when the lookup finds nothing.
   */
  function GetTheme(domainId: string): Theme {
    match Find(Registry, domainId)
    case Some(t) => t
    case None => DefaultTheme
  }

  /** The selectable domains are the three sacred-text domains, in declaration order. */
  lemma AvailableDomainsValue()
    ensures AvailableDomains() == ["mahabharata", "bible", "quran"]
  {
    var ks := ["mahabharata", "bible", "quran", "default"];
    assert Keys(Registry) == ks;
    assert ks[3..] == ["default"] && WithoutDefault(ks[3..]) == [];
    assert ks[2..] == ["quran", "default"] && WithoutDefault(ks[2..]) == ["quran"];
    assert ks[1..] == ["bible", "quran", "default"] && WithoutDefault(ks[1..]) == ["bible", "quran"];
  }

  /** Every selectable domain is a registry key, and `"default"` is never selectable. */
  lemma AvailableDomainsRegistered()
    ensures "default" !in AvailableDomains()
    ensures forall d :: d in AvailableDomains() ==> d in Keys(Registry)
  {
  }

  /** No key occurs twice. */
  predicate DistinctKeys(entries: seq<(string, Theme)>) {
    forall a, b :: 0 <= a < b < |entries| ==> entries[a].0 != entries[b].0
  }

  /** With distinct keys, each key finds its own entry. */
  lemma {:induction false} FindEntry(entries: seq<(string, Theme)>, i: nat)
    requires DistinctKeys(entries) && i < |entries|
    ensures Find(entries, entries[i].0) == Some(entries[i].1)
    decreases i
  {
    if i > 0 {
      assert entries[0].0 != entries[i].0;
      assert forall a :: 0 <= a < |entries| - 1 ==> entries[1..][a] == entries[a + 1];
      FindEntry(entries[1..], i - 1);
    }
  }

  lemma RegistryKeysDistinct()
    ensures DistinctKeys(Registry)
  {
    var ks := Keys(Registry);
    assert ks == ["mahabharata", "bible", "quran", "default"];
    assert forall a, b :: 0 <= a < b < |ks| ==> ks[a] != ks[b];
  }

  /** Each key of the registry looks up its own entry. */
  lemma GetThemeRegistered()
    ensures forall i :: 0 <= i < |Registry| ==> GetTheme(Registry[i].0) == Registry[i].1
  {
    RegistryKeysDistinct();
    forall i | 0 <= i < |Registry|
      ensures GetTheme(Registry[i].0) == Registry[i].1
    {
      FindEntry(Registry, i);
    }
  }

  /** Registry keys agree with theme ids; any other id, the empty one included, gets the default theme. */
  lemma GetThemeId(domainId: string)
    ensures domainId in Keys(Registry) ==> GetTheme(domainId).id == domainId
    ensures domainId !in Keys(Registry) ==> GetTheme(domainId) == DefaultTheme
    ensures GetTheme(domainId).id == domainId || GetTheme(domainId) == DefaultTheme
  {
    assert Keys(Registry) == ["mahabharata", "bible", "quran", "default"];
  }

  /** The names an object literal inherits from `Object.prototype`. */
  const ObjectPrototypeMembers: set<string> := {
    "constructor", "__defineGetter__", "__defineSetter__", "hasOwnProperty",
    "__lookupGetter__", "__lookupSetter__", "isPrototypeOf", "propertyIsEnumerable",
    "toString", "valueOf", "__proto__", "toLocaleString"
  }

  /** No inherited name is a registry key. */
  lemma PrototypeMembersUnregistered()
    ensures forall d :: d in ObjectPrototypeMembers ==> d !in Keys(Registry)
  {
    var ks := Keys(Registry);
    assert ks == ["mahabharata", "bible", "quran", "default"];
    forall d | d in ObjectPrototypeMembers
      ensures d !in ks
    {
    }
  }

  /** What `THEME_REGISTRY[domainId] || THEME_REGISTRY.default` evaluates to. */
  datatype LookupValue = ThemeValue(theme: Theme) | InheritedMember(name: string)

  /**
   * `getTheme` as written: bracket access on a plain object also finds the
   * members inherited from `Object.prototype`, which are all truthy, so for
   * those names the fallback is skipped and a non-theme value is returned.
   */
  function GetThemeAsWritten(domainId: string): (r: LookupValue)
    ensures r.InheritedMember? <==> domainId in ObjectPrototypeMembers
  {
    PrototypeMembersUnregistered();
    match Find(Registry, domainId)
    case Some(t) => ThemeValue(t)
    case None =>
      if domainId in ObjectPrototypeMembers then InheritedMember(domainId)
      else ThemeValue(DefaultTheme)
  }

  /** The as-written lookup hands back `Object` itself for the domain id `"constructor"`. */
  lemma ConstructorIsNotATheme()
    ensures GetThemeAsWritten("constructor") == InheritedMember("constructor")
    ensures GetTheme("constructor") == DefaultTheme
  {
    assert "constructor" !in Keys(Registry) by {
      assert Keys(Registry) == ["mahabharata", "bible", "quran", "default"];
    }
  }

  /** Away from the inherited names the two lookups agree. */
  lemma AsWrittenAgrees(domainId: string)
    requires domainId !in ObjectPrototypeMembers
    ensures GetThemeAsWritten(domainId) == ThemeValue(GetTheme(domainId))
  {
  }
}
