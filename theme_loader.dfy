/**
 * `ThemeLoader`: a cache of loaded themes keyed by the requested domain id,
 * and a set of asset keys (font keys and image URLs) already preloaded.
 * The two static fields become the fields of one `Loader` object. The
 * browser effects that follow a fresh asset key (adding a stylesheet link,
 * creating an `Image`) are not modelled; the preloaders report instead
 * whether the key was fresh and, for a font, the stylesheet URL it builds.
 */
module ThemeLoader {
  import opened Options
  import opened ThemeRegistry

  /** A character of the class `["']`. */
  predicate IsQuote(c: char) {
    c == '"' || c == '\''
  }

  /** The first quote at or after `i`, or `|s|` when there is none. */
  function NextQuote(s: string, i: nat): (q: nat)
    requires i <= |s|
    ensures i <= q <= |s| && (q < |s| ==> IsQuote(s[q]))
    ensures forall j :: i <= j < q ==> !IsQuote(s[j])
    decreases |s| - i
  {
    if i == |s| || IsQuote(s[i]) then i else NextQuote(s, i + 1)
  }

  /**
   * `s[p..q+1]` is a match of `["']([^"']+)["']`: a quote, one or more
   * characters that are not quotes, and a quote.
   */
  predicate QuotedRun(s: string, p: nat, q: nat) {
    p + 1 < q < |s| && IsQuote(s[p]) && IsQuote(s[q])
    && forall j :: p < j < q ==> !IsQuote(s[j])
  }

  /**
   * The capture of the leftmost match of `["']([^"']+)["']` starting at or
   * after `p`. Since the repeated class excludes the closing delimiter, the
   * run ends at the next quote and no backtracking is needed.
   */
  function FirstQuoted(s: string, p: nat): (r: Option<string>)
    requires p <= |s|
    decreases |s| - p
  {
    if p + 1 >= |s| then None
    else if IsQuote(s[p]) && !IsQuote(s[p + 1]) && NextQuote(s, p + 1) < |s| then
      Some(s[p + 1..NextQuote(s, p + 1)])
    else FirstQuoted(s, p + 1)
  }

  /**
   * The font name of a CSS family list: the text inside its first quoted
   * run, or the whole family string when it has none. The capture is never
   * empty, so the `||` fallback applies only when the match fails.
   */
  function FontName(fontFamily: string): string {
    match FirstQuoted(fontFamily, 0)
    case Some(name) => name
    case None => fontFamily
  }

  /** The leftmost quoted run at or after `p` is the one `FirstQuoted` captures. */
  lemma {:induction false} FirstQuotedFinds(s: string, p: nat, a: nat, b: nat)
    requires p <= a && QuotedRun(s, a, b)
    requires forall a': nat, b': nat :: p <= a' < a ==> !QuotedRun(s, a', b')
    ensures FirstQuoted(s, p) == Some(s[a + 1..b])
    decreases a - p
  {
    if p < a {
      assert !QuotedRun(s, p, NextQuote(s, p + 1));
      FirstQuotedFinds(s, p + 1, a, b);
    } else {
      assert !IsQuote(s[p + 1]);
      assert NextQuote(s, p + 1) == b;
    }
  }

  /** With no quoted run at or after `p`, nothing is captured. */
  lemma {:induction false} FirstQuotedNone(s: string, p: nat)
    requires p <= |s|
    requires forall a: nat, b: nat :: p <= a ==> !QuotedRun(s, a, b)
    ensures FirstQuoted(s, p) == None
    decreases |s| - p
  {
    if p + 1 < |s| {
      assert !QuotedRun(s, p, NextQuote(s, p + 1));
      FirstQuotedNone(s, p + 1);
    }
  }

  /** The font name is the inside of the leftmost quoted run. */
  lemma FontNameQuoted(fontFamily: string, a: nat, b: nat)
    requires QuotedRun(fontFamily, a, b)
    requires forall a': nat, b': nat :: a' < a ==> !QuotedRun(fontFamily, a', b')
    ensures FontName(fontFamily) == fontFamily[a + 1..b]
  {
    FirstQuotedFinds(fontFamily, 0, a, b);
  }

  /** Without a quoted run the font name is the whole family string. */
  lemma FontNameUnquoted(fontFamily: string)
    requires forall a: nat, b: nat :: !QuotedRun(fontFamily, a, b)
    ensures FontName(fontFamily) == fontFamily
  {
    FirstQuotedNone(fontFamily, 0);
  }

  /** The asset key a font family is recorded under. */
  function FontKey(fontFamily: string): string {
    "font-" + FontName(fontFamily)
  }

  /** `s.replace(/ /g, '+')`. */
  function ReplaceSpaces(s: string): (r: string)
    ensures |r| == |s|
    ensures forall i :: 0 <= i < |s| ==> r[i] == (if s[i] == ' ' then '+' else s[i])
  {
    if s == [] then [] else [if s[0] == ' ' then '+' else s[0]] + ReplaceSpaces(s[1..])
  }

  const FontHrefPrefix := "https://fonts.googleapis.com/css2?family="
  const FontHrefSuffix := ":wght@400;500;600;700&display=swap"

  /** The Google Fonts stylesheet URL requested for a font family. */
  function FontHref(fontFamily: string): string {
    FontHrefPrefix + ReplaceSpaces(FontName(fontFamily)) + FontHrefSuffix
  }

  /**
   * The stylesheet URL is the fixed prefix, then the font name with every
   * space turned into `+` and every other character kept, then the fixed suffix.
   */
  lemma FontHrefShape(fontFamily: string) returns (m: string)
    ensures FontHref(fontFamily) == FontHrefPrefix + m + FontHrefSuffix
    ensures |m| == |FontName(fontFamily)| && ' ' !in m
    ensures forall i :: 0 <= i < |m| ==> (m[i] == '+' <==> FontName(fontFamily)[i] in " +")
    ensures forall i :: 0 <= i < |m| && m[i] != '+' ==> m[i] == FontName(fontFamily)[i]
  {
    m := ReplaceSpaces(FontName(fontFamily));
  }

  /** The set of the elements of `s`. */
  function Elements(s: seq<string>): (r: set<string>)
    ensures forall x :: x in r <==> x in s
  {
    if s == [] then {} else Elements(s[..|s| - 1]) + {s[|s| - 1]}
  }

  lemma ElementsAppend(a: seq<string>, b: seq<string>)
    ensures Elements(a + b) == Elements(a) + Elements(b)
  {
  }

  /** The single element of a present, non-empty string; `undefined` and `''` are falsy. */
  function Truthy(value: Option<string>): seq<string> {
    if value.Some? && value.value != "" then [value.value] else []
  }

  /** The image URLs preloaded for a theme, in order: avatars, then patterns, dropping the falsy ones. */
  function ImageUrls(theme: Theme): seq<string> {
    Truthy(Some(theme.avatars.assistant)) + Truthy(Some(theme.avatars.user))
    + Truthy(theme.patterns.background) + Truthy(theme.patterns.decoration)
  }

  /** The font keys preloaded for a theme, in order: heading, body, then a truthy code font. */
  function FontKeys(theme: Theme): seq<string> {
    [FontKey(theme.fonts.heading), FontKey(theme.fonts.body)]
    + (if theme.fonts.code.Some? && theme.fonts.code.value != "" then [FontKey(theme.fonts.code.value)] else [])
  }

  /** The font keys as a set. */
  lemma FontKeysElements(theme: Theme)
    ensures Elements(FontKeys(theme))
      == {FontKey(theme.fonts.heading), FontKey(theme.fonts.body)}
         + (if theme.fonts.code.Some? && theme.fonts.code.value != "" then {FontKey(theme.fonts.code.value)} else {})
  {
  }

  /** Every asset key preloading a theme records. */
  function AssetKeys(theme: Theme): set<string> {
    Elements(FontKeys(theme) + ImageUrls(theme))
  }

  /**
   * The keys preloading a theme records: the heading and body font keys, the
   * code font key when a non-empty code font is declared, and each non-empty
   * URL among the two avatars and the two patterns.
   */
  lemma AssetKeysMembers(theme: Theme, k: string)
    ensures k in AssetKeys(theme) <==>
      k == FontKey(theme.fonts.heading) || k == FontKey(theme.fonts.body)
      || (theme.fonts.code.Some? && theme.fonts.code.value != "" && k == FontKey(theme.fonts.code.value))
      || (k != "" && (k == theme.avatars.assistant || k == theme.avatars.user
          || theme.patterns.background == Some(k) || theme.patterns.decoration == Some(k)))
  {
    assert k in AssetKeys(theme) <==> k in FontKeys(theme) + ImageUrls(theme);
    FontKeysMembers(theme, k);
    ImageUrlsMembers(theme, k);
  }

  /** The font keys are the heading's, the body's and a truthy code font's. */
  lemma FontKeysMembers(theme: Theme, k: string)
    ensures k in FontKeys(theme) <==>
      k == FontKey(theme.fonts.heading) || k == FontKey(theme.fonts.body)
      || (theme.fonts.code.Some? && theme.fonts.code.value != "" && k == FontKey(theme.fonts.code.value))
  {
  }

  /** The image URLs are the truthy ones among the avatars and the patterns. */
  lemma ImageUrlsMembers(theme: Theme, k: string)
    ensures k in ImageUrls(theme) <==>
      k != "" && (k == theme.avatars.assistant || k == theme.avatars.user
                  || theme.patterns.background == Some(k) || theme.patterns.decoration == Some(k))
  {
  }

  class Loader {
    var cache: map<string, Theme>
    var assetCache: set<string>

    /** Every cached theme is the registry's answer for the id it was requested under. */
    ghost predicate Valid()
      reads this
    {
      forall d :: d in cache ==> cache[d] == GetTheme(d)
    }

    constructor()
      ensures Valid()
      ensures cache == map[] && assetCache == {}
    {
      cache := map[];
      assetCache := {};
    }

    /**
     * `ThemeLoader.load`: the cached theme on a hit, with nothing changed;
     * otherwise the registry's theme, cached under the requested id, with its
     * assets preloaded.
     */
    method Load(domainId: string) returns (theme: Theme)
      requires Valid()
      modifies this
      ensures Valid()
      ensures theme == GetTheme(domainId)
      ensures domainId in cache
      ensures domainId in old(cache) ==> cache == old(cache) && assetCache == old(assetCache)
      ensures domainId !in old(cache) ==>
        cache == old(cache)[domainId := theme] && assetCache == old(assetCache) + AssetKeys(theme)
    {
      if domainId in cache {
        return cache[domainId];
      }
      theme := GetTheme(domainId);
      cache := cache[domainId := theme];
      PreloadAssets(theme);
    }

    /** `preloadAssets`: the heading, body and code fonts, then each truthy image URL. */
    method PreloadAssets(theme: Theme)
      modifies this
      ensures cache == old(cache)
      ensures assetCache == old(assetCache) + AssetKeys(theme)
    {
      PreloadFonts(theme);
      ElementsAppend(FontKeys(theme), ImageUrls(theme));
      PreloadImages(ImageUrls(theme));
    }

    /** The font half of `preloadAssets`: heading, body, then a truthy code font. */
    method PreloadFonts(theme: Theme)
      modifies this
      ensures cache == old(cache)
      ensures assetCache == old(assetCache) + Elements(FontKeys(theme))
    {
      var _ := PreloadFont(theme.fonts.heading);
      var _ := PreloadFont(theme.fonts.body);
      if theme.fonts.code.Some? && theme.fonts.code.value != "" {
        var _ := PreloadFont(theme.fonts.code.value);
      }
      FontKeysElements(theme);
    }

    /** `images.forEach(url => this.preloadImage(url))`. */
    method PreloadImages(images: seq<string>)
      modifies this
      ensures cache == old(cache)
      ensures assetCache == old(assetCache) + Elements(images)
    {
      for i := 0 to |images|
        invariant cache == old(cache)
        invariant assetCache == old(assetCache) + Elements(images[..i])
      {
        var _ := PreloadImage(images[i]);
        assert images[..i + 1][..i] == images[..i];
      }
      assert images[..|images|] == images;
    }

    /**
     * `preloadFont`: records the font's key once. On a fresh key it returns
     * the stylesheet URL the page would then link; on a repeat it does nothing.
     */
    method PreloadFont(fontFamily: string) returns (href: Option<string>)
      modifies this
      ensures cache == old(cache)
      ensures assetCache == old(assetCache) + {FontKey(fontFamily)}
      ensures href == if FontKey(fontFamily) in old(assetCache) then None else Some(FontHref(fontFamily))
    {
      var fontName := FontName(fontFamily);
      var cacheKey := "font-" + fontName;
      if cacheKey in assetCache {
        return None;
      }
      assetCache := assetCache + {cacheKey};
      href := Some(FontHrefPrefix + ReplaceSpaces(fontName) + FontHrefSuffix);
    }

    /** `preloadImage`: records the URL once; `isNew` says whether an image load would start. */
    method PreloadImage(url: string) returns (isNew: bool)
      modifies this
      ensures cache == old(cache)
      ensures assetCache == old(assetCache) + {url}
      ensures isNew <==> url !in old(assetCache)
    {
      if url in assetCache {
        return false;
      }
      assetCache := assetCache + {url};
      return true;
    }
  }

  /** A family list that opens with a quoted, non-empty name is named by it, whatever follows. */
  lemma QuotedFamilyName(quote: char, name: string, rest: string)
    requires IsQuote(quote) && name != [] && forall j :: 0 <= j < |name| ==> !IsQuote(name[j])
    ensures FontName([quote] + name + [quote] + rest) == name
  {
    var s := [quote] + name + [quote] + rest;
    assert forall j :: 0 < j < |name| + 1 ==> s[j] == name[j - 1];
    assert s[1..|name| + 1] == name;
    FontNameQuoted(s, 0, |name| + 1);
  }
}
