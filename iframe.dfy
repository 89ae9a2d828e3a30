/**
 * `extractIframeFromMatch` (match-bot.js): looks for the stream player on a
 * match's detail page by trying ten selectors in a fixed order and taking the
 * first element whose `src` is usable and not an advertisement.
 *
 * The detail page is an input: `None` when fetching or loading it failed (the
 * function then returns null), otherwise a `Page` that gives, for a selector,
 * the attributes of the first element it matches (cheerio's `.first()`).
 */
module Iframes {
  import opened Wrappers
  import opened Text

  /** The attributes of a matched element; each may be absent. */
  datatype Element = Element(
    src: Option<string>,
    width: Option<string>,
    height: Option<string>,
    allowFullscreen: Option<string>,
    frameBorder: Option<string>)

  /** A parsed detail page: the first element each selector matches, if any. */
  type Page = string -> Option<Element>

  /** The embed settings rendered into the post. */
  datatype Iframe = Iframe(src: string, width: string, height: string, allowFullscreen: bool, frameBorder: string)

  /** The selectors, most specific first. */
  const Selectors: seq<string> := [
    "iframe[src*=\"youtube\"]",
    "iframe[src*=\"twitch\"]",
    "iframe[src*=\"stream\"]",
    "iframe[src*=\"player\"]",
    "iframe[src*=\"embed\"]",
    ".video-player iframe",
    ".player-container iframe",
    "#player iframe",
    ".stream-player iframe",
    "iframe"
  ]

  /** An element is taken when its `src` is non-empty and mentions neither `ads` nor `advertisement`. */
  predicate Acceptable(e: Element) {
    Present(e.src) && !Contains(e.src.value, "ads") && !Contains(e.src.value, "advertisement")
  }

  predicate AcceptableAt(candidates: seq<Option<Element>>, k: int) {
    0 <= k < |candidates| && candidates[k].Some? && Acceptable(candidates[k].value)
  }

  /** What each selector yields on `page`, in selector order. */
  function Candidates(page: Page): seq<Option<Element>>
  {
    seq(|Selectors|, k requires 0 <= k < |Selectors| => page(Selectors[k]))
  }

  /** The position of the first acceptable candidate at or after `from`, if any. */
  function FirstAcceptable(candidates: seq<Option<Element>>, from: nat): (r: Option<nat>)
    requires from <= |candidates|
    ensures r.Some? ==> from <= r.value && AcceptableAt(candidates, r.value)
    ensures forall k :: from <= k < (if r.Some? then r.value else |candidates|) ==>
      !AcceptableAt(candidates, k)
    decreases |candidates| - from
  {
    if from == |candidates| then None
    else if AcceptableAt(candidates, from) then Some(from)
    else FirstAcceptable(candidates, from + 1)
  }

  /** A protocol-relative address `//host/path` gets the `https:` scheme; any other is kept. */
  function NormalizeSrc(src: string): (r: string)
    ensures StartsWith(src, "//") ==> r == "https:" + src
    ensures !StartsWith(src, "//") ==> r == src
    ensures !StartsWith(r, "//")
  {
    if StartsWith(src, "//") then
      var r := "https:" + src;
      assert r[..2] != "//" by { assert r[..2][0] == 'h'; }
      r
    else src
  }

  /** Normalising a normalised address changes nothing. */
  lemma NormalizeSrcIdempotent(src: string)
    ensures NormalizeSrc(NormalizeSrc(src)) == NormalizeSrc(src)
  {
  }

  /**
   * The `https:` scheme cannot start `ads` or `advertisement`, so normalising an
   * address neither adds nor removes a mention of either.
   */
  lemma NormalizeSrcKeepsMentions(src: string, word: string)
    requires word == "ads" || word == "advertisement"
    ensures Contains(NormalizeSrc(src), word) <==> Contains(src, word)
  {
    if StartsWith(src, "//") {
      ContainsAfterPrefix("https:", src, word);
    }
  }

  /**
   * The embed built from an accepted element: its address normalised, and
   * width, height and frame border defaulting to `100%`, `400` and `0`;
   * full screen is allowed exactly when the attribute is present, whatever its value.
   */
  function ToIframe(e: Element): (r: Iframe)
    requires Acceptable(e)
    ensures !Contains(r.src, "ads") && !Contains(r.src, "advertisement")
    ensures r.src == NormalizeSrc(e.src.value)
    ensures !StartsWith(r.src, "//")
    ensures r.width == AttrOr(e.width, "100%") && r.width != ""
    ensures r.height == AttrOr(e.height, "400") && r.height != ""
    ensures r.frameBorder == AttrOr(e.frameBorder, "0") && r.frameBorder != ""
    ensures r.allowFullscreen <==> e.allowFullscreen.Some?
  {
    NormalizeSrcKeepsMentions(e.src.value, "ads");
    NormalizeSrcKeepsMentions(e.src.value, "advertisement");
    Iframe(
      src := NormalizeSrc(e.src.value),
      width := AttrOr(e.width, "100%"),
      height := AttrOr(e.height, "400"),
      allowFullscreen := e.allowFullscreen.Some?,
      frameBorder := AttrOr(e.frameBorder, "0"))
  }

  /**
   * The embed found for `matchUrl`: none without a non-empty URL or a page;
   * otherwise the one built from the first acceptable candidate, if any.
   */
  function ResolveIframe(matchUrl: Option<string>, page: Option<Page>): (r: Option<Iframe>)
    ensures !Present(matchUrl) || page.None? ==> r.None?
    ensures r.Some? ==> !Contains(r.value.src, "ads") && !Contains(r.value.src, "advertisement")
  {
    if !Present(matchUrl) || page.None? then None
    else
      var candidates := Candidates(page.value);
      match FirstAcceptable(candidates, 0)
      case None => None
      case Some(k) => Some(ToIframe(candidates[k].value))
  }

  /** The embed comes from the first selector, in list order, whose element is acceptable. */
  lemma ResolveTakesFirstAcceptable(matchUrl: Option<string>, page: Page, k: nat)
    requires Present(matchUrl)
    requires k < |Selectors| && page(Selectors[k]).Some? && Acceptable(page(Selectors[k]).value)
    requires forall j :: 0 <= j < k ==> !(page(Selectors[j]).Some? && Acceptable(page(Selectors[j]).value))
    ensures ResolveIframe(matchUrl, Some(page)) == Some(ToIframe(page(Selectors[k]).value))
  {
    var candidates := Candidates(page);
    assert AcceptableAt(candidates, k);
    assert forall j :: 0 <= j < k ==> !AcceptableAt(candidates, j);
    var r := FirstAcceptable(candidates, 0);
    assert r.Some? && r.value <= k;
    assert r == Some(k);
  }

  /** No embed when no selector yields an acceptable element. */
  lemma ResolveNoneWithoutAcceptable(matchUrl: Option<string>, page: Page)
    requires forall k :: 0 <= k < |Selectors| ==> !(page(Selectors[k]).Some? && Acceptable(page(Selectors[k]).value))
    ensures ResolveIframe(matchUrl, Some(page)) == None
  {
  }

  /**
   * Selectors after the chosen one are not consulted: two pages that agree up to
   * and including the first acceptable selector give the same embed.
   */
  lemma ResolveIgnoresLaterSelectors(matchUrl: Option<string>, p: Page, q: Page, k: nat)
    requires k < |Selectors| && p(Selectors[k]).Some? && Acceptable(p(Selectors[k]).value)
    requires forall j :: 0 <= j < k ==> !(p(Selectors[j]).Some? && Acceptable(p(Selectors[j]).value))
    requires forall j :: 0 <= j <= k ==> p(Selectors[j]) == q(Selectors[j])
    ensures ResolveIframe(matchUrl, Some(p)) == ResolveIframe(matchUrl, Some(q))
  {
    if Present(matchUrl) {
      ResolveTakesFirstAcceptable(matchUrl, p, k);
      ResolveTakesFirstAcceptable(matchUrl, q, k);
    }
  }

  /** `extractIframeFromMatch`: the selector loop that stops at the first acceptable element. */
  method ExtractIframe(matchUrl: Option<string>, page: Option<Page>) returns (iframe: Option<Iframe>)
    ensures iframe == ResolveIframe(matchUrl, page)
  {
    if matchUrl.None? || matchUrl.value == "" {
      return None;
    }
    if page.None? {
      return None;
    }
    var query := page.value;
    ghost var candidates := Candidates(query);
    iframe := None;
    for i := 0 to |Selectors|
      invariant FirstAcceptable(candidates, i) == FirstAcceptable(candidates, 0)
      invariant iframe == None
    {
      var found := query(Selectors[i]);
      if found.Some? {
        var src := found.value.src;
        if src.Some? && src.value != "" && !Contains(src.value, "ads") && !Contains(src.value, "advertisement") {
          iframe := Some(ToIframe(found.value));
          break;
        }
      }
    }
  }
}
