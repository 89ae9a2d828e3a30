# Match bot: listing, iframe and post decisions

This project is a Dafny model of the decision logic in `match-bot.js`, a script that
publishes football matches to a blog. The script reads the listing of tomorrow's matches
from a football site through a relay and parses the match elements with cheerio. For each
match it first searches the blog for the match's title and skips the match when the search
returns any post at all. Otherwise it looks for a stream player on the match's detail page
and inserts a blog post. At the end it counts the posts it created.

Network calls, the HTML parser and the blog API are replaced by inputs:

- The site is a function `Site` from a listing URL to an `Option<seq<RawMatch>>`.
  `fetchMatches` reads the page at the URL its day selects. `None` means fetching or
  loading that page threw, and `fetchMatches` then returns `[]`. Otherwise there is one
  `RawMatch` per `.AY_Match` element, in document order. A `RawMatch` holds the untrimmed texts cheerio's
  `text()` reads (`""` when nothing matched) and the optional attributes `attr()` reads.
- The detail page is an `Option<Page>`. `None` means fetching or loading it threw. A
  `Page` maps a selector to the attributes of the first element it matches (cheerio's
  `.first()`), or `None` when nothing matches.
- The blog is a function `world: nat -> Remote`. For the match at position `i` of the run,
  it gives the answer of `checkPostExists`: whether the blog's search for the title returned
  any post (a similar title is enough, and a failed search reads as no post), the detail page, and the result of the insert request (`None` when the request
  threw).

Modules:

- `Wrappers` defines `Option`.
- `Text` defines JavaScript's `trim` (with JavaScript's full whitespace set), `includes`,
  `startsWith`, truthiness, `||` defaulting and decimal number rendering.
- `Listing` models `fetchMatches`. `Iframes` models `extractIframeFromMatch`. `Publisher`
  models `createPost` and `createMatchPosts`.

The three loops of the script are methods with loop invariants: the `.each` walk
(`FetchMatches`), the selector loop with `break` (`ExtractIframe`) and the counting loop
(`CreateMatchPosts`). Each method is proved equal to a specification function, and the
properties are proved as lemmas about those functions. The rest of the script is pure and
is modelled as functions.

Two behaviours of the code are worth noting:

- `DetailLink` puts the site origin in front of every non-empty `href`, absolute ones
  included (match-bot.js:81).
- An iframe `src` is accepted when it is non-empty and mentions neither `ads` nor
  `advertisement` (match-bot.js:136). So a `src` containing `uploads` is rejected too.

## Model

| member | source | states |
|---|---|---|
| `Listing.SourceUrl` | match-bot.js:25-34 | `yesterday` and `today` pick their own listing URL; every other day value, including the default `tomorrow`, picks the matches-tomorrow URL (both directions) |
| `Text.TrimSpec` | match-bot.js:47-48 | the trimmed text is empty exactly when the raw text is all JavaScript whitespace; otherwise it neither starts nor ends with whitespace |
| `Text.ContainsOccurs` | match-bot.js:51 | the `includes` scan answers true exactly when the searched text occurs at some position |
| `Listing.LazyLogo` | match-bot.js:50-58 | the logo is either `src` or `data-src`; a present, non-empty `src` containing `data:image/gif;base64` is always replaced by `data-src`, and `src` is replaced only in that case (home and away are resolved separately) |
| `Listing.KeptIndicesExact` | match-bot.js:66-69 | the kept positions are exactly the elements whose trimmed home and away names are both non-empty, in increasing document order |
| `Listing.NormalizeIsKeptRecords` | match-bot.js:45-88 | the collected list is, in order, one record per kept element, built from that element and its position among all `.AY_Match` elements; dropped elements contribute nothing |
| `Listing.BuildRecordFields` | match-bot.js:47-82 | a record's id is `day-index` and its date is the day; the team names are the trimmed texts, and a kept element's record has both team names; time, league and broadcaster are the trimmed texts, or `TBD`, `Football Match` and `TBD` when the text is blank, so never empty; each logo is the `data-src` (or empty) when the `src` is a present placeholder containing `data:image/gif;base64`, and the `src` (or empty) otherwise, so empty exactly when no usable address was found; the match link exists exactly when `href` is non-empty and is then the site origin followed by `href` |
| `Listing.DetailLink` | match-bot.js:64-81 | there is a link exactly when `href` is present and non-empty, and the link is the site origin followed by the unchanged `href` |
| `Text.DecimalRoundTrip` | match-bot.js:72 | reading back the decimal text of an index gives the index |
| `Listing.MatchIdInjective` | match-bot.js:45-72 | within one day, two element positions with the same id are the same position |
| `Listing.NormalizeRecordsWellFormed` | match-bot.js:45-84 | every collected record has non-empty team names and the requested day, and ids are pairwise distinct within one call |
| `Listing.FetchMatches` | match-bot.js:25-95 | reads the listing page at the URL the day selects; returns `[]` when that page could not be read, and otherwise the `.each` loop collects exactly the normalised records of its elements |
| `Iframes.FirstAcceptable` | match-bot.js:132-148 | finds the first candidate, in order, whose element has a non-empty `src` containing neither `ads` nor `advertisement`; when there is none, no candidate is acceptable |
| `Iframes.NormalizeSrc` | match-bot.js:138 | a `src` starting with `//` gets exactly `https:` in front, and any other `src` is unchanged; the result never starts with `//` |
| `Iframes.NormalizeSrcIdempotent` | match-bot.js:138 | normalising an already normalised address changes nothing |
| `Text.ContainsAfterPrefix` | match-bot.js:136-138 | putting a prefix in front of a text neither adds nor removes a match of a word whose first character does not occur in the prefix |
| `Iframes.NormalizeSrcKeepsMentions` | match-bot.js:136-138 | adding `https:` neither adds nor removes a mention of `ads` or `advertisement` |
| `Iframes.ToIframe` | match-bot.js:137-143 | the embed's `src` is the element's `src` normalised, mentions neither `ads` nor `advertisement` and does not start with `//`; width, height and frameborder default to `100%`, `400` and `0` and are never empty; full screen is allowed exactly when the attribute is present |
| `Iframes.ResolveIframe` | match-bot.js:98-154 | there is no embed when the match URL is absent or empty or the page could not be read; a returned `src` never mentions `ads` or `advertisement` |
| `Iframes.ResolveTakesFirstAcceptable` | match-bot.js:132-146 | the embed is built from the first selector, in list order, whose element is acceptable |
| `Iframes.ResolveNoneWithoutAcceptable` | match-bot.js:117-150 | when no selector yields an acceptable element, the result is null |
| `Iframes.ResolveIgnoresLaterSelectors` | match-bot.js:145 | selectors after the first acceptable one are not consulted: pages that agree up to it give the same embed |
| `Iframes.ExtractIframe` | match-bot.js:98-155 | the selector loop with `break` computes exactly the resolved embed |
| `Publisher.DateLabel` | match-bot.js:222 | `today` and `tomorrow` get their own caption, and every other date gets the yesterday caption (both directions) |
| `Publisher.LogoImage` | match-bot.js:217 | a logo image is emitted exactly for a non-empty logo address |
| `Publisher.PlayerSection` | match-bot.js:187-210 | the player section embeds the iframe exactly when one was found; otherwise it shows the notice carrying the match link, if any |
| `Publisher.CreatePost` | match-bot.js:157-256 | when the title search returns any post, the result is null and no insert is sent; otherwise one insert whose title is `home vs away - league` is sent and the result is what the insert returned; a non-null result always comes with an insert |
| `Publisher.CreatePostBody` | match-bot.js:185-234 | an inserted post embeds a player exactly when the detail page yields an acceptable iframe, and otherwise shows the notice with the match link; logos appear exactly when non-empty; the caption follows the record's date |
| `Publisher.CountTrueIsCardinality` | match-bot.js:278-284 | counting the flags front to back gives the number of positions whose flag is set |
| `Publisher.CreatedCountIsCreatedMatches` | match-bot.js:278-284 | `createdCount` is the number of matches for which `createPost` returned non-null |
| `Publisher.CreatedCountSkipsExisting` | match-bot.js:157-181 | `createdCount` is at most the number of matches whose title search returned no post |
| `Publisher.CreateMatchPosts` | match-bot.js:258-293 | the loop over tomorrow's matches returns the count of non-null `createPost` results (the script logs this count and returns nothing) |
| `Publisher.RunPostsSayTomorrow` | match-bot.js:271 | every post inserted by the run carries the tomorrow caption, because the run fetches the `tomorrow` listing |

## Left out

- HTTP through the relay (`axios`, `encodeURIComponent`, timeouts, the User-Agent header) is not modelled. Its outcome is the page input, with `None` for a thrown error.
- Cheerio parsing and CSS selector matching are not modelled. Their results are the `RawMatch` and `Page` inputs.
- The Blogger API calls (`makeAuthenticatedRequest`, the search in `checkPostExists`, the insert POST in `createPost`) are not modelled. They become the `Remote` answers. Answers for different matches are independent inputs, so the model does not tie a later title search to an earlier insert.
- Environment variables and `process.exit(1)` on missing configuration or a top-level error are not modelled. They are process plumbing.
- The 3-second `setTimeout` between matches and all console logging are not modelled. They have no effect on results.
- The per-element `try`/`catch` in the `.each` walk is not modelled, because reading strings from a `RawMatch` cannot throw. The outer catches are modelled as `None` inputs giving `[]` or `null`.
- The HTML text of the post (markup, the fixed Arabic captions, the `allow` list) is not modelled. `PostBody` records only the structural choices: logo images, the day caption, embed versus notice, and the fields shown.
- The JavaScript default parameter `day = 'tomorrow'` is not modelled. `FetchMatches` takes the day explicitly, and `CreateMatchPosts` passes `"tomorrow"` as the script does.
