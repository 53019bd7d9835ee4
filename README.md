# Restaurant site content layer, modelled in Dafny

The site is a Next.js front end over a Strapi headless CMS. This project models
the part of it that is logic rather than rendering:

- **The content normalisation layer** (`lib/strapi.ts`). It turns loosely
  shaped CMS documents (PascalCase fields, any of them possibly missing, media
  references in four wire shapes) into stable view models. It covers:
  - media references;
  - the header, hero, menu card and blog post documents;
  - the ordered component lists of the section single types, and the
    footer's link, social and Instagram lists;
  - the response policy of the generic fetcher `strapiFetch`, with its
    "warn once" flag;
  - the read wrappers, including the blog-post query and slug lookup;
  - the media URL helper.
- **Word truncation** (`lib/text.ts`).
- **The about-video helpers** (`components/AboutVideoSection.tsx`): the
  YouTube/Vimeo recogniser, the embed-URL builder, the native-video decision
  and the headline line splitting.
- **The CMS upload middleware** that repairs `fileInfo` entries sent as JSON
  text (`cms/src/middlewares/upload-fileinfo-fix.ts`).

## Modelling choices

**Values.** Raw documents are datatypes with `Option` fields, where `None` is
`undefined`. Loose JSON is `Json.Value`. Numbers are integers. JSON parsing is
a function parameter `parse: string -> Option<Value>`, where `None` means a
syntax error.

**JavaScript semantics** are written out where the source depends on them:
- `??` skips only `null`/`undefined`;
- truthiness;
- `typeof x === 'object'` holds for arrays too;
- `split(/\s+/)` of `""` is `[""]`;
- `slice(0, m)` with a negative `m`;
- leftmost, greedy regex matching;
- ASCII case folding for `/i`.

**Sorting.** `Array.prototype.sort` with `(a, b) => a.order - b.order` is
modelled as a stable insertion sort (`OrderSort.SortByKey`). It is specified
by three facts: it is sorted, it is a permutation, and for every key the
entries with that key keep their input order. `OrderSort.StableSortUnique`
shows that these three facts determine the output, so the model does not
depend on the algorithm.

**State.** State the source changes in place is a class:
- `StrapiFetch.StrapiClient` holds the module-level flag and the warnings
  printed so far.
- `UploadFileInfoFix.UploadRequest` holds the request body the middleware
  rewrites, and the bodies handed on to the next handler.

**Media reference order.** In `normalizeStrapiMedia` a non-nullish `data`
envelope is unwrapped first. Only then is the direct `url` tried, and then
`attributes.url`. A `data` envelope therefore wins over a `url` beside it. A
present but empty `url` hides `attributes.url`. The model follows the code.

**403 and 404 with a `null` body.** For a 403 or 404 whose body is the JSON
literal `null`, `strapiFetch` reads `.data` of `null`, which throws. The model
keeps that as the `NullEnvelope` error, and every read wrapper turns it into
its empty answer.

## Model

| member | source | states |
|---|---|---|
| Json.Get | lib/strapi.ts:122-124 | a property is present exactly when the value is an object holding that key, and is then that key's value |
| StrapiMedia.NormalizeMedia | lib/strapi.ts:120-132 | no media for a falsy or non-object reference; a found URL is non-empty and is, verbatim, the string at `url`, `attributes.url`, `data.url` or `data.attributes.url` |
| StrapiMedia.NormalizeMediaFinds | lib/strapi.ts:122-131 | whatever else a reference carries, a non-empty URL at `url`, else at `attributes.url`, of a `data` object or of the reference itself when `data` is nullish, is returned unchanged |
| StrapiMedia.NormalizeMediaMisses | lib/strapi.ts:122-131 | when the slot the source reads (`url` of `data ?? media`, else its `attributes.url`) holds anything but a non-empty string, there is no media, whatever a lower-priority path carries |
| StrapiMedia.ChosenSlotWins | lib/strapi.ts:122-131 | `{url: 5, attributes: {url: "a"}}` and `{data: {}, url: "a"}` both give no media |
| StrapiMedia.DataNotObjectHides | lib/strapi.ts:122-125 | a non-nullish `data` that is not an object gives no media, even beside a `url` |
| StrapiMedia.MediaShapesAgree | lib/strapi.ts:120-132 | `{url}`, `{attributes:{url}}`, `{data:{url}}` and `{data:{attributes:{url}}}` all give the same media |
| StrapiMedia.DataEnvelopeFirst | lib/strapi.ts:122 | a `data` envelope takes precedence over a `url` beside it |
| StrapiMedia.EmptyUrlHidesAttributes | lib/strapi.ts:124-125 | an empty `url` is not skipped by `??`, so `attributes.url` is never consulted and there is no media |
| StrapiMedia.NullEnvelopeIgnored | lib/strapi.ts:122 | a null `data` falls back to the reference itself |
| StrapiMedia.NoMediaCases | lib/strapi.ts:121-125 | empty objects, non-string URLs, arrays and a lone null envelope give no media |
| StrapiMedia.BaseUrl | lib/strapi.ts:3-5 | one trailing slash of the configured URL is removed and any other URL is kept; with nothing left, development gives `http://localhost:1337` and production gives "" (not configured) |
| StrapiMedia.MediaUrl | lib/strapi.ts:1343-1347 | nothing for an absent or empty path; `http…` paths unchanged; other paths under the base URL with exactly one slash, nothing without a base URL |
| StrapiMedia.MediaUrlEndsWithPath | lib/strapi.ts:1343-1347 | a media URL always ends with the given path |
| OrderSort.Insert | lib/strapi.ts:213 | insertion keeps the multiset, grows the list by one and keeps it sorted |
| OrderSort.SortByKey | lib/strapi.ts:213 | the result has the input's length, is a permutation of it and is sorted ascending by order |
| OrderSort.SortByKeyStable | lib/strapi.ts:213 | entries with equal order keep their input order |
| OrderSort.StableSortUnique | lib/strapi.ts:213 | two sorted lists with the same per-order groups are equal, so the stable sort's result is determined |
| OrderSort.SortedUnchanged | lib/strapi.ts:213 | already sorted input comes back unchanged |
| OrderSort.SortThree | lib/strapi.ts:213 | three entries out of order are arranged by hand-computed order |
| StrapiDocuments.LabelledLinks | lib/strapi.ts:206-212 | a link survives exactly when its label is non-empty, with a missing target read as "#" and a missing order as 0 |
| StrapiDocuments.ToNavLink | lib/strapi.ts:207-211 | a missing label is "", a missing target "#" and a missing order 0; present fields are kept |
| StrapiDocuments.LabelledLinksAppend | lib/strapi.ts:207-212 | the filter keeps input order: the survivors of `a + b` are those of `a` followed by those of `b` |
| StrapiDocuments.LabelledLinksOne | lib/strapi.ts:207-212 | a single raw link gives itself, defaults filled in, when its label is non-empty, and nothing otherwise |
| StrapiDocuments.NavLinks | lib/strapi.ts:205-214 | header links are a stable ascending sort of the labelled links, all with labels; no list gives no links |
| StrapiDocuments.NavLinkSurvivors | lib/strapi.ts:206-213 | which raw links appear, and with which defaults |
| StrapiDocuments.NavLinksWithoutOrder | lib/strapi.ts:213 | links without any order keep their input order |
| StrapiDocuments.NormalizeHeader | lib/strapi.ts:202-222 | no document gives no header; the logo is the normalised media; logo link defaults to "/"; navigation links are absent rather than empty, otherwise the sorted link list; call-to-action text and link are carried over |
| StrapiDocuments.HeaderDefaults | lib/strapi.ts:215-221 | an empty header document normalises to all defaults |
| StrapiDocuments.NormalizeHero | lib/strapi.ts:134-149 | id defaults to 0; the misspelt secondary link field takes priority over the correct one; image is the normalised media; document id, title, subtitle, both calls to action, the primary link and seo are carried over |
| StrapiDocuments.HeroTypoFieldWins | lib/strapi.ts:145 | the misspelt field wins when both are present; the correct one is used when the misspelt one is missing |
| StrapiDocuments.NormalizeMenu | lib/strapi.ts:180-190 | id and order default to 0, the icon is the normalised media, document id, title and description are carried over |
| StrapiDocuments.MediaList | lib/strapi.ts:1044 | every item that is a media reference is kept and nothing else: each kept media is the normalisation of some item, and every item that normalises is kept |
| StrapiDocuments.MediaListAppend | lib/strapi.ts:1044 | the filter keeps input order: the media of `a + b` are those of `a` followed by those of `b` |
| StrapiDocuments.MediaListKeepsAll | lib/strapi.ts:1044 | when every item is a media reference none is dropped, and the i-th media is the normalisation of the i-th item |
| StrapiDocuments.Gallery | lib/strapi.ts:1042-1046 | an array inside a `data` envelope, or else a bare array, is read as the gallery; null, missing, or an object without an array `data` gives no gallery |
| StrapiDocuments.NormalizeBlogPost | lib/strapi.ts:1038-1061 | no document gives none; id and order default to 0; featured is true only when `Featured` is true; image, detail image and gallery are normalised; document id, title, slug, date and excerpt are carried over; content is carried over, with a null `Content` read as absent |
| StrapiDocuments.GalleryShapesAgree | lib/strapi.ts:1042-1046 | a gallery inside a `data` envelope equals the bare one; null or missing gives none |
| StrapiSections.OrderedComponents | lib/strapi.ts:585-590 | every component kept, sorted stably ascending by order; no list or an empty list gives absent |
| StrapiSections.ToSignatureDish | lib/strapi.ts:573-581 | the image is normalised, a missing order is 0, the other fields are carried over |
| StrapiSections.NormalizeSignatureDishes | lib/strapi.ts:583-596 | no document gives none; the dishes are the ordered components, titles carried over |
| StrapiSections.ToAboutVideoFeature | lib/strapi.ts:699-706 | the icon is normalised, a missing order is 0, title and description are carried over |
| StrapiSections.NormalizeAboutVideoSection | lib/strapi.ts:708-722 | no document gives none; features are the ordered components; the background image is normalised |
| StrapiSections.ToAboutGuestStat | lib/strapi.ts:772-778 | a missing value or label is "", a missing order is 0 |
| StrapiSections.NormalizeAboutGuestSection | lib/strapi.ts:780-794 | no document gives none; stats are the ordered components with "" for a missing value or label |
| StrapiSections.ToDeliveryFeature | lib/strapi.ts:845-851 | the icon is normalised, a missing order is 0, the text is carried over |
| StrapiSections.NormalizeDeliverySection | lib/strapi.ts:853-869 | no document gives none; features are the ordered components; the three images are normalised |
| StrapiSections.StatsExample | lib/strapi.ts:772-794 | stats with orders 3, 1, 2 come out in order 1, 2, 3 |
| StrapiFooter.FooterNavLinks | lib/strapi.ts:1266-1273 | footer links are the header's link normalisation without the order, all labelled |
| StrapiFooter.ParseIcon | lib/strapi.ts:1277-1280 | one of the four known icon names is kept; anything else, missing included, becomes twitter |
| StrapiFooter.IconNameRoundTrip | lib/strapi.ts:1277-1280 | every icon is read back from its own name |
| StrapiFooter.LinkedSocial | lib/strapi.ts:1278-1284 | a link survives exactly when its target is not the empty string, missing read as "#" |
| StrapiFooter.ToOrderedSocialLink | lib/strapi.ts:1279-1283 | the icon is parsed, a missing target is "#" and a missing order 0 |
| StrapiFooter.LinkedSocialAppend | lib/strapi.ts:1278-1284 | the filter keeps input order: the survivors of `a + b` are those of `a` followed by those of `b` |
| StrapiFooter.LinkedSocialOne | lib/strapi.ts:1278-1284 | a single raw link gives itself, defaults filled in, unless its target is the empty string |
| StrapiFooter.SortedSocial | lib/strapi.ts:1285 | the surviving links, sorted stably by order |
| StrapiFooter.SocialLinks | lib/strapi.ts:1275-1287 | social links are the sorted survivors without order, none with an empty target |
| StrapiFooter.SocialLinkSurvivors | lib/strapi.ts:1275-1287 | which raw entries appear, with icon and target defaults |
| StrapiFooter.InstagramItems | lib/strapi.ts:1289-1300 | min(n, 4) items, the first four of the order-sorted list without their order |
| StrapiFooter.ToOrderedInstagramItem | lib/strapi.ts:1292-1296 | the image is normalised, the link carried over, a missing order is 0 |
| StrapiFooter.InstagramKeepsLowestOrders | lib/strapi.ts:1297-1298 | no item left out of the grid sorts before one kept in it |
| StrapiFooter.NormalizeFooter | lib/strapi.ts:1302-1317 | no document gives none; the logo is normalised; logo link defaults to "/"; each list is its normaliser; at most four Instagram items; description, the three titles and the copyright text are carried over |
| StrapiFetch.BodyJson | lib/strapi.ts:259-265 | an empty or unparsable body reads as `{}`; otherwise the parsed value |
| StrapiFetch.Envelope | lib/strapi.ts:268-279 | `{data: json.data ?? null}` with exactly one key; fails only for a null body |
| StrapiFetch.ClassifyResponse | lib/strapi.ts:259-282 | 2xx gives the parsed body; 404 and 403 give the envelope and never an HTTP error; every other status is an HTTP error carrying status, status text and body |
| StrapiFetch.OkNeverFails | lib/strapi.ts:259-282 | a 2xx answer never fails, and an empty body gives `{}` |
| StrapiFetch.MissingDocumentReadsNull | lib/strapi.ts:266-279 | a 404 or 403 without usable body reads as `{data: null}` |
| StrapiFetch.FetchOutcome | lib/strapi.ts:228-283 | not configured is an error; unreachable gives `{data: null}` in development and an error otherwise; an answer is classified |
| StrapiFetch.StrapiClient.constructor | lib/strapi.ts:225 | the flag starts false with nothing printed |
| StrapiFetch.StrapiClient.Fetch | lib/strapi.ts:228-283 | returns `FetchOutcome`; the flag only goes from false to true, on the first unreachable server in development, printing the warning exactly then; a 403 in development prints its warning every time; otherwise nothing is printed |
| StrapiReads.Payload | lib/strapi.ts:293-294 | the `data` member of a successful answer when it is not nullish |
| StrapiReads.ReadSingleton | lib/strapi.ts:286-302 | null on any error or nullish data; otherwise the normalisation of data |
| StrapiReads.FilterMap | lib/strapi.ts:362-364 | the values the normaliser accepts, and only those, at most one per entry |
| StrapiReads.FilterMapTotal | lib/strapi.ts:362-364 | when every entry normalises, all are kept in place |
| StrapiReads.FilterMapAppend | lib/strapi.ts:362-364 | the filter keeps input order: the values kept from `a + b` are those of `a` followed by those of `b` |
| StrapiReads.FilterMapOne | lib/strapi.ts:362-364 | a single entry gives its normalisation when that is not null, and nothing otherwise |
| StrapiReads.ReadCollection | lib/strapi.ts:351-371 | empty on any error or nullish data; otherwise the accepted entries of the list |
| StrapiReads.BlogPostsQuery | lib/strapi.ts:1066-1076 | pagination exactly for a positive limit, the Featured filter exactly when featured is given, fixed populate, sort and status |
| StrapiReads.BlogPostBySlug | lib/strapi.ts:1092-1110 | null for an empty slug, an error, non-array or empty data; otherwise the normalisation of the first entry |
| StrapiReads.BySlugFirstOnly | lib/strapi.ts:1102-1103 | answers that agree on their first entry give the same post |
| Text.Trim | lib/text.ts:4-5 | `trim()` gives an infix with no whitespace at either end and only whitespace before and after it |
| Text.TrimUnique | lib/text.ts:4-5 | only one infix has that property, so it determines `trim()` |
| Text.TrimTrimmed | lib/text.ts:5 | trimming trimmed text changes nothing |
| Text.Words | lib/text.ts:4 | every word is a non-empty run without whitespace; there are no words exactly when the text is all whitespace |
| Text.WordsSplitAtSpace | lib/text.ts:4 | a whitespace character separates words: the words of `a`, a blank and `b` are the words of `a` then those of `b` |
| Text.SplitOnSpaceRuns | lib/text.ts:4 | `split(/\s+/)` of trimmed text is `[""]` for "" and otherwise its words, each a non-empty run without whitespace |
| Text.WordsAtMostPieces | lib/text.ts:4 | the pieces are the words, except the one empty piece of "" |
| Text.SliceEnd | lib/text.ts:6 | the slice end lies within the list and equals the limit when it is in range |
| Text.TruncateWords | lib/text.ts:2-6 | "" for absent or empty text; the trimmed text when it has at most `maxWords` pieces; otherwise the first `maxWords` pieces joined by single spaces plus the ellipsis; a negative `maxWords` keeps all but the last `-maxWords` pieces (none when there are fewer) before the ellipsis, as `slice(0, maxWords)` does |
| Text.WordsOfJoin | lib/text.ts:6 | joining words with single spaces and splitting again gives the words back |
| Text.TruncatedShape | lib/text.ts:6 | a truncated result is trimmed and its words are the kept words, the ellipsis glued to the last |
| Text.TruncateWordsBound | lib/text.ts:1-6 | for `maxWords >= 1` the result has at most `maxWords` words, and exactly the first ones when it was cut |
| Text.TruncateWordsIdempotent | lib/text.ts:4-6 | for `maxWords >= 0` truncating twice equals truncating once |
| Text.TruncateNegative | lib/text.ts:6 | a negative limit drops that many words from the end and still appends the ellipsis |
| Text.NegativeLimitNotIdempotent | lib/text.ts:4-6 | with limit -1 and at least two words, truncating twice differs from truncating once |
| Text.JoinInjective | lib/text.ts:6 | different word lists join to different texts |
| AboutVideo.ContainsCI | components/AboutVideoSection.tsx:23 | a case-insensitive search succeeds exactly when the pattern occurs at some index |
| AboutVideo.IsYouTubeOrVimeo | components/AboutVideoSection.tsx:22-24 | true exactly when the URL contains youtube, youtu.be or vimeo, ignoring case |
| AboutVideo.FindMatch | components/AboutVideoSection.tsx:27-37 | finds the leftmost index where the prefix and at least one class character match, or reports that none exists |
| AboutVideo.RunEnd | components/AboutVideoSection.tsx:28-36 | greedy `+`: the longest run of class characters |
| AboutVideo.Capture | components/AboutVideoSection.tsx:28-36 | the captured group is a non-empty run of class characters right after the prefix that cannot be extended |
| AboutVideo.FirstCapture | components/AboutVideoSection.tsx:28-36 | `match(...)[1]` exists exactly when the pattern matches, and is the group of the leftmost match |
| AboutVideo.WatchHoldsId | components/AboutVideoSection.tsx:27-30 | every `youtube.com/watch?v=` match holds a `v=` match, so the null branch is never taken |
| AboutVideo.EmbedUrl | components/AboutVideoSection.tsx:26-40 | watch links give the YouTube player for the first `v=` value; otherwise youtu.be links give it for the path up to `?`; otherwise vimeo links give the Vimeo player for the digits; otherwise none |
| AboutVideo.WatchLinkExample | components/AboutVideoSection.tsx:27-30 | `youtube.com/watch?v=ab&t=1` embeds video ab |
| AboutVideo.ShortLinkExample | components/AboutVideoSection.tsx:31-34 | `youtu.be/ab?t=1` embeds video ab |
| AboutVideo.VimeoLinkExample | components/AboutVideoSection.tsx:35-38 | `vimeo.com/42` embeds Vimeo video 42 |
| AboutVideo.MatchMentions | components/AboutVideoSection.tsx:22-24 | a pattern match mentions every pattern its prefix starts with, in any case |
| AboutVideo.EmbedImpliesRecognised | components/AboutVideoSection.tsx:67-68 | every link with an embed form passes the recogniser, so the guard never hides one |
| AboutVideo.PlanVideo | components/AboutVideoSection.tsx:67-69 | a video is shown exactly when the trimmed link is non-empty; a non-empty link is native exactly when it has no embed form |
| AboutVideo.DisplayHeadline | components/AboutVideoSection.tsx:47 | a blank or missing headline falls back to the default; the result never starts with whitespace |
| AboutVideo.FindAmpersand | components/AboutVideoSection.tsx:49 | finds the leftmost whitespace-surrounded ampersand, or reports that none exists |
| AboutVideo.FindsLeftmostAmpersand | components/AboutVideoSection.tsx:49 | the search returns a match with none before it |
| AboutVideo.BreakAtAmpersand | components/AboutVideoSection.tsx:49 | the first whitespace-surrounded ampersand and its whitespace become " &" plus a line break; text before it is kept |
| AboutVideo.SplitLines | components/AboutVideoSection.tsx:50 | `split('\n')` gives pieces without line breaks that join back to the text |
| AboutVideo.SplitWithoutBreak | components/AboutVideoSection.tsx:50 | text without a line break is a single piece |
| AboutVideo.SplitAtBreak | components/AboutVideoSection.tsx:50 | a line break splits off the text before it |
| AboutVideo.NonEmpty | components/AboutVideoSection.tsx:50 | `filter(Boolean)` keeps exactly the non-empty pieces |
| AboutVideo.NonEmptyOne | components/AboutVideoSection.tsx:50 | a single piece is kept, once, exactly when it is non-empty; with `NonEmptyAppend` this fixes the filter's result |
| AboutVideo.NonEmptyAppend | components/AboutVideoSection.tsx:50 | the filter keeps input order: the pieces kept from `a + b` are those of `a` followed by those of `b` |
| AboutVideo.HeadlineLines | components/AboutVideoSection.tsx:46-51 | the lines are never empty, none is empty and none contains a line break |
| AboutVideo.HeadlineFallbackUnused | components/AboutVideoSection.tsx:51 | the fallback push never happens |
| AboutVideo.DefaultAlreadyBroken | components/AboutVideoSection.tsx:6 | the default headline already has its break after the ampersand |
| AboutVideo.DefaultHeadlineLines | components/AboutVideoSection.tsx:47-51 | the default headline shows as "Feel the authentic &" over "original taste from us" |
| UploadFileInfoFix.RepairEntry | cms/src/middlewares/upload-fileinfo-fix.ts:7-16 | non-text entries unchanged; text that parses to an object or array is replaced by it; other text is kept |
| UploadFileInfoFix.ParseFileInfoArray | cms/src/middlewares/upload-fileinfo-fix.ts:6-18 | length and order kept; an entry changes only from text into an object |
| UploadFileInfoFix.ParseFileInfoIdempotent | cms/src/middlewares/upload-fileinfo-fix.ts:6-18 | repairing twice is repairing once |
| UploadFileInfoFix.RepairedTop | cms/src/middlewares/upload-fileinfo-fix.ts:27-29 | only an array `fileInfo` is rewritten; every key is kept and no other changes |
| UploadFileInfoFix.UploadRequest.Handle | cms/src/middlewares/upload-fileinfo-fix.ts:21-35 | without a body only the next handler runs; otherwise `fileInfo` and `fields.fileInfo` are repaired where they are arrays, every other entry is left alone, and the next handler is called exactly once, with the rewritten body |

## Left out

- HTTP, `qs.stringify`, `JSON.parse`/`JSON.stringify`, `console` and `process.env` are left out. They are I/O or foreign libraries. The transport outcome, the parser and the configuration are parameters, and printed warnings are a log.
- The request URL and the error message texts are not modelled. Errors carry their data (status, status text, body, message) instead.
- The `raw as XDoc` casts are not modelled. They are unchecked at run time. The read wrappers take the normaliser as a function on `Json.Value`, and the normalisers take typed raw documents.
- The async wrappers' `console.error` in development is left out. It is output only, and each wrapper's empty answer is modelled.
- A `null` entry inside a component list makes the source throw a TypeError (for example `l.Label` on `null`). This is not modelled: raw lists hold documents.
- Numbers are integers. Fractional or NaN `Order` values and the decimal `price` are not modelled.
- `normalizeFeature`, `normalizeTestimonial`, `normalizeAboutSection`, the menu-dish, apps and contact-page normalisers, the simple section-title normalisers, `normalizeStrapiImage` and `submitContactForm` are not part of this model. They are field renamings of the same kind as the modelled ones, or I/O.
- The slug lookup's query object is not modelled. It is a constant record around the slug.
- Async ordering is not modelled. `Fetch` is one atomic step, so interleaved requests racing on the warned flag are not captured.
- The middleware's aliasing is not captured: `fields` is updated as a value inside the body, so other references to the same object are not modelled.
- React state, rendering, the modal and the copyright-year rewrite are left out. They are presentation or depend on the clock.
- Text.TruncateWordsBound: stated for `maxWords >= 1` only. With `maxWords` 0, non-empty text gives the lone ellipsis, which is one word.
- Text.TruncateWordsIdempotent: stated for `maxWords >= 0` only. `Text.NegativeLimitNotIdempotent` shows that it fails for negative limits.
- AboutVideo.IsYouTubeOrVimeo: case folding is ASCII only. This is exact for these ASCII patterns under non-Unicode `/i` matching.
