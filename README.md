# ai-answer-engine: URL locator, not-found classifier and middleware, in Dafny

This project models the deterministic core of the answer engine's chat
route and request middleware:

- the **URL locator** of the chat route, which takes the first
  `http://` or `https://` token of the user's message
  (`message.match(/(https?:\/\/[^\s]+)/g)` and then `urls[0]`);
- the **page scraping** of `fetchData`, which walks the rendered
  document with the selectors `title`, `h1, h2, h3`, `p`, `a` and `div`
  and pushes texts and non-empty link targets into arrays;
- the **not-found classifier**, which reports `"404"` when the title
  contains one of ten signature strings, or when a heading or paragraph
  equals one of them, and otherwise returns the page's title, headings,
  paragraphs, links and divs;
- the **middleware**, which derives a client identity as
  `x-forwarded-for || cf-connecting-ip || "127.0.0.1"` and passes every
  request on with `NextResponse.next()`, and its **path matcher**
  `/((?!_next/static|_next/image|favicon.ico).*)`.

Files: `wrappers.dfy` (Option), `jstext.dfy` (JavaScript's `\s`, line
terminators, `String.includes`, truthiness), `url_locator.dfy`,
`not_found.dfy`, `scrape.dfy`, `middleware.dfy`, `matcher.dfy`.

The locator, the classifier, the identity and the matcher are pure
expressions in the source and are modelled as functions and lemmas. The
collection loops of `fetchData` are methods with loops
(`Scrape.CollectTexts`, `Scrape.CollectLinks`, `Scrape.FetchData`),
each proved against a specification function (`Selected`, `Hrefs`,
`Outcome`) whose properties are lemmas. The rendered document is a
sequence of elements in document order, each with its tag, its text and
its `href` attribute (None when absent).

The code has no result cache, no removal of the URL from the question
and no navigation timeout. Divs are collected but never inspected. The
limiter call is commented out (src/middleware.ts:16-25). The route
answers `{ message: url, url }` whatever the scrape returned
(src/app/api/chat/route.ts:122).

## Model

| member | source | states |
|---|---|---|
| UrlLocator.FirstUrl | src/app/api/chat/route.ts:18-20 | None exactly when no index of the message begins `http://` or `https://` followed by a non-whitespace character (case-sensitive); otherwise the URL is `s[i..j]` with `i` the leftmost such index and `j` the next whitespace or the end of text |
| UrlLocator.FindFrom | src/app/api/chat/route.ts:18-20 | the scan returns the leftmost index at or after `from` where the pattern matches, and None only when no later index begins a match |
| UrlLocator.TryAt | src/app/api/chat/route.ts:18 | the pattern tried at one index (greedy `s?` first, then `http://`) succeeds exactly when a URL can start there, and its match holds no whitespace and ends at whitespace or end of text |
| UrlLocator.RunEnd | src/app/api/chat/route.ts:18 | greedy `[^\s]+`: the run from `k` holds no whitespace and stops at whitespace or the end |
| UrlLocator.FirstUrlComplete | src/app/api/chat/route.ts:18-20 | any leftmost, whitespace-delimited match is exactly what the locator returns, so the first URL is unique |
| UrlLocator.FirstUrlShape | src/app/api/chat/route.ts:18 | a found URL is a substring of the message, starts with `http://` or `https://`, is longer than that prefix and holds no whitespace |
| UrlLocator.NoUrlAt | src/app/api/chat/route.ts:18 | no match begins at a character other than lower-case `h` |
| UrlLocator.UpperCaseSchemeIgnored | src/app/api/chat/route.ts:18 | `HTTP://x` holds no URL: the pattern has no `i` flag |
| UrlLocator.TrailingPunctuationKept | src/app/api/chat/route.ts:18-20 | in `go https://a.b? x` the URL is `https://a.b?`: punctuation stays, whitespace ends it |
| UrlLocator.LaterUrlsIgnored | src/app/api/chat/route.ts:20 | of two URLs only the first is used |
| UrlLocator.BareSchemeIgnored | src/app/api/chat/route.ts:18 | `https://` followed by a space starts no match, and the engine's fallback to `http` does not rescue it |
| NotFoundClassifier.IsNotFoundPage | src/app/api/chat/route.ts:54-85 | the page is "404" exactly when the title contains `404`, `Not Found` or `Error`, or some heading or paragraph equals a signature |
| NotFoundClassifier.TitleHitReduces | src/app/api/chat/route.ts:55-64 | the ten substring tests of the title hold exactly when the title contains `404`, `Not Found` or `Error` |
| NotFoundClassifier.ElementHitExact | src/app/api/chat/route.ts:65-84 | the heading and paragraph tests hold exactly when some element equals a signature |
| NotFoundClassifier.HeadingSubstringIgnored | src/app/api/chat/route.ts:65-74 | a heading `Error 500` does not make the page not found |
| NotFoundClassifier.ParagraphExactTriggers | src/app/api/chat/route.ts:75-84 | a paragraph that is exactly `Not Found` makes the page not found whatever the title and headings |
| NotFoundClassifier.TitleFourOhFour | src/app/api/chat/route.ts:55-60 | a page titled `404 Not Found` is not found |
| NotFoundClassifier.QuickFoxValid | src/app/api/chat/route.ts:54-85 | a page whose only text is the paragraph `The quick fox` is valid |
| Scrape.Selected | src/app/api/chat/route.ts:39-44 | the texts of the selected elements: no longer than the document, empty when no element is selected, one per element when all are |
| Scrape.Hrefs | src/app/api/chat/route.ts:45-50 | the collected links are never empty strings and are no more than the elements |
| Scrape.TitleText | src/app/api/chat/route.ts:34 | `$("title").text()` contains the text of every title element, and is empty when there is none |
| Scrape.TitleTextAppend | src/app/api/chat/route.ts:34 | the title text of a document split in two is the first part's title text followed by the second's, so the texts are joined in document order |
| Scrape.TitleTextOne | src/app/api/chat/route.ts:34 | one element contributes exactly its text when it is a title and nothing otherwise; with `TitleTextAppend` this fixes `.text()` on every document |
| Scrape.Outcome | src/app/api/chat/route.ts:54-97 | `NotFound` exactly when the classifier fires; a returned page has a title free of `404`, `Not Found` and `Error`, no heading or paragraph equal to a signature, no empty link, and holds the title and all four collections unchanged |
| Scrape.CollectTexts | src/app/api/chat/route.ts:39-44 | the `.each` push loop returns exactly the texts of the selected elements, in document order |
| Scrape.CollectLinks | src/app/api/chat/route.ts:45-50 | the anchor loop returns exactly the truthy `href` values, in document order |
| Scrape.FetchData | src/app/api/chat/route.ts:34-97 | the result is `NotFound` exactly when the title, headings and paragraphs trip the classifier, and otherwise the page with the title and all four collections |
| Scrape.SelectedAppend | src/app/api/chat/route.ts:39-44 | selection preserves document order across any split of the document |
| Scrape.SelectedMember | src/app/api/chat/route.ts:39-44 | a text is collected exactly when some selected element carries it |
| Scrape.HrefsAppend | src/app/api/chat/route.ts:45-50 | link collection preserves document order across any split of the document |
| Scrape.HrefsMember | src/app/api/chat/route.ts:45-50 | a link is collected exactly when some anchor has it as a present, non-empty `href` |
| Scrape.VerdictIgnoresLinksAndDivs | src/app/api/chat/route.ts:45-85 | inserting an anchor, a div or any other unselected element anywhere never changes the verdict |
| Scrape.TitleElementSignature | src/app/api/chat/route.ts:34-64 | a title element whose text contains a signature makes the page `NotFound`, wherever it stands |
| Middleware.Header | src/middleware.ts:10-11 | `headers.get(name)`: present exactly when the header is, and then its value |
| Middleware.JsOr | src/middleware.ts:10-12 | the JavaScript or-operator on an optional string: a truthy left operand is the result, otherwise the right operand is; the result is truthy exactly when one operand is |
| Middleware.ClientIdentity | src/middleware.ts:10-12 | the identity is never empty; it is a non-empty `x-forwarded-for` verbatim, else a non-empty `cf-connecting-ip`, else `127.0.0.1` |
| Middleware.HandleRequest | src/middleware.ts:9-29 | every request is passed on with `NextResponse.next()`, never with a JSON (429) response, and the identity it logs is `ClientIdentity` of the headers, non-empty and one of the header values or the loopback address |
| Middleware.ForwardedListVerbatim | src/middleware.ts:10 | a comma-separated forwarded-for list is the identity as a whole |
| Middleware.EmptyForwardedFallsThrough | src/middleware.ts:10-11 | an empty forwarded-for header falls through to `cf-connecting-ip` |
| Middleware.UnidentifiedClientsShareIdentity | src/middleware.ts:10-12 | all clients without either header share the identity `127.0.0.1` |
| PathMatcher.MatcherAccepts | src/middleware.ts:46 | the middleware runs exactly when the path is `/`, then text beginning with neither `_next/static`, `_next/image` nor `favicon`, any single UTF-16 code unit, `ico`, with no line terminator after the `/` |
| PathMatcher.CompiledPrefix | src/middleware.ts:46 | a lookahead alternative matches a path prefix exactly when it agrees position by position, `.` agreeing with any single code unit that is not a line terminator |
| PathMatcher.LiteralAlternative | src/middleware.ts:46 | an alternative without `.` matches exactly the strings it begins |
| PathMatcher.FaviconAlternative | src/middleware.ts:46 | `favicon.ico` matches `favicon`, one code unit that is not a line terminator, then `ico` |
| PathMatcher.LookaheadHitIff | src/middleware.ts:46 | the lookahead fails exactly on the three excluded beginnings |
| PathMatcher.MatcherCharacterization | src/middleware.ts:46 | for paths without line terminators the middleware runs exactly when the path starts with `/` and the rest begins with neither `_next/static`, `_next/image` nor `favicon?ico` |
| PathMatcher.FaviconDotIsWildcard | src/middleware.ts:46 | `/favicon` + any single-code-unit non-line-terminator + `ico` is excluded, so `/favicon-ico` is too |
| PathMatcher.FaviconAstralMatched | src/middleware.ts:46 | `/favicon` + a character outside the Basic Multilingual Plane + `ico` is matched: without the `u` flag `.` takes one half of the surrogate pair and `i` fails on the other |
| PathMatcher.StaticAssetExcluded | src/middleware.ts:46 | every path under `/_next/static` is excluded |
| PathMatcher.OrdinaryPathMatched | src/middleware.ts:46 | a path whose first character after `/` is neither `_` nor `f` is matched |
| PathMatcher.DataRouteMatched | src/middleware.ts:46 | paths under `/_next/data/` are matched |

## Left out

- Puppeteer and Cheerio (src/app/api/chat/route.ts:27-33): launching the browser, navigation, `page.content()`, `browser.close()` and HTML parsing are foreign libraries. The parsed document is an input: a flat sequence of elements in document order, each with its text as `.text()` would give it; nesting is not represented.
- The exception handler of `fetchData` (src/app/api/chat/route.ts:98-100), which logs and yields `undefined`; this includes the case where no URL was found and navigation to `null` fails.
- The Groq client and the response (src/app/api/chat/route.ts:102-127): a foreign SDK and I/O. The route answers `{ message: url, url: url }` with status 200 whatever the scrape gave, or status 500 when the client constructor throws.
- A message that is not a string (the route would throw): the model takes the message as a string.
- The middleware's `console.log` calls and its catch block (src/middleware.ts:33-36), which nothing in the try block can reach.
- The rate limiter: src/lib/ratelimiter.ts is not part of this model, and its only call is commented out (src/middleware.ts:16-25).
- Header lookup is by lower-case name; the case-insensitive matching and the joining of repeated headers done by `Headers.get` are not modelled.
- The framework's own compilation of the matcher pattern (any prefixes, suffixes or flags it adds) is not part of this model; the pattern is read as a JavaScript regular expression anchored at both ends of the path.
- Classifier idempotence has no lemma of its own: the verdict is a Dafny function of the title, headings and paragraphs only, so equal inputs give equal verdicts, and `Scrape.VerdictIgnoresLinksAndDivs` shows nothing else affects it.
- Strings are sequences of Unicode scalar values, while JavaScript strings are UTF-16 code units: a message or title holding an unpaired surrogate has no counterpart in the model. The URL locator and the classifier give the same answers on well-formed text either way; the path matcher's `.` is modelled as one UTF-16 code unit (a character below U+10000), which is what the pattern without the `u` flag consumes.
- src/app/api/savedMessage/route.ts, src/app/api/analyzeChart/route.ts, src/app/api/analyzePDF/route.ts, src/app/page.tsx and tailwind.config.ts are not part of this model.
