# News feed viewer: data pipeline and pager

A Dafny model of the logic inside the `News` React component of News-Man
(`src/Components/News.jsx`). The component fetches a list of news articles
once when it mounts. It keeps only the articles whose `image` is truthy and
shows them fifteen to a page, with Previous and Next buttons. While the request
is in flight it shows a spinner. If the request fails it shows an error line.

The model has six modules, one file each:

- `Wrappers` (`wrappers.dfy`): `Option`, for a field the response may leave out.
- `JsBuiltins` (`js_builtins.dfy`): JavaScript's `slice` for arrays and strings, including clamping and negative positions; `indexOf`; and `split` with a string separator. `Join` is the inverse of `split`, used to state its round trip.
- `Articles` (`articles.dfy`): the `Article` record and the image filter of line 23.
- `Paging` (`paging.dfy`): the page count `Math.ceil(n / 15)`, the page window of lines 42-44, the two click handlers, and the disable conditions of the two buttons.
- `Display` (`display.dfy`): `formatDate`, the 55- and 100-character cuts of the title and description, and the card shown for one article.
- `News` (`news.dfy`): the abstract fetch outcome, the tagged view state, the render gate of lines 58-59, and the class `NewsFeed`. The class holds the component's four `useState` values as fields: `articles`, `loading`, `error` and `currentPage`.

The component keeps `loading` and `error` as separate flags. The model keeps
them too, as fields of `NewsFeed`. `Gate` turns them into one
`Loading | Error(message) | Ready(articles)` value, in the order the early
returns check them. `NewsFeed.FetchSettled` proves that the fields it leaves
behind, read through that gate, give exactly `Settle` of the fetch outcome.

One consequence of JavaScript truthiness is kept as the code has it. A thrown
error whose `message` is the empty string stores `""` in `error`. That value is
falsy, so the component shows the empty feed rather than an error line.
`Settle` says so: `Thrown("")` leads to `Ready([])`.

Three behaviours of the code the model keeps:

- The missing-data message is `"No news data found"`.
- `error` is not cleared on success, since it is never set before the fetch.
- `currentPage` is not reset when the articles arrive.

## Model

| member | source | states |
|---|---|---|
| `Articles.FilterWithImage` | src/Components/News.jsx:23 | the result is no longer than the input, every kept article has a present non-empty image, and an article is kept exactly when it is in the input and has one |
| `Articles.FilterAppend` | src/Components/News.jsx:23 | filtering a concatenation gives the filtered parts in the same order, so the filter never reorders |
| `Articles.FilterIsSubsequence` | src/Components/News.jsx:23 | the filtered list is a subsequence of the fetched list: relative order is preserved |
| `Articles.FilterCounts` | src/Components/News.jsx:23 | every article with an image is kept as many times as it occurs, and every other article is dropped completely |
| `Articles.FilterIdempotent` | src/Components/News.jsx:23 | filtering twice is the same as filtering once |
| `Articles.FilterKeepsAllIff` | src/Components/News.jsx:23 | the filter returns its input unchanged exactly when every article has an image |
| `Articles.HasImage` | src/Components/News.jsx:23 | the filter's predicate: `image` is present and not the empty string; no contract of its own, `FilterWithImage` states what keeping by it means |
| `JsBuiltins.Slice` | src/Components/News.jsx:44 | `slice` returns at most the whole input; for `0 <= start <= end` it returns the elements from `min(start, len)` to `min(end, len)`; element `i` is the element at the resolved start plus `i` |
| `JsBuiltins.SliceFromZero` | src/Components/News.jsx:69-70 | `slice(0, n)` is a prefix of length `min(len, n)`, and the whole input when it is no longer than `n` |
| `JsBuiltins.IndexFrom` | src/Components/News.jsx:39 | for a non-empty separator, the result is either -1 with no occurrence of the separator at or after `from`, or the first position at or after `from` where it occurs |
| `JsBuiltins.IndexOf` | src/Components/News.jsx:39 | the result is non-negative exactly when the separator occurs, and then it is the first position where it occurs |
| `JsBuiltins.Split` | src/Components/News.jsx:39 | `split` returns at least one piece, none longer than the input; the first piece is a prefix of the input that ends at the first occurrence of the separator, and without an occurrence the input is the only piece |
| `JsBuiltins.JoinSplit` | src/Components/News.jsx:39 | joining the pieces of `split` with the same separator gives back the input |
| `JsBuiltins.SplitPiecesAvoidSeparator` | src/Components/News.jsx:39 | no piece produced by `split` contains the separator |
| `Paging.TotalPages` | src/Components/News.jsx:47 | the page count is the least `t` with `t * 15 >= n`, and it is zero exactly for an empty list |
| `Paging.PageSlice` | src/Components/News.jsx:42-44 | a page never shows more than 15 articles, for any page number |
| `Paging.PageWindow` | src/Components/News.jsx:42-44 | page `p >= 1` is the window `[(p - 1) * 15, min(p * 15, len))` of the list, element by element |
| `Paging.PageSizes` | src/Components/News.jsx:42-47 | each page before the last holds exactly 15 articles; the last holds `len - (p - 1) * 15`, which is at least one |
| `Paging.PastLastPageEmpty` | src/Components/News.jsx:42-44 | a page after the last one is empty |
| `Paging.FortyTwoArticles` | src/Components/News.jsx:42-47 | 42 articles make 3 pages: page 1 holds positions 0-14, and page 3 holds positions 30-41, which is 12 articles |
| `Paging.PagesUpToPrefix` | src/Components/News.jsx:42-44 | pages 1 to `k` read in order are the first `min(15k, len)` articles |
| `Paging.PagesCoverFeed` | src/Components/News.jsx:42-47 | all pages read in order give back the whole list: each article once, in order |
| `Paging.NextPage` | src/Components/News.jsx:46-50 | the guarded increment of `handleNextPage`; no contract of its own, its properties are in `NextPageStep`, `HandlersKeepRange` and `DisabledIffNoop` |
| `Paging.PreviousPage` | src/Components/News.jsx:52-56 | the guarded decrement of `handlePreviousPage`; no contract of its own, its properties are in `PreviousPageStep`, `HandlersKeepRange` and `DisabledIffNoop` |
| `Paging.PreviousDisabled` | src/Components/News.jsx:82 | the Previous button's disable condition `currentPage === 1`; no contract of its own, `DisabledIffNoop` relates it to the handler |
| `Paging.NextDisabled` | src/Components/News.jsx:90 | the Next button's disable condition `currentPage >= ceil(len / 15)`; no contract of its own, `DisabledIffNoop` relates it to the handler |
| `Paging.NextPageStep` | src/Components/News.jsx:46-50 | `handleNextPage` adds exactly one iff `currentPage < ceil(len / 15)` and otherwise leaves the page unchanged; on an empty feed it never moves |
| `Paging.PreviousPageStep` | src/Components/News.jsx:52-56 | `handlePreviousPage` subtracts exactly one iff `currentPage > 1` and otherwise leaves the page unchanged |
| `Paging.HandlersKeepRange` | src/Components/News.jsx:46-56 | both handlers keep `1 <= currentPage`, and `currentPage <= totalPages` whenever there is a page |
| `Paging.PreviousThenNext` | src/Components/News.jsx:46-56 | from a page `1 < p <= totalPages`, Previous then Next returns to `p` |
| `Paging.NextThenPrevious` | src/Components/News.jsx:46-56 | from a page `1 <= p < totalPages`, Next then Previous returns to `p` |
| `Paging.DisabledIffNoop` | src/Components/News.jsx:46-90 | on a page `>= 1`, Previous is disabled (`currentPage === 1`) exactly when its handler would do nothing, and Next is disabled exactly when its handler would do nothing |
| `Paging.ReplayStaysInRange` | src/Components/News.jsx:46-56 | any sequence of clicks that starts on a page in range ends on a page in range |
| `Paging.ReplayFromFirstPage` | src/Components/News.jsx:11-56 | starting from the initial page 1, after any sequence of clicks the page is at least 1, at most the page count when there are pages, and still 1 on an empty feed |
| `Display.FormatDate` | src/Components/News.jsx:38-40 | `formatDate` returns a prefix of its input that has no ` +` before its end; if the input contains ` +`, the result ends where the first ` +` starts, and otherwise it is the whole input |
| `Display.FormatDateDropsOffset` | src/Components/News.jsx:38-40 | the formatted date never contains ` +` |
| `Display.FormatDateFirstOccurrence` | src/Components/News.jsx:38-40 | when the first ` +` is at position `k`, the formatted date is exactly the first `k` characters |
| `Display.Truncate` | src/Components/News.jsx:69-70 | the cut text is a prefix of length `min(len, n)`, and a text no longer than `n` is kept whole |
| `Display.CardOf` | src/Components/News.jsx:66-74 | a card shows the image, the first `min(len, 55)` characters of the title followed by `...`, the first `min(len, 100)` characters of the description followed by `...`, `formatDate` of `published` (a prefix of it), and the article's own author and link; a missing field shows as the empty string |
| `Display.Cards` | src/Components/News.jsx:65-76 | the list has one card per article, in the same order |
| `News.Gate` | src/Components/News.jsx:58-59 | the spinner shows exactly when `loading` is set; otherwise the error shows exactly when `error` is truthy, with that message; otherwise the feed shows the stored articles |
| `News.ErrorShown` | src/Components/News.jsx:59 | the truthiness test `if (error)`: set and not the empty string; no contract of its own, `Gate` and `Settle` state its effect |
| `News.Settle` | src/Components/News.jsx:19-32 | a settled fetch is never still loading; a body with `news` (even empty) gives the filtered list; a body without it gives `"No news data found"`; a thrown error gives its message, or the empty feed when that message is empty |
| `News.SettledFeedHasImages` | src/Components/News.jsx:22-24 | a feed reached by a fetch only holds articles with an image |
| `News.TransportErrorShown` | src/Components/News.jsx:28-29 | a rejected request with message `"Failed to fetch"` shows `Error("Failed to fetch")` |
| `News.Render` | src/Components/News.jsx:58-96 | the spinner shows only while loading, the error line only in the error state with its message, and the article list and pager only when the feed is ready |
| `News.RenderFeedPage` | src/Components/News.jsx:64-96 | the feed shows one card per article of the page's window `[min((page - 1) * 15, len), min(page * 15, len))`, at most 15: card `i` is the card of article `(page - 1) * 15 + i`; a pager button shows exactly when its handler would move the page |
| `News.NewsFeed.constructor` | src/Components/News.jsx:8-11 | the component mounts with no articles, `loading` set, no error and page 1, so it shows the spinner |
| `News.NewsFeed.CurrentArticles` | src/Components/News.jsx:42-44 | the current page is exactly the articles at positions `[min((currentPage - 1) * 15, len), min(currentPage * 15, len))`, at most 15 of them, and it is non-empty whenever the feed is |
| `News.NewsFeed.View` | src/Components/News.jsx:58-59 | the component's fields read through `Gate`; no contract of its own, `FetchSettled` proves it equals `Settle` of the fetch outcome |
| `News.NewsFeed.Screen` | src/Components/News.jsx:58-96 | what one render of the component shows, `Render` of `View()` on the current page; no contract of its own, `Render` and `RenderFeedPage` state its content |
| `News.NewsFeed.FetchSettled` | src/Components/News.jsx:18-34 | after the fetch settles, `loading` is clear, the page is still 1, the articles are the filtered list (or stay empty) and `error` is the stored message; the new state shows exactly `Settle` of the outcome, and the object invariant holds |
| `News.NewsFeed.HandleNextPage` | src/Components/News.jsx:46-50 | the page becomes `NextPage` of the old page, nothing else changes, and the page stays in range |
| `News.NewsFeed.HandlePreviousPage` | src/Components/News.jsx:52-56 | the page becomes `PreviousPage` of the old page, nothing else changes, and the page stays in range |

## Left out

- The request itself is not modelled: `fetch(url)`, `response.json()` and the `async`/`await` sequencing are network I/O in a foreign runtime. `FetchResult` stands for their three outcomes.
- Reading `VITE_API_KEY` and building the URL (lines 14-15) is ambient configuration, so it is not modelled.
- Not modelled: the `useEffect` re-run on a changed `url`, and a stale response arriving after a remount. These are React lifecycle and concurrency behaviour. `FetchSettled` therefore requires the mount state: `loading` still set and nothing else changed yet.
- Not modelled: React's batching of state updates. The handlers test the `currentPage` of the current render but update through `prevPage => ...`. The model gives each click the state left by the previous click.
- Not modelled: a `news` value that is not an array. The source's `.filter` would throw, and the `catch` would store that message. `NewsBody` always carries a list.
- Only a string `image` is modelled for the image check, under JavaScript truthiness. A non-string truthy value (an object, a number) is not.
- A missing `title`, `description` or `published` would make the source throw while rendering. The model shows the empty string instead.
- JavaScript strings count UTF-16 code units. The model's `string` counts Dafny characters, so `slice(0, 55)` on text outside the Basic Multilingual Plane is not modelled exactly.
- `Math.ceil(articles.length / itemsPerPage)` uses floating point. It is modelled as the exact integer ceiling `(n + 14) / 15`. The two agree for every list length a JavaScript array can have.
- The JSX markup, Tailwind classes, `Spinner`, `Link` and the icon components are presentation and external libraries. `Render` keeps only what each screen shows. The error line's `Error: ` prefix is left out.
- The `!loading &&` guard at line 65 and the spinner at line 78 can never take effect after the early return at line 58. `Render` has no separate case for them.
