# Feeder: a model of the RSS reader's fetch, cache, repair and list logic

Feeder is a client-side RSS reader. The user enters a comma-separated list of
feed URLs and a comma-separated blocklist. Each feed is fetched through one
CORS proxy and read as a stream. The read stops once a byte budget is
reached. A body cut off by the budget is "repaired": a trailing `<…` that is
followed by a `>` is dropped, and closing tags are appended for the tags still
open. The repaired
text is then parsed. Parsed feeds are cached in `localStorage` with a time
to live. Items from all feeds are merged, sorted newest first, filtered by the
blocklist and shown ten per page.

This project models `static/feeder.js`:

- `text.dfy` (`Text`) holds the string built-ins the code relies on: white space as `\s` and `trim` see it, `split(',')`, `toLowerCase` and `includes`.
- `base64.dfy` (`Base64`) holds `btoa`: base64 after section 4 of RFC 4648 over Latin-1 strings, with a decoder that proves it injective.
- `repair.dfy` (`Repair`) holds `closeTruncatedFeed` as written. It contains the trim regex, the `tagRegex.exec` scan and the stack. It has functions that specify it and an imperative method with the scan loop.
- `repair_props.dfy` (`RepairProperties`) holds the repairer's properties: the output shape, the stack discipline, the closers, and the fact that a repaired text whose kept part ends cleanly scans as balanced.
- `repair_example.dfy` (`RepairExample`) works through the repair of a feed cut off inside the title of its second item. It also shows how the scan treats tag names: attributes stay part of the name an opener pushes, so `</n>` does not close `<n a>`, and `<?xml …?>` and comments are pushed as openers. A truncated body that begins `<?xml version="1.0"?><rss version="2.0">` therefore ends with `</rss version="2.0"></?xml version="1.0"?>`.
- `repair_fix.dfy` (`RepairFix`) holds the defect in the trim (see "## Findings") and a corrected trim.
- `stream.dfy` (`Stream`) holds the byte-budget read loop of `axiosGetWithPartialResponse` over a given sequence of chunks.
- `cache.dfy` (`Cache`) holds `getCacheKey`, `setCache`, `getCache` and `invalidateCache` over a `localStorage` object whose contents are a map. The time is passed in.
- `feedlist.dfy` (`FeedList`) holds `isBlank`, the blocklist filter, the date sort, pagination, the description toggle and the URL split.
- `reader.dfy` (`Reader`) holds the Vue component as a class. Its computed properties and methods are there, and so are `fetchFeed` and `fetchFeeds`, which tie the cache, the proxy, the read loop, the repairer and the filter together.

The browser is passed in as parameters:

- `network` gives the chunk stream, or failure, for a requested URL.
- `encode` stands for `encodeURIComponent`.
- `parse` stands for `RSSParser.parseString`; `None` means it throws.
- `now` stands for `Date.now()`.

The repairer at static/feeder.js:100-145 has no item-boundary trim, no CDATA
handling and never returns null. There is a single proxy at line 217. A TTL
of 0 keeps an entry live while `now` equals its timestamp, because the test
at line 23 is a strict `>`.

## Model

| member | source | states |
|---|---|---|
| FeedList.IsBlank | static/feeder.js:1-3 | a string is blank exactly when every character is white space, which is exactly when trimming leaves nothing |
| Cache.CacheKey | static/feeder.js:4-6 | a key exists exactly when the URL is Latin-1 (otherwise `btoa` throws); every key starts with `rss_cache_` |
| Cache.CacheKeyInjective | static/feeder.js:4-6 | two URLs with the same cache key are the same URL |
| Base64.Btoa | static/feeder.js:5 | `btoa` succeeds exactly on strings whose characters are all below 256 |
| Base64.DecodeEncode | static/feeder.js:5 | decoding the base64 text of a byte string gives the bytes back |
| Base64.BtoaInjective | static/feeder.js:5 | distinct Latin-1 strings have distinct base64 encodings |
| Cache.AfterSet | static/feeder.js:8-15 | storing adds exactly the URL's key, holding the entry stamped with the time and the data; every other key keeps its value; a URL with no key changes nothing |
| Cache.LocalStorage.SetCache | static/feeder.js:8-15 | fails exactly when the URL has no key; the new store is the old one with the stamped entry under the key |
| Cache.Lookup | static/feeder.js:17-28 | fails exactly when the URL has no key; data is returned only from an entry under the key that has not expired |
| Cache.AfterLookup | static/feeder.js:17-28 | a read only ever removes keys and never alters a value |
| Cache.LocalStorage.GetCache | static/feeder.js:17-28 | the result and the new store are those of a lookup on the old store |
| Cache.MissLeavesStore | static/feeder.js:19-20 | a missing key gives null and leaves the store as it was |
| Cache.Expired | static/feeder.js:23 | an entry has expired exactly when `now` is strictly past its timestamp plus `ttl` minutes; with a time to live that is not negative it is live at the time it was written |
| Cache.ExpiryRule | static/feeder.js:22-27 | an entry older than `ttl*60*1000` ms (strictly) is removed and null returned; otherwise its data is returned and the store is unchanged |
| Cache.SetThenGet | static/feeder.js:8-28 | `setCache` then `getCache` within the TTL returns the stored data and removes nothing |
| Cache.SetKeepsOthers | static/feeder.js:8-28 | storing one URL does not change what a lookup of another URL gives |
| Cache.AfterInvalidate | static/feeder.js:278-283 | exactly the keys starting with `rss_cache_` are removed; other values are kept untouched |
| Cache.LocalStorage.InvalidateCache | static/feeder.js:278-283 | the loop over the keys leaves the store with exactly the non-cache keys |
| Cache.InvalidateEmptiesCache | static/feeder.js:278-283 | after invalidation every lookup misses, and every non-cache key survives |
| Stream.Budget | static/feeder.js:68 | the budget is `maxResponseSizeKB` decimal kilobytes of 1000 bytes each |
| Stream.FirstReach | static/feeder.js:65-68 | finds the first chunk at which the running byte count reaches the budget, or shows that no chunk reaches it |
| Stream.PartialRead | static/feeder.js:46-84 | a truncated result holds the text of the chunks up to and including the first one that reaches the budget; an untruncated one holds every chunk, none reaching it; status is passed through; a read error is an error only before the budget is reached |
| Stream.ReadStream | static/feeder.js:46-88 | the recursive read as a loop over the chunks; its result is the partial read |
| Stream.TruncatedIsPrefix | static/feeder.js:63-79 | the accumulated text is always a prefix of the whole body |
| Stream.UntruncatedUnderBudget | static/feeder.js:48-68 | an untruncated result means the whole body stayed below the budget |
| Stream.TruncatedAtBudget | static/feeder.js:65-79 | a truncated result means the read stopped at a chunk that reached the budget and at no earlier one |
| Repair.LastIndexOf | static/feeder.js:109 | the index of the last `<`, or -1 when there is none |
| Repair.TrimTrailingTag | static/feeder.js:109-110 | the trim keeps a prefix of the text |
| Repair.TrimRule | static/feeder.js:109-110 | if a `>` follows the last `<`, the text is cut at that `<`; otherwise, including when there is no `<`, it is untouched |
| Repair.Find | static/feeder.js:101 | the first occurrence of a character at or after a position, or the end of the text; the scan looks for `>` |
| RepairProperties.StartsTagRule | static/feeder.js:101 | tagRegex can match at a position exactly when it holds `<`, then a character other than `>`, and a `>` somewhere after that |
| Repair.Exec | static/feeder.js:101 | `tagRegex.exec` from `lastIndex`: a match lies within the text after `lastIndex` and is at least three characters long |
| Repair.ExecIsLeftmost | static/feeder.js:101 | a match starts at the leftmost position where a tag can start, and its text is `<`, a run holding no `>`, then `>`; no match means no tag starts after `lastIndex` |
| RepairProperties.ClassifyKinds | static/feeder.js:115-117 | group 1 is the match without its brackets and without the `/` of a closer; a match is a closer exactly when its second character is `/`, and self-closing exactly when it is not a closer and ends in `/>` |
| RepairProperties.TokensBound | static/feeder.js:113-114 | the scan visits at most one tag per three characters, as every match is at least three characters long |
| RepairProperties.StepCases | static/feeder.js:119-132 | one tag either leaves the stack alone, pushes its own name, or (a closer) pops its own name off the top; only an opener pushes, and a self-closing tag never changes the stack |
| Repair.StepAsWritten | static/feeder.js:115-132 | stack discipline: a closer pops the top only when it equals the captured name, a mismatched closer or a closer on an empty stack changes nothing, a self-closing tag changes nothing, anything else pushes its whole captured name |
| Repair.ScanStep | static/feeder.js:114-135 | one pass of the loop consumes one match and resumes scanning right after it |
| Repair.ScanTags | static/feeder.js:113-136 | the `while` loop over `tagRegex.exec` leaves the stack that the scan specification gives |
| Repair.AppendCloser | static/feeder.js:139-141 | appending one more closer extends the closers of the tags above it |
| RepairProperties.ClosersEnds | static/feeder.js:139-141 | the closers are empty exactly for an empty stack; they begin with the closer of the last-pushed name and end with the closer of the first-pushed one |
| Repair.Repaired | static/feeder.js:100-145 | the repaired text begins with the trimmed text, unaltered |
| Repair.CloseTruncatedFeed | static/feeder.js:100-145 | the method computes the repaired text |
| RepairProperties.RepairedShape | static/feeder.js:105-141 | the output is the trimmed prefix of the input, unaltered, followed only by the closers of the tags it leaves open |
| RepairProperties.WellNestedRun | static/feeder.js:114-136 | a well-nested run of tags leaves the stack as it found it |
| RepairProperties.BalancedAppendsNothing | static/feeder.js:114-141 | if the trimmed text is well nested, nothing is appended |
| RepairProperties.OpenTagsAreNames | static/feeder.js:101-131 | every name left on the stack is non-empty and holds no `>` |
| RepairProperties.TokensAppend | static/feeder.js:101-114 | the scan of a text that ends with a `>` or holds no `<` followed by another text is the two scans side by side |
| RepairProperties.CloseTagTokens | static/feeder.js:140 | a synthesized closer scans back as a closer of that name |
| RepairProperties.ClosersScan | static/feeder.js:139-141 | one closer per stack entry, most recently pushed first |
| RepairProperties.RunCloseAll | static/feeder.js:119-141 | the closers pop the stack entries they were made for, exactly |
| RepairProperties.ClosingBalances | static/feeder.js:113-141 | a text that ends cleanly, with its closers appended, scans as balanced |
| RepairProperties.RepairedIsBalanced | static/feeder.js:100-145 | when the trimmed text ends cleanly, the repaired text scans as balanced |
| RepairExample.OpenTagTokens | static/feeder.js:101-131 | an opening tag `<n>` scans as one opener that pushes `n` |
| RepairExample.TrimCutsField | static/feeder.js:109-110 | a text followed by a last tag `<d>` and its unfinished content `y` is cut back to that text, losing the complete tag `<d>` |
| RepairExample.ScanKept | static/feeder.js:113-136 | the kept part `<a><b><c><d>x</d></c><c>` scans as its seven tags, in order |
| RepairExample.KeptStack | static/feeder.js:119-132 | after those tags `a`, `b` and `c` are open, outermost first |
| RepairExample.RepairsExample | static/feeder.js:100-145 | `<a><b><c><d>x</d></c><c><d>y` is repaired to the kept part followed by `</c></b></a>` |
| RepairExample.WorkedExample | static/feeder.js:100-145 | `<rss><channel><item><title>A</title></item><item><title>B` is repaired to `<rss><channel><item><title>A</title></item><item></item></channel></rss>` (both texts written with `KeptPrefix`, `OpenText` and `CloseTag`) |
| RepairExample.AttributesStayInName | static/feeder.js:101-131 | an opener `<n a>` pushes `n a`, attributes included, and a later `</n>` does not pop it |
| RepairExample.InstructionPushed | static/feeder.js:101-131 | a processing instruction `<?x?>` is pushed as an opener of `?x?` |
| RepairExample.CommentPushed | static/feeder.js:101-131 | a comment `<!--x-->` is pushed as an opener of `!--x--` |
| RepairFix.TrimKeepsFragment | static/feeder.js:109-110 | the trim keeps an unterminated trailing tag: `<a><b` is left as it is |
| RepairFix.AsWrittenOutput | static/feeder.js:100-145 | `<a><b` is repaired to `<a><b</a>` |
| RepairFix.ScanOutput | static/feeder.js:101-114 | `<a><b</a>` scans as two openers, `a` and `b</a` |
| RepairFix.AsWrittenUnbalanced | static/feeder.js:109-110 | the repaired text of `<a><b` leaves `a` and `b</a` open when it is scanned again |
| RepairFix.DropBrokenTag | static/feeder.js:108-110 | the corrected trim cuts at an unterminated last `<` and keeps a prefix that ends cleanly |
| RepairFix.DropBrokenTagUnique | static/feeder.js:108-110 | the corrected trim is the only cut with those properties |
| RepairFix.RepairedFixed | static/feeder.js:100-145 | the corrected repair begins with a prefix of the input, unaltered |
| RepairFix.RepairedFixedIsBalanced | static/feeder.js:100-145 | with the corrected trim, every repaired text scans as balanced |
| RepairFix.FixedOnExample | static/feeder.js:100-145 | with the corrected trim, `<a><b` is repaired to `<a></a>` |
| Text.IsSpace | static/feeder.js:2 | the white space of `\s` and `trim`: among ASCII characters exactly space and tab to carriage return; no white-space character lies above U+FEFF |
| Text.Trim | static/feeder.js:170 | `trim` removes exactly the white space at both ends and nothing else; the result is empty exactly when the text is all white space |
| Text.Split | static/feeder.js:170 | `split(',')` gives at least one piece, no piece holds a comma, and joining the pieces with commas gives the text back |
| Text.SplitCount | static/feeder.js:170 | there is one piece more than there are commas |
| Text.SplitJoin | static/feeder.js:170 | splitting undoes joining pieces that hold no comma |
| Text.Lower | static/feeder.js:170-172 | lower-casing maps each character and keeps the length |
| Text.Includes | static/feeder.js:173 | `includes` is true exactly when the needle occurs at some offset |
| FeedList.Terms | static/feeder.js:170 | the terms are the comma-separated pieces, trimmed and lower-cased, one per piece |
| FeedList.ActiveTerms | static/feeder.js:248 | a blank blocklist gives no terms; any other gives its pieces |
| FeedList.SearchTextParts | static/feeder.js:172 | the text searched is the lower-cased title, a space and the lower-cased content |
| FeedList.Kept | static/feeder.js:171-173 | an item survives only when no term is empty, and every item survives when there are no terms |
| FeedList.Filter | static/feeder.js:171-174 | the filter keeps only items that no term blocks |
| FeedList.FilterMembers | static/feeder.js:171-174 | an item is in the result exactly when it is in the input and no term occurs in its text |
| FeedList.FilterAppend | static/feeder.js:171-174 | the filter keeps the order of the input |
| FeedList.FilterIdempotent | static/feeder.js:249-252 | filtering again by the same terms changes nothing |
| FeedList.FilterNoTerms | static/feeder.js:248-252 | with no terms every item is kept |
| FeedList.FilterEmptyTerm | static/feeder.js:173 | an empty term removes every item |
| FeedList.TrailingCommaTerms | static/feeder.js:170 | the blocklist `a,` has the terms `a` and the empty term |
| FeedList.KeptIgnoresCase | static/feeder.js:172-173 | items whose title and content agree up to case are kept or dropped together |
| FeedList.NewestFirst | static/feeder.js:177 | a list of at most one item is newest first, and in a newest-first list every item is at least as new as the next |
| FeedList.NewestFirstAdjacent | static/feeder.js:177 | a list in which every item is at least as new as the next is newest first |
| FeedList.Insert | static/feeder.js:177 | putting an item into a newest-first list keeps it newest first and adds exactly that item |
| FeedList.SortByDate | static/feeder.js:177 | the sort yields a newest-first permutation of the feeds |
| FeedList.Dated | static/feeder.js:177 | the items of one date, in their order: every item it keeps has that date |
| FeedList.InsertDated | static/feeder.js:177 | inserting an item puts it ahead of the items of its own date and changes the order of no other date |
| FeedList.SortStable | static/feeder.js:177 | the sort is stable: for every date, the items of that date come out in the order they went in |
| FeedList.SortKeepsSorted | static/feeder.js:177 | a list already newest first is left as it is, equal dates keeping their order |
| FeedList.SortIdempotent | static/feeder.js:177 | sorting twice is sorting once |
| FeedList.Filtered | static/feeder.js:166-175 | a blank blocklist yields the sorted feeds; any other yields the sorted feeds filtered by its terms |
| FeedList.FilteredIsActiveFilter | static/feeder.js:166-175 | `filteredFeeds` is the `updateFilteredFeeds` filter applied to the sorted feeds |
| FeedList.SliceIndex | static/feeder.js:164 | a `slice` index in range is kept, one past the end is clamped, and a negative one counts from the end |
| FeedList.JsSlice | static/feeder.js:164 | `slice` with in-range bounds is the sub-sequence between them |
| FeedList.Page | static/feeder.js:162-165 | a page holds at most `pageSize` items and, when in range, is the slice starting at `(page-1)*pageSize` |
| FeedList.PageBounds | static/feeder.js:162-165 | page `p` runs from item `(p-1)*pageSize` to item `p*pageSize`, clamped to the list |
| FeedList.TotalPages | static/feeder.js:179-181 | `Math.ceil(n/pageSize)`: the least number of pages that holds `n` items |
| FeedList.PagesPrefix | static/feeder.js:162-165 | pages 1 to `c` side by side are the first `c*pageSize` items, or all of them |
| FeedList.PagesCoverList | static/feeder.js:162-181 | pages 1 to `totalPages` concatenate back to the filtered list |
| FeedList.ToggleAt | static/feeder.js:254-259 | `showDescription` flips the flag of the one item and copies every other item unchanged |
| FeedList.ToggleTwice | static/feeder.js:254-259 | showing the same item twice restores the list |
| FeedList.SplitUrls | static/feeder.js:196 | one trimmed URL per comma-separated piece, one more than there are commas |
| Reader.ProxyUrl | static/feeder.js:217 | the request URL is the proxy prefix followed by the encoded feed URL |
| Reader.FeedText | static/feeder.js:219 | an untruncated body is parsed as it is; a truncated one is repaired to a prefix of it plus closers |
| Reader.Displayed | static/feeder.js:203-211 | each parsed item becomes one displayed item, collapsed and labelled with the feed's title, in order |
| Reader.FetchOne | static/feeder.js:198-237 | a feed is served from the cache exactly when a live entry exists, with that entry's data; it is fetched exactly when there is no live entry, the proxy answers, the read succeeds and the parser accepts the text of line 219, and the fetched feed is what the parser returned |
| Reader.StoreAfterFetchEntries | static/feeder.js:200-221 | a fetched feed is stored under the URL's key with the current time; without a fetch no key is added; every other key keeps its value |
| Reader.FetchStep | static/feeder.js:198-237 | a fetch only ever appends items |
| Reader.FetchAllSnoc | static/feeder.js:240-243 | fetching one more URL is one more fetch step after the fetches before it |
| Reader.FetchAll | static/feeder.js:240-243 | fetching a list of URLs only ever appends items |
| Reader.CacheHitSkipsNetwork | static/feeder.js:200-214 | a live cache entry is used whatever the network would answer, and the store is left as it was |
| Reader.FetchedThenCached | static/feeder.js:217-221 | once a feed is fetched, fetching the same URL again at the same time is served from the cache |
| Reader.NonLatin1NeverLoads | static/feeder.js:199-236 | a URL outside Latin-1 is never loaded and nothing is stored for it |
| Reader.ParserInput | static/feeder.js:217-220 | the parser gets the whole body when the read was not truncated, and otherwise a prefix of the body followed by closers |
| Reader.RepairedPrefix | static/feeder.js:219 | a repaired prefix of a body is a prefix of that body followed by closers |
| Reader.FeedReader.constructor | static/feeder.js:149-159 | the component's initial data: empty input and lists, page 1, TTL 30 minutes, a 300 KB limit and an empty blocklist |
| Reader.FeedReader.SortedFeeds | static/feeder.js:176-178 | `feeds` is sorted in place, newest first, and returned |
| Reader.FeedReader.FilteredFeeds | static/feeder.js:166-175 | returns the filtered sorted feeds and leaves `feeds` sorted |
| Reader.FeedReader.PaginatedFeeds | static/feeder.js:162-165 | returns the current page of the filtered feeds, at most `pageSize` items |
| Reader.FeedReader.TotalPagesOf | static/feeder.js:179-181 | returns the page count of the filtered feeds |
| Reader.FeedReader.UpdateFilteredFeeds | static/feeder.js:247-253 | `feeds` becomes the unfiltered items that no active term blocks |
| Reader.FeedReader.ShowDescription | static/feeder.js:254-259 | `feeds` becomes the list with the one item's flag flipped |
| Reader.FeedReader.CloseDescription | static/feeder.js:260-262 | only the one item's flag is cleared |
| Reader.FeedReader.FetchFeed | static/feeder.js:198-237 | the items and store become those of one fetch step; on failure `feeds` is unchanged; after any success, even a feed with no items, `feeds` is rebuilt as the filtered item list (lines 213 and 233), and a filtered `feeds` stays filtered |
| Reader.FeedReader.FetchFeeds | static/feeder.js:184-245 | the lists are cleared and every URL of the input is fetched; the items and store are those of fetching them in turn; `feeds` is the filtered list and loading has ended |
| Reader.FeedReader.FetchEach | static/feeder.js:240-245 | the loop over the URLs keeps the items and store equal to those of fetching the URLs seen so far, and keeps `feeds` filtered; loading ends after the last one |

## Left out

- `static/misc.js` is not part of this model. It is page wiring: class toggles, event listeners and a stored flag.
- The network, `fetch`, `AbortController` and the promise callbacks are I/O. The response is a given finite sequence of chunks, each with its byte length and decoded text, ending either normally or with a read error.
- `Promise.all` runs the fetches concurrently. The model runs them one after another in list order, each with the same `now`. Interleavings of the appends are not modelled. In the source each `fetchFeed` runs synchronously up to its first `await` (line 217), so every `getCache` of one `fetchFeeds` happens before any `setCache`, and a URL listed twice is fetched twice. The model serves the second copy from the cache, so Reader.FetchedThenCached holds only across separate calls.
- `TextDecoder` is I/O-side decoding. Each chunk comes with its decoded text.
- `RSSParser.parseString` is a foreign library. It is the `parse` parameter, and `mediaContent` is not carried.
- Cache.Lookup: `JSON.stringify`/`JSON.parse` are taken to round-trip. A value under a cache key that `setCache` did not write is `Other`, and the model reads it as a miss that leaves the store alone. In the source, a value without a numeric `timestamp` makes `Date.now() - parsedData.timestamp` NaN at line 23, so the expiry test is false and `getCache` returns `parsedData.data` (line 27). That is a miss only when the field is absent or falsy. The case where `JSON.parse` throws on it is not modelled.
- `encodeURIComponent` is the `encode` parameter.
- `Date.now()` is the `now` parameter.
- Date parsing is not modelled. `pubDate` is an integer and the sort compares it; the NaN comparator of unparsable dates is not modelled.
- Text.Lower: maps ASCII letters only, not the full Unicode case mapping of `toLowerCase`.
- FeedList.Show: a missing title or content prints as `undefined`; `null` is not told apart from a missing value.
- Fractional values of `cacheTTL` and `responseTruncationLimitKB` are not modelled; both are integers.
- In the model `setCache` fails only where `btoa` throws (line 5). A quota error at line 14 is not modelled; in the source it also skips that feed's items (line 223).
- `loadFeedsFromQuery`, `updateUrlParams`, `formatDate`, `toggleAdvancedSettings`, `alert`, `console` logging, the `error` field, `advancedSettingsVisible`, and the response's `headers`, `config` and `request` fields are UI glue and are not modelled.
- Reader.FeedReader.ShowDescription: the source finds the item by object identity (`===`). The model names it by its index in `feeds`.
- Reader.FeedReader.CloseDescription: the source mutates the item object in place. The model replaces the item at that index.
- Reader.FeedReader.SortedFeeds: the in-place `Array.prototype.sort` is modelled as a stable sort whose result is reassigned to `feeds`.
- Reader.FeedReader.constructor: `unfilteredFeeds` is not declared in the component's data. It starts empty here.
- Reader.FeedText: feeds the parser with the repair as written at line 219. The corrected trim of "## Findings" is proved separately and does not replace it.

## Findings

| source | as written | input that shows it | evidently intended | confidence | as-written member | corrected member |
|---|---|---|---|---|---|---|
| static/feeder.js:109 | the trim regex `/<([([^>]*)(?=[^>]*>)[^<]*$/` demands a `>` after the last `<`. So it removes a complete final tag and its text, but keeps an unterminated fragment such as `<b` | `<a><b` is kept as it is and repaired to `<a><b</a>`. Scanned again, that text holds the tag `<b</a>`, which opens `b</a`, so `a` and `b</a` stay open | drop a trailing `<` that no `>` follows (for instance `/<[^>]*$/`), so that the kept text ends cleanly and the synthesized closers balance it | not executed | RepairFix.AsWrittenUnbalanced | RepairFix.RepairedFixedIsBalanced |
