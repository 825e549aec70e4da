# Bookmarks worker model

A Dafny model of the bookmarks web worker `js/bookmarksHistory/bookmarksWorker.js`.
The worker keeps an in-memory cache of bookmarks, `bookmarksInMemory`, beside a
full-text index. It fills both once at startup from the record store. It keeps
them updated on `addBookmark` and `deleteBookmark` messages, and it answers
`searchBookmarks` messages with one of three strategies:

- An empty query lists every cached view.
- A query without a space scans the cache for a substring.
- Any other query reconciles the full-text index's top five hits with the cache.

Every index term passes through a token hasher: the 32-bit FNV-1a hash of the
token's UTF-16 code units, rendered in hex and cut to four digits. The startup
load keys each bookmark by the full hex of its URL's hash.

Modules, one per component of the worker:

- `JsStrings`: JavaScript strings as sequences of UTF-16 code units, with `toLowerCase` and `indexOf`.
- `Fnv`: `fnv1aHash`. A specification function folds one FNV round, `(h xor c) * 16777619 mod 2^32`, over the code units. The method `HashCodeUnits` runs the source's loop on JavaScript numbers (ToInt32 for `^` and `<<`, exact `+`, ToUint32 for `>>> 0`) and is proved equal to it.
- `HexFormat`: `toString(16)` on non-negative integers, with its inverse.
- `Tokens`: the startup key `hex(hash(url))` and the four-digit token code.
- `Ranking`: the descending stable sort of hits and the cut to five.
- `Bookmarks`: records, views and index documents; the startup load as a fold; the score writes of both search paths; strategy selection.
- `Worker`: the class `BookmarksWorker`. Its field `cache` is `bookmarksInMemory`, updated in place. The ghost field `docs` holds the documents handed to the index.

The two key schemes of the source are kept as written. The startup load keys
an entry by the hex of the URL's hash; `addBookmark` and `deleteBookmark` key it
by the URL itself. `Bookmarks.DeleteKeepsLoadedEntry` proves the consequence:
deleting a bookmark loaded at startup leaves its cache entry in place, so it is
still listed and still found. `Bookmarks.AddAfterLoadDuplicates` proves the
other consequence: re-adding such a bookmark creates a second entry.

Behaviour of the code the model keeps:

- Stale hits are not dropped from the ranked result. They leave holes in the array (`delete results[i]`), modelled as `None` slots.
- The single-word test looks for the space character only, not for any whitespace.
- Nothing validates a message or reacts to a store failure.
- Views listed for an empty query keep whatever `score` an earlier search wrote.

## Model

| member | source | states |
|---|---|---|
| `Fnv.HashCodeUnits` | js/bookmarksHistory/bookmarksWorker.js:27-36 | the source's loop, run on JavaScript numbers and returning `h >>> 0`, computes exactly `Hash(s)`, an unsigned 32-bit value |
| `Fnv.ShiftSumIsStep` | js/bookmarksHistory/bookmarksWorker.js:31-32 | after `h ^= c` leaves an int32, `h += (h<<1)+(h<<4)+(h<<7)+(h<<8)+(h<<24)` followed by ToUint32 is one FNV round: XOR then multiply by 16777619 modulo 2^32 |
| `Fnv.BitXorBelow` | js/bookmarksHistory/bookmarksWorker.js:31 | XOR of two k-bit values is a k-bit value, so `h ^= c` keeps a 32-bit pattern |
| `Fnv.HashEmpty` | js/bookmarksHistory/bookmarksWorker.js:18-36 | the hash of the empty string is the offset basis 0x811c9dc5 |
| `Fnv.HashSnoc` | js/bookmarksHistory/bookmarksWorker.js:30-33 | `hash(s + [c]) == ((hash(s) xor c) * 16777619) mod 2^32` |
| `Fnv.HashIsLeftFold` | js/bookmarksHistory/bookmarksWorker.js:28-33 | the hash is the left fold of the FNV round over the code units, from the offset basis |
| `Fnv.FoldAppend` | js/bookmarksHistory/bookmarksWorker.js:30-33 | hashing `s + t` continues from the accumulator `s` left |
| `HexFormat.ToHex` | js/bookmarksHistory/bookmarksWorker.js:63 | `toString(16)` yields at least one lowercase hex digit |
| `HexFormat.ToHexCanonical` | js/bookmarksHistory/bookmarksWorker.js:63 | the rendering is unpadded: no leading `0` unless the value is 0 |
| `HexFormat.ParseToHex` | js/bookmarksHistory/bookmarksWorker.js:63 | reading the hex text back gives the value rendered |
| `HexFormat.ToHexParse` | js/bookmarksHistory/bookmarksWorker.js:63 | rendering the value of a canonical hex text gives that text back, so rendering is a bijection onto canonical texts |
| `HexFormat.Uint32HexLength` | js/bookmarksHistory/bookmarksWorker.js:35 | a `>>> 0` result renders in one to eight digits |
| `Tokens.BulkKey` | js/bookmarksHistory/bookmarksWorker.js:63 | the startup key is a canonical hex text of at most eight digits whose value is the URL's hash |
| `Tokens.BulkKeyInjective` | js/bookmarksHistory/bookmarksWorker.js:63-66 | two URLs share a startup key exactly when their hashes are equal |
| `Tokens.TokenCode` | js/bookmarksHistory/bookmarksWorker.js:43-45 | the token code is exactly the first four hex digits of the full hex key of the same text, or the whole key when it has fewer than four |
| `JsStrings.IndexOf` | js/bookmarksHistory/bookmarksWorker.js:141 | `indexOf` is -1 exactly when the pattern occurs nowhere; otherwise it is the first occurrence |
| `JsStrings.IndexOfUnit` | js/bookmarksHistory/bookmarksWorker.js:138 | `indexOf(' ') === -1` exactly when the text has no space |
| `JsStrings.LowerIdempotent` | js/bookmarksHistory/bookmarksWorker.js:141 | lowering the already lowered query again changes nothing |
| `JsStrings.LowerKeepsSpaces` | js/bookmarksHistory/bookmarksWorker.js:91 | lowering the query neither adds nor removes a space |
| `Ranking.InsertDesc` | js/bookmarksHistory/bookmarksWorker.js:158-159 | inserting one hit yields the same hits plus that one |
| `Ranking.InsertDescSorted` | js/bookmarksHistory/bookmarksWorker.js:158-159 | inserting into a sequence sorted by descending score keeps it sorted |
| `Ranking.SortDesc` | js/bookmarksHistory/bookmarksWorker.js:158-159 | the sort returns a permutation of the hits ordered non-increasing by score |
| `Ranking.SplitSorted` | js/bookmarksHistory/bookmarksWorker.js:160 | cutting a sorted sequence keeps the prefix sorted, splits the multiset, and every kept hit scores at least as high as every dropped one |
| `Ranking.TopHits` | js/bookmarksHistory/bookmarksWorker.js:158-160 | at most five hits, or all of them when fewer, non-increasing by score, each scoring at least as high as every dropped hit |
| `Bookmarks.LoadAllKeys` | js/bookmarksHistory/bookmarksWorker.js:60-83 | the startup load adds exactly the hash keys of the records to the cache |
| `Bookmarks.LoadAllUntouched` | js/bookmarksHistory/bookmarksWorker.js:78 | the startup load leaves entries under other keys as they were |
| `Bookmarks.LoadAllLastWins` | js/bookmarksHistory/bookmarksWorker.js:78-83 | a record's hash key holds the view of the last record loaded under that key: url, title and extraData, no text, no score |
| `Bookmarks.DeleteKeepsLoadedEntry` | js/bookmarksHistory/bookmarksWorker.js:119 | for any URL that is not a bare lowercase hex number, deleting by URL leaves the entry the startup load made under the URL's hash key (line 78), holding the record's view |
| `Bookmarks.AddAfterLoadDuplicates` | js/bookmarksHistory/bookmarksWorker.js:108-113 | adding a bookmark the startup load already cached leaves two entries for one URL, one under the URL and one under the hash key |
| `Bookmarks.EnumerationSize` | js/bookmarksHistory/bookmarksWorker.js:127-129 | a listing of distinct keys that covers the cache holds exactly as many views as the cache has entries |
| `Bookmarks.ScoreMatches` | js/bookmarksHistory/bookmarksWorker.js:140-145 | the single-word search changes nothing but scores, every match ends with score 1, and every non-matching entry keeps its view, score included |
| `Bookmarks.WriteScores` | js/bookmarksHistory/bookmarksWorker.js:173 | writing hit scores keeps the cache's key set |
| `Bookmarks.WriteScoresSameButScores` | js/bookmarksHistory/bookmarksWorker.js:164-175 | reconciliation changes nothing in the cache but scores |
| `Bookmarks.WriteScoresLastWins` | js/bookmarksHistory/bookmarksWorker.js:173 | a cached entry ends with the score of the last hit naming it |
| `Bookmarks.WriteScoresUntouched` | js/bookmarksHistory/bookmarksWorker.js:164-175 | an entry no hit names keeps its old score |
| `Bookmarks.SlotsMatchFinalCache` | js/bookmarksHistory/bookmarksWorker.js:173-174 | with distinct references, a slot is a hole exactly when its reference is not cached, and otherwise equals the cache's final entry |
| `Bookmarks.StrategyOf` | js/bookmarksHistory/bookmarksWorker.js:91-138 | list everything exactly when the text is absent or empty; scan for a substring exactly when it is non-empty and has no space; the query is the lowered text |
| `Worker.BookmarksWorker.constructor` | js/bookmarksHistory/bookmarksWorker.js:56-58 | the cache starts empty |
| `Worker.BookmarksWorker.LoadRecord` | js/bookmarksHistory/bookmarksWorker.js:63-83 | one startup record is indexed and cached under `hex(hash(url))`, with every other entry unchanged |
| `Worker.BookmarksWorker.BulkLoad` | js/bookmarksHistory/bookmarksWorker.js:60-86 | the cache after the load is the fold `LoadAll` of the records, and the index has received their documents in order |
| `Worker.BookmarksWorker.AddBookmark` | js/bookmarksHistory/bookmarksWorker.js:101-113 | the view without text is set under key `url`, overwriting any earlier entry; every other key is unchanged and the document is indexed |
| `Worker.BookmarksWorker.DeleteBookmark` | js/bookmarksHistory/bookmarksWorker.js:116-120 | exactly key `url` is removed from the cache; every other entry and the index are unchanged |
| `Worker.BookmarksWorker.ListAll` | js/bookmarksHistory/bookmarksWorker.js:123-135 | returns one view per cache entry, in some key order: as many views as entries, every cached view among them and nothing else; changes nothing |
| `Worker.BookmarksWorker.SearchSubstring` | js/bookmarksHistory/bookmarksWorker.js:138-145 | lists exactly the views whose lowered `title + url` contains the lowered query, each once and with score 1; the cache gains those scores and nothing else |
| `Worker.BookmarksWorker.Reconcile` | js/bookmarksHistory/bookmarksWorker.js:164-175 | slot i is a hole exactly when reference i is not a cache key; otherwise it is the cached view carrying score i, which is written into the cache |
| `Worker.BookmarksWorker.SearchBookmarks` | js/bookmarksHistory/bookmarksWorker.js:122-183 | dispatches on the strategy and states each branch's result and new cache; every branch changes nothing but scores |

## Left out

- Record store I/O: `db.bookmarks.each`, `add` and `where().delete()` are not modelled. The startup load receives the stored records as a sequence, and writes and deletes to the store are omitted.
- Full-text index internals: tokenizing, `addDoc` postings, and the AND-mode field-boosted scoring. The index is the ghost list of documents handed to `addDoc`. A ranked search takes the hits the index returned as an input.
- Scores are integers. The source's floating-point scores matter only through their order.
- Worker plumbing is not modelled: `importScripts`, `onmessage` dispatch on the action string, `postMessage` with its `scope` and echoed `callbackId`, and the timing calls.
- The asynchronous startup load is not interleaved with incoming messages. The load runs to completion as one method.
- `for ... in` key order is a nondeterministic choice. Listings are stated as "each key once", not in a particular order.
- `toLowerCase` lowers ASCII `A`-`Z` only. Full Unicode lowering, which can change a string's length, is not modelled.
- A `title` of `null` renders as `"null"` in the source. Here a title is present or `undefined` only.
- `!bookmarksInMemory[url]` also sees keys inherited from `Object.prototype`, such as `constructor`. The model's cache has only its own keys.
- Reconcile: views are values. When the index returns the same reference twice, the source's slots share one object and all show the last score; the model's slots keep the score of their own hit. `Bookmarks.SlotsMatchFinalCache` shows the two agree when references are distinct, which is how the index returns them.
- Reconcile: the result is built slot by slot rather than by overwriting the array of hits in place.
- Ranking.SortDesc: stability is not stated. The insertion places a hit before later hits of equal score, as a stable sort does, but no lemma states it.
