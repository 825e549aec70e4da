/** The values the worker handles and the pure account of its in-memory cache
    `bookmarksInMemory`: what the startup load inserts, how searches write
    scores, and which search strategy a query text selects. */
module Bookmarks {
  import opened Wrappers
  import opened JsStrings
  import opened Tokens
  import opened Ranking
  import opened HexFormat

  /** The caller-defined `extraData` value, carried through untouched. */
  datatype ExtraData = ExtraData(json: JsString)

  /** A stored bookmark, or the `data` of an `addBookmark` message. An absent
      `title` or `text` is `undefined` in the source. */
  datatype Record = Record(url: JsString, title: Option<JsString>, text: Option<JsString>, extraData: ExtraData)

  /** A cached bookmark: the record without its page text, plus the `score`
      property searches write onto it. */
  datatype View = View(url: JsString, title: Option<JsString>, extraData: ExtraData, score: Option<int>)

  /** A document handed to the full-text index's `addDoc`. */
  datatype IndexDoc = IndexDoc(id: JsString, title: JsString, body: JsString, url: JsString)

  /** `bookmarksInMemory`: property name to cached view. */
  type Cache = map<JsString, View>

  /** The object literal both insertions build: `url`, `title`, `extraData`, no `text`. */
  function ViewOf(r: Record): View {
    View(r.url, r.title, r.extraData, None)
  }

  /** The document both insertions index, with `title || ''` and `text || ''`. */
  function DocOf(id: JsString, r: Record): IndexDoc {
    IndexDoc(id, r.title.GetOr([]), r.text.GetOr([]), r.url)
  }

  // The startup load.

  /** The cache after the startup load has inserted `rs`, in order, into `c`:
      each record's view under the hex of its URL's hash. */
  function LoadAll(c: Cache, rs: seq<Record>): Cache {
    if rs == [] then c
    else
      var last := rs[|rs| - 1];
      LoadAll(c, rs[..|rs| - 1])[BulkKey(last.url) := ViewOf(last)]
  }

  /** The keys the startup load inserts for `rs`. */
  ghost function LoadedKeys(rs: seq<Record>): set<JsString> {
    set r | r in rs :: BulkKey(r.url)
  }

  lemma LoadedKeysSnoc(init: seq<Record>, last: Record)
    ensures LoadedKeys(init + [last]) == LoadedKeys(init) + {BulkKey(last.url)}
  {
    forall k | k in LoadedKeys(init + [last]) ensures k in LoadedKeys(init) + {BulkKey(last.url)} {
      var r :| r in init + [last] && BulkKey(r.url) == k;
      if r != last {
        assert r in init;
      }
    }
    forall k | k in LoadedKeys(init) ensures k in LoadedKeys(init + [last]) {
      var r :| r in init && BulkKey(r.url) == k;
      assert r in init + [last];
    }
    assert last in init + [last];
  }

  /** The load adds exactly the hash keys of the records. */
  lemma {:induction false} LoadAllKeys(c: Cache, rs: seq<Record>)
    ensures LoadAll(c, rs).Keys == c.Keys + LoadedKeys(rs)
  {
    if rs != [] {
      var init, last := rs[..|rs| - 1], rs[|rs| - 1];
      LoadAllKeys(c, init);
      assert LoadAll(c, rs).Keys == LoadAll(c, init).Keys + {BulkKey(last.url)};
      assert rs == init + [last];
      LoadedKeysSnoc(init, last);
    }
  }

  /** Entries under keys the load does not produce keep their value. */
  lemma {:induction false} LoadAllUntouched(c: Cache, rs: seq<Record>, k: JsString)
    requires forall r :: r in rs ==> BulkKey(r.url) != k
    ensures k in LoadAll(c, rs) <==> k in c
    ensures k in c ==> LoadAll(c, rs)[k] == c[k]
  {
    if rs != [] {
      LoadAllUntouched(c, rs[..|rs| - 1], k);
    }
  }

  /** A record's key holds the view of the last record loaded under that key. */
  lemma {:induction false} LoadAllLastWins(c: Cache, rs: seq<Record>, i: nat)
    requires i < |rs|
    requires forall j :: i < j < |rs| ==> BulkKey(rs[j].url) != BulkKey(rs[i].url)
    ensures BulkKey(rs[i].url) in LoadAll(c, rs)
    ensures LoadAll(c, rs)[BulkKey(rs[i].url)] == ViewOf(rs[i])
  {
    if i < |rs| - 1 {
      var init := rs[..|rs| - 1];
      assert init[i] == rs[i];
      LoadAllLastWins(c, init, i);
    }
  }

  /** The two key schemes do not meet: deleting a bookmark by its URL, as
      `deleteBookmark` does, leaves the entry the startup load made for it
      under the hash key, so it is still listed and still searchable. A URL
      that is not a bare lowercase hex number, as every real URL is not,
      differs from its hash key. */
  lemma DeleteKeepsLoadedEntry(rs: seq<Record>, i: nat)
    requires i < |rs|
    requires forall j :: i < j < |rs| ==> BulkKey(rs[j].url) != BulkKey(rs[i].url)
    requires !Canonical(rs[i].url)
    ensures BulkKey(rs[i].url) in LoadAll(map[], rs) - {rs[i].url}
    ensures (LoadAll(map[], rs) - {rs[i].url})[BulkKey(rs[i].url)] == ViewOf(rs[i])
  {
    LoadAllLastWins(map[], rs, i);
  }

  /** Adding a bookmark that the startup load already inserted makes a second
      entry, under the URL, beside the one under the hash key. */
  lemma AddAfterLoadDuplicates(rs: seq<Record>, i: nat, p: Record)
    requires i < |rs|
    requires forall j :: i < j < |rs| ==> BulkKey(rs[j].url) != BulkKey(rs[i].url)
    requires p.url == rs[i].url && !Canonical(p.url)
    ensures var c := LoadAll(map[], rs)[p.url := ViewOf(p)];
      && p.url in c && BulkKey(p.url) in c
      && c[p.url] == ViewOf(p) && c[BulkKey(p.url)] == ViewOf(rs[i])
  {
    LoadAllLastWins(map[], rs, i);
  }

  // Listings.

  ghost predicate Distinct(keys: seq<JsString>) {
    forall i, j :: 0 <= i < j < |keys| ==> keys[i] != keys[j]
  }

  /** `views` lists the entries of `c` under `keys`, one per key, in the order
      of `keys` (the order in which `for ... in` visited them). */
  ghost predicate Enumerates(c: Cache, keys: seq<JsString>, views: seq<View>) {
    && |keys| == |views|
    && Distinct(keys)
    && forall i :: 0 <= i < |keys| ==> keys[i] in c && views[i] == c[keys[i]]
  }

  /** A listing of distinct keys that covers the whole cache has one view per entry. */
  lemma {:induction false} EnumerationSize(c: Cache, keys: seq<JsString>, views: seq<View>)
    requires Enumerates(c, keys, views)
    requires forall k :: k in c ==> k in keys
    ensures |views| == |c|
  {
    var ks := set k | k in keys;
    assert ks == c.Keys;
    DistinctCardinality(keys);
  }

  lemma {:induction false} DistinctCardinality(keys: seq<JsString>)
    requires Distinct(keys)
    ensures |set k | k in keys| == |keys|
  {
    if keys != [] {
      var init, last := keys[..|keys| - 1], keys[|keys| - 1];
      assert keys == init + [last];
      DistinctCardinality(init);
      assert (set k | k in keys) == (set k | k in init) + {last};
      assert last !in (set k | k in init);
    }
  }

  // Searching.

  /** `title + url` as JavaScript concatenates it: a missing title reads `"undefined"`. */
  function SearchText(v: View): JsString {
    (if v.title.Some? then v.title.value else Undefined) + v.url
  }

  /** The single-word test of the source: the lowered query occurs in the
      lowered `title + url`. */
  predicate Matches(v: View, q: JsString) {
    IndexOf(Lower(SearchText(v)), Lower(q)) != -1
  }

  /** The view with its score property cleared, for comparing everything but scores. */
  function Unscored(v: View): View {
    v.(score := None)
  }

  /** `c'` has the same entries as `c` except for their `score` properties. */
  ghost predicate SameButScores(c: Cache, c': Cache) {
    c.Keys == c'.Keys && forall k :: k in c ==> Unscored(c'[k]) == Unscored(c[k])
  }

  /** The cache after the single-word search for `q`: score 1 on every match,
      every other entry as it was. */
  function ScoreMatches(c: Cache, q: JsString): (r: Cache)
    ensures SameButScores(c, r)
    ensures forall k :: k in c && Matches(c[k], q) ==> r[k].score == Some(1)
    ensures forall k :: k in c && !Matches(c[k], q) ==> r[k] == c[k]
  {
    map k | k in c :: if Matches(c[k], q) then c[k].(score := Some(1)) else c[k]
  }

  /** The cache after the ranked search has written the scores of `hits` in
      order onto the entries their references name. */
  function WriteScores(c: Cache, hits: seq<Hit>): (r: Cache)
    ensures r.Keys == c.Keys
  {
    if hits == [] then c
    else
      var w, last := WriteScores(c, hits[..|hits| - 1]), hits[|hits| - 1];
      if last.ref in w then w[last.ref := w[last.ref].(score := Some(last.score))] else w
  }

  /** Writing scores changes nothing but scores. */
  lemma {:induction false} WriteScoresSameButScores(c: Cache, hits: seq<Hit>)
    ensures SameButScores(c, WriteScores(c, hits))
  {
    if hits != [] {
      WriteScoresSameButScores(c, hits[..|hits| - 1]);
    }
  }

  /** An entry holds the score of the last hit that names it. */
  lemma {:induction false} WriteScoresLastWins(c: Cache, hits: seq<Hit>, i: nat)
    requires i < |hits| && hits[i].ref in c
    requires forall j :: i < j < |hits| ==> hits[j].ref != hits[i].ref
    ensures WriteScores(c, hits)[hits[i].ref] == c[hits[i].ref].(score := Some(hits[i].score))
  {
    WriteScoresSameButScores(c, hits);
    var init := hits[..|hits| - 1];
    WriteScoresSameButScores(c, init);
    if i < |hits| - 1 {
      assert init[i] == hits[i];
      WriteScoresLastWins(c, init, i);
    }
  }

  /** An entry no hit names keeps its old score. */
  lemma {:induction false} WriteScoresUntouched(c: Cache, hits: seq<Hit>, k: JsString)
    requires k in c
    requires forall h :: h in hits ==> h.ref != k
    ensures WriteScores(c, hits)[k] == c[k]
  {
    WriteScoresSameButScores(c, hits);
    if hits != [] {
      WriteScoresUntouched(c, hits[..|hits| - 1], k);
    }
  }

  /** Result slot of the ranked search for hit `h`, read when the hit is
      reconciled: a hole when the reference is not cached, otherwise the cached
      view with the hit's score. */
  function SlotFor(c: Cache, h: Hit): Option<View> {
    if h.ref in c then Some(c[h.ref].(score := Some(h.score))) else None
  }

  predicate DistinctRefs(hits: seq<Hit>) {
    forall i, j :: 0 <= i < j < |hits| ==> hits[i].ref != hits[j].ref
  }

  /** When no reference repeats, every filled slot equals the entry the cache
      holds once all scores are written, as the source's shared objects do. */
  lemma SlotsMatchFinalCache(c: Cache, hits: seq<Hit>, i: nat)
    requires i < |hits| && DistinctRefs(hits)
    ensures SlotFor(c, hits[i]).None? <==> hits[i].ref !in WriteScores(c, hits)
    ensures hits[i].ref in c ==> SlotFor(c, hits[i]) == Some(WriteScores(c, hits)[hits[i].ref])
  {
    WriteScoresSameButScores(c, hits);
    if hits[i].ref in c {
      WriteScoresLastWins(c, hits, i);
    }
  }

  // Strategy selection.

  /** How `searchBookmarks` answers: list everything, scan the cache for a
      single word, or reconcile the full-text index's ranked hits. */
  datatype Strategy = ListAll | Substring(query: JsString) | FullText(query: JsString)

  /** The strategy for a message's `text`: the lowered text is falsy (absent
      or empty), has no space, or has one. */
  function StrategyOf(text: Option<JsString>): (s: Strategy)
    ensures s.ListAll? <==> text == None || text == Some([])
    ensures s.Substring? <==> text.Some? && text.value != [] && Space !in text.value
    ensures !s.ListAll? ==> s.query == Lower(text.value)
  {
    if text == None || Lower(text.value) == [] then ListAll
    else
      var q := Lower(text.value);
      IndexOfUnit(q, Space);
      LowerKeepsSpaces(text.value);
      if IndexOf(q, [Space]) == -1 then Substring(q) else FullText(q)
  }
}
