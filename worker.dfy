/** The bookmarks worker: the cache `bookmarksInMemory` it updates in place,
    the startup load, and the `addBookmark`, `deleteBookmark` and
    `searchBookmarks` message branches. The record store and the full-text
    index are outside the model: the load receives the stored records as a
    sequence, the index is represented by the ghost list of documents handed
    to `addDoc`, and a ranked search receives the hits the index returned. */
module Worker {
  import opened Wrappers
  import opened JsStrings
  import opened Tokens
  import opened Ranking
  import opened Bookmarks

  /** What a search posts back as `result`: a list of views, or for the
      ranked path an array whose slots are views or holes. */
  datatype SearchResult = Listing(views: seq<View>) | Ranked(slots: seq<Option<View>>)

  /** The documents' references. */
  ghost function Ids(docs: seq<IndexDoc>): set<JsString> {
    set d | d in docs :: d.id
  }

  /** The documents the startup load indexes for `rs`, in order. */
  ghost function LoadDocs(rs: seq<Record>): seq<IndexDoc> {
    if rs == [] then []
    else
      var last := rs[|rs| - 1];
      LoadDocs(rs[..|rs| - 1]) + [DocOf(BulkKey(last.url), last)]
  }

  /** Loading one more record extends both the cache fold and the documents. */
  lemma LoadSnoc(c: Cache, rs: seq<Record>, i: nat)
    requires i < |rs|
    ensures LoadAll(c, rs[..i + 1]) == LoadAll(c, rs[..i])[BulkKey(rs[i].url) := ViewOf(rs[i])]
    ensures LoadDocs(rs[..i + 1]) == LoadDocs(rs[..i]) + [DocOf(BulkKey(rs[i].url), rs[i])]
  {
    var prefix := rs[..i + 1];
    assert prefix[..i] == rs[..i] && prefix[i] == rs[i];
  }

  /** Midway through the single-word scan: the keys already visited (those
      outside `todo`) carry `ScoreMatches`' value, the rest their old one. */
  ghost predicate ScoredOutside(c0: Cache, c: Cache, todo: set<JsString>, q: JsString) {
    && c.Keys == c0.Keys
    && forall k :: k in c0 ==>
      c[k] == if k !in todo && Matches(c0[k], q) then c0[k].(score := Some(1)) else c0[k]
  }

  /** Visiting one more key of `todo` keeps `ScoredOutside`. */
  lemma ScoredOutsideStep(c0: Cache, c: Cache, todo: set<JsString>, q: JsString, url: JsString)
    requires ScoredOutside(c0, c, todo, q) && todo <= c0.Keys && url in todo
    ensures url in c && c[url] == c0[url]
    ensures Matches(c[url], q) ==> ScoredOutside(c0, c[url := c[url].(score := Some(1))], todo - {url}, q)
    ensures !Matches(c[url], q) ==> ScoredOutside(c0, c, todo - {url}, q)
  {
    var m := Matches(c0[url], q);
    var c' := if m then c[url := c0[url].(score := Some(1))] else c;
    forall k | k in c0
      ensures c'[k] == if k !in todo - {url} && Matches(c0[k], q) then c0[k].(score := Some(1)) else c0[k]
    {
      if k != url {
        assert c'[k] == c[k];
      }
    }
  }

  /** Once every key is visited, the scan has produced `ScoreMatches`. */
  lemma ScoredOutsideDone(c0: Cache, c: Cache, q: JsString)
    requires ScoredOutside(c0, c, {}, q)
    ensures c == ScoreMatches(c0, q)
  {
  }

  /** Listing one more, not yet listed, key after writing its view. */
  lemma EnumeratesSnoc(c: Cache, keys: seq<JsString>, views: seq<View>, k: JsString, v: View)
    requires Enumerates(c, keys, views) && k !in keys
    ensures Enumerates(c[k := v], keys + [k], views + [v])
  {
  }

  class BookmarksWorker {
    /** `bookmarksInMemory`. */
    var cache: Cache
    /** The documents added to the full-text index, which never removes any. */
    ghost var docs: seq<IndexDoc>

    /** Every cached bookmark has been indexed under its key. */
    ghost predicate Valid()
      reads this
    {
      cache.Keys <= Ids(docs)
    }

    constructor ()
      ensures Valid()
      ensures cache == map[] && docs == []
    {
      cache := map[];
      docs := [];
    }

    /** One `db.bookmarks.each` callback of the startup load: index the record
        and cache its view, both under the hex of its URL's hash. */
    method LoadRecord(r: Record)
      requires Valid()
      modifies this
      ensures Valid()
      ensures cache == old(cache)[BulkKey(r.url) := ViewOf(r)]
      ensures docs == old(docs) + [DocOf(BulkKey(r.url), r)]
    {
      var urlHash := BulkKey(r.url);
      docs := docs + [DocOf(urlHash, r)];
      cache := cache[urlHash := ViewOf(r)];
    }

    /** The startup load over every stored record, in store order. */
    method BulkLoad(records: seq<Record>)
      requires Valid()
      modifies this
      ensures Valid()
      ensures cache == LoadAll(old(cache), records)
      ensures docs == old(docs) + LoadDocs(records)
    {
      ghost var c0, d0 := cache, docs;
      var i := 0;
      while i < |records|
        invariant 0 <= i <= |records|
        invariant Valid()
        invariant cache == LoadAll(c0, records[..i])
        invariant docs == d0 + LoadDocs(records[..i])
      {
        LoadSnoc(c0, records, i);
        LoadRecord(records[i]);
        i := i + 1;
      }
      assert records[..i] == records;
    }

    /** `addBookmark`: index the record and cache its view under the URL
        itself, replacing any entry already there. */
    method AddBookmark(p: Record)
      requires Valid()
      modifies this
      ensures Valid()
      ensures cache == old(cache)[p.url := ViewOf(p)]
      ensures docs == old(docs) + [DocOf(p.url, p)]
    {
      docs := docs + [DocOf(p.url, p)];
      cache := cache[p.url := ViewOf(p)];
    }

    /** `deleteBookmark`: drop the entry under the URL; the index keeps its document. */
    method DeleteBookmark(url: JsString)
      requires Valid()
      modifies this
      ensures Valid()
      ensures cache == old(cache) - {url}
      ensures docs == old(docs)
    {
      cache := cache - {url};
    }

    /** The empty-query branch: every cached view, each once, in key iteration order. */
    method ListAll() returns (views: seq<View>, ghost keys: seq<JsString>)
      ensures Enumerates(cache, keys, views)
      ensures forall k :: k in cache ==> k in keys
      ensures |views| == |cache|
      ensures forall i :: 0 <= i < |views| ==> views[i] in cache.Values
      ensures forall k :: k in cache ==> cache[k] in views
    {
      var todo := cache.Keys;
      views, keys := [], [];
      while todo != {}
        invariant todo <= cache.Keys
        invariant Enumerates(cache, keys, views)
        invariant forall k :: k in cache ==> (k in keys <==> k !in todo)
        decreases todo
      {
        var url :| url in todo;
        views := views + [cache[url]];
        keys := keys + [url];
        todo := todo - {url};
      }
      EnumerationSize(cache, keys, views);
      forall k | k in cache ensures cache[k] in views {
        var i :| 0 <= i < |keys| && keys[i] == k;
      }
    }

    /** The single-word branch: every view whose lowered `title + url` contains
        the lowered query gets score 1 and is listed. */
    method SearchSubstring(q: JsString) returns (views: seq<View>, ghost keys: seq<JsString>)
      requires Valid()
      modifies this
      ensures Valid()
      ensures cache == ScoreMatches(old(cache), q) && docs == old(docs)
      ensures Enumerates(cache, keys, views)
      ensures forall k :: k in cache ==> (k in keys <==> Matches(old(cache)[k], q))
    {
      ghost var c0 := cache;
      var todo := cache.Keys;
      views, keys := [], [];
      while todo != {}
        invariant todo <= c0.Keys && docs == old(docs)
        invariant ScoredOutside(c0, cache, todo, q)
        invariant Enumerates(cache, keys, views)
        invariant forall k :: k in c0 ==> (k in keys <==> k !in todo && Matches(c0[k], q))
        decreases todo
      {
        var url :| url in todo;
        ScoredOutsideStep(c0, cache, todo, q, url);
        var view := cache[url];
        if Matches(view, q) {
          view := view.(score := Some(1));
          EnumeratesSnoc(cache, keys, views, url, view);
          cache := cache[url := view];
          views := views + [view];
          keys := keys + [url];
        }
        todo := todo - {url};
      }
      ScoredOutsideDone(c0, cache, q);
    }

    /** The reconciliation loop of the ranked branch: a hit whose reference is
        not cached leaves a hole; otherwise its score is written onto the cached
        view, which fills the slot. */
    method Reconcile(ranked: seq<Hit>) returns (slots: seq<Option<View>>)
      requires Valid()
      modifies this
      ensures Valid()
      ensures cache == WriteScores(old(cache), ranked) && docs == old(docs)
      ensures |slots| == |ranked|
      ensures forall i :: 0 <= i < |ranked| ==> slots[i] == SlotFor(old(cache), ranked[i])
    {
      ghost var c0 := cache;
      slots := [];
      var i := 0;
      while i < |ranked|
        invariant 0 <= i <= |ranked| && |slots| == i
        invariant cache == WriteScores(c0, ranked[..i]) && docs == old(docs)
        invariant forall j :: 0 <= j < i ==> slots[j] == SlotFor(c0, ranked[j])
      {
        WriteScoresSameButScores(c0, ranked[..i]);
        var url := ranked[i].ref;
        if url !in cache {
          slots := slots + [None];
        } else {
          cache := cache[url := cache[url].(score := Some(ranked[i].score))];
          slots := slots + [Some(cache[url])];
        }
        assert ranked[..i + 1][..i] == ranked[..i];
        i := i + 1;
      }
      assert ranked[..i] == ranked;
    }

    /** `searchBookmarks`. `hits` stands for what the full-text index returns
        for the lowered query; only the multi-word branch consults it. */
    method SearchBookmarks(text: Option<JsString>, hits: seq<Hit>) returns (result: SearchResult, ghost keys: seq<JsString>)
      requires Valid()
      modifies this
      ensures Valid() && docs == old(docs)
      ensures SameButScores(old(cache), cache)
      ensures match StrategyOf(text)
        case ListAll =>
          && cache == old(cache) && result.Listing?
          && Enumerates(cache, keys, result.views)
          && forall k :: k in cache ==> k in keys
        case Substring(q) =>
          && cache == ScoreMatches(old(cache), q) && result.Listing?
          && Enumerates(cache, keys, result.views)
          && forall k :: k in cache ==> (k in keys <==> Matches(old(cache)[k], q))
        case FullText(q) =>
          && cache == WriteScores(old(cache), TopHits(hits)) && result.Ranked?
          && |result.slots| == |TopHits(hits)|
          && forall i :: 0 <= i < |result.slots| ==> result.slots[i] == SlotFor(old(cache), TopHits(hits)[i])
    {
      var strategy := StrategyOf(text);
      match strategy {
        case ListAll =>
          var views;
          views, keys := ListAll();
          result := Listing(views);
        case Substring(q) =>
          var views;
          views, keys := SearchSubstring(q);
          result := Listing(views);
        case FullText(q) =>
          var slots := Reconcile(TopHits(hits));
          WriteScoresSameButScores(old(cache), TopHits(hits));
          result := Ranked(slots);
          keys := [];
      }
    }
  }
}
