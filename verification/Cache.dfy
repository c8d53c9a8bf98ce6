/** The bounded page cache (btree/cache.rs) and its agreement with the committed
    pages. */
module Cache {
  import opened Pages
  import opened Errors

  const U64: nat := 0x1_0000_0000_0000_0000

  datatype CacheEntry = CacheEntry(page: PageData, lastUsed: nat)

  type Entries = map<PageId, CacheEntry>

  /** Every cached page is the committed one. */
  ghost predicate Coherent(entries: Entries, pages: PageMap) {
    forall x :: x in entries ==> x in pages && entries[x].page == pages[x]
  }

  /** All time stamps lie in the past. */
  ghost predicate Aged(entries: Entries, clock: nat) {
    forall x :: x in entries ==> entries[x].lastUsed <= clock
  }

  class PageCache {
    const capacity: nat
    var pages: Entries
    var clock: nat

    constructor (capacity: nat)
      ensures this.capacity == capacity && pages == map[] && clock == 0
    {
      this.capacity, pages, clock := capacity, map[], 0;
    }

    ghost predicate Valid()
      reads this
    {
      |pages| <= capacity && clock < U64
    }

    method NextClock() returns (c: nat)
      requires clock < U64
      modifies `clock
      ensures c == clock == (if old(clock) + 1 == U64 then 0 else old(clock) + 1)
    {
      clock := if clock + 1 == U64 then 0 else clock + 1;
      c := clock;
    }

    /** A hit returns the cached page; no page comes, goes or changes. */
    method Get(pageId: PageId) returns (r: Option<PageData>)
      requires Valid()
      modifies `pages, `clock
      ensures Valid()
      ensures r == if pageId in old(pages) then Some(old(pages)[pageId].page) else None
      ensures pages.Keys == old(pages).Keys && forall x :: x in pages ==> pages[x].page == old(pages)[x].page
    {
      var c := NextClock();
      if pageId !in pages {
        return None;
      }
      var entry := pages[pageId];
      ghost var was := pages;
      pages := pages[pageId := entry.(lastUsed := c)];
      assert pages.Keys == was.Keys;
      SameKeysSameSize(was, pages);
      return Some(entry.page);
    }

    /** Caches a page and evicts least recently used pages beyond the capacity. */
    method Insert(pageId: PageId, page: PageData)
      requires Valid()
      modifies `pages, `clock
      ensures Valid()
      ensures capacity == 0 ==> pages == old(pages)
      ensures FromInsert(old(pages), pages, pageId, page)
      ensures capacity > 0 ==> var n := |old(pages).Keys + {pageId}|; |pages| == if n <= capacity then n else capacity
      ensures capacity > 0 && Aged(old(pages), old(clock)) && old(clock) + 1 < U64 ==>
                && pageId in pages && Aged(pages, clock)
                && Oldest(old(pages)[pageId := CacheEntry(page, clock)], pages)
    {
      if capacity == 0 {
        return;
      }
      var c := NextClock();
      ghost var was := pages;
      pages := pages[pageId := CacheEntry(page, c)];
      ghost var full := pages;
      InsertSize(was, pageId, CacheEntry(page, c));
      pages := Evict(pages, capacity);
      if Aged(was, old(clock)) && old(clock) + 1 < U64 {
        NewestStays(full, pages, pageId);
      }
    }
  }

  /** What is left of the pages. */
  ghost predicate Kept(full: Entries, kept: Entries) {
    forall x :: x in kept ==> x in full && kept[x] == full[x]
  }

  /** What was dropped is older than what is left. */
  ghost predicate Oldest(full: Entries, kept: Entries) {
    forall x, y :: x in full && x !in kept && y in kept && y in full ==> full[x].lastUsed <= full[y].lastUsed
  }

  ghost predicate FromInsert(was: Entries, now: Entries, pageId: PageId, page: PageData) {
    forall x :: x in now ==> if x == pageId then now[x].page == page else x in was && now[x] == was[x]
  }

  /** The page least recently used. */
  method Victim(pages: Entries) returns (v: PageId)
    requires pages != map[]
    ensures v in pages && forall x :: x in pages ==> pages[v].lastUsed <= pages[x].lastUsed
  {
    v :| v in pages;
    var rest := pages.Keys - {v};
    while rest != {}
      invariant v in pages && rest <= pages.Keys
      invariant forall x :: x in pages && x !in rest ==> pages[v].lastUsed <= pages[x].lastUsed
      decreases rest
    {
      var x :| x in rest;
      if pages[x].lastUsed < pages[v].lastUsed {
        v := x;
      }
      rest := rest - {x};
    }
  }

  method Evict(full: Entries, capacity: nat) returns (kept: Entries)
    ensures Kept(full, kept) && Oldest(full, kept)
    ensures |kept| == if |full| <= capacity then |full| else capacity
    ensures |full| <= capacity ==> kept == full
  {
    kept := full;
    while |kept| > capacity
      invariant Kept(full, kept) && Oldest(full, kept)
      invariant |full| <= capacity ==> kept == full
      invariant |full| > capacity ==> |kept| >= capacity
      decreases |kept|
    {
      var victim := Victim(kept);
      RemoveSize(kept, victim);
      kept := kept - {victim};
    }
  }

  /** A page newer than all others is not evicted. */
  lemma NewestStays(full: Entries, kept: Entries, newest: PageId)
    requires newest in full && Oldest(full, kept) && Kept(full, kept) && kept != map[]
    requires forall x :: x in full && x != newest ==> full[x].lastUsed < full[newest].lastUsed
    ensures newest in kept
  {
    var y :| y in kept;
    assert y == newest || full[y].lastUsed < full[newest].lastUsed;
  }

  lemma SameKeysSameSize(a: Entries, b: Entries)
    requires a.Keys == b.Keys
    ensures |a| == |b|
  {
    assert |a| == |a.Keys| && |b| == |b.Keys|;
  }

  lemma InsertSize(a: Entries, x: PageId, e: CacheEntry)
    ensures |a[x := e]| == |a.Keys + {x}| <= |a| + 1
  {
    assert a[x := e].Keys == a.Keys + {x};
    assert |a[x := e]| == |a[x := e].Keys| && |a| == |a.Keys|;
  }

  lemma RemoveSize(a: Entries, x: PageId)
    requires x in a
    ensures |a - {x}| == |a| - 1
  {
    assert (a - {x}).Keys == a.Keys - {x};
    assert |a - {x}| == |(a - {x}).Keys| && |a| == |a.Keys|;
  }

  // ---------------------------------------------------------------- agreement with the committed pages

  /** Inserting the committed version of a page keeps the cache coherent. */
  lemma InsertCoherent(was: Entries, now: Entries, pages: PageMap, pageId: PageId, page: PageData)
    requires Coherent(was, pages) && FromInsert(was, now, pageId, page)
    ensures Coherent(now, pages[pageId := page])
  {
  }

  /** The pages after the first n updates. */
  ghost function Overwrite(pages: PageMap, ids: seq<PageId>, news: PageMap, n: nat): PageMap
    requires n <= |ids| && forall i :: 0 <= i < |ids| ==> ids[i] in news
  {
    if n == 0 then pages else Overwrite(pages, ids, news, n - 1)[ids[n - 1] := news[ids[n - 1]]]
  }

  lemma {:induction false} OverwriteAt(pages: PageMap, ids: seq<PageId>, news: PageMap, n: nat, x: PageId)
    requires n <= |ids| && forall i :: 0 <= i < |ids| ==> ids[i] in news
    ensures x in Overwrite(pages, ids, news, n) <==> x in pages || x in ids[..n]
    ensures x in Overwrite(pages, ids, news, n) ==> Overwrite(pages, ids, news, n)[x] == if x in ids[..n] then news[x] else pages[x]
  {
    if n > 0 {
      OverwriteAt(pages, ids, news, n - 1, x);
      assert ids[..n] == ids[..n - 1] + [ids[n - 1]];
    }
  }

  lemma OverwriteAll(pages: PageMap, ids: seq<PageId>, news: PageMap)
    requires Lists(ids, news)
    ensures Overwrite(pages, ids, news, |ids|) == pages + news
  {
    assert ids[..|ids|] == ids;
    forall x
      ensures x in Overwrite(pages, ids, news, |ids|) <==> x in pages + news
      ensures x in pages + news ==> Overwrite(pages, ids, news, |ids|)[x] == (pages + news)[x]
    {
      OverwriteAt(pages, ids, news, |ids|, x);
    }
  }

  /** Caches pages one by one. */
  method InsertMany(cache: PageCache, ids: seq<PageId>, news: PageMap, ghost pages: PageMap)
    requires cache.Valid() && Coherent(cache.pages, pages) && Lists(ids, news)
    modifies cache
    ensures cache.Valid() && Coherent(cache.pages, pages + news)
  {
    hide Coherent;
    for i := 0 to |ids|
      invariant cache.Valid() && Coherent(cache.pages, Overwrite(pages, ids, news, i))
    {
      ghost var was := cache.pages;
      cache.Insert(ids[i], news[ids[i]]);
      InsertCoherent(was, cache.pages, Overwrite(pages, ids, news, i), ids[i], news[ids[i]]);
    }
    OverwriteAll(pages, ids, news);
  }

  ghost predicate Lists(ids: seq<PageId>, pages: PageMap) {
    forall x :: x in ids <==> x in pages
  }

  /** What a candidate of a group brings to the cache: pages it read from the
      file, then pages it changed. */
  datatype Publication = Publication(loaded: PageMap, changed: PageMap)

  /** The pages a candidate read are the committed ones at its turn. */
  ghost predicate ReadsCommitted(p: Publication, pages: PageMap) {
    forall x :: x in p.loaded ==> x in pages && p.loaded[x] == pages[x]
  }

  method KeyList(pages: PageMap) returns (ids: seq<PageId>)
    ensures Lists(ids, pages)
  {
    ids := [];
    var rest := pages.Keys;
    while rest != {}
      invariant rest <= pages.Keys && forall x :: x in ids <==> x in pages && x !in rest
      decreases rest
    {
      var x :| x in rest;
      ids := ids + [x];
      rest := rest - {x};
    }
  }

  /** Publishing a batch takes a coherent cache to the new committed pages,
      whatever its capacity and whatever was evicted. */
  method Publish(cache: PageCache, p: Publication, ghost pages: PageMap)
    requires cache.Valid() && Coherent(cache.pages, pages) && ReadsCommitted(p, pages)
    modifies cache
    ensures cache.Valid() && Coherent(cache.pages, pages + p.changed)
  {
    assert pages + p.loaded == pages;
    var loaded := KeyList(p.loaded);
    InsertMany(cache, loaded, p.loaded, pages);
    var changed := KeyList(p.changed);
    InsertMany(cache, changed, p.changed, pages);
  }

  /** Reads a page through the cache; a miss goes to the dirty pages or the
      file, which hold the committed page. */
  method ReadPage(cache: PageCache, pageId: PageId, stored: PageMap) returns (r: Result<PageData>)
    requires cache.Valid() && Coherent(cache.pages, stored)
    modifies cache
    ensures cache.Valid() && Coherent(cache.pages, stored)
    ensures r == if pageId in stored then Ok(stored[pageId]) else Err(Corruption)
  {
    var hit := cache.Get(pageId);
    if hit.Some? {
      return Ok(hit.value);
    }
    if pageId !in stored {
      return Err(Corruption);
    }
    return Ok(stored[pageId]);
  }
}
