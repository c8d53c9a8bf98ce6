/** The pages an overlay works on: its own changed or loaded pages first, then
    the cache, then the dirty pages and the file (btree/mod.rs).  What a group
    loads and changes keeps the cache coherent when it is published. */
module LazyPages {
  import opened Pages
  import opened Errors
  import opened Cache

  class LazyPages {
    /** The committed pages when the overlay was opened: dirty pages over the
        file. */
    const stored: PageMap
    const cache: PageCache
    var pages: PageMap
    var readPages: PageMap
    var dirty: set<PageId>
    /** The committed pages once the candidates finished so far are published. */
    ghost var committed: PageMap

    /** The pages as the overlay sees them. */
    ghost function Seen(): PageMap
      reads this
    {
      stored + pages
    }

    ghost predicate Valid()
      reads this, cache
    {
      && cache.Valid() && Coherent(cache.pages, stored)
      && dirty <= pages.Keys
      && Tracked(stored, pages, dirty, committed)
      && (forall x :: x in readPages ==> x in committed && readPages[x] == committed[x])
    }

    constructor (stored: PageMap, cache: PageCache)
      requires cache.Valid() && Coherent(cache.pages, stored)
      ensures Valid() && this.stored == stored && this.cache == cache && committed == stored && dirty == {} && Seen() == stored
      ensures readPages == map[]
    {
      this.stored, this.cache := stored, cache;
      pages, readPages, dirty, committed := map[], map[], {}, stored;
    }

    /** Reads a page; nothing the overlay sees changes. */
    method Page(id: PageId) returns (r: Result<PageData>)
      requires Valid()
      modifies `pages, `readPages, cache
      ensures Valid() && Seen() == old(Seen())
      ensures r == if id in Seen() then Ok(Seen()[id]) else Err(Corruption)
    {
      hide Tracked, Coherent;
      if id in pages {
        return Ok(pages[id]);
      }
      ghost var was := cache.pages;
      var hit := cache.Get(id);
      StillCoherent(was, cache.pages, stored, id);
      if id in stored {
        TrackedLoad(stored, pages, dirty, committed, id);
      }
      if hit.Some? {
        pages := pages[id := hit.value];
        return Ok(hit.value);
      }
      if id !in stored {
        return Err(Corruption);
      }
      var page := stored[id];
      readPages := readPages[id := page];
      pages := pages[id := page];
      return Ok(page);
    }

    method Replace(id: PageId, page: PageData)
      requires Valid()
      modifies `pages, `dirty
      ensures Valid() && Seen() == old(Seen())[id := page] && dirty == old(dirty) + {id}
    {
      hide Tracked, Coherent;
      TrackedStore(stored, pages, dirty, committed, id, page);
      pages := pages[id := page];
      dirty := dirty + {id};
    }

    /** Hands over what the candidate read and changed.  What it read, and what
        refused candidates before it read, are committed pages at its turn. */
    method Finish() returns (p: Publication)
      requires Valid()
      modifies `readPages, `dirty, `committed
      ensures Valid() && Seen() == old(Seen()) && dirty == {}
      ensures ReadsCommitted(p, old(committed)) && committed == old(committed) + p.changed
      ensures p.changed.Keys == old(dirty) && forall x :: x in p.changed ==> p.changed[x] == Seen()[x]
    {
      hide Tracked, Coherent;
      TrackedFinish(stored, pages, dirty, committed);
      var changed := map x | x in dirty :: pages[x];
      p := Publication(readPages, changed);
      readPages, dirty := map[], {};
      committed := committed + changed;
    }
  }

  /** A page that is not dirty is the committed one, loaded or not. */
  ghost predicate Tracked(stored: PageMap, pages: PageMap, dirty: set<PageId>, committed: PageMap) {
    && (forall x :: x in pages && x !in dirty ==> x in committed && committed[x] == pages[x])
    && (forall x :: x !in pages ==> (x in committed <==> x in stored))
    && (forall x :: x !in pages && x in stored ==> committed[x] == stored[x])
  }

  lemma StillCoherent(was: Entries, now: Entries, stored: PageMap, id: PageId)
    requires Coherent(was, stored) && now.Keys == was.Keys && forall x :: x in now ==> now[x].page == was[x].page
    ensures Coherent(now, stored)
    ensures id in was ==> id in stored && was[id].page == stored[id]
  {
  }

  lemma TrackedLoad(stored: PageMap, pages: PageMap, dirty: set<PageId>, committed: PageMap, id: PageId)
    requires Tracked(stored, pages, dirty, committed) && id in stored && id !in pages && dirty <= pages.Keys
    ensures Tracked(stored, pages[id := stored[id]], dirty, committed)
    ensures stored + pages[id := stored[id]] == stored + pages && id in committed && committed[id] == stored[id]
  {
  }

  lemma TrackedStore(stored: PageMap, pages: PageMap, dirty: set<PageId>, committed: PageMap, id: PageId, page: PageData)
    requires Tracked(stored, pages, dirty, committed)
    ensures Tracked(stored, pages[id := page], dirty + {id}, committed)
    ensures stored + pages[id := page] == (stored + pages)[id := page]
  {
  }

  lemma TrackedFinish(stored: PageMap, pages: PageMap, dirty: set<PageId>, committed: PageMap)
    requires Tracked(stored, pages, dirty, committed) && dirty <= pages.Keys
    ensures Tracked(stored, pages, {}, committed + map x | x in dirty :: pages[x])
  {
  }

  // ---------------------------------------------------------------- groups

  datatype Access = Load(id: PageId) | Store(id: PageId, page: PageData)

  /** What one request does to the pages, and whether it was accepted. */
  datatype Candidate = Candidate(accesses: seq<Access>, accepted: bool)

  /** The pages some accesses stored, the last store of each. */
  ghost function Written(accesses: seq<Access>): PageMap {
    if accesses == [] then map[]
    else
      var last := accesses[|accesses| - 1];
      var before := Written(accesses[..|accesses| - 1]);
      if last.Store? then before[last.id := last.page] else before
  }

  ghost function ReadIn(pages: PageMap, id: PageId): Result<PageData> {
    if id in pages then Ok(pages[id]) else Err(Corruption)
  }

  /** Every load saw what the overlay started from and the stores before it. */
  ghost predicate Answers(pages: PageMap, accesses: seq<Access>, read: seq<Result<PageData>>) {
    && |read| == |accesses|
    && forall i :: 0 <= i < |accesses| && accesses[i].Load? ==> read[i] == ReadIn(pages + Written(accesses[..i]), accesses[i].id)
  }

  lemma NothingWritten()
    ensures Written([]) == map[]
  {
  }

  lemma WrittenStep(accesses: seq<Access>, i: nat)
    requires i < |accesses|
    ensures Written(accesses[..i + 1])
            == match accesses[i] case Load(_) => Written(accesses[..i]) case Store(id, page) => Written(accesses[..i])[id := page]
  {
    assert accesses[..i + 1][..i] == accesses[..i];
  }

  method Perform(lazy: LazyPages, accesses: seq<Access>) returns (read: seq<Result<PageData>>)
    requires lazy.Valid()
    modifies lazy`pages, lazy`readPages, lazy`dirty, lazy.cache
    ensures lazy.Valid() && lazy.Seen() == old(lazy.Seen()) + Written(accesses)
    ensures lazy.dirty == old(lazy.dirty) + Written(accesses).Keys
    ensures Answers(old(lazy.Seen()), accesses, read)
  {
    hide Tracked, Coherent, Written;
    read := [];
    ghost var start, dirty0 := lazy.Seen(), lazy.dirty;
    assert accesses[..0] == [] && start + map[] == start;
    NothingWritten();
    for i := 0 to |accesses|
      invariant lazy.Valid() && lazy.Seen() == start + Written(accesses[..i]) && lazy.dirty == dirty0 + Written(accesses[..i]).Keys
      invariant |read| == i && forall j :: 0 <= j < i && accesses[j].Load? ==> read[j] == ReadIn(start + Written(accesses[..j]), accesses[j].id)
    {
      WrittenStep(accesses, i);
      match accesses[i]
      case Load(id) =>
        var page := lazy.Page(id);
        read := read + [page];
      case Store(id, page) =>
        MergeStore(start, Written(accesses[..i]), id, page);
        lazy.Replace(id, page);
        read := read + [Ok(page)];
    }
    assert accesses[..|accesses|] == accesses;
  }

  /** The stores of the candidates since the last accepted one. */
  ghost function Since(candidates: seq<Candidate>): PageMap {
    if candidates == [] then map[]
    else
      var last := candidates[|candidates| - 1];
      if last.accepted then map[] else Since(candidates[..|candidates| - 1]) + Written(last.accesses)
  }

  /** What each accepted candidate has to publish: its own stores, and those of
      the refused ones since the publication before. */
  ghost function Changes(candidates: seq<Candidate>): seq<PageMap> {
    if candidates == [] then []
    else
      var last, before := candidates[|candidates| - 1], candidates[..|candidates| - 1];
      Changes(before) + if last.accepted then [Since(before) + Written(last.accesses)] else []
  }

  ghost function CountAccepted(candidates: seq<Candidate>): nat {
    if candidates == [] then 0
    else CountAccepted(candidates[..|candidates| - 1]) + if candidates[|candidates| - 1].accepted then 1 else 0
  }

  lemma {:induction false} OnePerAccepted(candidates: seq<Candidate>)
    ensures |Changes(candidates)| == CountAccepted(candidates)
  {
    if candidates != [] {
      OnePerAccepted(candidates[..|candidates| - 1]);
    }
  }

  /** The stores of all candidates, refused ones included. */
  ghost function AllWritten(candidates: seq<Candidate>): PageMap {
    if candidates == [] then map[]
    else AllWritten(candidates[..|candidates| - 1]) + Written(candidates[|candidates| - 1].accesses)
  }

  /** The committed pages after the first publications. */
  ghost function After(pages: PageMap, ps: seq<Publication>): PageMap {
    if ps == [] then pages else After(pages, ps[..|ps| - 1]) + ps[|ps| - 1].changed
  }

  /** Each candidate read pages that are committed at its turn. */
  ghost predicate AllReadCommitted(pages: PageMap, ps: seq<Publication>) {
    forall k :: 0 <= k < |ps| ==> ReadsCommitted(ps[k], After(pages, ps[..k]))
  }

  ghost predicate Publishes(candidates: seq<Candidate>, ps: seq<Publication>) {
    |ps| == |Changes(candidates)| && forall k :: 0 <= k < |ps| ==> ps[k].changed == Changes(candidates)[k]
  }

  /** Every candidate read the pages as those before it left them. */
  ghost predicate AllAnswered(pages: PageMap, candidates: seq<Candidate>, loads: seq<seq<Result<PageData>>>) {
    && |loads| == |candidates|
    && forall i :: 0 <= i < |candidates| ==> Answers(pages + AllWritten(candidates[..i]), candidates[i].accesses, loads[i])
  }

  /** Whatever the requests of a group read and write, in whatever order, and
      whichever are refused: each loads the pages as those before it left them,
      and every accepted one hands over what was stored since the last, and
      pages that are committed at its turn. */
  method PrepareGroup(cache: PageCache, stored: PageMap, candidates: seq<Candidate>)
    returns (ps: seq<Publication>, loads: seq<seq<Result<PageData>>>)
    requires cache.Valid() && Coherent(cache.pages, stored)
    modifies cache
    ensures cache.Valid() && Coherent(cache.pages, stored) && AllReadCommitted(stored, ps)
    ensures Publishes(candidates, ps) && AllAnswered(stored, candidates, loads)
    ensures After(stored, ps) + Since(candidates) == stored + AllWritten(candidates)
  {
    hide Tracked, Coherent, Written, Answers, Standing;
    var lazy := new LazyPages(stored, cache);
    ps, loads := [], [];
    StandingFirst(stored);
    assert candidates[..0] == [];
    for i := 0 to |candidates|
      invariant lazy.Valid() && lazy.stored == stored && lazy.cache == cache && fresh(lazy)
      invariant Standing(stored, candidates[..i], ps, loads, lazy.Seen(), lazy.committed, lazy.dirty)
    {
      ghost var seen, committed, dirty := lazy.Seen(), lazy.committed, lazy.dirty;
      var read := Perform(lazy, candidates[i].accesses);
      if candidates[i].accepted {
        ghost var seen' := lazy.Seen();
        var p := lazy.Finish();
        StandingAccepted(stored, candidates, i, ps, loads, seen, committed, dirty, read, p, seen');
        ps := ps + [p];
      } else {
        StandingRefused(stored, candidates, i, ps, loads, seen, committed, dirty, read, lazy.Seen(), lazy.dirty);
      }
      loads := loads + [read];
    }
    assert candidates[..|candidates|] == candidates;
    StandingLast(stored, candidates, ps, loads, lazy.Seen(), lazy.committed, lazy.dirty);
  }

  /** How a group stands after some candidates. */
  ghost predicate Standing(stored: PageMap, candidates: seq<Candidate>, ps: seq<Publication>, loads: seq<seq<Result<PageData>>>,
                           seen: PageMap, committed: PageMap, dirty: set<PageId>) {
    && AllReadCommitted(stored, ps) && committed == After(stored, ps) && Publishes(candidates, ps)
    && seen == stored + AllWritten(candidates) && seen == committed + Since(candidates)
    && dirty == Since(candidates).Keys && AllAnswered(stored, candidates, loads)
  }

  lemma StandingFirst(stored: PageMap)
    ensures Standing(stored, [], [], [], stored, stored, {})
  {
    assert stored + map[] == stored;
  }

  lemma StandingLast(stored: PageMap, candidates: seq<Candidate>, ps: seq<Publication>, loads: seq<seq<Result<PageData>>>,
                     seen: PageMap, committed: PageMap, dirty: set<PageId>)
    requires Standing(stored, candidates, ps, loads, seen, committed, dirty)
    ensures AllReadCommitted(stored, ps) && Publishes(candidates, ps) && AllAnswered(stored, candidates, loads)
    ensures After(stored, ps) + Since(candidates) == stored + AllWritten(candidates)
  {
    hide AllReadCommitted, Publishes, AllAnswered, After, Since, AllWritten;
  }

  lemma StandingRefused(stored: PageMap, candidates: seq<Candidate>, i: nat, ps: seq<Publication>, loads: seq<seq<Result<PageData>>>,
                        seen: PageMap, committed: PageMap, dirty: set<PageId>, read: seq<Result<PageData>>, seen': PageMap, dirty': set<PageId>)
    requires i < |candidates| && !candidates[i].accepted
    requires Standing(stored, candidates[..i], ps, loads, seen, committed, dirty)
    requires seen' == seen + Written(candidates[i].accesses) && dirty' == dirty + Written(candidates[i].accesses).Keys
    requires Answers(seen, candidates[i].accesses, read)
    ensures Standing(stored, candidates[..i + 1], ps, loads + [read], seen', committed, dirty')
  {
    hide AllReadCommitted, AllAnswered, After, Written, Answers;
    var before := candidates[..i];
    assert candidates[..i + 1][..i] == before && candidates[..i + 1][i] == candidates[i];
    AnsweredMore(stored, candidates, i, loads, read);
    StepSeen(stored, before, candidates[i], committed);
    assert Changes(candidates[..i + 1]) == Changes(before) + [];
  }

  lemma StandingAccepted(stored: PageMap, candidates: seq<Candidate>, i: nat, ps: seq<Publication>, loads: seq<seq<Result<PageData>>>,
                         seen: PageMap, committed: PageMap, dirty: set<PageId>, read: seq<Result<PageData>>, p: Publication, seen': PageMap)
    requires i < |candidates| && candidates[i].accepted
    requires Standing(stored, candidates[..i], ps, loads, seen, committed, dirty)
    requires seen' == seen + Written(candidates[i].accesses) && Answers(seen, candidates[i].accesses, read)
    requires ReadsCommitted(p, committed) && p.changed.Keys == dirty + Written(candidates[i].accesses).Keys
    requires forall x :: x in p.changed ==> p.changed[x] == seen'[x]
    ensures Standing(stored, candidates[..i + 1], ps + [p], loads + [read], seen', committed + p.changed, {})
  {
    hide AllReadCommitted, AllAnswered, After, Written, Answers, ReadsCommitted;
    var before, stores := candidates[..i], Since(candidates[..i]) + Written(candidates[i].accesses);
    assert candidates[..i + 1][..i] == before && candidates[..i + 1][i] == candidates[i];
    AnsweredMore(stored, candidates, i, loads, read);
    StepSeen(stored, before, candidates[i], committed);
    ChangedAre(committed, stores, p.changed, seen');
    AfterMore(stored, ps, p);
    assert Changes(candidates[..i + 1]) == Changes(before) + [stores];
    assert seen' + map[] == seen';
  }

  lemma AnsweredMore(stored: PageMap, candidates: seq<Candidate>, i: nat, loads: seq<seq<Result<PageData>>>, read: seq<Result<PageData>>)
    requires i < |candidates| && AllAnswered(stored, candidates[..i], loads)
    requires Answers(stored + AllWritten(candidates[..i]), candidates[i].accesses, read)
    ensures AllAnswered(stored, candidates[..i + 1], loads + [read])
  {
    hide Answers, AllWritten;
    var cs := candidates[..i + 1];
    forall j | 0 <= j < |cs| ensures Answers(stored + AllWritten(cs[..j]), cs[j].accesses, (loads + [read])[j]) {
      assert cs[..j] == candidates[..i][..j] == candidates[..j];
      assert j < i ==> candidates[..i][j] == candidates[j];
    }
  }

  lemma StepSeen(stored: PageMap, before: seq<Candidate>, last: Candidate, committed: PageMap)
    requires stored + AllWritten(before) == committed + Since(before)
    ensures (stored + AllWritten(before)) + Written(last.accesses) == committed + (Since(before) + Written(last.accesses))
    ensures (stored + AllWritten(before)) + Written(last.accesses) == stored + (AllWritten(before) + Written(last.accesses))
  {
    hide *;
    MergeAssoc(stored, AllWritten(before), Written(last.accesses));
    MergeAssoc(committed, Since(before), Written(last.accesses));
  }

  lemma ChangedAre(committed: PageMap, stores: PageMap, changed: PageMap, seen: PageMap)
    requires seen == committed + stores && changed.Keys == stores.Keys && forall x :: x in changed ==> changed[x] == seen[x]
    ensures changed == stores
  {
  }

  lemma AfterMore(pages: PageMap, ps: seq<Publication>, p: Publication)
    requires AllReadCommitted(pages, ps) && ReadsCommitted(p, After(pages, ps))
    ensures AllReadCommitted(pages, ps + [p]) && After(pages, ps + [p]) == After(pages, ps) + p.changed
  {
    hide ReadsCommitted;
    var all := ps + [p];
    assert all[..|ps|] == ps;
    forall k | 0 <= k < |all| ensures ReadsCommitted(all[k], After(pages, all[..k])) {
      if k < |ps| {
        assert all[..k] == ps[..k];
      }
    }
  }

  lemma PublishedCount(candidates: seq<Candidate>, ps: seq<Publication>)
    requires Publishes(candidates, ps)
    ensures |ps| == CountAccepted(candidates)
  {
    OnePerAccepted(candidates);
  }

  /** Coherence over whole groups: staging and publishing any group leaves a
      cache of any capacity that agrees with the pages it committed, which are
      the stored ones with all stores up to the last accepted request. */
  method CommitGroup(cache: PageCache, stored: PageMap, candidates: seq<Candidate>)
    returns (ps: seq<Publication>, loads: seq<seq<Result<PageData>>>)
    requires cache.Valid() && Coherent(cache.pages, stored)
    modifies cache
    ensures cache.Valid() && Coherent(cache.pages, After(stored, ps)) && AllReadCommitted(stored, ps)
    ensures Publishes(candidates, ps) && |ps| == CountAccepted(candidates) && AllAnswered(stored, candidates, loads)
    ensures After(stored, ps) + Since(candidates) == stored + AllWritten(candidates)
  {
    hide Coherent, ReadsCommitted, Publishes, AllAnswered, Since, AllWritten;
    ps, loads := PrepareGroup(cache, stored, candidates);
    PublishedCount(candidates, ps);
    assert ps[..0] == [];
    for k := 0 to |ps|
      invariant cache.Valid() && Coherent(cache.pages, After(stored, ps[..k]))
    {
      assert ps[..k + 1][..k] == ps[..k];
      Publish(cache, ps[k], After(stored, ps[..k]));
    }
    assert ps[..|ps|] == ps;
  }
}
