/** The committed read view: a second copy of the reachable pages, kept up to
    date by publications (btree/coordinator.rs). */
module ReadView {
  import opened Lex
  import opened Seqs
  import opened Pages
  import opened KeyCodec
  import opened Tree
  import opened Records
  import opened Space
  import opened Database
  import opened Updates
  import opened Reference
  import opened Errors
  import opened Reads
  import opened Budget
  import opened Queries
  import opened Stamps
  import opened Change
  import opened Batches

  // ---------------------------------------------------------------- references between pages

  function HeadsOf(es: seq<LeafEntry>): seq<PageId> {
    if es == [] then []
    else HeadsOf(es[..|es| - 1]) + (if HasChain(es[|es| - 1]) then [Head(es[|es| - 1])] else [])
  }

  function ListOf(next: Option<PageId>): seq<PageId> {
    if next.Some? then [next.value] else []
  }

  /** The pages a page refers to. */
  function Refs(p: PageData): seq<PageId> {
    match p
    case Internal(_, leftmostChild, seps) => [leftmostChild] + seq(|seps|, i requires 0 <= i < |seps| => seps[i].rightChild)
    case Leaf(_, nextLeaf, entries) => ListOf(nextLeaf) + HeadsOf(entries)
    case OverflowPage(_, next, _, _) => ListOf(next)
    case Free(_, _) => []
  }

  lemma {:induction false} HeadsIn(es: seq<LeafEntry>, x: PageId)
    ensures x in HeadsOf(es) <==> exists i :: 0 <= i < |es| && HasChain(es[i]) && Head(es[i]) == x
  {
    if es != [] {
      var n := |es| - 1;
      HeadsIn(es[..n], x);
      if x in HeadsOf(es[..n]) {
        var i :| 0 <= i < |es[..n]| && HasChain(es[..n][i]) && Head(es[..n][i]) == x;
        assert es[i] == es[..n][i];
      }
      if exists i :: 0 <= i < |es| && HasChain(es[i]) && Head(es[i]) == x {
        var i :| 0 <= i < |es| && HasChain(es[i]) && Head(es[i]) == x;
        if i < n {
          assert es[..n][i] == es[i];
        }
      }
    }
  }

  /** A page of the tree or of one of its overflow chains. */
  ghost predicate Live(sh: Shape, x: PageId) {
    x in sh.role && (sh.role[x].TreePage? || sh.role[x].ChainPage?)
  }

  // ---------------------------------------------------------------- collecting the view

  ghost predicate Copies(pages: PageMap, img: Image) {
    forall x :: x in pages ==> InFile(img, x) && pages[x] == img.pages[x]
  }

  /** Whatever the collected pages refer to is collected or still pending. */
  ghost predicate ClosedBut(pages: PageMap, pending: seq<PageId>) {
    forall x, y :: x in pages && y in Refs(pages[x]) ==> y in pages || y in pending
  }

  /** Collects everything reachable from the root; terminates on any page graph. */
  method Collect(img: Image, ghost sh: Shape) returns (r: Result<PageMap>)
    ensures r.Err? ==> r.error == Corruption
    ensures r.Ok? ==> Copies(r.value, img) && ClosedBut(r.value, []) && img.root in r.value
    ensures Consistent(img, sh) ==> r.Ok?
  {
    hide Working, Live, Refs;
    var pages: PageMap := map[];
    var pending: seq<PageId> := [img.root];
    ghost var good := Consistent(img, sh);
    if good {
      RootLive(img, sh);
    }
    while pending != []
      invariant Copies(pages, img) && ClosedBut(pages, pending) && (img.root in pages || img.root in pending)
      invariant good ==> forall x :: x in pending ==> Live(sh, x)
      decreases img.pages.Keys - pages.Keys, |pending|
    {
      var pageId := pending[|pending| - 1];
      ghost var was := pending;
      pending := pending[..|pending| - 1];
      assert was == pending + [pageId];
      if good {
        LiveInFile(img, sh, pageId);
      }
      if pageId < FIRST_DATA_PAGE || pageId > img.high {
        return Err(Corruption);
      }
      if pageId !in pages {
        if pageId !in img.pages {
          return Err(Corruption);
        }
        var page := img.pages[pageId];
        if good {
          RefsLive(img, sh, pageId);
        }
        assert pageId in img.pages.Keys - pages.Keys;
        pending := pending + Refs(page);
        pages := pages[pageId := page];
      }
    }
    return Ok(pages);
  }

  lemma RootLive(img: Image, sh: Shape)
    requires Consistent(img, sh)
    ensures Live(sh, img.root)
  {
    hide Working, TreeOk, ChainRoles, FreeRoles, FreeOk, ChainsOk, EntriesOk;
    SoundParts(img, sh);
    TreeRoot(img.pages, img.root, sh.levels, sh.bounds);
    assert img.root in sh.levels[|sh.levels| - 1];
  }

  lemma LiveInFile(img: Image, sh: Shape, x: PageId)
    requires Consistent(img, sh) && Live(sh, x)
    ensures InFile(img, x)
  {
    SoundParts(img, sh);
  }

  /** Live pages refer to live pages only. */
  lemma RefsLive(img: Image, sh: Shape, x: PageId)
    requires Consistent(img, sh) && Live(sh, x)
    ensures InFile(img, x) && forall y :: y in Refs(img.pages[x]) ==> Live(sh, y)
  {
    PageConservation(img, sh, x);
    LiveInFile(img, sh, x);
    match sh.role[x]
    case TreePage(k) =>
      if k > 0 {
        InternalRefs(img, sh, k, x);
      } else {
        LeafRefs(img, sh, x);
      }
    case ChainPage(h, p) => ChainRefs(img, sh, h, p);
  }

  lemma LevelLive(sh: Shape, k: nat, y: PageId)
    requires TreeRoles(sh.levels, sh.role) && k < |sh.levels| && y in sh.levels[k]
    ensures Live(sh, y)
  {
  }

  lemma TreeLinked(pages: PageMap, root: PageId, levels: seq<Ids>, bounds: seq<Bounds>, k: nat)
    requires TreeOk(pages, root, levels, bounds) && 0 < k < |levels|
    ensures |levels| == |bounds| && Linked(pages, levels[k], bounds[k], levels[k - 1], bounds[k - 1])
  {
    assert LinkedAt(pages, levels, bounds, k);
  }

  lemma InternalRefs(img: Image, sh: Shape, k: nat, x: PageId)
    requires Consistent(img, sh) && 0 < k < |sh.levels| && x in sh.levels[k] && x in img.pages && img.pages[x].Internal?
    ensures forall y :: y in Refs(img.pages[x]) ==> Live(sh, y)
  {
    hide Working, ChainRoles, FreeRoles, FreeOk, ChainsOk, EntriesOk, TreeOk, Linked, TreeRoles, Refs, Kids, Live;
    SoundParts(img, sh);
    var i :| 0 <= i < |sh.levels[k]| && sh.levels[k][i] == x;
    TreeLinked(img.pages, img.root, sh.levels, sh.bounds, k);
    KidsBelow(img.pages, sh.levels[k], sh.bounds[k], sh.levels[k - 1], sh.bounds[k - 1], i);
    InternalLists(img.pages[x]);
    forall y | y in Refs(img.pages[x]) ensures Live(sh, y) {
      LevelLive(sh, k - 1, y);
    }
  }

  lemma InternalLists(p: PageData)
    requires p.Internal?
    ensures Refs(p) == Kids(p)
  {
  }

  lemma KidsBelow(pages: PageMap, ids: Ids, bnds: Bounds, below: Ids, belowBnds: Bounds, i: nat)
    requires Linked(pages, ids, bnds, below, belowBnds) && i < |ids|
    ensures forall y :: y in Kids(At(pages, ids[i])) ==> y in below
  {
    ChildBlock(pages, ids, bnds, below, belowBnds, i);
  }

  lemma LeafRefs(img: Image, sh: Shape, x: PageId)
    requires Consistent(img, sh) && x in sh.levels[0] && x in img.pages && img.pages[x].Leaf?
    ensures forall y :: y in Refs(img.pages[x]) ==> Live(sh, y)
  {
    hide Working, FreeRoles, FreeOk, TreeOk, SortedEntries, InRange, ChainsOk, Concat, TreeRoles, ChainRoles, Live, EntryOk;
    SoundParts(img, sh);
    var i :| 0 <= i < |sh.levels[0]| && sh.levels[0][i] == x;
    var p := img.pages[x];
    TreeLeaf(img.pages, img.root, sh.levels, sh.bounds, i);
    var ess := EntryLists(img.pages, sh.levels[0]);
    BlockOk(img.pages, sh.chains, ess, i);
    assert ess[i] == p.entries;
    forall y | y in Refs(p) ensures Live(sh, y) {
      if p.nextLeaf == Some(y) {
        TreePageLive(sh, 0, i + 1);
      } else {
        HeadsIn(p.entries, y);
        var j :| 0 <= j < |p.entries| && HasChain(p.entries[j]) && Head(p.entries[j]) == y;
        assert EntryOk(img.pages, sh.chains, p.entries[j]);
        HeadLive(img.pages, sh, p.entries[j]);
      }
    }
  }

  lemma TreePageLive(sh: Shape, k: nat, i: nat)
    requires TreeRoles(sh.levels, sh.role) && k < |sh.levels| && i < |sh.levels[k]|
    ensures Live(sh, sh.levels[k][i])
  {
    assert sh.levels[k][i] in sh.levels[k];
  }

  lemma HeadLive(pages: PageMap, sh: Shape, e: LeafEntry)
    requires ChainsOk(pages, sh.chains) && ChainRoles(sh.chains, sh.role) && EntryOk(pages, sh.chains, e) && HasChain(e)
    ensures Live(sh, Head(e))
  {
    assert sh.chains[Head(e)][0] == Head(e);
  }

  lemma ChainPageAt(pages: PageMap, chains: Chains, h: PageId, p: nat)
    requires ChainsOk(pages, chains) && h in chains && p < |chains[h]|
    ensures ChainPageOk(At(pages, chains[h][p]), |ChainBytes(pages, chains[h])|, NextOf(chains[h], p))
  {
    hide ChainPageOk, ChainBytes;
  }

  lemma ChainRefs(img: Image, sh: Shape, h: PageId, p: nat)
    requires Consistent(img, sh) && h in sh.chains && p < |sh.chains[h]| && sh.chains[h][p] in img.pages
    ensures forall y :: y in Refs(img.pages[sh.chains[h][p]]) ==> Live(sh, y)
  {
    hide Working, TreeOk, FreeRoles, FreeOk, TreeRoles, EntriesOk, ChainsOk, ChainBytes;
    SoundParts(img, sh);
    var ids := sh.chains[h];
    ChainPageAt(img.pages, sh.chains, h, p);
    if p + 1 < |ids| {
      assert sh.role[sh.chains[h][p + 1]] == ChainPage(h, p + 1);
    }
  }

  // ---------------------------------------------------------------- the view agrees with the store

  /** The view holds committed pages only, and all live ones. */
  ghost predicate ViewOk(pages: PageMap, root: PageId, high: PageId, img: Image, sh: Shape) {
    && Copies(pages, img) && root == img.root && high == img.high
    && forall x :: Live(sh, x) ==> x in pages
  }

  /** What is closed under references and holds the root holds every live page. */
  lemma ClosedHasLive(pages: PageMap, img: Image, sh: Shape)
    requires Consistent(img, sh) && Copies(pages, img) && ClosedBut(pages, []) && img.root in pages
    ensures ViewOk(pages, img.root, img.high, img, sh)
  {
    hide Working;
    forall x | Live(sh, x) ensures x in pages {
      PageConservation(img, sh, x);
      LiveInFile(img, sh, x);
      match sh.role[x]
      case TreePage(k) => ClosedHasLevel(pages, img, sh, k);
      case ChainPage(h, p) => ClosedHasChain(pages, img, sh, h, p);
    }
  }

  ghost predicate HasLevel(pages: PageMap, ids: Ids) {
    forall x :: x in ids ==> x in pages
  }

  lemma {:induction false} ClosedHasLevel(pages: PageMap, img: Image, sh: Shape, k: nat)
    requires Consistent(img, sh) && Copies(pages, img) && ClosedBut(pages, []) && img.root in pages && k < |sh.levels|
    ensures HasLevel(pages, sh.levels[k])
    decreases |sh.levels| - k
  {
    hide Working, TreeOk, TreeRoles, ChainRoles, FreeRoles, FreeOk, ChainsOk, EntriesOk, Concat, Internals;
    SoundParts(img, sh);
    TreeRoot(img.pages, img.root, sh.levels, sh.bounds);
    if k < |sh.levels| - 1 {
      TreeLevel(img.pages, img.root, sh.levels, sh.bounds, k + 1);
      ClosedHasLevel(pages, img, sh, k + 1);
      LevelBelow(pages, img, sh.levels[k + 1], sh.levels[k]);
    }
  }

  lemma LevelBelow(pages: PageMap, img: Image, ids: Ids, below: Ids)
    requires Copies(pages, img) && ClosedBut(pages, []) && HasLevel(pages, ids)
    requires Internals(img.pages, ids) && Concat(KidLists(img.pages, ids)) == below
    ensures HasLevel(pages, below)
  {
    forall x | x in below ensures x in pages {
      var m :| 0 <= m < |below| && below[m] == x;
      var i, y := ConcatIndex(KidLists(img.pages, ids), m);
      assert ids[i] in pages && At(img.pages, ids[i]).Internal?;
      assert Kids(At(img.pages, ids[i]))[y] == x && Refs(pages[ids[i]]) == Kids(pages[ids[i]]);
      assert x in Refs(pages[ids[i]]);
    }
  }

  lemma {:induction false} ClosedHasChain(pages: PageMap, img: Image, sh: Shape, h: PageId, p: nat)
    requires Consistent(img, sh) && Copies(pages, img) && ClosedBut(pages, []) && img.root in pages
    requires h in sh.chains && p < |sh.chains[h]|
    ensures sh.chains[h][p] in pages
  {
    hide Working, TreeOk, TreeRoles, ChainRoles, FreeRoles, FreeOk, EntriesOk, Refs;
    if p == 0 {
      var i := HeadReferred(img, sh, h);
      ClosedHasLevel(pages, img, sh, 0);
      assert sh.levels[0][i] in sh.levels[0];
    } else {
      ClosedHasChain(pages, img, sh, h, p - 1);
      ChainNext(img, sh, h, p - 1);
    }
  }

  lemma ChainNext(img: Image, sh: Shape, h: PageId, p: nat)
    requires Consistent(img, sh) && h in sh.chains && p + 1 < |sh.chains[h]|
    ensures sh.chains[h][p] in img.pages && sh.chains[h][p + 1] in Refs(img.pages[sh.chains[h][p]])
  {
    hide Working, TreeOk, FreeRoles, FreeOk, TreeRoles, EntriesOk;
    SoundParts(img, sh);
    var ids := sh.chains[h];
    assert ChainPageOk(At(img.pages, ids[p]), |ChainBytes(img.pages, ids)|, NextOf(ids, p));
  }

  /** Every chain is referred to by a leaf. */
  lemma HeadReferred(img: Image, sh: Shape, h: PageId) returns (i: nat)
    requires Consistent(img, sh) && h in sh.chains
    ensures |sh.levels| > 0 && i < |sh.levels[0]| && sh.levels[0][i] in img.pages && h in Refs(img.pages[sh.levels[0][i]])
    ensures |sh.chains[h]| > 0 && sh.chains[h][0] == h
  {
    var n := HeadOwned(img, sh, h);
    hide Working, TreeRoles, ChainRoles, FreeRoles, FreeOk, EntriesOk, TreeOk;
    SoundParts(img, sh);
    var y;
    i, y := EntryPage(img, sh, n);
    HeadsIn(img.pages[sh.levels[0][i]].entries, h);
  }

  lemma HeadOwned(img: Image, sh: Shape, h: PageId) returns (n: nat)
    requires Consistent(img, sh) && h in sh.chains
    ensures |sh.levels| > 0
    ensures var es := Contents(img.pages, sh.levels[0]); n < |es| && HasChain(es[n]) && Head(es[n]) == h
  {
    var es := Contents(img.pages, sh.levels[0]);
    assert h in Claimed(sh, {}) && Owned(es, Claimed(sh, {}));
    hide Working;
    n :| 0 <= n < |es| && HasChain(es[n]) && Head(es[n]) == h;
  }

  /** The image a reader of the view sees. */
  function Seen(pages: PageMap, root: PageId, high: PageId): Image {
    Image(pages, root, None, high)
  }

  /** Readers of the view find the tree and the documents of the store. */
  lemma ViewReads(pages: PageMap, root: PageId, high: PageId, img: Image, sh: Shape)
    requires Consistent(img, sh) && ViewOk(pages, root, high, img, sh)
    ensures Readable(Seen(pages, root, high), sh)
    ensures |sh.levels| > 0 && Docs(Seen(pages, root, high), sh) == Docs(img, sh)
  {
    hide Working;
    ConsistentReadable(img, sh, {}, {});
    SoundParts(img, sh);
    LivePages(pages, root, high, img, sh);
    hide TreeRoles, ChainRoles, FreeRoles, FreeOk, ViewOk;
    SamePagesReadable(pages, root, high, img, sh);
  }

  /** The pages of tree and chains are the same in both. */
  ghost predicate SameLive(pages: PageMap, img: Image, sh: Shape) {
    && (forall k, x :: 0 <= k < |sh.levels| && x in sh.levels[k] ==> x in pages && x in img.pages && pages[x] == img.pages[x])
    && (forall h, p :: h in sh.chains && 0 <= p < |sh.chains[h]| ==>
          sh.chains[h][p] in pages && sh.chains[h][p] in img.pages && pages[sh.chains[h][p]] == img.pages[sh.chains[h][p]])
  }

  lemma LivePages(pages: PageMap, root: PageId, high: PageId, img: Image, sh: Shape)
    requires ViewOk(pages, root, high, img, sh) && TreeRoles(sh.levels, sh.role) && ChainRoles(sh.chains, sh.role)
    ensures SameLive(pages, img, sh) && root == img.root && high == img.high
  {
    hide InFile;
    forall k, x | 0 <= k < |sh.levels| && x in sh.levels[k] ensures x in pages && x in img.pages && pages[x] == img.pages[x] {
      assert Live(sh, x);
      FileHas(img, x);
    }
    forall h, p | h in sh.chains && 0 <= p < |sh.chains[h]|
      ensures sh.chains[h][p] in pages && sh.chains[h][p] in img.pages && pages[sh.chains[h][p]] == img.pages[sh.chains[h][p]]
    {
      assert Live(sh, sh.chains[h][p]);
      FileHas(img, sh.chains[h][p]);
    }
  }

  lemma FileHas(img: Image, x: PageId)
    ensures InFile(img, x) ==> x in img.pages
  {
  }

  lemma SamePagesReadable(pages: PageMap, root: PageId, high: PageId, img: Image, sh: Shape)
    requires Readable(img, sh) && SameLive(pages, img, sh) && root == img.root && high == img.high
    ensures Readable(Seen(pages, root, high), sh)
    ensures Docs(Seen(pages, root, high), sh) == Docs(img, sh)
  {
    assert forall k, x :: 0 <= k < |sh.levels| && x in sh.levels[k] ==> At(pages, x) == At(img.pages, x);
    TreeFrame(img.pages, pages, root, sh.levels, sh.bounds);
    SameChains(pages, img, sh);
    var es := Contents(img.pages, sh.levels[0]);
    EntriesFrame(img.pages, pages, sh.chains, es);
    SameInFile(pages, root, high, img, sh);
    hide Readable, TreeOk, SameLive;
    DocsSame(img.pages, pages, sh.chains, es);
  }

  lemma SameInFile(pages: PageMap, root: PageId, high: PageId, img: Image, sh: Shape)
    requires Readable(img, sh) && SameLive(pages, img, sh) && high == img.high
    ensures forall k, x :: 0 <= k < |sh.levels| && x in sh.levels[k] ==> InFile(Seen(pages, root, high), x)
    ensures forall h, p :: h in sh.chains && 0 <= p < |sh.chains[h]| ==> InFile(Seen(pages, root, high), sh.chains[h][p])
  {
    hide TreeOk, EntriesOk, ChainsOk;
    forall k, x | 0 <= k < |sh.levels| && x in sh.levels[k] ensures InFile(Seen(pages, root, high), x) {
      assert InFile(img, x);
    }
    forall h, p | h in sh.chains && 0 <= p < |sh.chains[h]| ensures InFile(Seen(pages, root, high), sh.chains[h][p]) {
      assert InFile(img, sh.chains[h][p]);
    }
  }

  lemma SameChains(pages: PageMap, img: Image, sh: Shape)
    requires ChainsOk(img.pages, sh.chains) && SameLive(pages, img, sh)
    ensures ChainsOk(pages, sh.chains)
    ensures forall h :: h in sh.chains ==> ChainBytes(pages, sh.chains[h]) == ChainBytes(img.pages, sh.chains[h])
  {
    forall h | h in sh.chains
      ensures ChainOk(pages, sh.chains[h]) && ChainBytes(pages, sh.chains[h]) == ChainBytes(img.pages, sh.chains[h])
    {
      var ids := sh.chains[h];
      assert forall p :: 0 <= p < |ids| ==> At(pages, ids[p]) == At(img.pages, ids[p]);
      assert Chunks(pages, ids) == Chunks(img.pages, ids);
      assert ChainOk(img.pages, ids);
    }
  }

  lemma DocsSame(pages: PageMap, pages': PageMap, chains: Chains, es: seq<LeafEntry>)
    requires forall h :: h in chains ==> ChainBytes(pages', chains[h]) == ChainBytes(pages, chains[h])
    ensures DocsOf(pages', chains, es) == DocsOf(pages, chains, es)
  {
  }

  // ---------------------------------------------------------------- publication

  /** A publication that carries every changed page keeps the view in step with
      the store: a page that did not change was live before if it is live now. */
  lemma ViewUpdated(pages: PageMap, img: Image, sh: Shape, updates: PageMap, img': Image, sh': Shape)
    requires Consistent(img, sh) && Consistent(img', sh') && ViewOk(pages, img.root, img.high, img, sh)
    requires img'.pages == img.pages + updates
    ensures ViewOk(pages + updates, img'.root, img'.high, img', sh')
  {
    hide Working;
    forall x | x in pages + updates ensures InFile(img', x) && (pages + updates)[x] == img'.pages[x] {
      PageConservation(img', sh', x);
    }
    forall x | Live(sh', x) ensures x in pages + updates {
      PageConservation(img', sh', x);
      PageConservation(img, sh, x);
      LiveInFile(img', sh', x);
      if x !in updates {
        assert img'.pages[x] == img.pages[x];
        assert Live(sh, x);
      }
    }
  }

  method Merge(pages: PageMap, updates: PageMap) returns (merged: PageMap)
    ensures merged == pages + updates
  {
    merged := pages;
    var rest := updates.Keys;
    while rest != {}
      invariant rest <= updates.Keys
      invariant forall x :: x in merged <==> x in pages || (x in updates && x !in rest)
      invariant forall x :: x in merged ==> merged[x] == if x in updates && x !in rest then updates[x] else pages[x]
      decreases rest
    {
      var x :| x in rest;
      merged := merged[x := updates[x]];
      rest := rest - {x};
    }
  }

  lemma ViewInStep(pages: PageMap, root: PageId, high: PageId, img: Image, sh: Shape)
    requires ViewOk(pages, root, high, img, sh)
    ensures root == img.root && high == img.high
  {
  }

  class CommittedReadView {
    var root: PageId
    var high: PageId
    var pages: PageMap

    ghost predicate InStep(img: Image, sh: Shape)
      reads this
    {
      ViewOk(pages, root, high, img, sh)
    }

    constructor (img: Image, pages: PageMap)
      ensures this.pages == pages && root == img.root && high == img.high
    {
      this.pages, root, high := pages, img.root, img.high;
    }

    /** Applies the pages of the commits published since the last time. */
    method ApplyUpdates(updates: PageMap, newRoot: PageId, newHigh: PageId,
                        ghost img: Image, ghost sh: Shape, ghost img': Image, ghost sh': Shape)
      requires Consistent(img, sh) && Consistent(img', sh') && InStep(img, sh)
      requires img'.pages == img.pages + updates && newRoot == img'.root && newHigh == img'.high
      modifies this
      ensures InStep(img', sh')
    {
      hide Working, ViewOk;
      ghost var was := pages;
      pages := Merge(pages, updates);
      root, high := newRoot, newHigh;
      ViewInStep(was, old(root), old(high), img, sh);
      ViewUpdated(was, img, sh, updates, img', sh');
    }

    /** Reading the view is reading the store: the same answer within the same
        budget, the same refusals. */
    method Get(key: DocumentKey, budget: ResponseBudget, ghost img: Image, ghost sh: Shape) returns (r: Result<RevisionState>)
      requires Consistent(img, sh) && InStep(img, sh) && budget.State().Ok()
      modifies budget
      ensures budget.State().Ok()
      ensures |Encoded(key)| > MAX_ENCODED_KEY_SIZE ==> r == Err(InvalidInput)
      ensures |sh.levels| > 0
      ensures |Encoded(key)| <= MAX_ENCODED_KEY_SIZE ==>
                var state := Reference.Get(Docs(img, sh), key);
                var wire, memory := StateLength(state) + 13, Saturating(StateLength(state) + 32);
                && r == (if old(budget.State()).Admits(wire, memory) then Ok(state) else Err(ResponseTooLarge))
                && (r.Ok? ==> budget.State() == old(budget.State()).Charge(wire, memory))
    {
      hide Working, Readable, Docs, ViewOk;
      ViewReads(pages, root, high, img, sh);
      r := GetState(Seen(pages, root, high), key, budget, sh);
    }

    method Query(pk: bytes, afterSk: Option<bytes>, limit: nat, budget: ResponseBudget, ghost img: Image, ghost sh: Shape)
      returns (r: Result<seq<Document>>)
      requires Consistent(img, sh) && InStep(img, sh) && budget.State().Ok()
      modifies budget
      ensures budget.State().Ok()
      ensures limit == 0 ==> r == Ok([]) && budget.State() == old(budget.State())
      ensures limit > 0 && TooLong(pk, afterSk) ==> r == Err(InvalidInput)
      ensures |sh.levels| > 0
      ensures limit > 0 && !TooLong(pk, afterSk) ==>
                var rows := Reference.Query(Docs(img, sh), pk, afterSk, limit);
                && r == (if old(budget.State()).Admits(RowsWire(rows), RowsMemory(rows)) then Ok(rows) else Err(ResponseTooLarge))
                && (r.Ok? ==> budget.State() == old(budget.State()).Charge(RowsWire(rows), RowsMemory(rows)))
    {
      hide Working, Readable, Docs, ViewOk, Reference.Query, RowsWire, RowsMemory;
      ViewReads(pages, root, high, img, sh);
      r := QueryRows(Seen(pages, root, high), pk, afterSk, limit, budget, sh);
    }

    method Scan(afterKey: Option<DocumentKey>, limit: nat, budget: ResponseBudget, ghost img: Image, ghost sh: Shape)
      returns (r: Result<seq<Document>>)
      requires Consistent(img, sh) && InStep(img, sh) && budget.State().Ok()
      modifies budget
      ensures budget.State().Ok()
      ensures limit == 0 ==> r == Ok([]) && budget.State() == old(budget.State())
      ensures limit > 0 && afterKey.Some? && EncodedLen(afterKey.value) > MAX_ENCODED_KEY_SIZE ==> r == Err(InvalidInput)
      ensures |sh.levels| > 0
      ensures limit > 0 && (afterKey.Some? ==> EncodedLen(afterKey.value) <= MAX_ENCODED_KEY_SIZE) ==>
                var rows := Reference.Scan(Docs(img, sh), afterKey, limit);
                && r == (if old(budget.State()).Admits(RowsWire(rows), RowsMemory(rows)) then Ok(rows) else Err(ResponseTooLarge))
                && (r.Ok? ==> budget.State() == old(budget.State()).Charge(RowsWire(rows), RowsMemory(rows)))
    {
      hide Working, Readable, Docs, ViewOk, Reference.Scan, RowsWire, RowsMemory;
      ViewReads(pages, root, high, img, sh);
      r := ScanRows(Seen(pages, root, high), afterKey, limit, budget, sh);
    }
  }

  /** Builds the view of a store. */
  method FromStore(img: Image, ghost sh: Shape) returns (r: Result<CommittedReadView>)
    ensures Consistent(img, sh) ==> r.Ok? && r.value.InStep(img, sh)
  {
    var pages := Collect(img, sh);
    if pages.Err? {
      return Err(pages.error);
    }
    if Consistent(img, sh) {
      ClosedHasLive(pages.value, img, sh);
    }
    var view := new CommittedReadView(img, pages.value);
    return Ok(view);
  }
}
