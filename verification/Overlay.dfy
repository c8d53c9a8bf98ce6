/** The private overlay in which mutations are staged (btree/mod.rs). */
module Overlay {
  import opened Lex
  import opened Seqs
  import opened Pages
  import opened KeyCodec
  import opened Tree
  import opened Records
  import opened Space
  import opened Splits
  import opened Database
  import opened Updates
  import opened Reference
  import opened Errors
  import opened Reads
  import opened Queries
  import opened Climb
  import opened Capacity
  import opened Change
  import opened Stamps
  import opened Transactions
  import opened Batches

  /** Pages outside `dirty` are untouched, pages in it are there. */
  ghost predicate ChangedOnly(pages: PageMap, pages': PageMap, dirty: set<PageId>) {
    && (forall x :: x !in dirty ==> (x in pages' <==> x in pages) && (x in pages ==> pages'[x] == pages[x]))
    && (forall x :: x in dirty ==> x in pages')
  }

  /** Every chain of the first image is there in the second, with the same value. */
  ghost predicate ChainsKept(pages: PageMap, chains: Chains, pages': PageMap, chains': Chains) {
    forall h :: h in chains ==> h in chains' && ChainBytes(pages', chains'[h]) == ChainBytes(pages, chains[h])
  }

  // ---------------------------------------------------------------- cutting a value into chunks

  function ChunkCount(n: nat): nat {
    (n + OVERFLOW_DATA_SIZE - 1) / OVERFLOW_DATA_SIZE
  }

  function Upto(value: bytes, t: nat): nat {
    if t * OVERFLOW_DATA_SIZE < |value| then t * OVERFLOW_DATA_SIZE else |value|
  }

  function ChunkOf(value: bytes, t: nat): bytes {
    value[Upto(value, t)..Upto(value, t + 1)]
  }

  ghost function ChunksOf(value: bytes, n: nat): seq<bytes> {
    seq(n, t requires 0 <= t < n => ChunkOf(value, t))
  }

  lemma {:induction false} ChunksJoin(value: bytes, n: nat)
    ensures Concat(ChunksOf(value, n)) == value[..Upto(value, n)]
  {
    if n > 0 {
      ChunksJoin(value, n - 1);
      var cs := ChunksOf(value, n);
      assert cs == ChunksOf(value, n - 1) + [ChunkOf(value, n - 1)];
      ConcatAppend(ChunksOf(value, n - 1), [ChunkOf(value, n - 1)]);
      ConcatOne(ChunkOf(value, n - 1));
    }
  }

  ghost function ChainPageFor(value: bytes, lsn: nat, ids: Ids, t: nat): PageData {
    OverflowPage(lsn, NextOf(ids, t), |value|, ChunkOf(value, t))
  }

  lemma NoBlocks(chunks: seq<bytes>)
    ensures Concat(chunks[..0]) == []
  {
    assert chunks[..0] == [];
  }

  lemma ChainBegins(img: Image, ids: Ids, head: PageId, length: nat)
    requires ChainHolds(img, ids, head, length)
    ensures ids != [] && ids[0] == head && |ids| <= MAX_OVERFLOW_PAGES && 0 < length == |Concat(Chunks(img.pages, ids))|
  {
    hide ChainLink, Concat;
  }

  lemma ChainHoldsAt(img: Image, ids: Ids, head: PageId, length: nat, t: nat)
    requires ChainHolds(img, ids, head, length) && t < |ids|
    ensures ids[t] !in ids[..t] && InFile(img, ids[t]) && ChainLink(img.pages[ids[t]], length, NextOf(ids, t))
  {
    hide ChainBytes;
  }

  /** From pages to pages', the first t chunks were written and nothing else. */
  ghost predicate ChunksWritten(pages: PageMap, pages': PageMap, value: bytes, lsn: nat, ids: Ids, t: nat)
    requires t <= |ids|
  {
    && (forall u :: 0 <= u < t ==> ids[u] in pages' && pages'[ids[u]] == ChainPageFor(value, lsn, ids, u))
    && ChangedOnly(pages, pages', PageSet(ids[..t]))
  }

  lemma ChunksBegin(pages: PageMap, value: bytes, lsn: nat, ids: Ids)
    ensures ChunksWritten(pages, pages, value, lsn, ids, 0)
  {
  }

  lemma ChunksStep(pages: PageMap, pages': PageMap, value: bytes, lsn: nat, ids: Ids, t: nat)
    requires t < |ids| && NoDup(ids) && ChunksWritten(pages, pages', value, lsn, ids, t)
    ensures var page := OverflowPage(lsn, if t + 1 < |ids| then Some(ids[t + 1]) else None, |value|, ChunkOf(value, t));
            ChunksWritten(pages, pages'[ids[t] := page], value, lsn, ids, t + 1)
    ensures PageSet(ids[..t + 1]) == PageSet(ids[..t]) + {ids[t]}
  {
    hide ChunkOf, PageSet;
    PageSetGrows(ids, t);
  }

  lemma PageSetGrows(ids: Ids, t: nat)
    requires t < |ids|
    ensures PageSet(ids[..t + 1]) == PageSet(ids[..t]) + {ids[t]}
  {
    assert ids[..t + 1] == ids[..t] + [ids[t]];
    forall x | x in PageSet(ids[..t]) + {ids[t]} ensures x in PageSet(ids[..t + 1]) {
      assert x in ids[..t + 1];
    }
  }

  lemma ChunksEnd(pages: PageMap, pages': PageMap, value: bytes, lsn: nat, ids: Ids)
    requires ChunksWritten(pages, pages', value, lsn, ids, |ids|)
    ensures forall t :: 0 <= t < |ids| ==> ids[t] in pages' && pages'[ids[t]] == ChainPageFor(value, lsn, ids, t)
    ensures ChangedOnly(pages, pages', PageSet(ids)) && PageSet(ids[..|ids|]) == PageSet(ids)
  {
    assert ids[..|ids|] == ids;
  }

  /** Pages written chunk by chunk form a chain holding the value. */
  lemma ChunksMakeChain(pages: PageMap, ids: Ids, value: bytes, lsn: nat)
    requires 0 < |value| <= MAX_VALUE_SIZE && |ids| == ChunkCount(|value|)
    requires forall t :: 0 <= t < |ids| ==> At(pages, ids[t]) == ChainPageFor(value, lsn, ids, t)
    ensures ChainOk(pages, ids) && ChainBytes(pages, ids) == value
  {
    var n := |ids|;
    assert Chunks(pages, ids) == ChunksOf(value, n);
    ChunksJoin(value, n);
    assert Upto(value, n) == |value| && value[..|value|] == value;
    forall t | 0 <= t < n ensures ChainPageOk(At(pages, ids[t]), |value|, NextOf(ids, t)) {
      assert t * OVERFLOW_DATA_SIZE < |value|;
    }
  }

  class Overlay {
    const inlineLimit: nat
    const maxValueSize: nat
    const checkpointLsn: nat
    /** The pages as the overlay sees them, with root, free head and high water. */
    var img: Image
    var dirty: set<PageId>
    var nextRevision: nat
    var lastLsn: Option<nat>
    var nextLsn: nat
    var nextBatchId: nat
    var generation: nat
    var slot: Slot
    ghost var shape: Shape

    constructor (img: Image, nextRevision: nat, nextLsn: nat, nextBatchId: nat, generation: nat, slot: Slot, checkpointLsn: nat,
                 inlineLimit: nat, maxValueSize: nat, ghost shape: Shape)
      ensures this.img == img && this.shape == shape && dirty == {}
      ensures this.nextRevision == nextRevision && lastLsn == None && this.nextLsn == nextLsn
      ensures this.nextBatchId == nextBatchId && this.generation == generation && this.slot == slot
      ensures this.checkpointLsn == checkpointLsn
      ensures this.inlineLimit == inlineLimit && this.maxValueSize == maxValueSize
    {
      this.inlineLimit, this.maxValueSize, this.checkpointLsn := inlineLimit, maxValueSize, checkpointLsn;
      this.img, dirty := img, {};
      this.nextRevision, lastLsn, this.nextLsn := nextRevision, None, nextLsn;
      this.nextBatchId, this.generation, this.slot := nextBatchId, generation, slot;
      this.shape := shape;
    }

    method ReplacePage(id: PageId, page: PageData)
      modifies `img, `dirty
      ensures img == old(img).(pages := old(img).pages[id := page]) && dirty == old(dirty) + {id}
    {
      img := img.(pages := img.pages[id := page]);
      dirty := dirty + {id};
    }

    /** Takes the head of the free stack, or extends the file. */
    method AllocatePage(ghost loose: set<PageId>) returns (r: Result<PageId>)
      requires SpaceOk(img, shape, loose)
      modifies `img, `shape
      ensures r.Ok? && r.value !in loose
      ensures (img, shape, r.value) == AfterTake(old(img), old(shape))
      ensures SpaceOk(img, shape, loose + {r.value})
    {
      TakePage(img, shape, loose);
      ghost var (img', sh', x) := AfterTake(img, shape);
      if img.freeHead.Some? {
        var id := img.freeHead.value;
        assert id == shape.free[|shape.free| - 1] && id in shape.role && id in img.pages;
        var page := PageAt(img, id);
        if page.Err? || !page.value.Free? {
          return Err(Corruption);
        }
        img := img.(freeHead := page.value.nextFree);
        shape := sh';
        return Ok(id);
      }
      img := img.(high := img.high + 1);
      shape := sh';
      return Ok(img.high);
    }

    /** All mutations of one transaction carry one provisional revision. */
    method AllocateRevision() returns (revision: nat)
      modifies `lastLsn
      ensures revision == (if old(lastLsn).Some? then old(lastLsn).value else nextRevision)
      ensures lastLsn == Some(revision)
    {
      revision := if lastLsn.Some? then lastLsn.value else nextRevision;
      lastLsn := Some(revision);
    }

    /** Allocates n pages, all loose. */
    method AllocateMany(n: nat) returns (ids: Ids)
      requires SpaceOk(img, shape, {})
      modifies `img, `shape
      ensures |ids| == n && NoDup(ids)
      ensures OnlyTaken(old(img), old(shape), img, shape) && SpaceOk(img, shape, PageSet(ids))
    {
      hide SpaceOk;
      ids := [];
      assert PageSet(ids) == {};
      for t := 0 to n
        invariant |ids| == t && NoDup(ids)
        invariant OnlyTaken(old(img), old(shape), img, shape) && SpaceOk(img, shape, PageSet(ids))
      {
        var id := AllocatePage(PageSet(ids));
        assert id.value !in ids;
        assert PageSet(ids + [id.value]) == PageSet(ids) + {id.value};
        ids := ids + [id.value];
      }
    }

    /** Writes the chunks of a value into the given pages. */
    method WriteChunks(ids: Ids, value: bytes, lsn: nat)
      requires NoDup(ids)
      modifies `img, `dirty
      ensures img == old(img).(pages := img.pages)
      ensures forall t :: 0 <= t < |ids| ==> ids[t] in img.pages && img.pages[ids[t]] == ChainPageFor(value, lsn, ids, t)
      ensures ChangedOnly(old(img).pages, img.pages, PageSet(ids))
      ensures dirty == old(dirty) + PageSet(ids)
    {
      hide ChangedOnly, ChunksWritten, ChainPageFor, ChunkOf;
      ChunksBegin(img.pages, value, lsn, ids);
      assert PageSet(ids[..0]) == {};
      for t := 0 to |ids|
        invariant img == old(img).(pages := img.pages) && dirty == old(dirty) + PageSet(ids[..t])
        invariant ChunksWritten(old(img).pages, img.pages, value, lsn, ids, t)
      {
        ChunksStep(old(img).pages, img.pages, value, lsn, ids, t);
        ReplacePage(ids[t], OverflowPage(lsn, if t + 1 < |ids| then Some(ids[t + 1]) else None, |value|, ChunkOf(value, t)));
      }
      ChunksEnd(old(img).pages, img.pages, value, lsn, ids);
    }

    /** Stores a value in a fresh overflow chain no entry owns yet. */
    method MakeChain(value: bytes, lsn: nat) returns (v: ValueRef)
      requires Sound(img, shape) && 0 < |value| <= MAX_VALUE_SIZE
      requires dirty <= img.pages.Keys
      modifies `img, `dirty, `shape
      ensures old(dirty) <= dirty && ChangedOnly(old(img).pages, img.pages, dirty)
      ensures v.Overflow? && dirty <= img.pages.Keys && NewChain(old(img), old(shape), img, shape, v, value) && Working(img, shape, {}, {v.head})
    {
      hide TreeOk, RecordsOk, PagesFit, SpaceOk, ChainPageFor, ChainOk, NewChain, PageSet;
      ghost var img0, sh0 := img, shape;
      var ids := AllocateMany(ChunkCount(|value|));
      ghost var img1, sh1 := img, shape;
      WriteChunks(ids, value, lsn);
      ChunksMakeChain(img.pages, ids, value, lsn);
      MadeChainWorking(img0, sh0, img1, sh1, img, ids);
      MadeChainKept(img0, sh0, img1, sh1, img, ids, value);
      shape := AdoptShape(shape, ids);
      v := ValueRef.Overflow(ids[0], |value|);
    }

    /** Stores a value inline or in a chain. */
    method MakeValue(value: bytes, lsn: nat) returns (r: Result<ValueRef>)
      requires Sound(img, shape) && |value| <= MAX_VALUE_SIZE
      requires dirty <= img.pages.Keys
      modifies `img, `dirty, `shape
      ensures r.Ok?
      ensures r.value.Inline? <==> |value| <= inlineLimit && |value| <= INLINE_VALUE_LIMIT
      ensures (r.value.Inline? ==> r.value.content == value) && dirty <= img.pages.Keys
      ensures old(dirty) <= dirty && ChangedOnly(old(img).pages, img.pages, dirty)
      ensures ValueMade(old(img), old(shape), img, shape, r.value, value)
      ensures Working(img, shape, {}, DroppedHead(Some(r.value)))
    {
      hide TreeOk, SpaceOk, RecordsOk, PagesFit, NewChain;
      UnchangedOnly(img.pages, dirty);
      hide ChangedOnly;
      if |value| <= inlineLimit && |value| <= INLINE_VALUE_LIMIT {
        return Ok(Inline(value));
      }
      ChunkCountBound(|value|);
      if ChunkCount(|value|) > MAX_OVERFLOW_PAGES {
        return Err(InvalidInput);
      }
      var v := MakeChain(value, lsn);
      return Ok(v);
    }

    method FreePage(id: PageId, lsn: nat)
      modifies `img, `dirty
      ensures img == old(img).(pages := old(img).pages[id := Free(lsn, old(img).freeHead)], freeHead := Some(id))
      ensures dirty == old(dirty) + {id}
    {
      ReplacePage(id, Free(lsn, img.freeHead));
      img := img.(freeHead := Some(id));
    }

    /** Walks an overflow chain and frees its pages one by one. */
    method FreeChainPages(head: PageId, length: nat, lsn: nat, ghost ids: Ids) returns (r: Result<()>)
      requires ChainHolds(img, ids, head, length)
      requires dirty <= img.pages.Keys
      modifies `img, `dirty
      ensures r.Ok? && img == Freed(old(img), ids, lsn, |ids|)
      ensures old(dirty) <= dirty && ChangedOnly(old(img).pages, img.pages, dirty)
    {
      hide ChangedOnly, ChainHolds, Concat;
      ChainBegins(img, ids, head, length);
      var pageId := Some(head);
      var visited: set<PageId> := {};
      var total, count := 0, 0;
      ghost var img0 := img;
      ghost var chunks := Chunks(img0.pages, ids);
      NoBlocks(chunks);
      UnchangedOnly(img.pages, dirty);
      while pageId.Some?
        invariant count <= |ids| && pageId == (if count < |ids| then Some(ids[count]) else None)
        invariant img == Freed(img0, ids, lsn, count)
        invariant total == |Concat(chunks[..count])|
        invariant forall x :: x in visited ==> x in ids[..count]
        invariant old(dirty) <= dirty && ChangedOnly(img0.pages, img.pages, dirty)
        decreases |ids| - count
      {
        var current := pageId.value;
        ChainHoldsAt(img0, ids, head, length, count);
        if current in visited || count >= MAX_OVERFLOW_PAGES {
          return Err(Corruption);
        }
        FreedKeeps(img0, ids, lsn, count, current);
        var page := PageAt(img, current);
        if page.Err? || !page.value.OverflowPage? || page.value.totalLength != length {
          return Err(Corruption);
        }
        ConcatTake(chunks, count);
        assert ids[..count + 1] == ids[..count] + [ids[count]];
        visited := visited + {current};
        total := total + |page.value.chunk|;
        pageId := page.value.next;
        count := count + 1;
        ChangedWrite(img0.pages, img.pages, dirty, current, Free(lsn, img.freeHead));
        FreePage(current, lsn);
      }
      assert chunks[..count] == chunks;
      if total != length || length == 0 {
        return Err(Corruption);
      }
      return Ok(());
    }

    /** Puts the pages of a value no entry owns any more on the free stack. */
    method FreeValue(v: Option<ValueRef>, lsn: nat) returns (r: Result<()>)
      requires Working(img, shape, {}, DroppedHead(v)) && Dropped(img, shape, v)
      requires dirty <= img.pages.Keys
      modifies `img, `dirty, `shape
      ensures r.Ok?
      ensures Sound(img, shape) && SameTree(old(img), old(shape), img, shape)
      ensures shape.chains.Keys == old(shape).chains.Keys - DroppedHead(v)
      ensures ChainsKept(old(img).pages, old(shape).chains - DroppedHead(v), img.pages, shape.chains)
      ensures old(dirty) <= dirty && ChangedOnly(old(img).pages, img.pages, dirty)
    {
      if v.None? || v.value.Inline? {
        return Ok(());
      }
      var h := v.value.head;
      FreeChain(img, shape, h, lsn);
      SpareHolds(img, shape, h);
      r := FreeChainPages(h, v.value.length, lsn, shape.chains[h]);
      shape := FreeChainShape(shape, h);
    }

    /** Tells the ancestors of a split page about its new sibling, splitting
        them in turn and growing a new root when needed. */
    method InsertParentSeparator(ancestors: Ids, firstSep: bytes, firstRight: PageId, lsn: nat,
                                 ghost spare: set<PageId>, ghost path0: seq<nat>, ghost c0: nat)
      returns (r: Result<()>)
      requires AtGap(img, shape, spare, ancestors, path0, 1, c0, firstSep, firstRight)
      requires dirty <= img.pages.Keys
      modifies `img, `dirty, `shape
      ensures r.Ok? <==> Takes(old(img).pages, ancestors, firstSep)
      ensures SameValues(old(img), old(shape), img, shape)
      ensures r.Ok? ==> Working(img, shape, {}, spare)
      ensures r.Err? ==> r.error == InvalidInput && Orphaned(img, shape, spare) && |shape.levels| == |old(shape).levels|
      ensures 2 * old(shape).cap <= RECORD_SPACE ==> r.Ok?
      ensures old(dirty) <= dirty && ChangedOnly(old(img).pages, img.pages, dirty)
    {
      hide Working, Gapped, AtGap, SameValues, ChangedOnly, PlanFor, ParentStuck;
      var route, separator, rightChild := ancestors, firstSep, firstRight;
      ghost var path, k: nat, c := path0, 1, c0;
      ClimbStart(img, shape, spare, route, path, k, c, separator, rightChild);
      UnchangedOnly(img.pages, dirty);
      while route != []
        invariant AtGap(img, shape, spare, route, path, k, c, separator, rightChild)
        invariant SameValues(old(img), old(shape), img, shape) && |shape.levels| == |old(shape).levels|
        invariant Takes(old(img).pages, ancestors, firstSep) <==> Takes(img.pages, route, separator)
        invariant old(dirty) <= dirty && ChangedOnly(old(img).pages, img.pages, dirty)
        decreases |route|
      {
        hide Takes;
        var parentId := route[|route| - 1];
        var plan := PlanParent(img, parentId, separator, rightChild, lsn, shape, spare, route, path, k, c);
        SameCap(old(img), old(shape), img, shape);
        if plan.Err? {
          TakesStuck(img.pages, route, separator);
          assert OrphanAt(img, shape, spare, route, path, k, c, separator, rightChild);
          return Err(InvalidInput);
        }
        if plan.value.Fits? {
          PlanFits(img, shape, spare, route, path, k, c, separator, rightChild, plan.value, old(img), old(shape));
          ChangedWrite(old(img).pages, img.pages, dirty, parentId, plan.value.page);
          ReplacePage(parentId, plan.value.page);
          return Ok(());
        }
        ghost var img0, sh0 := img, shape;
        GapSpace(img, shape, spare, route, path, k, c, separator, rightChild);
        var rightId := AllocatePage({});
        ChangedWrite(old(img).pages, img.pages, dirty, parentId, plan.value.left);
        ReplacePage(parentId, plan.value.left);
        ChangedWrite(old(img).pages, img.pages, dirty, rightId.value, plan.value.right);
        ReplacePage(rightId.value, plan.value.right);
        shape := PlanSplits(img0, sh0, spare, route, path, k, c, separator, rightChild, plan.value,
                            rightId.value, shape, img, old(img), old(shape));
        separator, rightChild := plan.value.promoted, rightId.value;
        c := path[|path| - 1] + 1;
        k, route, path := k + 1, route[..|route| - 1], path[..|path| - 1];
      }
      GapSpace(img, shape, spare, route, path, k, c, separator, rightChild);
      ghost var img0, sh0 := img, shape;
      var rootId := AllocatePage({});
      var root := Internal(lsn, img.root, [InternalEntry(separator, rightChild)]);
      ChangedWrite(old(img).pages, img.pages, dirty, rootId.value, root);
      ReplacePage(rootId.value, root);
      img := img.(root := rootId.value);
      shape := PlanRoot(img0, sh0, spare, path, k, c, separator, rightChild, rootId.value, root, shape, img, old(img), old(shape));
      return Ok(());
    }

    /** Stores the changed entries of a leaf, splitting it when they no longer
        fit. */
    method InsertLeafEntries(leafId: PageId, route: Ids, nextLeaf: Option<PageId>, entries: seq<LeafEntry>, lsn: nat,
                             ghost spare: set<PageId>, ghost spare': set<PageId>, ghost path: seq<nat>, ghost i: nat, ghost x: nat)
      returns (r: Result<()>)
      requires LeafSpot(img, shape, leafId, nextLeaf, route, path, i)
      requires LeafChange(img, shape, spare', i, entries) && FitsWithout(entries, x)
      requires Working(img, shape, {}, spare)
      requires dirty <= img.pages.Keys
      modifies `img, `dirty, `shape
      ensures r.Ok? <==> LeafStores(old(img).pages, route, entries)
      ensures r.Ok? ==> Working(img, shape, {}, spare')
      ensures NoSplit(entries) ==> r.Err? && unchanged(`img, `dirty, `shape)
      ensures !NoSplit(entries) ==> NowHolds(old(img), old(shape), img, shape, NewContents(old(img), old(shape), i, entries))
      ensures r.Err? ==> r.error == InvalidInput && |shape.levels| == |old(shape).levels| && (!NoSplit(entries) ==> Orphaned(img, shape, spare'))
      ensures 2 * old(shape).cap <= RECORD_SPACE ==> r.Ok?
      ensures old(dirty) <= dirty && ChangedOnly(old(img).pages, img.pages, dirty)
    {
      hide Working, LeafChange, NewContents, Descends, ChangedOnly, NowHolds, FitsWithout, AtGap, SameValues, Takes, Orphaned;
      UnchangedOnly(img.pages, dirty);
      if LeafFits(entries) {
        LeafTakesIt(img, shape, spare, spare', i, Leaf(lsn, nextLeaf, entries));
        ChangedWrite(img.pages, img.pages, dirty, leafId, Leaf(lsn, nextLeaf, entries));
        ReplacePage(leafId, Leaf(lsn, nextLeaf, entries));
        return Ok(());
      }
      var split := ChooseLeafSplit(entries);
      if split.None? {
        if 2 * shape.cap <= RECORD_SPACE {
          LeafHasSplit(img, shape, spare', i, entries, x);
        }
        return Err(InvalidInput);
      }
      var s := split.value;
      WorkingSpace(img, shape, spare);
      ghost var img0, sh0 := img, shape;
      var rightId := AllocatePage({});
      ghost var img1, sh1 := img, shape;
      var left := Leaf(lsn, Some(rightId.value), entries[..s]);
      var right := Leaf(lsn, nextLeaf, entries[s..]);
      ChangedWrite(img0.pages, img.pages, dirty, leafId, left);
      ReplacePage(leafId, left);
      ChangedWrite(img0.pages, img.pages, dirty, rightId.value, right);
      ReplacePage(rightId.value, right);
      shape := LeafSplitShape(img0, sh0, spare, spare', leafId, nextLeaf, route, path, i, entries, lsn, s, rightId.value,
                              left, right, img1, sh1, img);
      ghost var img2, sh2, dirty2 := img, shape, dirty;
      r := InsertParentSeparator(route[..|route| - 1], right.entries[0].key, rightId.value, lsn,
                                 spare', path[..|path| - 1], i + 1);
      ChangedTrans(img0.pages, img2.pages, img.pages, dirty2, dirty);
      SplitCap(img0, sh0, img2, sh2, NewContents(img0, sh0, i, entries));
      HoldsStill(img0, sh0, img2, sh2, img, shape, NewContents(img0, sh0, i, entries));
      LeafClimbs(img0, sh0, spare, route, path, i, s, left, right, rightId.value, entries, img2.pages);
    }

    /** The revision the mutations of the current transaction carry until it
        commits. */
    ghost function Provisional(): nat
      reads this
    {
      if lastLsn.Some? then lastLsn.value else nextRevision
    }

    ghost predicate Ready()
      reads this
    {
      Sound(img, shape) && Provisional() > 0
    }

    /** Stores an entry in the leaf its key routes to and frees the value it
        replaces. */
    method StoreEntry(leafId: PageId, route: Ids, leaf: PageData, found: bool, x: nat, e: LeafEntry, ghost path: seq<nat>)
      returns (r: Result<()>)
      requires Spot(img, shape, route, path, leafId, leaf, found, x, e)
      requires Working(img, shape, {}, DroppedHead(e.value))
      requires dirty <= img.pages.Keys
      modifies `img, `dirty, `shape
      ensures r.Ok? <==> StoresAt(old(img).pages, route, leaf, found, x, e)
      ensures r.Ok? ==> Sound(img, shape)
      ensures NoRoomAt(leaf, found, x, e) ==> r.Err? && unchanged(`img, `dirty, `shape)
      ensures !NoRoomAt(leaf, found, x, e) ==> EntryStored(old(img), old(shape), img, shape, e)
      ensures r.Err? ==> r.error == InvalidInput && |shape.levels| == |old(shape).levels| && (!NoRoomAt(leaf, found, x, e) ==> HalfSplit(img, shape))
      ensures 2 * old(shape).cap <= RECORD_SPACE ==> r.Ok?
      ensures old(dirty) <= dirty && ChangedOnly(old(img).pages, img.pages, dirty)
    {
      SpotFacts(img, shape, route, path, leafId, leaf, found, x, e);
      NothingDropped(img, shape);
      hide Working, ChangedOnly, LeafChange, NowHolds, FitsWithout, Spot, LeafSpot, EntryStored, Dropped, EntryOk, Placed, LeafStores, NoSplit,
           Orphaned, HalfSplit;
      var entries := NewEntries(leaf.entries, found, x, e);
      var was := WasValue(leaf.entries, found, x);
      ghost var img0, sh0 := img, shape;
      SpotChange(img, shape, route, path, leafId, leaf, found, x, e);
      r := InsertLeafEntries(leafId, route, leaf.nextLeaf, entries, e.revision,
                             DroppedHead(e.value), DroppedHead(was), path, path[|path| - 1], x);
      ghost var img1, sh1, dirty1 := img, shape, dirty;
      if r.Err? {
        if !NoSplit(entries) {
          StoredDocs(img0, sh0, img1, sh1, e);
          HalfSplitHere(img, shape, DroppedHead(was));
        }
        return;
      }
      if found {
        StillDropped(img0, sh0, img1, sh1, leaf.entries[x], PutEntry(Contents(img0.pages, sh0.levels[0]), e));
      }
      r := FreeValue(was, e.revision);
      ChangedTrans(img0.pages, img1.pages, img.pages, dirty1, dirty);
      StoreDone(img0, sh0, img1, sh1, img, shape, was, e);
    }

    /** Routes to the leaf of a key and looks the key up there. */
    method Locate(encoded: bytes) returns (leafId: PageId, route: Ids, leaf: PageData, found: bool, x: nat, ghost path: seq<nat>)
      requires Sound(img, shape)
      ensures Located(img, shape, encoded, route, path, leafId, leaf, found, x)
    {
      ConsistentReadable(img, shape, {}, {});
      var reached;
      reached, path := FindLeaf(img, encoded, shape);
      leafId, route := reached.value.0, reached.value.1;
      WorkingLeaf(img, shape, {}, encoded, route, path);
      hide Working, Reaches, LeavesOk, LevelOk, Placed, PageFits, Readable;
      leaf := img.pages[leafId];
      found, x := SearchLeaf(leaf.entries, encoded);
    }

    /** Stores a new version of a document. */
    method Put(key: DocumentKey, value: bytes) returns (r: Result<nat>)
      requires Ready()
      requires dirty <= img.pages.Keys
      modifies `img, `dirty, `shape, `lastLsn
      ensures !ValidPut(key, value, maxValueSize) ==>
                r == Err(InvalidInput) && unchanged(`img, `dirty, `shape, `lastLsn)
      ensures ValidPut(key, value, maxValueSize) ==>
                && (r.Ok? <==> Stores(old(img), old(shape), PutDraft(key, value, inlineLimit)))
                && lastLsn == Some(old(Provisional()))
                && Aftermath(old(img), old(shape), img, shape, key, Present(value, old(Provisional())), PutDraft(key, value, inlineLimit), r.Ok?)
      ensures r.Ok? ==> r.value == old(Provisional()) && shape.lost == old(shape).lost
      ensures r.Err? ==> r.error == InvalidInput
      ensures ValidPut(key, value, maxValueSize) && 2 * Max(old(shape).cap, PutSize(key, value, inlineLimit)) <= RECORD_SPACE ==> r.Ok?
      ensures old(dirty) <= dirty && ChangedOnly(old(img).pages, img.pages, dirty)
    {
      hide Working, ChangedOnly, Located, ValueMade, Spot, EntryStored, DocsNow, Stores, NoRoom, StoresAt, NoRoomAt, HalfSplit;
      UnchangedOnly(img.pages, dirty);
      ConsistentLevels(img, shape);
      if |value| > maxValueSize || |value| > MAX_VALUE_SIZE {
        return Err(InvalidInput);
      }
      var encoded := Encode(key);
      if |encoded| > MAX_ENCODED_KEY_SIZE {
        return Err(InvalidInput);
      }
      ghost var img0, sh0, cap := img, shape, Max(shape.cap, PutSize(key, value, inlineLimit));
      var revision := AllocateRevision();
      var leafId, route, leaf, found, x; ghost var path;
      leafId, route, leaf, found, x, path := Locate(encoded);
      RaiseCap(img, shape, {}, {}, cap);
      LocatedCap(img, shape, cap, encoded, route, path, leafId, leaf, found, x);
      shape := shape.(cap := cap);
      var v := MakeValue(value, revision);
      var e := LeafEntry(encoded, revision, Some(v.value));
      ghost var img1, sh1, dirty1 := img, shape, dirty;
      MadeSpot(img0, sh0.(cap := cap), img1, sh1, key, value, route, path, leafId, leaf, found, x, e);
      var stored := StoreEntry(leafId, route, leaf, found, x, e, path);
      ChangedTrans(img0.pages, img1.pages, img.pages, dirty1, dirty);
      assert sh0.(cap := cap) == sh0.(cap := sh1.cap);
      PutStores(img0, sh0, img1, sh1, key, value, inlineLimit, route, path, leafId, leaf, found, x, e);
      if NoRoomAt(leaf, found, x, e) {
        PutLost(img0, sh0, img1, sh1, v.value, value);
        shape := shape.(lost := shape.lost + DroppedHead(Some(v.value)));
      } else {
        MadeDocs(img0, sh0, img1, sh1, img, shape, key, value, e);
      }
      return if stored.Err? then Err(stored.error) else Ok(revision);
    }

    /** Replaces an entry by a smaller one, which always fits, and frees the
        value it replaces. */
    method ReplaceEntry(leafId: PageId, leaf: PageData, x: nat, e: LeafEntry, ghost route: Ids, ghost path: seq<nat>)
      returns (r: Result<()>)
      requires Spot(img, shape, route, path, leafId, leaf, true, x, e) && LeafRecordSize(e) <= LeafRecordSize(leaf.entries[x])
      requires Working(img, shape, {}, DroppedHead(e.value))
      requires dirty <= img.pages.Keys
      modifies `img, `dirty, `shape
      ensures r.Ok? && Sound(img, shape) && EntryStored(old(img), old(shape), img, shape, e)
      ensures InPlace(old(img), old(shape), img, shape, e)
      ensures old(dirty) <= dirty && ChangedOnly(old(img).pages, img.pages, dirty)
    {
      SpotFacts(img, shape, route, path, leafId, leaf, true, x, e);
      hide Working, ChangedOnly, LeafChange, NowHolds, FitsWithout, Spot, LeafSpot, EntryStored, Dropped, EntryOk, NewContents;
      UnchangedOnly(img.pages, dirty);
      ghost var img0, sh0 := img, shape;
      var was := leaf.entries[x].value;
      var page := Leaf(e.revision, leaf.nextLeaf, leaf.entries[x := e]);
      SpotReplaced(img, shape, route, path, leafId, leaf, x, e, page);
      ChangedWrite(img0.pages, img.pages, dirty, leafId, page);
      ReplacePage(leafId, page);
      ghost var img1, sh1, dirty1 := img, shape, dirty;
      StillDropped(img0, sh0, img1, sh1, leaf.entries[x], PutEntry(Contents(img0.pages, sh0.levels[0]), e));
      r := FreeValue(was, e.revision);
      ChangedTrans(img0.pages, img1.pages, img.pages, dirty1, dirty);
      StoreDone(img0, sh0, img1, sh1, img, shape, was, e);
    }

    /** Leaves a tombstone carrying the revision of the deletion. */
    method Delete(key: DocumentKey) returns (r: Result<nat>)
      requires Ready()
      requires dirty <= img.pages.Keys
      modifies `img, `dirty, `shape, `lastLsn
      ensures |Encoded(key)| > MAX_ENCODED_KEY_SIZE ==>
                r == Err(InvalidInput) && unchanged(`img, `dirty, `shape, `lastLsn)
      ensures |Encoded(key)| <= MAX_ENCODED_KEY_SIZE ==>
                && (r.Ok? <==> Stores(old(img), old(shape), DeleteDraft(key)))
                && lastLsn == Some(old(Provisional()))
                && Aftermath(old(img), old(shape), img, shape, key, Missing(old(Provisional())), DeleteDraft(key), r.Ok?)
      ensures r.Ok? ==> r.value == old(Provisional()) && shape.lost == old(shape).lost
      ensures r.Err? ==> r.error == InvalidInput
      ensures |Encoded(key)| <= MAX_ENCODED_KEY_SIZE && Lookup(old(Docs(img, shape)), key).Some? ==>
                r.Ok? && InPlace(old(img), old(shape), img, shape, LeafEntry(Encoded(key), old(Provisional()), None))
      ensures |Encoded(key)| <= MAX_ENCODED_KEY_SIZE && 2 * Max(old(shape).cap, DeleteSize(key)) <= RECORD_SPACE ==> r.Ok?
      ensures old(dirty) <= dirty && ChangedOnly(old(img).pages, img.pages, dirty)
    {
      hide Working, ChangedOnly, Located, Spot, EntryStored, DocsNow, Stores, NoRoom, StoresAt, NoRoomAt, HalfSplit;
      ConsistentLevels(img, shape);
      UnchangedOnly(img.pages, dirty);
      var encoded := Encode(key);
      if |encoded| > MAX_ENCODED_KEY_SIZE {
        return Err(InvalidInput);
      }
      ghost var img0, sh0, cap := img, shape, Max(shape.cap, DeleteSize(key));
      var revision := AllocateRevision();
      var leafId, route, leaf, found, x; ghost var path;
      leafId, route, leaf, found, x, path := Locate(encoded);
      RaiseCap(img, shape, {}, {}, cap);
      LocatedCap(img, shape, cap, encoded, route, path, leafId, leaf, found, x);
      shape := shape.(cap := cap);
      var e := LeafEntry(encoded, revision, None);
      DeleteSpot(img, shape, key, route, path, leafId, leaf, found, x, e);
      DeleteStores(img0, sh0, key, route, path, leafId, leaf, found, x, e);
      if found {
        FoundStores(img, shape, route, path, leafId, leaf, x, e);
        var replaced := ReplaceEntry(leafId, leaf, x, e, route, path);
        DeleteDocs(img0, sh0, cap, img, shape, key, e);
        return Ok(revision);
      }
      var stored := StoreEntry(leafId, route, leaf, found, x, e, path);
      if !NoRoomAt(leaf, found, x, e) {
        DeleteDocs(img0, sh0, cap, img, shape, key, e);
      }
      return if stored.Err? then Err(stored.error) else Ok(revision);
    }

    // -------------------------------------------------------------- transactions

    /** Between transactions: nothing is staged and every stamp in the image is
        below the next revision. */
    ghost predicate Settled()
      reads this
    {
      && Sound(img, shape) && |shape.levels| > 0 && dirty == {} && lastLsn == None
      && 0 < nextRevision <= nextLsn && StampedBelow(img.pages, nextRevision)
    }

    /** Settled, and no request has failed halfway so far. */
    ghost predicate Clean()
      reads this
    {
      Settled() && shape.lost == {}
    }

    /** The mutations `left` of requests that failed are staged on top of the
        image the last accepted request left. */
    ghost predicate Pending(base: Image, baseShape: Shape, left: seq<Mutation>)
      reads this
    {
      && Sound(base, baseShape) && StampedBelow(base.pages, nextRevision) && 0 < nextRevision <= nextLsn
      && Staged(base, baseShape, img, shape, dirty, left, nextRevision) && |shape.levels| > 0
      && (lastLsn == None || lastLsn == Some(nextRevision))
    }

    /** Mutation n of a request could not be stored in the image `at`, which holds
        the mutations before it.  If its leaf had no room, these stay staged and
        nothing else; otherwise a split of its leaf or of an ancestor stopped
        halfway. */
    ghost predicate Failed(base: Image, baseShape: Shape, left: seq<Mutation>, mutations: seq<Mutation>, n: nat, at: Point)
      reads this
    {
      && n < |mutations| && Reached(base, baseShape, at, left + mutations[..n], nextRevision)
      && !Stores(at.img, at.shape, Draft(mutations[n], inlineLimit))
      && (mutations[n].DeleteMutation? ==> Lookup(Docs(at.img, at.shape), mutations[n].key).None?)
      && if NoRoom(at.img, at.shape, Draft(mutations[n], inlineLimit)) then Pending(base, baseShape, left + mutations[..n])
         else HalfSplit(img, shape) && |shape.levels| == |at.shape.levels|
              && DocsNow(at.img, at.shape, img, shape, mutations[n].key, mutations[n].State(nextRevision))
    }

    lemma PendingFacts(base: Image, baseShape: Shape, left: seq<Mutation>)
      requires Pending(base, baseShape, left)
      ensures Sound(img, shape) && |shape.levels| > 0 && Sound(base, baseShape) && |baseShape.levels| > 0 && StampedBelow(base.pages, nextRevision)
      ensures Docs(img, shape) == Docs(base, baseShape) <==> left == []
    {
      hide Working, Docs, StampedBelow;
      PendingShows(base, baseShape, img, shape, dirty, left, nextRevision);
    }

    lemma FailedShows(base: Image, baseShape: Shape, left: seq<Mutation>, mutations: seq<Mutation>, n: nat, at: Point)
      requires Failed(base, baseShape, left, mutations, n, at) && Sound(base, baseShape) && StampedBelow(base.pages, nextRevision)
      ensures n < |mutations| && |baseShape.levels| > 0
      ensures NoRoom(at.img, at.shape, Draft(mutations[n], inlineLimit)) ==>
                |shape.levels| > 0 && (Docs(img, shape) == Docs(base, baseShape) <==> left + mutations[..n] == [])
    {
      hide Working, Docs, StampedBelow, Staged, NoRoom, Stores, HalfSplit;
      if NoRoom(at.img, at.shape, Draft(mutations[n], inlineLimit)) {
        PendingShows(base, baseShape, img, shape, dirty, left + mutations[..n], nextRevision);
      }
    }

    ghost function Numbers(): Counters
      reads this
    {
      Counters(nextLsn, nextBatchId, generation, slot, checkpointLsn)
    }

    method CheckMutations(mutations: seq<Mutation>) returns (r: Result<()>)
      ensures r.Err? ==> r.error == InvalidInput
      ensures r.Ok? <==> forall i :: 0 <= i < |mutations| ==> MutationOk(mutations[i], maxValueSize)
    {
      for i := 0 to |mutations|
        invariant forall j :: 0 <= j < i ==> MutationOk(mutations[j], maxValueSize)
      {
        var m := mutations[i];
        var encoded := Encode(m.key);
        if m.PutMutation? && (|m.value| > maxValueSize || |m.value| > MAX_VALUE_SIZE) {
          return Err(InvalidInput);
        }
        if |encoded| > MAX_ENCODED_KEY_SIZE {
          return Err(InvalidInput);
        }
      }
      return Ok(());
    }

    /** Checks the conditions one by one against what is staged so far. */
    method CheckConditions(conditions: seq<Condition>) returns (r: Result<()>)
      requires Sound(img, shape)
      ensures match Unmet(Docs(img, shape), conditions)
              case None => r == Ok(())
              case Some(error) => r == Err(error)
    {
      ConsistentReadable(img, shape, {}, {});
      ghost var docs := Docs(img, shape);
      hide Working, Readable, Docs;
      assert conditions[0..] == conditions;
      for i := 0 to |conditions|
        invariant Unmet(docs, conditions) == Unmet(docs, conditions[i..])
      {
        var c := conditions[i];
        assert conditions[i..][1..] == conditions[i + 1..];
        var actual := GetObserved(img, c.key, shape);
        if actual.Err? {
          return Err(actual.error);
        }
        if !c.Satisfied(actual.value) {
          return Err(Conflict(c.key, c.Expectation(), actual.value));
        }
      }
      return Ok(());
    }

    method Mutate(m: Mutation) returns (r: Result<nat>)
      requires Ready() && dirty <= img.pages.Keys && MutationOk(m, maxValueSize)
      modifies `img, `dirty, `shape, `lastLsn
      ensures r.Ok? <==> Stores(old(img), old(shape), Draft(m, inlineLimit))
      ensures Aftermath(old(img), old(shape), img, shape, m.key, m.State(old(Provisional())), Draft(m, inlineLimit), r.Ok?)
      ensures lastLsn == Some(old(Provisional())) && (r.Ok? ==> shape.lost == old(shape).lost)
      ensures r.Err? ==> r.error == InvalidInput
      ensures 2 * Max(old(shape).cap, MutationSize(m, inlineLimit)) <= RECORD_SPACE ==> r.Ok?
      ensures m.DeleteMutation? && Lookup(old(Docs(img, shape)), m.key).Some? ==>
                r.Ok? && InPlace(old(img), old(shape), img, shape, LeafEntry(Encoded(m.key), old(Provisional()), None))
      ensures old(dirty) <= dirty && ChangedOnly(old(img).pages, img.pages, dirty)
    {
      hide Working, ChangedOnly, DocsNow, NoRoom, Stores, Aftermath;
      if m.PutMutation? {
        r := Put(m.key, m.value);
      } else {
        r := Delete(m.key);
      }
    }

    /** Stages the mutations of one transaction in order, on top of what is
        left.  `via` are the images met by the mutations. */
    method StageMutations(mutations: seq<Mutation>, ghost base: Image, ghost baseShape: Shape, ghost left: seq<Mutation>)
      returns (r: Result<()>, ghost n: nat, ghost via: seq<Point>)
      requires Pending(base, baseShape, left) && forall i :: 0 <= i < |mutations| ==> MutationOk(mutations[i], maxValueSize)
      modifies `img, `dirty, `shape, `lastLsn
      ensures n <= |mutations| && |via| == n + 1 && Trodden(Point(old(img), old(shape)), via, mutations, n, nextRevision, inlineLimit)
      ensures r.Ok? ==>
                && n == |mutations| && Pending(base, baseShape, left + mutations) && (mutations != [] ==> lastLsn == Some(nextRevision))
                && shape.cap == CapAfter(old(shape).cap, mutations, inlineLimit) && shape.lost == old(shape).lost
      ensures r.Err? ==>
                r.error == InvalidInput && Failed(base, baseShape, left, mutations, n, via[n])
      ensures 2 * CapAfter(old(shape).cap, mutations, inlineLimit) <= RECORD_SPACE ==> r.Ok?
    {
      hide Working, StampedBelow, Staged, DocsNow, ChangedOnly, CapAfter, NoRoom, Stores, HalfSplit, Reached, Aftermath, Trodden, InPlace;
      CapStart(shape.cap, inlineLimit);
      assert mutations[..0] == [] && left + [] == left;
      n, via := 0, [Point(img, shape)];
      TroddenStart(Point(img, shape), mutations, nextRevision, inlineLimit);
      for i := 0 to |mutations|
        invariant n == i && |via| == i + 1 && via[i] == Point(img, shape)
        invariant Trodden(Point(old(img), old(shape)), via, mutations, i, nextRevision, inlineLimit)
        invariant Pending(base, baseShape, left + mutations[..i]) && (i > 0 ==> lastLsn == Some(nextRevision))
        invariant shape.cap == CapAfter(old(shape).cap, mutations[..i], inlineLimit) && shape.lost == old(shape).lost
      {
        ghost var upto := mutations[..i + 1];
        assert upto[..|upto| - 1] == mutations[..i] && upto[|upto| - 1] == mutations[i];
        assert left + upto == (left + mutations[..i]) + [mutations[i]];
        CapGrows(old(shape).cap, mutations, i + 1, inlineLimit);
        CapStep(old(shape).cap, upto, inlineLimit);
        ghost var dirty1, at := dirty, via[i];
        StagedDirty(base, baseShape, img, shape, dirty, left + mutations[..i], nextRevision);
        StagedReached(base, baseShape, img, shape, dirty, left + mutations[..i], nextRevision);
        var done := Mutate(mutations[i]);
        if done.Err? {
          StagedStuck(base, baseShape, at.img, at.shape, dirty1, img, shape, dirty, left + mutations[..i], mutations[i], nextRevision, inlineLimit);
          return Err(done.error), n, via;
        }
        TroddenOn(Point(old(img), old(shape)), via, mutations, i, Point(img, shape), nextRevision, inlineLimit);
        n, via := i + 1, via + [Point(img, shape)];
        StagedOne(base, baseShape, at.img, at.shape, dirty1, img, shape, dirty, left + mutations[..i], mutations[i], nextRevision, inlineLimit);
      }
      assert mutations[..|mutations|] == mutations;
      return Ok(()), n, via;
    }

    method RestampDirty(provisional: nat, committed: nat)
      requires dirty <= img.pages.Keys
      modifies `img
      ensures img == old(img).(pages := RestampPages(old(img).pages, dirty, provisional, committed))
    {
      var rest := dirty;
      while rest != {}
        invariant rest <= dirty <= img.pages.Keys
        invariant img == old(img).(pages := img.pages) && img.pages.Keys == old(img).pages.Keys
        invariant forall x :: x in img.pages ==>
                    img.pages[x] == if x in dirty && x !in rest then Restamp(old(img).pages[x], provisional, committed)
                                    else old(img).pages[x]
        decreases rest
      {
        var x :| x in rest;
        img := img.(pages := img.pages[x := Restamp(img.pages[x], provisional, committed)]);
        rest := rest - {x};
      }
    }

    method ChangedPages() returns (changed: PageMap)
      requires dirty <= img.pages.Keys
      ensures changed == PagesOf(img.pages, dirty)
    {
      changed := map[];
      var rest := dirty;
      while rest != {}
        invariant rest <= dirty <= img.pages.Keys
        invariant forall x :: x in changed <==> x in dirty && x !in rest
        invariant forall x :: x in changed ==> changed[x] == img.pages[x]
        decreases rest
      {
        var x :| x in rest;
        changed := changed[x := img.pages[x]];
        rest := rest - {x};
      }
    }

    /** Gives the staged transaction its commit LSN and hands it over for
        logging. */
    method FinishTransaction(ghost img0: Image, ghost sh0: Shape, ghost mutations: seq<Mutation>) returns (b: Prepared)
      requires Pending(img0, sh0, mutations) && lastLsn == Some(nextRevision)
      modifies this
      ensures Settled() && shape == old(shape) && |sh0.levels| > 0
      ensures Docs(img, shape) == ApplyMutations(Docs(img0, sh0), mutations, b.commitLsn)
      ensures img == ApplyBatch(img0, b) && b.pages.Keys == old(dirty) && BatchStamped(b)
      ensures b.commitLsn == old(nextLsn) + |old(dirty)| + 1 && nextLsn == nextRevision == b.commitLsn + 1
      ensures b.batchId == old(nextBatchId) && nextBatchId == b.batchId + 1
      ensures b.generation == old(generation) + 1 == generation && b.slot == slot == OtherSlot(old(slot))
      ensures b.checkpointLsn == checkpointLsn
    {
      hide Working, Staged, StampedBelow, BatchStamped;
      StagedDirty(img0, sh0, img, shape, dirty, mutations, nextRevision);
      StagedSound(img0, sh0, img, shape, dirty, mutations, nextRevision);
      var provisional := lastLsn.value;
      var commitLsn := nextLsn + (|dirty| + 1);
      ghost var img1 := img;
      RestampDirty(provisional, commitLsn);
      FinishDone(img0, sh0, img1, shape, dirty, mutations, provisional, commitLsn);
      var changed := ChangedPages();
      b := Prepared(changed, img.root, img.freeHead, img.high, commitLsn, nextBatchId, generation + 1, OtherSlot(slot),
                    checkpointLsn);
      FinishStamped(img1, dirty, provisional, commitLsn, b);
      generation, slot := b.generation, b.slot;
      nextRevision, nextLsn, nextBatchId := commitLsn + 1, commitLsn + 1, nextBatchId + 1;
      dirty, lastLsn := {}, None;
    }

    /** The form of a request, the limits on its mutations, then its conditions. */
    method Validate(request: Request) returns (refusal: Option<Error>)
      requires Sound(img, shape)
      ensures |shape.levels| > 0 && refusal == Refusal(Docs(img, shape), request, maxValueSize)
      ensures refusal.None? ==> forall i :: 0 <= i < |request.mutations| ==> MutationOk(request.mutations[i], maxValueSize)
    {
      ConsistentLevels(img, shape);
      hide Working, Docs, Unmet;
      if !ValidRequest(request) {
        return Some(InvalidRequest);
      }
      var limits := CheckMutations(request.mutations);
      if limits.Err? {
        return Some(limits.error);
      }
      var met := CheckConditions(request.conditions);
      return if met.Err? then Some(met.error) else None;
    }

    /** Validates one transaction against everything staged before it in the
        group, then stages and stamps it.  A request refused by validation
        leaves the overlay as it was.  A request that fails while it is staged
        does not: the mutations before the one that could not be stored stay in
        the overlay, and the next accepted request commits them with its own. */
    method PrepareTransaction(request: Request, ghost base: Image, ghost baseShape: Shape, ghost left: seq<Mutation>)
      returns (r: Result<Option<Prepared>>, ghost n: nat, ghost via: seq<Point>)
      requires Pending(base, baseShape, left)
      modifies this
      ensures match Refusal(old(Docs(img, shape)), request, maxValueSize)
              case Some(error) => r == Err(error) && unchanged(this)
              case None =>
                if request.mutations == [] then r == Ok(None) && unchanged(this)
                else r.Ok? ==> r.value.Some?
      ensures Refusal(old(Docs(img, shape)), request, maxValueSize) == None ==>
                && n <= |request.mutations| && |via| == n + 1 && (r.Ok? ==> n == |request.mutations|)
                && Trodden(Point(old(img), old(shape)), via, request.mutations, n, old(nextRevision), inlineLimit)
      ensures Refusal(old(Docs(img, shape)), request, maxValueSize) == None && r.Err? ==>
                && r.error == InvalidInput && 2 * CapAfter(old(shape).cap, request.mutations, inlineLimit) > RECORD_SPACE
                && nextRevision == old(nextRevision) && Numbers() == old(Numbers())
                && n < |request.mutations| && Failed(base, baseShape, left, request.mutations, n, via[n])
                && (left == [] && NoRoom(via[n].img, via[n].shape, Draft(request.mutations[n], inlineLimit)) ==>
                      (Docs(img, shape) == old(Docs(img, shape)) <==> n == 0))
      ensures r.Ok? && r.value.Some? ==>
                && Settled() && shape.cap == CapAfter(old(shape).cap, request.mutations, inlineLimit) && shape.lost == old(shape).lost
                && Accepted(base, baseShape, img, shape, left + request.mutations, r.value.value)
                && Numbered(r.value.value, old(Numbers())) && Numbers() == After(r.value.value)
    {
      hide Working, Staged, StampedBelow, BatchStamped, CapAfter, Failed, Pending, Docs, Refusal, Trodden, NoRoom, Accepted;
      n, via := 0, [Point(img, shape)];
      TroddenStart(Point(img, shape), request.mutations, nextRevision, inlineLimit);
      PendingFacts(base, baseShape, left);
      var refusal := Validate(request);
      if refusal.Some? {
        return Err(refusal.value), n, via;
      }
      if request.mutations == [] {
        return Ok(None), n, via;
      }
      var staged;
      staged, n, via := StageMutations(request.mutations, base, baseShape, left);
      if staged.Err? {
        FailedShows(base, baseShape, left, request.mutations, n, via[n]);
        return Err(staged.error), n, via;
      }
      var b := FinishTransaction(base, baseShape, left + request.mutations);
      AcceptedHere(base, baseShape, img, shape, left + request.mutations, b);
      return Ok(Some(b)), n, via;
    }
  }

  /** An image and how it is organised. */
  datatype Point = Point(img: Image, shape: Shape)

  /** A mutation was stored: how one image led to the next. */
  ghost predicate Trod(at: Point, next: Point, m: Mutation, revision: nat, inlineLimit: nat) {
    && Sound(at.img, at.shape) && |at.shape.levels| > 0 && Stores(at.img, at.shape, Draft(m, inlineLimit))
    && Aftermath(at.img, at.shape, next.img, next.shape, m.key, m.State(revision), Draft(m, inlineLimit), true)
    && (m.DeleteMutation? && Lookup(Docs(at.img, at.shape), m.key).Some? ==>
          InPlace(at.img, at.shape, next.img, next.shape, LeafEntry(Encoded(m.key), revision, None)))
  }

  /** The images that the first n mutations went through. */
  ghost predicate Trodden(start: Point, via: seq<Point>, mutations: seq<Mutation>, n: nat, revision: nat, inlineLimit: nat) {
    && n <= |mutations| && |via| == n + 1 && via[0] == start
    && forall i :: 0 <= i < n ==> Trod(via[i], via[i + 1], mutations[i], revision, inlineLimit)
  }

  lemma TroddenStart(start: Point, mutations: seq<Mutation>, revision: nat, inlineLimit: nat)
    ensures Trodden(start, [start], mutations, 0, revision, inlineLimit)
  {
  }

  lemma TroddenOn(start: Point, via: seq<Point>, mutations: seq<Mutation>, n: nat, next: Point, revision: nat, inlineLimit: nat)
    requires Trodden(start, via, mutations, n, revision, inlineLimit) && n < |mutations|
    requires Trod(via[n], next, mutations[n], revision, inlineLimit)
    ensures Trodden(start, via + [next], mutations, n + 1, revision, inlineLimit)
  {
    hide Trod;
  }

  /** A sound image with the documents of another one after some mutations. */
  ghost predicate Reached(img: Image, sh: Shape, at: Point, mutations: seq<Mutation>, revision: nat) {
    && |sh.levels| > 0 && |at.shape.levels| > 0 && Sound(at.img, at.shape)
    && Docs(at.img, at.shape) == ApplyMutations(Docs(img, sh), mutations, revision)
  }

  /** An accepted request: the batch takes the committed image to one that holds
      the documents after the mutations, at the commit LSN of the batch. */
  ghost predicate Accepted(img: Image, sh: Shape, img': Image, sh': Shape, mutations: seq<Mutation>, b: Prepared) {
    && |sh.levels| > 0 && |sh'.levels| > 0
    && img' == ApplyBatch(img, b) && BatchStamped(b)
    && Docs(img', sh') == ApplyMutations(Docs(img, sh), mutations, b.commitLsn)
  }

  lemma AcceptedHere(img: Image, sh: Shape, img': Image, sh': Shape, mutations: seq<Mutation>, b: Prepared)
    requires |sh.levels| > 0 && |sh'.levels| > 0 && img' == ApplyBatch(img, b) && BatchStamped(b)
    requires Docs(img', sh') == ApplyMutations(Docs(img, sh), mutations, b.commitLsn)
    ensures Accepted(img, sh, img', sh', mutations, b)
  {
  }

  function PagesOf(pages: PageMap, dirty: set<PageId>): PageMap
    requires dirty <= pages.Keys
  {
    map x | x in dirty :: pages[x]
  }

  lemma StagedDirty(img: Image, sh: Shape, img1: Image, sh1: Shape, dirty: set<PageId>, mutations: seq<Mutation>, revision: nat)
    requires Staged(img, sh, img1, sh1, dirty, mutations, revision)
    ensures dirty <= img1.pages.Keys
  {
    hide Working, Docs;
  }

  lemma FinishStamped(img1: Image, dirty: set<PageId>, provisional: nat, committed: nat, b: Prepared)
    requires dirty <= img1.pages.Keys && b.commitLsn == committed
    requires b.pages == PagesOf(RestampPages(img1.pages, dirty, provisional, committed), dirty)
    ensures BatchStamped(b) && b.pages.Keys == dirty
  {
  }

  /** A stamped transaction is the transaction at its commit LSN. */
  lemma FinishDone(img0: Image, sh0: Shape, img1: Image, sh1: Shape, dirty: set<PageId>, mutations: seq<Mutation>,
                   provisional: nat, committed: nat)
    requires Sound(img0, sh0) && StampedBelow(img0.pages, provisional) && 0 < provisional <= committed
    requires Staged(img0, sh0, img1, sh1, dirty, mutations, provisional)
    requires dirty <= img1.pages.Keys
    ensures |sh0.levels| > 0 && |sh1.levels| > 0
    ensures var img2 := img1.(pages := RestampPages(img1.pages, dirty, provisional, committed));
            && Sound(img2, sh1)
            && Docs(img2, sh1) == ApplyMutations(Docs(img0, sh0), mutations, committed)
            && StampedBelow(img2.pages, committed + 1)
            && img2.pages == img0.pages + PagesOf(img2.pages, dirty)
  {
    hide Working, Docs, RestampDocs, ApplyMutations, RestampPages;
    ConsistentEntries(img1, sh1);
    DocsBelow(img0, sh0, provisional);
    MutationsBelow(Docs(img0, sh0), mutations, provisional);
    CleanLeaves(img0.pages, img1.pages, dirty, provisional);
    RestampedImage(img1, sh1, dirty, provisional, committed);
    MutationsRestamped(Docs(img0, sh0), mutations, provisional, committed);
    RestampNothing(Docs(img0, sh0), provisional, committed);
    NewStamps(img0, img1, sh1, dirty, provisional, committed);
    MergedPages(img0.pages, img1.pages, dirty, provisional, committed);
  }

  lemma CleanLeaves(pages: PageMap, pages1: PageMap, dirty: set<PageId>, provisional: nat)
    requires StampedBelow(pages, provisional) && ChangedOnly(pages, pages1, dirty)
    ensures OnlyDirty(pages1, dirty, provisional)
  {
    forall x, y | x in pages1 && x !in dirty && pages1[x].Leaf? && 0 <= y < |pages1[x].entries|
      ensures pages1[x].entries[y].revision != provisional
    {
      assert pages1[x] == pages[x];
    }
  }

  lemma NewStamps(img0: Image, img1: Image, sh1: Shape, dirty: set<PageId>, provisional: nat, committed: nat)
    requires StampedBelow(img0.pages, provisional) && ChangedOnly(img0.pages, img1.pages, dirty)
    requires Sound(img1, sh1) && |sh1.levels| > 0 && RevisionsBelow(Docs(img1, sh1), provisional + 1) && provisional <= committed
    ensures StampedBelow(RestampPages(img1.pages, dirty, provisional, committed), committed + 1)
  {
    hide Working;
    var pages' := RestampPages(img1.pages, dirty, provisional, committed);
    forall x | x in pages'
      ensures pages'[x].lsn < committed + 1
      ensures pages'[x].Leaf? ==> forall y :: 0 <= y < |pages'[x].entries| ==> pages'[x].entries[y].revision < committed + 1
    {
      if x in dirty {
        if pages'[x].Leaf? {
          forall y | 0 <= y < |pages'[x].entries| ensures pages'[x].entries[y].revision < committed + 1 {
            EntryRevision(img1, sh1, x, y, provisional + 1);
          }
        }
      } else {
        assert pages'[x] == img0.pages[x];
      }
    }
  }

  lemma MergedPages(pages: PageMap, pages1: PageMap, dirty: set<PageId>, provisional: nat, committed: nat)
    requires ChangedOnly(pages, pages1, dirty) && dirty <= pages1.Keys
    ensures var pages' := RestampPages(pages1, dirty, provisional, committed);
            pages' == pages + PagesOf(pages', dirty)
  {
  }

  lemma {:induction false} MutationsBelow(s: States, mutations: seq<Mutation>, lsn: nat)
    requires RevisionsBelow(s, lsn)
    ensures RevisionsBelow(ApplyMutations(s, mutations, lsn), lsn + 1)
  {
    if mutations != [] {
      var n := |mutations| - 1;
      MutationsBelow(s, mutations[..n], lsn);
      InsertBelow(ApplyMutations(s, mutations[..n], lsn), mutations[n].key, mutations[n].State(lsn), lsn + 1);
    }
  }

  lemma {:induction false} MutationsRestamped(s: States, mutations: seq<Mutation>, provisional: nat, committed: nat)
    ensures RestampDocs(ApplyMutations(s, mutations, provisional), provisional, committed)
            == ApplyMutations(RestampDocs(s, provisional, committed), mutations, committed)
  {
    if mutations != [] {
      var n := |mutations| - 1;
      MutationsRestamped(s, mutations[..n], provisional, committed);
      InsertRestamped(ApplyMutations(s, mutations[..n], provisional), mutations[n].key, mutations[n].State(provisional), provisional, committed);
    }
  }

  lemma CapStart(cap: nat, inlineLimit: nat)
    ensures CapAfter(cap, [], inlineLimit) == cap
  {
  }

  lemma CapStep(cap: nat, mutations: seq<Mutation>, inlineLimit: nat)
    requires mutations != []
    ensures CapAfter(cap, mutations, inlineLimit) ==
            Max(CapAfter(cap, mutations[..|mutations| - 1], inlineLimit), MutationSize(mutations[|mutations| - 1], inlineLimit))
  {
  }

  /** The second image is consistent, holds the documents of the first after the
      mutations, and differs from it in dirty pages only. */
  ghost predicate Staged(img: Image, sh: Shape, img': Image, sh': Shape, dirty: set<PageId>, mutations: seq<Mutation>, revision: nat) {
    && Sound(img', sh') && |sh.levels| > 0
    && Docs(img', sh') == ApplyMutations(Docs(img, sh), mutations, revision)
    && ChangedOnly(img.pages, img'.pages, dirty)
  }

  lemma StagedNothing(img: Image, sh: Shape, revision: nat)
    requires Sound(img, sh)
    ensures Staged(img, sh, img, sh, {}, [], revision)
  {
  }

  lemma StagedSound(img: Image, sh: Shape, img1: Image, sh1: Shape, dirty: set<PageId>, mutations: seq<Mutation>, revision: nat)
    requires Staged(img, sh, img1, sh1, dirty, mutations, revision)
    ensures Sound(img1, sh1) && |sh.levels| > 0
  {
    hide Working, Docs;
  }

  lemma StagedReached(img: Image, sh: Shape, img1: Image, sh1: Shape, dirty: set<PageId>, mutations: seq<Mutation>, revision: nat)
    requires Staged(img, sh, img1, sh1, dirty, mutations, revision) && |sh1.levels| > 0
    ensures Reached(img, sh, Point(img1, sh1), mutations, revision) && Sound(img1, sh1)
  {
    hide Working, Docs;
  }

  /** Without room in the leaf what was staged before stays staged. */
  lemma StagedStuck(img: Image, sh: Shape, img1: Image, sh1: Shape, dirty1: set<PageId>, img2: Image, sh2: Shape, dirty2: set<PageId>,
                    left: seq<Mutation>, m: Mutation, revision: nat, inlineLimit: nat)
    requires Staged(img, sh, img1, sh1, dirty1, left, revision)
    requires Aftermath(img1, sh1, img2, sh2, m.key, m.State(revision), Draft(m, inlineLimit), false)
    requires dirty1 <= dirty2 && ChangedOnly(img1.pages, img2.pages, dirty2)
    ensures if NoRoom(img1, sh1, Draft(m, inlineLimit)) then Staged(img, sh, img2, sh2, dirty2, left, revision) && |sh2.levels| > 0
            else HalfSplit(img2, sh2) && |sh2.levels| == |sh1.levels| && DocsNow(img1, sh1, img2, sh2, m.key, m.State(revision))
  {
    hide Working, Docs, NoRoom, HalfSplit;
    ChangedTrans(img.pages, img1.pages, img2.pages, dirty1, dirty2);
  }

  lemma StagedOne(img: Image, sh: Shape, img1: Image, sh1: Shape, dirty1: set<PageId>, img2: Image, sh2: Shape, dirty2: set<PageId>,
                  left: seq<Mutation>, m: Mutation, revision: nat, inlineLimit: nat)
    requires Staged(img, sh, img1, sh1, dirty1, left, revision)
    requires Aftermath(img1, sh1, img2, sh2, m.key, m.State(revision), Draft(m, inlineLimit), true)
    requires dirty1 <= dirty2 && ChangedOnly(img1.pages, img2.pages, dirty2)
    ensures Staged(img, sh, img2, sh2, dirty2, left + [m], revision) && |sh2.levels| > 0
    ensures sh2.cap == Max(sh1.cap, MutationSize(m, inlineLimit))
  {
    hide Working, Docs, NoRoom, HalfSplit;
    assert (left + [m])[..|left|] == left;
    ChangedTrans(img.pages, img1.pages, img2.pages, dirty1, dirty2);
  }

  /** Staged mutations show in the documents, whatever they are. */
  lemma TraceShows(s: States, mutations: seq<Mutation>, revision: nat)
    requires RevisionsBelow(s, revision)
    ensures ApplyMutations(s, mutations, revision) == s <==> mutations == []
  {
    if mutations != [] {
      var m := mutations[|mutations| - 1];
      var before := ApplyMutations(s, mutations[..|mutations| - 1], revision);
      InsertLookup(before, m.key, m.State(revision), m.key);
      NotThere(s, m.key, m.State(revision), revision);
    }
  }

  lemma PendingShows(img: Image, sh: Shape, img1: Image, sh1: Shape, dirty: set<PageId>, left: seq<Mutation>, revision: nat)
    requires Sound(img, sh) && StampedBelow(img.pages, revision) && Staged(img, sh, img1, sh1, dirty, left, revision)
    ensures |sh.levels| > 0 && |sh1.levels| > 0 && (Docs(img1, sh1) == Docs(img, sh) <==> left == [])
  {
    ConsistentLevels(img1, sh1);
    hide Working, Docs;
    DocsBelow(img, sh, revision);
    hide StampedBelow;
    TraceShows(Docs(img, sh), left, revision);
  }

  lemma {:induction false} NotThere(s: States, key: DocumentKey, state: RevisionState, revision: nat)
    requires RevisionsBelow(s, revision) && state.revision >= revision
    ensures Lookup(s, key) != Some(state)
  {
    if s != [] {
      NotThere(s[1..], key, state, revision);
    }
  }

  // ---------------------------------------------------------------- what a request is refused for

  ghost predicate MutationOk(m: Mutation, maxValueSize: nat) {
    && |Encoded(m.key)| <= MAX_ENCODED_KEY_SIZE
    && (m.PutMutation? ==> |m.value| <= maxValueSize && |m.value| <= MAX_VALUE_SIZE)
  }

  /** The first condition that is not met, or names a key too long to be stored. */
  ghost function Unmet(s: States, conditions: seq<Condition>): Option<Error> {
    if conditions == [] then None
    else
      var c := conditions[0];
      var actual := Get(s, c.key).Observed();
      if |Encoded(c.key)| > MAX_ENCODED_KEY_SIZE then Some(InvalidInput)
      else if c.Satisfied(actual) then Unmet(s, conditions[1..])
      else Some(Conflict(c.key, c.Expectation(), actual))
  }

  ghost function Refusal(s: States, request: Request, maxValueSize: nat): Option<Error> {
    if !ValidRequest(request) then Some(InvalidRequest)
    else if exists i :: 0 <= i < |request.mutations| && !MutationOk(request.mutations[i], maxValueSize) then Some(InvalidInput)
    else Unmet(s, request.conditions)
  }

  ghost function MutationSize(m: Mutation, inlineLimit: nat): nat {
    if m.PutMutation? then PutSize(m.key, m.value, inlineLimit) else DeleteSize(m.key)
  }

  /** The bound on record sizes once the mutations are stored. */
  ghost function CapAfter(cap: nat, mutations: seq<Mutation>, inlineLimit: nat): nat {
    if mutations == [] then cap
    else Max(CapAfter(cap, mutations[..|mutations| - 1], inlineLimit), MutationSize(mutations[|mutations| - 1], inlineLimit))
  }

  lemma {:induction false} CapGrows(cap: nat, mutations: seq<Mutation>, i: nat, inlineLimit: nat)
    requires i <= |mutations|
    ensures CapAfter(cap, mutations[..i], inlineLimit) <= CapAfter(cap, mutations, inlineLimit)
    decreases |mutations| - i
  {
    if i < |mutations| {
      CapGrows(cap, mutations, i + 1, inlineLimit);
      assert mutations[..i + 1][..i] == mutations[..i];
    } else {
      assert mutations[..i] == mutations;
    }
  }

  ghost function DeleteSize(key: DocumentKey): nat {
    SLOT_SIZE + LEAF_RECORD_HEADER + |Encoded(key)|
  }

  lemma DeleteSpot(img: Image, sh: Shape, key: DocumentKey, route: Ids, path: seq<nat>, leafId: PageId, leaf: PageData,
                   found: bool, x: nat, e: LeafEntry)
    requires Sound(img, sh) && e.key == Encoded(key) && |e.key| <= MAX_ENCODED_KEY_SIZE && e.revision > 0 && e.value == None
    requires LeafRecordSize(e) <= sh.cap
    requires Located(img, sh, e.key, route, path, leafId, leaf, found, x)
    ensures Spot(img, sh, route, path, leafId, leaf, found, x, e)
    ensures leaf.Leaf? && (found ==> x < |leaf.entries| && LeafRecordSize(e) <= LeafRecordSize(leaf.entries[x]))
    ensures |sh.levels| > 0 && (found <==> Lookup(Docs(img, sh), key).Some?)
  {
    DecodeEncoded(key);
    ConsistentEntries(img, sh);
    WorkingLeaf(img, sh, {}, e.key, route, path);
    hide Working;
    assert Spot(img, sh, route, path, leafId, leaf, found, x, e);
    LevelAscends(sh.levels[0], sh.bounds[0]);
    PlacedContents(img, sh, path[|path| - 1], leaf.entries, found, x, e);
    LookupDocs(img.pages, sh.chains, Contents(img.pages, sh.levels[0]), key);
  }

  lemma DeleteDocs(img: Image, sh: Shape, cap: nat, img': Image, sh': Shape, key: DocumentKey, e: LeafEntry)
    requires EntryStored(img, sh.(cap := cap), img', sh', e) && e.key == Encoded(key) && e.value == None
    ensures DocsNow(img, sh, img', sh', key, Missing(e.revision)) && sh'.cap == cap && sh'.lost == sh.lost
  {
    DecodeEncoded(key);
  }

  lemma SpotReplaced(img: Image, sh: Shape, route: Ids, path: seq<nat>, leafId: PageId, leaf: PageData, x: nat, e: LeafEntry, page: PageData)
    requires Spot(img, sh, route, path, leafId, leaf, true, x, e) && LeafRecordSize(e) <= LeafRecordSize(leaf.entries[x])
    requires page == Leaf(e.revision, leaf.nextLeaf, leaf.entries[x := e])
    requires Working(img, sh, {}, DroppedHead(e.value))
    ensures Working(img.(pages := img.pages[leafId := page]), sh, {}, DroppedHead(leaf.entries[x].value))
    ensures |sh.levels| > 0
    ensures NowHolds(img, sh, img.(pages := img.pages[leafId := page]), sh, PutEntry(Contents(img.pages, sh.levels[0]), e))
    ensures EntryOk(img.pages, sh.chains, leaf.entries[x]) && EntryOk(img.pages, sh.chains, e)
  {
    var i := path[|path| - 1];
    WorkingLeaf(img, sh, DroppedHead(e.value), e.key, route, path);
    hide Working, LeafChange, NewContents, FitsWithout, EntryOk, Descends;
    SpotChange(img, sh, route, path, leafId, leaf, true, x, e);
    PlacedFits(leaf.entries, true, x, e, sh.cap);
    LeafTakesIt(img, sh, DroppedHead(e.value), DroppedHead(leaf.entries[x].value), i, page);
  }

  /** The second image holds the documents of the first with one change. */
  ghost predicate DocsNow(img: Image, sh: Shape, img': Image, sh': Shape, key: DocumentKey, state: RevisionState) {
    |sh.levels| > 0 && |sh'.levels| > 0 && Docs(img', sh') == Insert(Docs(img, sh), key, state)
  }

  lemma MadeSpot(img: Image, sh: Shape, img1: Image, sh1: Shape, key: DocumentKey, value: bytes,
                 route: Ids, path: seq<nat>, leafId: PageId, leaf: PageData, found: bool, x: nat, e: LeafEntry)
    requires e.key == Encoded(key) && |e.key| <= MAX_ENCODED_KEY_SIZE && e.revision > 0
    requires e.value.Some? && ValueMade(img, sh, img1, sh1, e.value.value, value)
    requires LeafRecordSize(e) <= sh.cap
    requires Located(img, sh, e.key, route, path, leafId, leaf, found, x)
    ensures Spot(img1, sh1, route, path, leafId, leaf, found, x, e) && sh1.cap == sh.cap
  {
    DecodeEncoded(key);
    hide Placed;
    if e.value.value.Overflow? {
      MadeReaches(img.pages, img1.pages, sh, sh1, e.key, route, path);
      assert leafId in sh.levels[0];
      assert At(img1.pages, leafId) == At(img.pages, leafId);
    }
  }

  ghost predicate SameDocs(img: Image, sh: Shape, img': Image, sh': Shape) {
    |sh.levels| > 0 && |sh'.levels| > 0 && Docs(img', sh') == Docs(img, sh)
  }

  lemma ConsistentLevels(img: Image, sh: Shape)
    requires Sound(img, sh)
    ensures |sh.levels| > 0
  {
  }

  /** The record a put stores; which pages and revision it gets does not matter
      for the room it takes. */
  ghost function PutDraft(key: DocumentKey, value: bytes, inlineLimit: nat): LeafEntry {
    LeafEntry(Encoded(key), 0,
              Some(if |value| <= inlineLimit && |value| <= INLINE_VALUE_LIMIT then Inline(value) else ValueRef.Overflow(0, |value|)))
  }

  ghost function DeleteDraft(key: DocumentKey): LeafEntry {
    LeafEntry(Encoded(key), 0, None)
  }

  ghost function Draft(m: Mutation, inlineLimit: nat): LeafEntry {
    if m.PutMutation? then PutDraft(m.key, m.value, inlineLimit) else DeleteDraft(m.key)
  }

  /** What storing a record leaves behind.  With success the image is sound and
      has the change.  Without room in the leaf the documents are as before.
      Otherwise a split stopped halfway: the leaves have the change, but a page
      is missing from the level above it. */
  ghost predicate Aftermath(img: Image, sh: Shape, img': Image, sh': Shape, key: DocumentKey, state: RevisionState, e: LeafEntry, ok: bool) {
    && sh'.cap == Max(sh.cap, LeafRecordSize(e))
    && (if NoRoom(img, sh, e) then !ok && Sound(img', sh') && SameDocs(img, sh, img', sh')
        else DocsNow(img, sh, img', sh', key, state) && if ok then Sound(img', sh') else HalfSplit(img', sh') && |sh'.levels| == |sh.levels|)
  }

  /** An entry replaced the one with its key, and the tree kept its shape. */
  ghost predicate InPlace(img: Image, sh: Shape, img': Image, sh': Shape, e: LeafEntry) {
    && |sh.levels| > 0 && sh'.levels == sh.levels && sh'.bounds == sh.bounds
    && Contents(img'.pages, sh.levels[0]) == PutEntry(Contents(img.pages, sh.levels[0]), e)
  }

  lemma LocatedCap(img: Image, sh: Shape, cap: nat, key: bytes, route: Ids, path: seq<nat>, leafId: PageId, leaf: PageData, found: bool, x: nat)
    requires Located(img, sh, key, route, path, leafId, leaf, found, x)
    ensures Located(img, sh.(cap := cap), key, route, path, leafId, leaf, found, x)
  {
    hide Descends, InRange, Placed;
  }

  lemma PutStores(img: Image, sh: Shape, img1: Image, sh1: Shape, key: DocumentKey, value: bytes, inlineLimit: nat,
                  route: Ids, path: seq<nat>, leafId: PageId, leaf: PageData, found: bool, x: nat, e: LeafEntry)
    requires Sound(img, sh) && Located(img, sh, e.key, route, path, leafId, leaf, found, x)
    requires e.key == Encoded(key) && e.value.Some? && ValueMade(img, sh.(cap := sh1.cap), img1, sh1, e.value.value, value)
    requires e.value.value.Inline? <==> |value| <= inlineLimit && |value| <= INLINE_VALUE_LIMIT
    ensures Stores(img, sh, PutDraft(key, value, inlineLimit)) <==> StoresAt(img1.pages, route, leaf, found, x, e)
    ensures NoRoom(img, sh, PutDraft(key, value, inlineLimit)) <==> NoRoomAt(leaf, found, x, e)
    ensures LeafRecordSize(e) == LeafRecordSize(PutDraft(key, value, inlineLimit)) == PutSize(key, value, inlineLimit)
  {
    var d := PutDraft(key, value, inlineLimit);
    MadeRoute(img, sh, img1, sh1, e.key, route, path, e.value.value, value);
    hide Sound, Stores, NoRoom, StoresAt, NoRoomAt, ValueMade;
    StoresHere(img, sh, route, path, leafId, leaf, found, x, d);
    hide Located;
    StoresAlike(img.pages, route, leaf, found, x, d, e);
    StoresFrame(img.pages, img1.pages, route, leaf, found, x, e);
  }

  lemma MadeRoute(img: Image, sh: Shape, img1: Image, sh1: Shape, key: bytes, route: Ids, path: seq<nat>, v: ValueRef, value: bytes)
    requires Reaches(img.pages, sh, key, route, path) && ValueMade(img, sh.(cap := sh1.cap), img1, sh1, v, value)
    ensures forall t :: 0 <= t < |route| ==> At(img1.pages, route[t]) == At(img.pages, route[t])
    ensures v.Inline? ==> v.content == value
  {
    if v.Overflow? {
      forall t | 0 <= t < |route| ensures At(img1.pages, route[t]) == At(img.pages, route[t]) {
        assert route[t] in sh.levels[|sh.levels| - 1 - t];
      }
    }
  }

  /** The value of a record that found no place stays behind as a lost chain. */
  lemma PutLost(img: Image, sh: Shape, img1: Image, sh1: Shape, v: ValueRef, value: bytes)
    requires Sound(img, sh) && Working(img1, sh1, {}, DroppedHead(Some(v)))
    requires ValueMade(img, sh.(cap := sh1.cap), img1, sh1, v, value)
    ensures var sh' := sh1.(lost := sh1.lost + DroppedHead(Some(v))); Sound(img1, sh') && SameDocs(img, sh, img1, sh')
  {
    hide Working;
    ConsistentEntries(img, sh);
    MadeSame(img, sh, img1, sh1, v, value);
    MadeHead(img, sh.(cap := sh1.cap), img1, sh1, v, value);
    hide ValueMade, Docs;
    LoseChain(img1, sh1, v);
  }

  lemma MadeHead(img: Image, sh: Shape, img1: Image, sh1: Shape, v: ValueRef, value: bytes)
    requires ValueMade(img, sh, img1, sh1, v, value)
    ensures DroppedHead(Some(v)) <= sh1.chains.Keys
  {
    hide ChainsKept, TreePagesSame, ChainBytes;
  }

  lemma LoseChain(img: Image, sh: Shape, v: ValueRef)
    requires Working(img, sh, {}, DroppedHead(Some(v))) && DroppedHead(Some(v)) <= sh.chains.Keys
    ensures Sound(img, sh.(lost := sh.lost + DroppedHead(Some(v))))
  {
    hide TreeOk, SpaceOk, PagesFit, EntriesOk, Owned, Contents;
    var sh' := sh.(lost := sh.lost + DroppedHead(Some(v)));
    assert Claimed(sh', {}) == Claimed(sh, DroppedHead(Some(v)));
    SpaceLost(img, sh, sh'.lost);
  }

  lemma SpaceLost(img: Image, sh: Shape, lost: set<PageId>)
    requires SpaceOk(img, sh, {})
    ensures SpaceOk(img, sh.(lost := lost), {})
  {
  }

  lemma DeleteStores(img: Image, sh: Shape, key: DocumentKey, route: Ids, path: seq<nat>, leafId: PageId, leaf: PageData,
                     found: bool, x: nat, e: LeafEntry)
    requires Sound(img, sh) && Located(img, sh, e.key, route, path, leafId, leaf, found, x) && e.key == Encoded(key) && e.value == None
    ensures Stores(img, sh, DeleteDraft(key)) <==> StoresAt(img.pages, route, leaf, found, x, e)
    ensures NoRoom(img, sh, DeleteDraft(key)) <==> NoRoomAt(leaf, found, x, e)
    ensures LeafRecordSize(e) == LeafRecordSize(DeleteDraft(key)) == DeleteSize(key)
  {
    hide Sound, Stores, NoRoom, StoresAt, NoRoomAt;
    StoresHere(img, sh, route, path, leafId, leaf, found, x, DeleteDraft(key));
    hide Located;
    StoresAlike(img.pages, route, leaf, found, x, DeleteDraft(key), e);
  }

  /** A tombstone fits wherever its key already has a record. */
  lemma FoundStores(img: Image, sh: Shape, route: Ids, path: seq<nat>, leafId: PageId, leaf: PageData, x: nat, e: LeafEntry)
    requires Working(img, sh, {}, {}) && leaf.Leaf? && x < |leaf.entries| && LeafRecordSize(e) <= LeafRecordSize(leaf.entries[x])
    requires Spot(img, sh, route, path, leafId, leaf, true, x, e)
    ensures StoresAt(img.pages, route, leaf, true, x, e) && !NoRoomAt(leaf, true, x, e)
  {
    WorkingLeaf(img, sh, {}, e.key, route, path);
    hide Working, Descends, EntryOk, NewEntries, AllBelow, AllAbove;
    PlacedFits(leaf.entries, true, x, e, sh.cap);
  }

  /** An entry and the place in a reached leaf where it belongs. */
  ghost predicate Spot(img: Image, sh: Shape, route: Ids, path: seq<nat>, leafId: PageId, leaf: PageData,
                       found: bool, x: nat, e: LeafEntry) {
    && Reaches(img.pages, sh, e.key, route, path) && route[|route| - 1] == leafId
    && leafId in img.pages && leaf == img.pages[leafId] && leaf.Leaf?
    && Placed(leaf.entries, e.key, found, x)
    && EntryOk(img.pages, sh.chains, e) && LeafRecordSize(e) <= sh.cap
  }

  ghost predicate EntryStored(img: Image, sh: Shape, img': Image, sh': Shape, e: LeafEntry) {
    && |sh.levels| > 0 && |sh'.levels| > 0
    && Docs(img', sh') == Insert(Docs(img, sh), KeyOf(e.key), StateOf(img.pages, sh.chains, e))
    && sh'.cap == sh.cap && sh'.lost == sh.lost
  }

  lemma SpotFacts(img: Image, sh: Shape, route: Ids, path: seq<nat>, leafId: PageId, leaf: PageData,
                  found: bool, x: nat, e: LeafEntry)
    requires Spot(img, sh, route, path, leafId, leaf, found, x, e)
    ensures leaf.Leaf? && |path| > 0 && route != [] && PlaceOk(leaf, found, x)
    ensures EntryOk(img.pages, sh.chains, e)
  {
  }

  lemma SpotChange(img: Image, sh: Shape, route: Ids, path: seq<nat>, leafId: PageId, leaf: PageData,
                   found: bool, x: nat, e: LeafEntry)
    requires Spot(img, sh, route, path, leafId, leaf, found, x, e)
    requires Working(img, sh, {}, DroppedHead(e.value))
    ensures LeafSpot(img, sh, leafId, leaf.nextLeaf, route, path, path[|path| - 1])
    ensures LeafChange(img, sh, DroppedHead(WasValue(leaf.entries, found, x)), path[|path| - 1], NewEntries(leaf.entries, found, x, e))
    ensures FitsWithout(NewEntries(leaf.entries, found, x, e), x)
    ensures NewContents(img, sh, path[|path| - 1], NewEntries(leaf.entries, found, x, e)) == PutEntry(Contents(img.pages, sh.levels[0]), e)
    ensures found ==> EntryOk(img.pages, sh.chains, leaf.entries[x])
  {
    var i := path[|path| - 1];
    WorkingLeaf(img, sh, DroppedHead(e.value), e.key, route, path);
    TreeContentsSorted(img, sh);
    hide Working, LeafChange, FitsWithout, NewContents, EntryOk, Placed;
    EntryChange(img, sh, i, leafId, leaf, found, x, e);
  }

  lemma NothingDropped(img: Image, sh: Shape)
    ensures forall i, s :: Dropped(i, s, None)
  {
  }

  lemma StillDropped(img: Image, sh: Shape, img': Image, sh': Shape, was: LeafEntry, es: seq<LeafEntry>)
    requires EntryOk(img.pages, sh.chains, was) && NowHolds(img, sh, img', sh', es)
    ensures Dropped(img', sh', was.value)
  {
  }

  /** A page was split off that its parent could not be told of. */
  ghost predicate HalfSplit(img: Image, sh: Shape) {
    exists spare :: Orphaned(img, sh, spare)
  }

  lemma HalfSplitHere(img: Image, sh: Shape, spare: set<PageId>)
    requires Orphaned(img, sh, spare)
    ensures HalfSplit(img, sh)
  {
    hide Orphaned;
  }

  /** Once the leaves hold the entry, the documents are those with the change. */
  lemma StoredDocs(img: Image, sh: Shape, img1: Image, sh1: Shape, e: LeafEntry)
    requires Working(img, sh, {}, DroppedHead(e.value)) && EntryOk(img.pages, sh.chains, e)
    requires |sh.levels| > 0 && NowHolds(img, sh, img1, sh1, PutEntry(Contents(img.pages, sh.levels[0]), e))
    ensures EntryStored(img, sh, img1, sh1, e)
  {
    var es := Contents(img.pages, sh.levels[0]);
    var es' := PutEntry(es, e);
    assert EntriesOk(img.pages, sh.chains, es);
    hide Working, DocsOf, StateOf;
    EntriesPut(img.pages, sh.chains, es, e);
    forall i | 0 <= i < |es'| && HasChain(es'[i])
      ensures Head(es'[i]) in sh.chains
    {
      assert EntryOk(img.pages, sh.chains, es'[i]);
    }
    DocsFrame(img.pages, sh.chains, img1.pages, sh1.chains, es');
    DocsPut(img.pages, sh.chains, es, e);
  }

  lemma StoreDone(img: Image, sh: Shape, img1: Image, sh1: Shape, img2: Image, sh2: Shape, was: Option<ValueRef>, e: LeafEntry)
    requires Working(img, sh, {}, DroppedHead(e.value)) && EntryOk(img.pages, sh.chains, e)
    requires |sh.levels| > 0 && NowHolds(img, sh, img1, sh1, PutEntry(Contents(img.pages, sh.levels[0]), e))
    requires SameTree(img1, sh1, img2, sh2) && Sound(img2, sh2)
    requires sh2.chains.Keys == sh1.chains.Keys - DroppedHead(was)
    requires ChainsKept(img1.pages, sh1.chains - DroppedHead(was), img2.pages, sh2.chains)
    ensures EntryStored(img, sh, img2, sh2, e)
  {
    var es := Contents(img.pages, sh.levels[0]);
    var es' := PutEntry(es, e);
    assert EntriesOk(img.pages, sh.chains, es);
    assert EntriesOk(img2.pages, sh2.chains, es');
    hide Working, EntryOk, DocsOf, StateOf;
    StoredHeads(img, sh, img1, sh1, img2, sh2, was, es');
    DocsFrame(img.pages, sh.chains, img2.pages, sh2.chains, es');
    DocsPut(img.pages, sh.chains, es, e);
  }

  lemma StoredHeads(img: Image, sh: Shape, img1: Image, sh1: Shape, img2: Image, sh2: Shape, was: Option<ValueRef>, es: seq<LeafEntry>)
    requires EntriesOk(img2.pages, sh2.chains, es)
    requires sh1.chains == sh.chains && SameChainBytes(img.pages, img1.pages, sh.chains)
    requires sh2.chains.Keys == sh1.chains.Keys - DroppedHead(was)
    requires ChainsKept(img1.pages, sh1.chains - DroppedHead(was), img2.pages, sh2.chains)
    ensures SameHeads(img.pages, sh.chains, img2.pages, sh2.chains, es)
  {
    forall i | 0 <= i < |es| && HasChain(es[i])
      ensures Head(es[i]) in sh.chains && Head(es[i]) in sh2.chains
      ensures ChainBytes(img2.pages, sh2.chains[Head(es[i])]) == ChainBytes(img.pages, sh.chains[Head(es[i])])
    {
      assert EntryOk(img2.pages, sh2.chains, es[i]);
      assert Head(es[i]) in sh1.chains - DroppedHead(was);
    }
  }

  lemma MadeReaches(pages: PageMap, pages': PageMap, sh: Shape, sh': Shape, key: bytes, route: Ids, path: seq<nat>)
    requires Reaches(pages, sh, key, route, path) && TreePagesSame(pages, pages', sh.levels)
    requires sh'.levels == sh.levels && sh'.bounds == sh.bounds
    ensures Reaches(pages', sh', key, route, path)
  {
    forall t | 0 <= t < |route| - 1
      ensures ChildOf(pages', sh.levels, |sh.levels| - 1 - t, path[t], path[t + 1])
    {
      var m := |sh.levels| - 1 - t;
      assert ChildOf(pages, sh.levels, m, path[t], path[t + 1]);
      KidsSame(pages, pages', sh.levels[m]);
    }
  }

  lemma MadeDocs(img: Image, sh: Shape, img1: Image, sh1: Shape, img2: Image, sh2: Shape, key: DocumentKey, value: bytes, e: LeafEntry)
    requires Sound(img, sh) && EntryStored(img1, sh1, img2, sh2, e)
    requires e.key == Encoded(key) && e.value.Some?
    requires ValueMade(img, sh.(cap := sh1.cap), img1, sh1, e.value.value, value)
    ensures DocsNow(img, sh, img2, sh2, key, Present(value, e.revision)) && sh2.cap == sh1.cap && sh2.lost == sh.lost && sh1.levels == sh.levels
  {
    DecodeEncoded(key);
    ConsistentEntries(img, sh);
    hide Working;
    MadeSame(img, sh, img1, sh1, e.value.value, value);
  }

  lemma ConsistentEntries(img: Image, sh: Shape)
    requires Sound(img, sh)
    ensures |sh.levels| > 0 && EntriesOk(img.pages, sh.chains, Contents(img.pages, sh.levels[0]))
  {
  }

  lemma MadeSame(img: Image, sh: Shape, img1: Image, sh1: Shape, v: ValueRef, value: bytes)
    requires |sh.levels| > 0 && EntriesOk(img.pages, sh.chains, Contents(img.pages, sh.levels[0]))
    requires ValueMade(img, sh.(cap := sh1.cap), img1, sh1, v, value)
    ensures |sh1.levels| > 0 && Docs(img1, sh1) == Docs(img, sh)
  {
    var es := Contents(img.pages, sh.levels[0]);
    if v.Overflow? {
      forall i | 0 <= i < |es| && HasChain(es[i])
        ensures Head(es[i]) in sh.chains && Head(es[i]) in sh1.chains
        ensures ChainBytes(img1.pages, sh1.chains[Head(es[i])]) == ChainBytes(img.pages, sh.chains[Head(es[i])])
      {
        assert EntryOk(img.pages, sh.chains, es[i]);
      }
      DocsFrame(img.pages, sh.chains, img1.pages, sh1.chains, es);
    }
  }

  ghost predicate ValidPut(key: DocumentKey, value: bytes, maxValueSize: nat) {
    |value| <= maxValueSize && |value| <= MAX_VALUE_SIZE && |Encoded(key)| <= MAX_ENCODED_KEY_SIZE
  }

  function Max(a: nat, b: nat): nat {
    if a < b then b else a
  }

  /** The size of the record a put stores. */
  ghost function PutSize(key: DocumentKey, value: bytes, inlineLimit: nat): nat {
    SLOT_SIZE + LEAF_RECORD_HEADER + |Encoded(key)|
    + (if |value| <= inlineLimit && |value| <= INLINE_VALUE_LIMIT then |value| else 0)
  }

  lemma ChangedTrans(pages: PageMap, pages1: PageMap, pages2: PageMap, dirty1: set<PageId>, dirty2: set<PageId>)
    requires ChangedOnly(pages, pages1, dirty1) && ChangedOnly(pages1, pages2, dirty2) && dirty1 <= dirty2
    ensures ChangedOnly(pages, pages2, dirty2)
  {
  }

  lemma SplitCap(img: Image, sh: Shape, img': Image, sh': Shape, es: seq<LeafEntry>)
    requires NowHolds(img, sh, img', sh', es)
    ensures sh'.cap == sh.cap
  {
  }

  lemma WorkingSpace(img: Image, sh: Shape, spare: set<PageId>)
    requires Working(img, sh, {}, spare)
    ensures SpaceOk(img, sh, {})
  {
  }

  lemma LeafHasSplit(img: Image, sh: Shape, spare: set<PageId>, i: nat, entries: seq<LeafEntry>, x: nat)
    requires LeafChange(img, sh, spare, i, entries) && FitsWithout(entries, x) && !LeafFits(entries)
    requires 2 * sh.cap <= RECORD_SPACE
    ensures exists c: nat :: LeafSplitFits(entries, c)
  {
    assert LeafRecordSize(entries[x]) <= sh.cap;
    hide LeafChange;
    SmallEntrySplits(entries, x);
  }

  lemma LeafSplitShape(img: Image, sh: Shape, spare: set<PageId>, spare': set<PageId>, leafId: PageId, nextLeaf: Option<PageId>,
                       route: Ids, path: seq<nat>, i: nat, entries: seq<LeafEntry>, lsn: nat, s: nat, rid: PageId,
                       left: PageData, right: PageData, img1: Image, sh1: Shape, img': Image) returns (sh': Shape)
    requires LeafSpot(img, sh, leafId, nextLeaf, route, path, i) && LeafSplitFits(entries, s)
    requires left == Leaf(lsn, Some(rid), entries[..s]) && right == Leaf(lsn, nextLeaf, entries[s..])
    requires (img1, sh1, rid) == AfterTake(img, sh)
    requires img' == img1.(pages := img1.pages[leafId := left][rid := right])
    requires LeafChange(img, sh, spare', i, entries)
    requires Working(img, sh, {}, spare)
    ensures AtGap(img', sh', spare', route[..|route| - 1], path[..|path| - 1], 1, i + 1, right.entries[0].key, rid)
    ensures NowHolds(img, sh, img', sh', NewContents(img, sh, i, entries)) && |sh'.levels| == |sh.levels|
  {
    hide Working, LeafChange, NewContents, Descends, NowHolds, AtGap;
    sh' := AddPage(sh1, 0, i, rid, right.entries[0].key);
    LeafSplits(img, sh, spare, spare', route, path, i, Leaf(lsn, nextLeaf, entries), s, rid, left, right, img1, sh1, img', sh');
  }

  /** A leaf that was split is stored if the ancestors take its separator. */
  lemma LeafClimbs(img: Image, sh: Shape, spare: set<PageId>, route: Ids, path: seq<nat>, i: nat, s: nat, left: PageData, right: PageData,
                   rid: PageId, entries: seq<LeafEntry>, pages': PageMap)
    requires Working(img, sh, {}, spare) && 0 < |sh.levels| && i < |sh.levels[0]|
    requires |route| == |path| == |sh.levels| && path[|path| - 1] == i && Descends(img.pages, sh.levels, route, path)
    requires rid == AfterTake(img, sh).2 && pages' == img.pages[sh.levels[0][i] := left][rid := right]
    requires !LeafFits(entries) && LeafSplitAt(entries, s) && s < |entries|
    ensures LeafStores(img.pages, route, entries) <==> Takes(pages', route[..|route| - 1], entries[s].key)
  {
    TakenApart(img, sh, {}, spare);
    hide Working, Takes, LeafFits, LeafSplitAt;
    RouteUntouched(img.pages, sh.levels, route, path, 0, i, rid, left, right);
    TakesFrame(img.pages, pages', route[..|route| - 1], entries[s].key);
    forall c: nat | LeafSplitAt(entries, c) ensures c == s {
      LeafSplitOnce(entries, c, s);
    }
  }

  lemma UnchangedOnly(pages: PageMap, dirty: set<PageId>)
    requires dirty <= pages.Keys
    ensures ChangedOnly(pages, pages, dirty)
  {
  }

  lemma ChangedWrite(pages: PageMap, pages': PageMap, dirty: set<PageId>, id: PageId, p: PageData)
    requires ChangedOnly(pages, pages', dirty)
    ensures ChangedOnly(pages, pages'[id := p], dirty + {id})
  {
  }

  /** What becomes of a parent that is told of a new child. */
  datatype ParentPlan = Fits(page: PageData) | Halves(left: PageData, right: PageData, promoted: bytes)

  ghost predicate SplitBy(p: PageData, s: nat, left: PageData, next: PageData, promoted: bytes, cap: nat) {
    && p.Internal? && SepsOk(p.seps) && SmallSeps(p.seps, cap)
    && HalvesOf(p.seps, s, p, left, next) && promoted == p.seps[s].key
    && !InternalFits(p.seps) && InternalSplitAt(p.seps, s)
  }

  ghost predicate PlanOf(parent: PageData, j: nat, e: InternalEntry, plan: ParentPlan, cap: nat) {
    match plan
    case Fits(page) => Grown(parent, page, j, e) && InternalFits(page.seps)
    case Halves(left, next, promoted) =>
      exists p, s :: Grown(parent, p, j, e) && SplitBy(p, s, left, next, promoted, cap)
  }

  ghost predicate PlanFor(img: Image, sh: Shape, k: nat, c: nat, i: nat, id: PageId, sep: bytes, right: PageId, plan: ParentPlan) {
    && k < |sh.levels| && i < |sh.levels[k]|
    && var j := c - 1 - Offset(KidLists(img.pages, sh.levels[k]), i);
       j >= 0 && PlanOf(At(img.pages, id), j, InternalEntry(sep, right), plan, sh.cap)
  }

  /** Decides whether a parent takes the new separator or is split. */
  method ChoosePlan(parent: PageData, separator: bytes, rightChild: PageId, lsn: nat, ghost cap: nat, ghost j: nat)
    returns (r: Result<ParentPlan>)
    requires parent.Internal? && PageFits(parent, cap) && SepOk(separator, cap) && CutAt(parent.seps, separator, j)
    ensures r.Ok? ==> PlanOf(parent, j, InternalEntry(separator, rightChild), r.value, cap)
    ensures r.Err? ==> r.error == InvalidInput && 2 * cap > RECORD_SPACE && ParentStuck(parent, separator)
  {
    var below := (e: InternalEntry) => Less(e.key, separator);
    var index := PartitionPoint(parent.seps, below);
    CutFound(parent.seps, separator, j, index);
    hide CutAt, ParentStuck;
    var e := InternalEntry(separator, rightChild);
    var entries := InsertAt(parent.seps, index, e);
    GrownSeps(parent.seps, index, e, cap);
    var grown := Internal(lsn, parent.leftmostChild, entries);
    if InternalFits(entries) {
      return Ok(Fits(grown));
    }
    var split := ChooseInternalSplit(entries);
    if split.None? {
      if 2 * cap <= RECORD_SPACE {
        SmallSepsSplit(parent.seps, index, e, cap);
      }
      FewSeps(parent.seps, separator, index, rightChild, cap);
      return Err(InvalidInput);
    }
    var s := split.value;
    var left := Internal(lsn, parent.leftmostChild, entries[..s]);
    var right := Internal(lsn, entries[s].rightChild, entries[s + 1..]);
    ChosenHalves(grown, s, left, right, cap);
    return Ok(Halves(left, right, entries[s].key));
  }

  lemma ChosenHalves(p: PageData, s: nat, left: PageData, right: PageData, cap: nat)
    requires p.Internal? && SepsOk(p.seps) && SmallSeps(p.seps, cap) && |p.seps| >= 3 && InternalSplitFits(p.seps, s)
    requires forall d: nat :: InternalSplitFits(p.seps, d) && d != s ==> Before(s, d, |p.seps| / 2)
    requires !InternalFits(p.seps)
    requires left.Internal? && left.leftmostChild == p.leftmostChild && left.seps == p.seps[..s]
    requires right.Internal? && right.leftmostChild == p.seps[s].rightChild && right.seps == p.seps[s + 1..]
    ensures SplitBy(p, s, left, right, p.seps[s].key, cap)
  {
    ChosenInternalSplitKeepsRight(p.seps, s);
  }

  /** A parent that overflows without a split had at most one separator. */
  lemma FewSeps(seps: seq<InternalEntry>, sep: bytes, j: nat, right: PageId, cap: nat)
    requires j <= |seps| && InternalFits(seps) && SepsOk(InsertAt(seps, j, InternalEntry(sep, right))) && CutAt(seps, sep, j)
    requires var es := InsertAt(seps, j, InternalEntry(sep, right));
             !InternalFits(es) && (|es| >= 3 ==> forall c: nat :: !InternalSplitFits(es, c))
    ensures !InternalFits(Told(seps, sep)) && |Told(seps, sep)| < 3
  {
    hide Told, CutAt, KeyOk, InternalSplitFits, InternalRecordSize;
    var es := InsertAt(seps, j, InternalEntry(sep, right));
    ToldSame(seps, sep, j, right);
    SameSepsFit(Told(seps, sep), es);
    SepsAround(seps, j, InternalEntry(sep, right));
    KeysShort(es);
    TotalCut(SepSizes(seps), j);
    if |es| >= 3 {
      InternalSplitExists(es, j);
    }
  }

  lemma SepsAround(seps: seq<InternalEntry>, j: nat, e: InternalEntry)
    requires j <= |seps|
    ensures var es := InsertAt(seps, j, e);
            SepSizes(es)[..j] == SepSizes(seps)[..j] && SepSizes(es)[j + 1..] == SepSizes(seps)[j..]
  {
    hide InternalRecordSize;
  }

  lemma KeysShort(seps: seq<InternalEntry>)
    requires SepsOk(seps)
    ensures forall i :: 0 <= i < |seps| ==> |seps[i].key| <= MAX_ENCODED_KEY_SIZE
  {
    hide Decode;
  }

  method PlanParent(img: Image, parentId: PageId, separator: bytes, rightChild: PageId, lsn: nat,
                    ghost sh: Shape, ghost spare: set<PageId>, ghost route: Ids, ghost path: seq<nat>, ghost k: nat, ghost c: nat)
    returns (r: Result<ParentPlan>)
    requires AtGap(img, sh, spare, route, path, k, c, separator, rightChild)
    requires route != [] && parentId == route[|route| - 1]
    ensures |path| > 0
    ensures r.Ok? ==> PlanFor(img, sh, k, c, path[|path| - 1], parentId, separator, rightChild, r.value)
    ensures r.Err? ==> 2 * sh.cap > RECORD_SPACE && ParentStuck(At(img.pages, parentId), separator)
  {
    hide AtGap, PageFits, CutAt, PlanOf, ParentStuck;
    GapFacts(img, sh, spare, route, path, k, c, separator, rightChild);
    ghost var i := path[|path| - 1];
    ParentPlace(img, sh, spare, route, path, k, c, i, parentId, separator, rightChild);
    CutIndex(img.pages[parentId].seps, separator, c - 1 - Offset(KidLists(img.pages, sh.levels[k]), i));
    r := ChoosePlan(img.pages[parentId], separator, rightChild, lsn, sh.cap,
                    c - 1 - Offset(KidLists(img.pages, sh.levels[k]), i));
  }

  lemma CutIndex(seps: seq<InternalEntry>, sep: bytes, j: int)
    requires CutAt(seps, sep, j)
    ensures j >= 0
  {
  }

  lemma ClimbStart(img: Image, sh: Shape, spare: set<PageId>, route: Ids, path: seq<nat>, k: nat, c: nat, sep: bytes, right: PageId)
    requires AtGap(img, sh, spare, route, path, k, c, sep, right)
    ensures SameValues(img, sh, img, sh)
  {
  }

  lemma SameCap(img: Image, sh: Shape, img': Image, sh': Shape)
    requires SameValues(img, sh, img', sh')
    ensures sh'.cap == sh.cap
  {
  }

  lemma SameTrans(img: Image, sh: Shape, img1: Image, sh1: Shape, img2: Image, sh2: Shape)
    requires SameValues(img, sh, img1, sh1) && SameValues(img1, sh1, img2, sh2)
    ensures SameValues(img, sh, img2, sh2)
  {
  }

  lemma GapFacts(img: Image, sh: Shape, spare: set<PageId>, route: Ids, path: seq<nat>, k: nat, c: nat, sep: bytes, right: PageId)
    requires AtGap(img, sh, spare, route, path, k, c, sep, right)
    ensures SepOk(sep, sh.cap) && |path| == |route|
  {
    hide Gapped;
  }

  lemma GapSpace(img: Image, sh: Shape, spare: set<PageId>, route: Ids, path: seq<nat>, k: nat, c: nat, sep: bytes, right: PageId)
    requires AtGap(img, sh, spare, route, path, k, c, sep, right)
    ensures SpaceOk(img, sh, {})
    ensures |route| == |path|
  {
  }

  lemma PlanFits(img: Image, sh: Shape, spare: set<PageId>, route: Ids, path: seq<nat>, k: nat, c: nat, sep: bytes, right: PageId,
                 plan: ParentPlan, img0: Image, sh0: Shape)
    requires route != [] && |path| > 0 && plan.Fits?
    requires AtGap(img, sh, spare, route, path, k, c, sep, right) && SameValues(img0, sh0, img, sh)
    requires PlanFor(img, sh, k, c, path[|path| - 1], route[|route| - 1], sep, right, plan)
    ensures Working(img.(pages := img.pages[route[|route| - 1] := plan.page]), sh, {}, spare)
    ensures SameValues(img0, sh0, img.(pages := img.pages[route[|route| - 1] := plan.page]), sh)
    ensures Takes(img.pages, route, sep)
  {
    hide Gapped, Working, Takes, CutAt;
    var i, id := path[|path| - 1], route[|route| - 1];
    var j := c - 1 - Offset(KidLists(img.pages, sh.levels[k]), i);
    ParentPlace(img, sh, spare, route, path, k, c, i, id, sep, right);
    TakesFits(img.pages, route, sep, j, right);
    ParentTakesIt(img, sh, spare, route, path, k, c, i, id, sep, right, j, plan.page);
    SameTrans(img0, sh0, img, sh, img.(pages := img.pages[id := plan.page]), sh);
  }

  lemma PlanSplits(img: Image, sh: Shape, spare: set<PageId>, route: Ids, path: seq<nat>, k: nat, c: nat, sep: bytes, right: PageId,
                   plan: ParentPlan, rid: PageId, sh1: Shape, img': Image, img0: Image, sh0: Shape) returns (sh': Shape)
    requires route != [] && |path| == |route| && plan.Halves?
    requires AtGap(img, sh, spare, route, path, k, c, sep, right) && SameValues(img0, sh0, img, sh)
    requires PlanFor(img, sh, k, c, path[|path| - 1], route[|route| - 1], sep, right, plan)
    requires (img'.(pages := img.pages), sh1, rid) == AfterTake(img, sh)
    requires img'.pages == img.pages[route[|route| - 1] := plan.left][rid := plan.right]
    ensures AtGap(img', sh', spare, route[..|route| - 1], path[..|path| - 1], k + 1, path[|path| - 1] + 1, plan.promoted, rid)
    ensures SameValues(img0, sh0, img', sh') && |sh'.levels| == |sh.levels|
    ensures Takes(img.pages, route, sep) <==> Takes(img'.pages, route[..|route| - 1], plan.promoted)
  {
    hide AtGap, Grown, SplitBy, SameValues, Takes;
    var i, id := path[|path| - 1], route[|route| - 1];
    var j := c - 1 - Offset(KidLists(img.pages, sh.levels[k]), i);
    var p, s :| Grown(At(img.pages, id), p, j, InternalEntry(sep, right)) && SplitBy(p, s, plan.left, plan.right, plan.promoted, sh.cap);
    ParentPlace(img, sh, spare, route, path, k, c, i, id, sep, right);
    SplitParts(p, s, plan.left, plan.right, plan.promoted, sh.cap);
    PlanClimbs(img, sh, spare, route, path, k, c, i, id, sep, right, j, s, p, plan.left, plan.right, rid, img'.pages);
    hide HalvesOf, SepsOk, SmallSeps, CutAt, PageFits;
    sh' := AddPage(sh1, k, i, rid, plan.promoted);
    ClimbStep(img, sh, spare, route, path, k, c, i, id, sep, right, j, s, rid, p, plan.left, plan.right,
              img'.(pages := img.pages), sh1, img', sh');
    SameTrans(img0, sh0, img, sh, img', sh');
  }

  lemma SplitParts(p: PageData, s: nat, left: PageData, next: PageData, promoted: bytes, cap: nat)
    requires SplitBy(p, s, left, next, promoted, cap)
    ensures p.Internal? && SepsOk(p.seps) && SmallSeps(p.seps, cap)
    ensures s < |p.seps| && HalvesOf(p.seps, s, p, left, next) && promoted == p.seps[s].key
    ensures !InternalFits(p.seps) && InternalSplitAt(p.seps, s) && |p.seps| >= 3
  {
  }

  lemma PlanClimbs(img: Image, sh: Shape, spare: set<PageId>, route: Ids, path: seq<nat>, k: nat, c: nat, i: nat, id: PageId, sep: bytes, right: PageId,
                   j: nat, s: nat, p: PageData, left: PageData, next: PageData, rid: PageId, pages': PageMap)
    requires AtGap(img, sh, spare, route, path, k, c, sep, right)
    requires route != [] && |path| == |route| && i == path[|path| - 1] && id == route[|route| - 1]
    requires k < |sh.levels| && i < |sh.levels[k]| && id == sh.levels[k][i]
    requires CutAt(At(img.pages, id).seps, sep, j) && Grown(At(img.pages, id), p, j, InternalEntry(sep, right))
    requires !InternalFits(p.seps) && InternalSplitAt(p.seps, s) && |p.seps| >= 3 && s < |p.seps|
    requires rid == AfterTake(img, sh).2 && pages' == img.pages[id := left][rid := next]
    ensures Takes(img.pages, route, sep) <==> Takes(pages', route[..|route| - 1], p.seps[s].key)
  {
    hide Takes, InternalFits, InternalSplitAt, CutAt;
    GapRoute(img, sh, spare, route, path, k, c, sep, right);
    RouteUntouched(img.pages, sh.levels, route, path, k, i, rid, left, next);
    TakesSplit(img.pages, route, sep, j, right, s);
    TakesFrame(img.pages, pages', route[..|route| - 1], p.seps[s].key);
  }

  lemma GapRoute(img: Image, sh: Shape, spare: set<PageId>, route: Ids, path: seq<nat>, k: nat, c: nat, sep: bytes, right: PageId)
    requires AtGap(img, sh, spare, route, path, k, c, sep, right)
    ensures Apart(sh.levels) && Unused(sh.levels, AfterTake(img, sh).2)
    ensures Descends(img.pages, sh.levels, route, path) && |route| + k == |sh.levels|
  {
    TakenUnused(img, sh, {}, spare, k, c);
    hide Gapped;
  }

  lemma PlanRoot(img: Image, sh: Shape, spare: set<PageId>, path: seq<nat>, k: nat, c: nat, sep: bytes, right: PageId,
                 rid: PageId, p: PageData, sh1: Shape, img': Image, img0: Image, sh0: Shape) returns (sh': Shape)
    requires AtGap(img, sh, spare, [], path, k, c, sep, right) && SameValues(img0, sh0, img, sh)
    requires (img'.(pages := img.pages, root := img.root), sh1, rid) == AfterTake(img, sh)
    requires p.Internal? && p.leftmostChild == img.root && p.seps == [InternalEntry(sep, right)]
    requires img'.pages == img.pages[rid := p] && img'.root == rid
    ensures Working(img', sh', {}, spare) && SameValues(img0, sh0, img', sh')
  {
    assert k == |sh.levels| && path == [];
    hide AtGap, SameValues, Working;
    sh' := AddRoot(sh1, rid);
    RootStep(img, sh, spare, c, sep, right, rid, p, img'.(pages := img.pages, root := img.root), sh1);
    SameTrans(img0, sh0, img, sh, img', sh');
  }

  lemma SpareHolds(img: Image, sh: Shape, h: PageId)
    requires SpaceOk(img, sh, {}) && h in sh.chains
    ensures ChainHolds(img, sh.chains[h], h, |ChainBytes(img.pages, sh.chains[h])|)
  {
    ChainNoDup(sh.chains, sh.role, h);
    ChainReads(img, sh.chains[h]);
  }

  /** Only free pages have been taken between the two images. */
  ghost predicate OnlyTaken(img: Image, sh: Shape, img': Image, sh': Shape) {
    && img'.pages == img.pages && img'.root == img.root
    && sh'.levels == sh.levels && sh'.bounds == sh.bounds && sh'.chains == sh.chains && sh'.cap == sh.cap && sh'.lost == sh.lost
  }

  ghost predicate SameTree(img: Image, sh: Shape, img': Image, sh': Shape) {
    && img'.root == img.root
    && sh'.levels == sh.levels && sh'.bounds == sh.bounds && sh'.cap == sh.cap && sh'.lost == sh.lost
    && (|sh.levels| > 0 ==> Contents(img'.pages, sh.levels[0]) == Contents(img.pages, sh.levels[0]))
  }

  /** The second image has one more chain than the first, holding `value`. */
  ghost predicate NewChain(img: Image, sh: Shape, img': Image, sh': Shape, v: ValueRef, value: bytes) {
    && v.Overflow? && v.length == |value|
    && v.head !in sh.chains && v.head in sh'.chains
    && sh'.chains.Keys == sh.chains.Keys + {v.head}
    && ChainBytes(img'.pages, sh'.chains[v.head]) == value
    && ChainsKept(img.pages, sh.chains, img'.pages, sh'.chains)
    && SameTree(img, sh, img', sh') && TreePagesSame(img.pages, img'.pages, sh.levels)
  }

  ghost predicate TreePagesSame(pages: PageMap, pages': PageMap, levels: seq<Ids>) {
    forall k, x :: 0 <= k < |levels| && x in levels[k] ==> At(pages', x) == At(pages, x)
  }

  /** The image now holds `value` under v, which no entry owns yet. */
  ghost predicate ValueMade(img: Image, sh: Shape, img': Image, sh': Shape, v: ValueRef, value: bytes) {
    match v
    case Inline(content) => content == value && |value| <= INLINE_VALUE_LIMIT && img' == img && sh' == sh
    case Overflow(_, _) => NewChain(img, sh, img', sh', v, value)
  }

  lemma WrittenWorking(img: Image, sh: Shape, img1: Image, sh1: Shape, img2: Image, ids: Ids)
    requires Sound(img, sh) && OnlyTaken(img, sh, img1, sh1) && SpaceOk(img1, sh1, PageSet(ids))
    requires img2 == img1.(pages := img2.pages) && ChangedOnly(img1.pages, img2.pages, PageSet(ids))
    ensures Working(img2, sh1, PageSet(ids), {})
    ensures Contents(img2.pages, sh.levels[0]) == Contents(img.pages, sh.levels[0])
    ensures TreePagesSame(img.pages, img2.pages, sh.levels)
    ensures forall h :: h in sh.chains ==> ChainBytes(img2.pages, sh.chains[h]) == ChainBytes(img.pages, sh.chains[h])
  {
    forall k, x | 0 <= k < |sh.levels| && x in sh.levels[k] ensures At(img2.pages, x) == At(img.pages, x) {
      TreeSettled(sh1, PageSet(ids), k, x);
    }
    WorkingFromSpace(img, sh, img1, sh1, {}, PageSet(ids), {});
    WorkingFrame(img1, img2.pages, sh1, PageSet(ids), {});
  }

  lemma MadeChainWorking(img: Image, sh: Shape, img1: Image, sh1: Shape, img2: Image, ids: Ids)
    requires Sound(img, sh) && OnlyTaken(img, sh, img1, sh1) && SpaceOk(img1, sh1, PageSet(ids)) && NoDup(ids)
    requires img2 == img1.(pages := img2.pages) && ChangedOnly(img1.pages, img2.pages, PageSet(ids))
    requires ChainOk(img2.pages, ids) && forall t :: 0 <= t < |ids| ==> ids[t] in img2.pages
    ensures ids[0] !in sh1.chains && Working(img2, AdoptShape(sh1, ids), {}, {ids[0]})
  {
    WrittenWorking(img, sh, img1, sh1, img2, ids);
    AdoptWritten(img2, sh1, ids);
  }

  lemma MadeChainKept(img: Image, sh: Shape, img1: Image, sh1: Shape, img2: Image, ids: Ids, value: bytes)
    requires Sound(img, sh) && OnlyTaken(img, sh, img1, sh1) && SpaceOk(img1, sh1, PageSet(ids))
    requires img2 == img1.(pages := img2.pages) && ChangedOnly(img1.pages, img2.pages, PageSet(ids))
    requires ids != [] && ids[0] !in sh1.chains && ChainBytes(img2.pages, ids) == value
    ensures NewChain(img, sh, img2, AdoptShape(sh1, ids), ValueRef.Overflow(ids[0], |value|), value)
  {
    WrittenWorking(img, sh, img1, sh1, img2, ids);
    NewChainIntro(img, sh, sh1, img2, ids, value);
  }

  lemma NewChainIntro(img: Image, sh: Shape, sh1: Shape, img2: Image, ids: Ids, value: bytes)
    requires img2.root == img.root && |sh.levels| > 0
    requires sh1.levels == sh.levels && sh1.bounds == sh.bounds && sh1.chains == sh.chains && sh1.cap == sh.cap && sh1.lost == sh.lost
    requires ids != [] && ids[0] !in sh1.chains && ChainBytes(img2.pages, ids) == value
    requires Contents(img2.pages, sh.levels[0]) == Contents(img.pages, sh.levels[0])
    requires TreePagesSame(img.pages, img2.pages, sh.levels)
    requires forall h :: h in sh.chains ==> ChainBytes(img2.pages, sh.chains[h]) == ChainBytes(img.pages, sh.chains[h])
    ensures NewChain(img, sh, img2, AdoptShape(sh1, ids), ValueRef.Overflow(ids[0], |value|), value)
  {
    assert AdoptShape(sh1, ids).chains.Keys == sh.chains.Keys + {ids[0]};
  }

  lemma ChunkCountBound(n: nat)
    requires n <= MAX_VALUE_SIZE
    ensures ChunkCount(n) <= MAX_OVERFLOW_PAGES
  {
  }

  lemma AdoptWritten(img: Image, sh: Shape, ids: Ids)
    requires Working(img, sh, PageSet(ids), {}) && NoDup(ids) && ChainOk(img.pages, ids)
    requires forall t :: 0 <= t < |ids| ==> ids[t] in img.pages
    ensures ids[0] !in sh.chains && Working(img, AdoptShape(sh, ids), {}, {ids[0]})
  {
    hide Working;
    assert forall x :: x in ids ==> x in PageSet(ids) && x in img.pages;
    AdoptChain(img, sh, PageSet(ids), {}, ids);
    assert PageSet(ids) - PageSet(ids) == {} && {} + {ids[0]} == {ids[0]};
  }
}
