/** Every structural step of an insertion keeps the database invariant. */
module Updates {
  import opened Lex
  import opened Seqs
  import opened Pages
  import opened KeyCodec
  import opened Tree
  import opened Records
  import opened Space
  import opened Splits
  import opened Database

  ghost predicate SameChainBytes(pages: PageMap, pages': PageMap, chains: Chains) {
    forall h :: h in chains ==> ChainBytes(pages', chains[h]) == ChainBytes(pages, chains[h])
  }

  /** Only tree pages and loose pages may differ. */
  ghost predicate NonTreeSame(pages: PageMap, pages': PageMap, role: Ledger, loose: set<PageId>) {
    forall x :: x in role && !role[x].TreePage? && x !in loose ==> At(pages', x) == At(pages, x)
  }

  lemma Respace(img: Image, img': Image, sh: Shape, sh': Shape, loose: set<PageId>, loose': set<PageId>)
    requires SpaceOk(img, sh, loose)
    requires LedgerOk(sh'.levels, sh'.chains, sh'.free, loose', sh'.role, img'.high)
    requires sh'.chains == sh.chains && sh'.free == sh.free
    requires img'.freeHead == img.freeHead && img'.high == img.high
    requires NonTreeSame(img.pages, img'.pages, sh.role, loose)
    requires Stored(img'.pages, sh'.role, loose')
    ensures SpaceOk(img', sh', loose')
    ensures forall h :: h in sh.chains ==> ChainBytes(img'.pages, sh.chains[h]) == ChainBytes(img.pages, sh.chains[h])
  {
    FreeFrame(img.pages, img'.pages, sh.free, img.freeHead);
    ChainsFrame(img.pages, img'.pages, sh.chains);
  }

  // ---------------------------------------------------------------- leaves

  /** Rewriting leaf i, possibly beyond the page size. */
  lemma LeafRewrite(img: Image, sh: Shape, loose: set<PageId>, spare: set<PageId>, spare': set<PageId>, i: nat, p: PageData)
    requires Working(img, sh, loose, spare) && i < |sh.levels[0]|
    requires LeafOk(p, sh.bounds[0], i, NextOf(sh.levels[0], i))
    requires var c := Concat(EntryLists(img.pages, sh.levels[0])[i := p.entries]);
             EntriesOk(img.pages, sh.chains, c) && sh.lost !! spare' && Owned(c, Claimed(sh, spare'))
    ensures var img' := img.(pages := img.pages[sh.levels[0][i] := p]);
            && Swollen(img', sh, loose, spare', sh.levels[0][i])
            && Contents(img'.pages, sh.levels[0]) == Concat(EntryLists(img.pages, sh.levels[0])[i := p.entries])
            && (LeafFits(p.entries) && SmallEntries(p.entries, sh.cap) ==> Working(img', sh, loose, spare'))
            && SameChainBytes(img.pages, img'.pages, sh.chains)
  {
    var id := sh.levels[0][i];
    var pages' := img.pages[id := p];
    TreeLeafReplaced(img.pages, img.root, sh.levels, sh.bounds, i, p);
    RewriteSpace(img, sh, loose, 0, i, p);
    EntriesFrame(img.pages, pages', sh.chains, Contents(pages', sh.levels[0]));
    RewriteFits(img.pages, sh.levels, id, p, sh.cap);
  }

  lemma RewriteSpace(img: Image, sh: Shape, loose: set<PageId>, k: nat, i: nat, p: PageData)
    requires SpaceOk(img, sh, loose) && k < |sh.levels| && i < |sh.levels[k]|
    ensures SpaceOk(img.(pages := img.pages[sh.levels[k][i] := p]), sh, loose)
    ensures forall h :: h in sh.chains ==>
              ChainBytes(img.pages[sh.levels[k][i] := p], sh.chains[h]) == ChainBytes(img.pages, sh.chains[h])
  {
    assert sh.levels[k][i] in sh.levels[k];
    assert sh.role[sh.levels[k][i]] == TreePage(k);
    Respace(img, img.(pages := img.pages[sh.levels[k][i] := p]), sh, sh, loose, loose);
  }

  lemma RewriteFits(pages: PageMap, levels: seq<Ids>, id: PageId, p: PageData, cap: nat)
    requires PagesFit(pages, levels, cap)
    ensures OthersFit(pages[id := p], levels, id, cap)
    ensures PageFits(p, cap) ==> PagesFit(pages[id := p], levels, cap)
  {
    forall k, x | 0 <= k < |levels| && x in levels[k] && x != id ensures PageFits(At(pages[id := p], x), cap) {
      assert At(pages[id := p], x) == At(pages, x);
    }
  }

  /** A page joins level k after position i. */
  ghost function AddPage(sh: Shape, k: nat, i: nat, rid: PageId, sep: bytes): Shape
    requires k < |sh.levels| && k < |sh.bounds| && i < |sh.levels[k]| && i < |sh.bounds[k]|
  {
    sh.(levels := sh.levels[k := InsertAt(sh.levels[k], i + 1, rid)],
        bounds := sh.bounds[k := InsertAt(sh.bounds[k], i + 1, sep)],
        role := sh.role[rid := TreePage(k)])
  }

  /** Splitting a swollen leaf into two fitting ones. */
  lemma LeafSplitStep(img: Image, sh: Shape, loose: set<PageId>, spare: set<PageId>, i: nat, s: nat, rid: PageId,
                      left: PageData, right: PageData)
    requires 0 < |sh.levels| == |sh.bounds| && i < |sh.levels[0]| == |sh.bounds[0]|
    requires Swollen(img, sh, loose, spare, sh.levels[0][i]) && rid in loose
    requires LeafHalves(At(img.pages, sh.levels[0][i]), s, rid, left, right)
    requires PageFits(left, sh.cap) && PageFits(right, sh.cap)
    ensures var img' := img.(pages := img.pages[sh.levels[0][i] := left][rid := right]);
            var sh' := AddPage(sh, 0, i, rid, right.entries[0].key);
            && Gapped(img', sh', loose - {rid}, spare, 1, i + 1)
            && Contents(img'.pages, sh'.levels[0]) == Contents(img.pages, sh.levels[0])
            && SameChainBytes(img.pages, img'.pages, sh.chains)
  {
    hide TreeOk, TreeGap, LedgerOk, FreeOk, ChainsOk, Stored, EntriesOk, Owned, OthersFit, PagesFit, PageFits, InsertAt, Unused, Contents;
    var id := sh.levels[0][i];
    var pages' := img.pages[id := left][rid := right];
    var img' := img.(pages := pages');
    var sh' := AddPage(sh, 0, i, rid, right.entries[0].key);
    LedgerUnused(sh.levels, sh.chains, sh.free, loose, sh.role, img.high, rid);
    TreeLeafSplit(img.pages, img.root, sh.levels, sh.bounds, i, s, rid, left, right, pages', sh'.levels, sh'.bounds);
    PlaceInTree(sh.levels, sh.chains, sh.free, loose, sh.role, img.high, 0, i + 1, rid);
    SplitSpace(img, img', sh, sh', loose, 0, i, rid, left, right);
    EntriesFrame(img.pages, pages', sh.chains, Contents(img.pages, sh.levels[0]));
    SplitFits(img.pages, pages', sh.levels, sh'.levels, 0, i, rid, left, right, sh.cap);
  }

  lemma SplitSpace(img: Image, img': Image, sh: Shape, sh': Shape, loose: set<PageId>, k: nat, i: nat, rid: PageId,
                   left: PageData, right: PageData)
    requires SpaceOk(img, sh, loose) && rid in loose && k < |sh.levels| && i < |sh.levels[k]|
    requires img' == img.(pages := img.pages[sh.levels[k][i] := left][rid := right])
    requires LedgerOk(sh'.levels, sh'.chains, sh'.free, loose - {rid}, sh'.role, img.high)
    requires sh'.chains == sh.chains && sh'.free == sh.free
    ensures SpaceOk(img', sh', loose - {rid})
    ensures forall h :: h in sh.chains ==> ChainBytes(img'.pages, sh.chains[h]) == ChainBytes(img.pages, sh.chains[h])
  {
    assert sh.levels[k][i] in sh.levels[k];
    assert sh.role[sh.levels[k][i]] == TreePage(k);
    Respace(img, img', sh, sh', loose, loose - {rid});
  }

  lemma SplitFits(pages: PageMap, pages': PageMap, levels: seq<Ids>, levels': seq<Ids>, k: nat, i: nat, rid: PageId,
                  left: PageData, right: PageData, cap: nat)
    requires k < |levels| && i < |levels[k]| && OthersFit(pages, levels, levels[k][i], cap)
    requires levels' == levels[k := InsertAt(levels[k], i + 1, rid)]
    requires pages' == pages[levels[k][i] := left][rid := right]
    requires PageFits(left, cap) && PageFits(right, cap)
    ensures PagesFit(pages', levels', cap)
  {
    forall m, x | 0 <= m < |levels'| && x in levels'[m] ensures PageFits(At(pages', x), cap) {
      if x != rid && x != levels[k][i] {
        assert x in levels[m] && At(pages', x) == At(pages, x);
      }
    }
  }

  // ---------------------------------------------------------------- parents

  /** Telling parent i of level k about the new page, possibly beyond the page
      size. */
  lemma ParentRewrite(img: Image, sh: Shape, loose: set<PageId>, spare: set<PageId>, k: nat, c: nat, i: nat, j: nat, p: PageData)
    requires Gapped(img, sh, loose, spare, k, c) && k < |sh.levels|
    requires i < |sh.levels[k]| && j <= |At(img.pages, sh.levels[k][i]).seps|
    requires c == Offset(KidLists(img.pages, sh.levels[k]), i) + j + 1
    requires p.Internal? && p.leftmostChild == At(img.pages, sh.levels[k][i]).leftmostChild
    requires p.seps == InsertAt(At(img.pages, sh.levels[k][i]).seps, j, InternalEntry(sh.bounds[k - 1][c], sh.levels[k - 1][c]))
    ensures var img' := img.(pages := img.pages[sh.levels[k][i] := p]);
            && Swollen(img', sh, loose, spare, sh.levels[k][i])
            && Contents(img'.pages, sh.levels[0]) == Contents(img.pages, sh.levels[0])
            && (PageFits(p, sh.cap) ==> Working(img', sh, loose, spare))
            && SameChainBytes(img.pages, img'.pages, sh.chains)
  {
    var id := sh.levels[k][i];
    var pages' := img.pages[id := p];
    ParentTree(img, sh, k, c, i, j, p);
    RewriteSpace(img, sh, loose, k, i, p);
    EntriesFrame(img.pages, pages', sh.chains, Contents(img.pages, sh.levels[0]));
    RewriteFits(img.pages, sh.levels, id, p, sh.cap);
  }

  lemma ParentTree(img: Image, sh: Shape, k: nat, c: nat, i: nat, j: nat, p: PageData)
    requires TreeGap(img.pages, img.root, sh.levels, sh.bounds, k, c) && k < |sh.levels|
    requires i < |sh.levels[k]| && j <= |At(img.pages, sh.levels[k][i]).seps|
    requires c == Offset(KidLists(img.pages, sh.levels[k]), i) + j + 1
    requires p.Internal? && p.leftmostChild == At(img.pages, sh.levels[k][i]).leftmostChild
    requires p.seps == InsertAt(At(img.pages, sh.levels[k][i]).seps, j, InternalEntry(sh.bounds[k - 1][c], sh.levels[k - 1][c]))
    ensures TreeOk(img.pages[sh.levels[k][i] := p], img.root, sh.levels, sh.bounds)
    ensures Contents(img.pages[sh.levels[k][i] := p], sh.levels[0]) == Contents(img.pages, sh.levels[0])
  {
    var id := sh.levels[k][i];
    var pages' := img.pages[id := p];
    var grown := Grow(At(img.pages, id), j, InternalEntry(sh.bounds[k - 1][c], sh.levels[k - 1][c]));
    GapCloses(img.pages, img.root, sh.levels, sh.bounds, k, c, i, j, grown, img.pages[id := grown]);
    TreeIgnoresLsn(img.pages[id := grown], pages', img.root, sh.levels, sh.bounds, id);
    assert id in sh.levels[k];
    LeavesFrame(img.pages, pages', sh.levels[0], sh.bounds[0]);
  }

  /** The tree invariant does not look at page LSNs. */
  lemma TreeIgnoresLsn(pages: PageMap, pages': PageMap, root: PageId, levels: seq<Ids>, bounds: seq<Bounds>, id: PageId)
    requires TreeOk(pages, root, levels, bounds) && id in pages && id in pages'
    requires pages'.Keys == pages.Keys && forall x :: x in pages && x != id ==> pages'[x] == pages[x]
    requires pages[id].Internal? && pages'[id].Internal?
    requires pages'[id].leftmostChild == pages[id].leftmostChild && pages'[id].seps == pages[id].seps
    ensures TreeOk(pages', root, levels, bounds)
  {
    assert forall x :: x != id ==> At(pages', x) == At(pages, x);
    LeavesIgnore(pages, pages', levels[0], bounds[0], id);
    forall k | 1 <= k < |levels| ensures LinkedAt(pages', levels, bounds, k) {
      assert LinkedAt(pages, levels, bounds, k);
      LinkedIgnoresLsn(pages, pages', levels[k], bounds[k], levels[k - 1], bounds[k - 1], id);
    }
  }

  lemma LeavesIgnore(pages: PageMap, pages': PageMap, ids: Ids, bnds: Bounds, id: PageId)
    requires LeavesOk(pages, ids, bnds) && At(pages, id).Internal?
    requires forall x :: x != id ==> At(pages', x) == At(pages, x)
    ensures LeavesOk(pages', ids, bnds)
  {
    forall i | 0 <= i < |ids| ensures LeafOk(At(pages', ids[i]), bnds, i, NextOf(ids, i)) {
      assert LeafOk(At(pages, ids[i]), bnds, i, NextOf(ids, i));
    }
  }

  lemma LinkedIgnoresLsn(pages: PageMap, pages': PageMap, ids: Ids, bnds: Bounds, below: Ids, belowBnds: Bounds, id: PageId)
    requires Linked(pages, ids, bnds, below, belowBnds)
    requires forall x :: x != id ==> At(pages', x) == At(pages, x)
    requires At(pages, id).Internal? && At(pages', id).Internal?
    requires At(pages', id).leftmostChild == At(pages, id).leftmostChild && At(pages', id).seps == At(pages, id).seps
    ensures Linked(pages', ids, bnds, below, belowBnds)
  {
    assert KidLists(pages', ids) == KidLists(pages, ids);
    assert BoundLists(pages', ids, bnds) == BoundLists(pages, ids, bnds);
  }

  /** Splitting a swollen internal page moves the gap up. */
  lemma ParentSplitStep(img: Image, sh: Shape, loose: set<PageId>, spare: set<PageId>, k: nat, i: nat, s: nat, rid: PageId,
                        left: PageData, right: PageData)
    requires 1 <= k < |sh.levels| == |sh.bounds| && i < |sh.levels[k]| == |sh.bounds[k]|
    requires Swollen(img, sh, loose, spare, sh.levels[k][i]) && rid in loose
    requires Halves(At(img.pages, sh.levels[k][i]), s, left, right)
    requires PageFits(left, sh.cap) && PageFits(right, sh.cap)
    ensures var img' := img.(pages := img.pages[sh.levels[k][i] := left][rid := right]);
            var sh' := AddPage(sh, k, i, rid, At(img.pages, sh.levels[k][i]).seps[s].key);
            && Gapped(img', sh', loose - {rid}, spare, k + 1, i + 1)
            && Contents(img'.pages, sh'.levels[0]) == Contents(img.pages, sh.levels[0])
            && SameChainBytes(img.pages, img'.pages, sh.chains)
  {
    hide TreeOk, TreeGap, LedgerOk, FreeOk, ChainsOk, Stored, EntriesOk, Owned, OthersFit, PagesFit, PageFits, InsertAt, Unused, Contents;
    var id := sh.levels[k][i];
    var pages' := img.pages[id := left][rid := right];
    var img' := img.(pages := pages');
    var sh' := AddPage(sh, k, i, rid, At(img.pages, id).seps[s].key);
    LedgerUnused(sh.levels, sh.chains, sh.free, loose, sh.role, img.high, rid);
    TreeInternalSplit(img.pages, img.root, sh.levels, sh.bounds, k, i, s, rid, left, right, pages');
    PlaceInTree(sh.levels, sh.chains, sh.free, loose, sh.role, img.high, k, i + 1, rid);
    SplitSpace(img, img', sh, sh', loose, k, i, rid, left, right);
    EntriesFrame(img.pages, pages', sh.chains, Contents(img.pages, sh.levels[0]));
    SplitFits(img.pages, pages', sh.levels, sh'.levels, k, i, rid, left, right, sh.cap);
  }

  ghost function AddRoot(sh: Shape, rid: PageId): Shape {
    sh.(levels := sh.levels + [[rid]], bounds := sh.bounds + [[[]]], role := sh.role[rid := TreePage(|sh.levels|)])
  }

  /** A new root above a split root. */
  lemma NewRootStep(img: Image, sh: Shape, loose: set<PageId>, spare: set<PageId>, c: nat, rid: PageId, p: PageData)
    requires Gapped(img, sh, loose, spare, |sh.levels|, c) && rid in loose
    requires p.Internal? && p.leftmostChild == img.root && PageFits(p, sh.cap)
    requires p.seps == [InternalEntry(sh.bounds[|sh.levels| - 1][c], sh.levels[|sh.levels| - 1][c])]
    ensures var img' := img.(pages := img.pages[rid := p], root := rid);
            && Working(img', AddRoot(sh, rid), loose - {rid}, spare)
            && Contents(img'.pages, sh.levels[0]) == Contents(img.pages, sh.levels[0])
            && SameChainBytes(img.pages, img'.pages, sh.chains)
  {
    var pages' := img.pages[rid := p];
    var img' := img.(pages := pages', root := rid);
    var sh' := AddRoot(sh, rid);
    LedgerUnused(sh.levels, sh.chains, sh.free, loose, sh.role, img.high, rid);
    GapNewRoot(img.pages, img.root, sh.levels, sh.bounds, c, rid, p, pages');
    RootSpace(img, sh, loose, rid, p);
    EntriesFrame(img.pages, pages', sh.chains, Contents(img.pages, sh.levels[0]));
    RootFits(img.pages, sh.levels, rid, p, sh.cap);
  }

  lemma RootSpace(img: Image, sh: Shape, loose: set<PageId>, rid: PageId, p: PageData)
    requires SpaceOk(img, sh, loose) && rid in loose
    ensures SpaceOk(img.(pages := img.pages[rid := p], root := rid), AddRoot(sh, rid), loose - {rid})
    ensures forall h :: h in sh.chains ==> ChainBytes(img.pages[rid := p], sh.chains[h]) == ChainBytes(img.pages, sh.chains[h])
  {
    PlaceRoot(sh.levels, sh.chains, sh.free, loose, sh.role, img.high, rid);
    Respace(img, img.(pages := img.pages[rid := p], root := rid), sh, AddRoot(sh, rid), loose, loose - {rid});
  }

  lemma RootFits(pages: PageMap, levels: seq<Ids>, rid: PageId, p: PageData, cap: nat)
    requires PagesFit(pages, levels, cap) && PageFits(p, cap)
    ensures PagesFit(pages[rid := p], levels + [[rid]], cap)
  {
    forall m, x | 0 <= m < |levels| + 1 && x in (levels + [[rid]])[m] ensures PageFits(At(pages[rid := p], x), cap) {
      if x != rid {
        assert x in levels[m] && At(pages[rid := p], x) == At(pages, x);
      }
    }
  }

  // ---------------------------------------------------------------- allocation

  /** Allocation touches nothing but the free stack and the high-water mark. */
  lemma WorkingFromSpace(img: Image, sh: Shape, img': Image, sh': Shape, loose: set<PageId>, loose': set<PageId>, spare: set<PageId>)
    requires Working(img, sh, loose, spare) && SpaceOk(img', sh', loose')
    requires img'.pages == img.pages && img'.root == img.root
    requires sh'.levels == sh.levels && sh'.bounds == sh.bounds && sh'.chains == sh.chains && sh'.cap == sh.cap && sh'.lost == sh.lost
    ensures Working(img', sh', loose', spare)
  {
  }

  lemma TakeWorking(img: Image, sh: Shape, loose: set<PageId>, spare: set<PageId>)
    requires Working(img, sh, loose, spare)
    ensures var (img', sh', x) := AfterTake(img, sh);
            x !in loose && Working(img', sh', loose + {x}, spare)
  {
    TakePage(img, sh, loose);
  }

  lemma TakeGapped(img: Image, sh: Shape, loose: set<PageId>, spare: set<PageId>, k: nat, c: nat)
    requires Gapped(img, sh, loose, spare, k, c)
    ensures var (img', sh', x) := AfterTake(img, sh);
            x !in loose && Gapped(img', sh', loose + {x}, spare, k, c)
  {
    TakePage(img, sh, loose);
  }

  // ---------------------------------------------------------------- chains

  ghost function AdoptShape(sh: Shape, ids: Ids): Shape
    requires ids != []
  {
    sh.(chains := sh.chains[ids[0] := ids], role := Claim(sh.role, ids, ids[0]))
  }

  ghost function PageSet(ids: Ids): set<PageId> {
    set x | x in ids
  }

  /** Loose pages written as a chain become a chain no entry owns yet. */
  lemma AdoptChain(img: Image, sh: Shape, loose: set<PageId>, spare: set<PageId>, ids: Ids)
    requires Working(img, sh, loose, spare)
    requires ChainOk(img.pages, ids) && NoDup(ids)
    requires forall x :: x in ids ==> x in loose && x in img.pages
    ensures Working(img, AdoptShape(sh, ids), loose - PageSet(ids), spare + {ids[0]})
    ensures ids[0] !in sh.chains
  {
    hide TreeOk, SpaceOk, PagesFit, Owned, ChainOk, NoDup, Contents;
    ChainStarts(img.pages, ids);
    var sh' := AdoptShape(sh, ids);
    AdoptFresh(img, sh, loose, ids);
    AdoptSpace(img, sh, loose, ids);
    var c := Contents(img.pages, sh.levels[0]);
    assert Claimed(sh', spare + {ids[0]}) == Claimed(sh, spare);
    forall i | 0 <= i < |c| ensures EntryOk(img.pages, sh'.chains, c[i]) {
      assert EntryOk(img.pages, sh.chains, c[i]);
    }
  }

  lemma ChainStarts(pages: PageMap, ids: Ids)
    requires ChainOk(pages, ids)
    ensures ids != []
  {
  }

  lemma AdoptFresh(img: Image, sh: Shape, loose: set<PageId>, ids: Ids)
    requires SpaceOk(img, sh, loose) && ids != [] && forall x :: x in ids ==> x in loose
    ensures ids[0] !in sh.chains
  {
    assert ids[0] in ids;
    forall h | h in sh.chains ensures h != ids[0] {
      assert sh.chains[h][0] == h && sh.role[sh.chains[h][0]] == ChainPage(h, 0);
    }
  }

  lemma AdoptSpace(img: Image, sh: Shape, loose: set<PageId>, ids: Ids)
    requires SpaceOk(img, sh, loose) && ids != [] && ids[0] !in sh.chains
    requires ChainOk(img.pages, ids) && NoDup(ids)
    requires forall x :: x in ids ==> x in loose && x in img.pages
    ensures SpaceOk(img, AdoptShape(sh, ids), loose - PageSet(ids))
  {
    hide LedgerOk, FreeOk, ChainOk, NoDup;
    PlaceChain(sh.levels, sh.chains, sh.free, loose, sh.role, img.high, ids);
  }

  ghost function AbandonShape(sh: Shape, h: PageId): Shape
    requires h in sh.chains
  {
    sh.(chains := sh.chains - {h}, role := Release(sh.role, sh.chains[h]))
  }

  /** The pages of a chain no entry owns become loose. */
  lemma AbandonChain(img: Image, sh: Shape, loose: set<PageId>, spare: set<PageId>, h: PageId)
    requires Working(img, sh, loose, spare) && h in sh.chains && h in spare
    ensures Working(img, AbandonShape(sh, h), loose + PageSet(sh.chains[h]), spare - {h})
  {
    var sh' := AbandonShape(sh, h);
    DropChain(sh.levels, sh.chains, sh.free, loose, sh.role, img.high, h);
    var c := Contents(img.pages, sh.levels[0]);
    assert Claimed(sh', spare - {h}) == Claimed(sh, spare);
    forall i | 0 <= i < |c| ensures EntryOk(img.pages, sh'.chains, c[i]) {
      assert EntryOk(img.pages, sh.chains, c[i]);
    }
  }

  ghost function PushShape(sh: Shape, x: PageId): Shape {
    sh.(free := sh.free + [x], role := sh.role[x := FreePage(|sh.free|)])
  }

  /** A loose page goes on top of the free stack. */
  lemma PushStep(img: Image, sh: Shape, loose: set<PageId>, spare: set<PageId>, x: PageId, lsn: nat)
    requires Working(img, sh, loose, spare) && x in loose
    ensures var img' := img.(pages := img.pages[x := Free(lsn, img.freeHead)], freeHead := Some(x));
            && Working(img', PushShape(sh, x), loose - {x}, spare)
            && Contents(img'.pages, sh.levels[0]) == Contents(img.pages, sh.levels[0])
            && (forall h :: h in sh.chains ==> ChainBytes(img'.pages, sh.chains[h]) == ChainBytes(img.pages, sh.chains[h]))
  {
    var p := Free(lsn, img.freeHead);
    var img1 := img.(pages := img.pages[x := p]);
    WriteLoose(img, sh, loose, spare, x, p);
    PushFree(sh.levels, sh.chains, sh.free, loose, sh.role, img.high, x);
    LedgerUnused(sh.levels, sh.chains, sh.free, loose, sh.role, img.high, x);
    FreePushed(img1.pages, sh.free, img.freeHead, x, lsn);
    PushStored(img1.pages, sh, loose, x);
  }

  lemma FreePushed(pages: PageMap, free: Ids, head: Option<PageId>, x: PageId, lsn: nat)
    requires FreeOk(pages, free, head) && At(pages, x) == Free(lsn, head)
    ensures FreeOk(pages, free + [x], Some(x))
  {
    forall p | 0 <= p <= |free| ensures Below(free + [x], p) == Below(free, p) {
    }
    assert Below(free + [x], |free| + 1) == Some(x);
  }

  lemma PushStored(pages: PageMap, sh: Shape, loose: set<PageId>, x: PageId)
    requires Stored(pages, sh.role, loose) && x in pages && x in loose
    ensures Stored(pages, PushShape(sh, x).role, loose - {x})
  {
  }

  // ---------------------------------------------------------------- freeing a chain

  /** The image after the first t pages of `ids` went to the free stack. */
  ghost function Freed(img: Image, ids: Ids, lsn: nat, t: nat): Image
    requires t <= |ids|
  {
    if t == 0 then img
    else
      var i := Freed(img, ids, lsn, t - 1);
      i.(pages := i.pages[ids[t - 1] := Free(lsn, i.freeHead)], freeHead := Some(ids[t - 1]))
  }

  ghost function FreedShape(sh: Shape, ids: Ids, t: nat): Shape
    requires t <= |ids|
  {
    if t == 0 then sh else PushShape(FreedShape(sh, ids, t - 1), ids[t - 1])
  }

  lemma {:induction false} FreedKeeps(img: Image, ids: Ids, lsn: nat, t: nat, x: PageId)
    requires t <= |ids| && x !in ids[..t]
    ensures x in Freed(img, ids, lsn, t).pages <==> x in img.pages
    ensures x in img.pages ==> Freed(img, ids, lsn, t).pages[x] == img.pages[x]
    ensures Freed(img, ids, lsn, t).high == img.high && Freed(img, ids, lsn, t).root == img.root
  {
    if t > 0 {
      assert ids[..t] == ids[..t - 1] + [ids[t - 1]];
      FreedKeeps(img, ids, lsn, t - 1, x);
    }
  }

  lemma {:induction false} FreedShapeKeeps(sh: Shape, ids: Ids, t: nat)
    requires t <= |ids|
    ensures FreedShape(sh, ids, t).levels == sh.levels && FreedShape(sh, ids, t).bounds == sh.bounds
    ensures FreedShape(sh, ids, t).chains == sh.chains && FreedShape(sh, ids, t).cap == sh.cap && FreedShape(sh, ids, t).lost == sh.lost
  {
    if t > 0 {
      FreedShapeKeeps(sh, ids, t - 1);
    }
  }

  lemma {:induction false} FreedWorking(img: Image, sh: Shape, ids: Ids, spare: set<PageId>, lsn: nat, t: nat)
    requires Working(img, sh, PageSet(ids), spare) && NoDup(ids) && t <= |ids|
    ensures Working(Freed(img, ids, lsn, t), FreedShape(sh, ids, t), PageSet(ids[t..]), spare)
    ensures Contents(Freed(img, ids, lsn, t).pages, sh.levels[0]) == Contents(img.pages, sh.levels[0])
    ensures forall h :: h in sh.chains ==>
              ChainBytes(Freed(img, ids, lsn, t).pages, sh.chains[h]) == ChainBytes(img.pages, sh.chains[h])
  {
    hide Working;
    if t == 0 {
      assert ids[0..] == ids;
    } else {
      FreedWorking(img, sh, ids, spare, lsn, t - 1);
      FreedShapeKeeps(sh, ids, t - 1);
      FreedShapeKeeps(sh, ids, t);
      TailSet(ids, t);
      PushStep(Freed(img, ids, lsn, t - 1), FreedShape(sh, ids, t - 1), PageSet(ids[t - 1..]), spare, ids[t - 1], lsn);
    }
  }

  lemma TailSet(ids: Ids, t: nat)
    requires NoDup(ids) && 0 < t <= |ids|
    ensures ids[t - 1] in PageSet(ids[t - 1..])
    ensures PageSet(ids[t..]) == PageSet(ids[t - 1..]) - {ids[t - 1]}
  {
    assert ids[t - 1..] == [ids[t - 1]] + ids[t..];
  }

  ghost function FreeChainShape(sh: Shape, h: PageId): Shape
    requires h in sh.chains
  {
    FreedShape(AbandonShape(sh, h), sh.chains[h], |sh.chains[h]|)
  }

  /** Freeing the chain no entry owns settles the image. */
  lemma FreeChain(img: Image, sh: Shape, h: PageId, lsn: nat)
    requires Working(img, sh, {}, {h}) && h in sh.chains
    ensures var img', sh' := Freed(img, sh.chains[h], lsn, |sh.chains[h]|), FreeChainShape(sh, h);
            && Sound(img', sh')
            && sh'.levels == sh.levels && sh'.bounds == sh.bounds && sh'.chains == sh.chains - {h} && sh'.cap == sh.cap && sh'.lost == sh.lost
            && Contents(img'.pages, sh.levels[0]) == Contents(img.pages, sh.levels[0])
            && (forall g :: g in sh.chains && g != h ==> ChainBytes(img'.pages, sh.chains[g]) == ChainBytes(img.pages, sh.chains[g]))
  {
    hide Working, Contents, ChainBytes, ChainRoles;
    var ids := sh.chains[h];
    var sh1 := AbandonShape(sh, h);
    WorkingChainRoles(img, sh, {}, {h});
    ChainNoDup(sh.chains, sh.role, h);
    FreeChainSets(ids, h);
    AbandonChain(img, sh, {}, {h}, h);
    FreedWorking(img, sh1, ids, {}, lsn, |ids|);
    FreedShapeKeeps(sh1, ids, |ids|);
    assert forall g :: g in sh.chains && g != h ==> g in sh1.chains && sh1.chains[g] == sh.chains[g];
  }

  lemma WorkingChainRoles(img: Image, sh: Shape, loose: set<PageId>, spare: set<PageId>)
    requires Working(img, sh, loose, spare)
    ensures ChainRoles(sh.chains, sh.role)
  {
    hide TreeOk, RecordsOk, PagesFit, Covers, TreeRoles, FreeRoles, LooseRoles, ChainRoles, FreeOk, ChainsOk, Stored;
  }

  lemma FreeChainSets(ids: Ids, h: PageId)
    ensures {} + PageSet(ids) == PageSet(ids) && {h} - {h} == {} && PageSet(ids[|ids|..]) == {}
  {
  }
}
