/** Propagating a split from a leaf towards the root. */
module Climb {
  import opened Lex
  import opened Seqs
  import opened Pages
  import opened KeyCodec
  import opened Tree
  import opened Records
  import opened Space
  import opened Splits
  import opened Database
  import opened Updates
  import opened Reads

  ghost predicate SepOk(sep: bytes, cap: nat) {
    KeyOk(sep) && SLOT_SIZE + INTERNAL_RECORD_HEADER + |sep| <= cap
  }

  /** Page c of level k - 1 is `right`, with lower bound `sep`. */
  ghost predicate NewPage(sh: Shape, k: nat, c: nat, sep: bytes, right: PageId) {
    && 1 <= k <= |sh.levels| == |sh.bounds|
    && 1 <= c < |sh.levels[k - 1]| == |sh.bounds[k - 1]|
    && sh.levels[k - 1][c] == right && sh.bounds[k - 1][c] == sep
    && SepOk(sep, sh.cap)
  }

  /** The ancestors `route` lead to the page before page c of level k - 1. */
  ghost predicate OnRoute(pages: PageMap, levels: seq<Ids>, route: Ids, path: seq<nat>, k: nat, c: nat) {
    && |route| + k == |levels|
    && Descends(pages, levels, route, path)
    && (route != [] ==> c > 0 && ChildOf(pages, levels, k, path[|path| - 1], c - 1))
  }

  /** The ancestors still have to learn of page `right`. */
  ghost predicate AtGap(img: Image, sh: Shape, spare: set<PageId>, route: Ids, path: seq<nat>, k: nat, c: nat, sep: bytes, right: PageId) {
    && Gapped(img, sh, {}, spare, k, c)
    && NewPage(sh, k, c, sep, right)
    && OnRoute(img.pages, sh.levels, route, path, k, c)
  }

  /** The separators below `sep` are the first j. */
  ghost predicate CutAt(seps: seq<InternalEntry>, sep: bytes, j: int) {
    && 0 <= j <= |seps|
    && (forall t :: 0 <= t < j ==> Less(seps[t].key, sep))
    && (forall t :: j <= t < |seps| ==> Less(sep, seps[t].key))
  }

  lemma PlaceInParent(pages: PageMap, ids: Ids, bnds: Bounds, below: Ids, belowBnds: Bounds, c: nat, i: nat)
    requires LevelOk(below, belowBnds) && 0 < c < |below|
    requires Linked(pages, ids, bnds, RemoveAt(below, c), RemoveAt(belowBnds, c))
    requires i < |ids|
    requires Offset(KidLists(pages, ids), i) < c <= Offset(KidLists(pages, ids), i + 1)
    ensures At(pages, ids[i]).Internal?
    ensures CutAt(At(pages, ids[i]).seps, belowBnds[c], c - 1 - Offset(KidLists(pages, ids), i))
  {
    ChildBlock(pages, ids, bnds, RemoveAt(below, c), RemoveAt(belowBnds, c), i);
    forall t | 0 <= t < |At(pages, ids[i]).seps|
      ensures t < c - 1 - Offset(KidLists(pages, ids), i) ==> Less(At(pages, ids[i]).seps[t].key, belowBnds[c])
      ensures t >= c - 1 - Offset(KidLists(pages, ids), i) ==> Less(belowBnds[c], At(pages, ids[i]).seps[t].key)
    {
      GapPosition(pages, ids, bnds, below, belowBnds, c, i, t);
    }
  }

  lemma GapParts(pages: PageMap, root: PageId, levels: seq<Ids>, bounds: seq<Bounds>, k: nat, c: nat)
    requires TreeGap(pages, root, levels, bounds, k, c) && k < |levels|
    ensures 1 <= k && |levels| == |bounds| && LevelOk(levels[k - 1], bounds[k - 1]) && LevelOk(levels[k], bounds[k])
    ensures 0 < c < |levels[k - 1]|
    ensures Linked(pages, levels[k], bounds[k], RemoveAt(levels[k - 1], c), RemoveAt(bounds[k - 1], c))
  {
  }

  lemma GapPage(img: Image, sh: Shape, spare: set<PageId>, k: nat, c: nat, i: nat)
    requires Gapped(img, sh, {}, spare, k, c) && k < |sh.levels| && i < |sh.levels[k]|
    ensures InFile(img, sh.levels[k][i]) && PageFits(img.pages[sh.levels[k][i]], sh.cap)
  {
    assert sh.levels[k][i] in sh.levels[k];
    TreeSettled(sh, {}, k, sh.levels[k][i]);
  }

  /** The parent page and the place of its new separator. */
  lemma ParentPlace(img: Image, sh: Shape, spare: set<PageId>, route: Ids, path: seq<nat>, k: nat, c: nat, i: nat, id: PageId,
                    sep: bytes, right: PageId)
    requires AtGap(img, sh, spare, route, path, k, c, sep, right)
    requires route != [] && |route| == |path| && i == path[|path| - 1] && id == route[|route| - 1]
    ensures k < |sh.levels| == |sh.bounds| && i < |sh.levels[k]| == |sh.bounds[k]| && sh.levels[k][i] == id
    ensures InFile(img, id) && img.pages[id].Internal? && PageFits(img.pages[id], sh.cap)
    ensures CutAt(img.pages[id].seps, sep, c - 1 - Offset(KidLists(img.pages, sh.levels[k]), i))
  {
    hide Gapped;
    RouteEnd(img.pages, sh.levels, route, path, k, c);
    hide OnRoute;
    GapPlace(img, sh, spare, k, c, i);
  }

  lemma RouteEnd(pages: PageMap, levels: seq<Ids>, route: Ids, path: seq<nat>, k: nat, c: nat)
    requires OnRoute(pages, levels, route, path, k, c) && route != []
    ensures k < |levels| && path[|path| - 1] < |levels[k]| && levels[k][path[|path| - 1]] == route[|route| - 1]
    ensures Offset(KidLists(pages, levels[k]), path[|path| - 1]) < c <= Offset(KidLists(pages, levels[k]), path[|path| - 1] + 1)
  {
  }

  lemma GapPlace(img: Image, sh: Shape, spare: set<PageId>, k: nat, c: nat, i: nat)
    requires Gapped(img, sh, {}, spare, k, c) && k < |sh.levels| && i < |sh.levels[k]|
    requires Offset(KidLists(img.pages, sh.levels[k]), i) < c <= Offset(KidLists(img.pages, sh.levels[k]), i + 1)
    ensures 1 <= k && |sh.levels| == |sh.bounds| && |sh.bounds[k]| == |sh.levels[k]| && c < |sh.bounds[k - 1]|
    ensures InFile(img, sh.levels[k][i]) && img.pages[sh.levels[k][i]].Internal? && PageFits(img.pages[sh.levels[k][i]], sh.cap)
    ensures CutAt(img.pages[sh.levels[k][i]].seps, sh.bounds[k - 1][c], c - 1 - Offset(KidLists(img.pages, sh.levels[k]), i))
  {
    assert TreeGap(img.pages, img.root, sh.levels, sh.bounds, k, c);
    hide Gapped, PageFits;
    GapPage(img, sh, spare, k, c, i);
    GapParts(img.pages, img.root, sh.levels, sh.bounds, k, c);
    hide TreeGap;
    PlaceInParent(img.pages, sh.levels[k], sh.bounds[k], sh.levels[k - 1], sh.bounds[k - 1], c, i);
  }

  lemma GrownSeps(seps: seq<InternalEntry>, j: nat, e: InternalEntry, cap: nat)
    requires SepsOk(seps) && SmallSeps(seps, cap) && j <= |seps| && SepOk(e.key, cap)
    ensures SepsOk(InsertAt(seps, j, e)) && SmallSeps(InsertAt(seps, j, e), cap)
  {
  }

  ghost predicate Grown(p: PageData, p': PageData, j: nat, e: InternalEntry) {
    && p.Internal? && p'.Internal? && p'.leftmostChild == p.leftmostChild
    && j <= |p.seps| && p'.seps == InsertAt(p.seps, j, e)
  }

  /** The parent has room: the tree is whole again. */
  lemma ParentTakesIt(img: Image, sh: Shape, spare: set<PageId>, route: Ids, path: seq<nat>, k: nat, c: nat, i: nat, id: PageId,
                      sep: bytes, right: PageId, j: nat, p: PageData)
    requires AtGap(img, sh, spare, route, path, k, c, sep, right)
    requires route != [] && |route| == |path| && i == path[|path| - 1] && id == route[|route| - 1]
    requires k < |sh.levels| && j == c - 1 - Offset(KidLists(img.pages, sh.levels[k]), i)
    requires Grown(At(img.pages, id), p, j, InternalEntry(sep, right)) && InternalFits(p.seps)
    ensures |sh.levels| > 0
    ensures Working(img.(pages := img.pages[id := p]), sh, {}, spare)
    ensures Contents(img.pages[id := p], sh.levels[0]) == Contents(img.pages, sh.levels[0])
    ensures SameChainBytes(img.pages, img.pages[id := p], sh.chains)
  {
    hide Gapped, Working;
    ParentPlace(img, sh, spare, route, path, k, c, i, id, sep, right);
    GrownSeps(At(img.pages, id).seps, j, InternalEntry(sep, right), sh.cap);
    ParentRewrite(img, sh, {}, spare, k, c, i, j, p);
  }

  /** Above a split page, routes are as they were. */
  lemma RouteAbove(pages: PageMap, pages': PageMap, levels: seq<Ids>, levels': seq<Ids>, route: Ids, path: seq<nat>, k: nat)
    requires Descends(pages, levels, route, path) && route != [] && |route| + k == |levels|
    requires |levels'| == |levels| && forall m :: k < m < |levels| ==> levels'[m] == levels[m]
    requires forall m, x :: k < m < |levels| && x in levels[m] ==> At(pages', x) == At(pages, x)
    ensures OnRoute(pages', levels', route[..|route| - 1], path[..|path| - 1], k + 1, path[|path| - 1] + 1)
  {
    forall t | 0 <= t < |route| - 1
      ensures ChildOf(pages', levels', |levels| - 1 - t, path[t], path[t + 1])
    {
      var m := |levels| - 1 - t;
      assert ChildOf(pages, levels, m, path[t], path[t + 1]);
      KidsSame(pages, pages', levels[m]);
    }
  }

  lemma KidsSame(pages: PageMap, pages': PageMap, ids: Ids)
    requires forall x :: x in ids ==> At(pages', x) == At(pages, x)
    ensures KidLists(pages', ids) == KidLists(pages, ids)
  {
  }

  lemma AboveUntouched(pages: PageMap, levels: seq<Ids>, k: nat, id: PageId, left: PageData, rid: PageId, next: PageData)
    requires Apart(levels) && Unused(levels, rid) && k < |levels| && id in levels[k]
    ensures forall m, x :: k < m < |levels| && x in levels[m] ==> At(pages[id := left][rid := next], x) == At(pages, x)
  {
  }

  ghost predicate HalvesOf(seps: seq<InternalEntry>, s: nat, p: PageData, left: PageData, next: PageData) {
    && 0 < s < |seps| - 1 && p.Internal?
    && InternalFits(seps[..s]) && InternalFits(seps[s + 1..])
    && left.Internal? && left.leftmostChild == p.leftmostChild && left.seps == seps[..s]
    && next.Internal? && next.leftmostChild == seps[s].rightChild && next.seps == seps[s + 1..]
  }

  lemma HalvesFit(seps: seq<InternalEntry>, s: nat, p: PageData, left: PageData, next: PageData, cap: nat)
    requires SepsOk(seps) && SmallSeps(seps, cap) && HalvesOf(seps, s, p, left, next)
    ensures PageFits(left, cap) && PageFits(next, cap) && SepOk(seps[s].key, cap)
  {
    assert InternalRecordSize(seps[s]) <= cap;
  }

  ghost predicate SameValues(img: Image, sh: Shape, img': Image, sh': Shape) {
    && |sh.levels| > 0 && |sh'.levels| > 0
    && Contents(img'.pages, sh'.levels[0]) == Contents(img.pages, sh.levels[0])
    && sh'.chains == sh.chains && sh'.cap == sh.cap && sh'.lost == sh.lost
    && SameChainBytes(img.pages, img'.pages, sh.chains)
  }

  /** The gap after the parent was split: its sibling is the page to announce. */
  lemma ParentSplits(img: Image, sh: Shape, loose: set<PageId>, spare: set<PageId>, k: nat, c: nat, i: nat, id: PageId,
                     sep: bytes, right: PageId, j: nat, s: nat, rid: PageId, p: PageData, left: PageData, next: PageData,
                     img': Image, sh': Shape)
    requires k < |sh.levels| == |sh.bounds| && i < |sh.levels[k]| == |sh.bounds[k]| && sh.levels[k][i] == id
    requires j == c - 1 - Offset(KidLists(img.pages, sh.levels[k]), i)
    requires Grown(At(img.pages, id), p, j, InternalEntry(sep, right)) && SepsOk(p.seps) && SmallSeps(p.seps, sh.cap)
    requires HalvesOf(p.seps, s, p, left, next)
    requires img' == img.(pages := img.pages[id := left][rid := next])
    requires sh' == AddPage(sh, k, i, rid, p.seps[s].key)
    requires NewPage(sh, k, c, sep, right) && rid in loose
    requires Gapped(img, sh, loose, spare, k, c)
    ensures Gapped(img', sh', loose - {rid}, spare, k + 1, i + 1)
    ensures NewPage(sh', k + 1, i + 1, p.seps[s].key, rid)
    ensures SameValues(img, sh, img', sh')
  {
    hide Gapped, Swollen, SepsOk, SmallSeps, PageFits, Contents;
    var imgV := img.(pages := img.pages[id := p]);
    HalvesFit(p.seps, s, p, left, next, sh.cap);
    ParentRewrite(img, sh, loose, spare, k, c, i, j, p);
    ParentSplitStep(imgV, sh, loose, spare, k, i, s, rid, left, next);
    assert img.pages[id := left][rid := next] == imgV.pages[id := left][rid := next];
  }

  /** One step of the climb: the parent overflowed, a page was taken for its
      right half and the gap moved one level up. */
  lemma ClimbStep(img: Image, sh: Shape, spare: set<PageId>, route: Ids, path: seq<nat>, k: nat, c: nat, i: nat, id: PageId,
                  sep: bytes, right: PageId, j: nat, s: nat, rid: PageId, p: PageData, left: PageData, next: PageData,
                  img1: Image, sh1: Shape, img': Image, sh': Shape)
    requires (img1, sh1, rid) == AfterTake(img, sh)
    requires route != [] && |route| == |path| && i == path[|path| - 1] && id == route[|route| - 1]
    requires k < |sh.levels| == |sh.bounds| && i < |sh.levels[k]| == |sh.bounds[k]| && sh.levels[k][i] == id
    requires j == c - 1 - Offset(KidLists(img.pages, sh.levels[k]), i)
    requires Grown(At(img.pages, id), p, j, InternalEntry(sep, right)) && SepsOk(p.seps) && SmallSeps(p.seps, sh.cap)
    requires HalvesOf(p.seps, s, p, left, next)
    requires img' == img1.(pages := img1.pages[id := left][rid := next])
    requires sh' == AddPage(sh1, k, i, rid, p.seps[s].key)
    requires AtGap(img, sh, spare, route, path, k, c, sep, right)
    ensures AtGap(img', sh', spare, route[..|route| - 1], path[..|path| - 1], k + 1, i + 1, p.seps[s].key, rid)
    ensures SameValues(img, sh, img', sh')
  {
    hide HalvesOf, Grown, SepsOk, SmallSeps;
    TakeGapped(img, sh, {}, spare, k, c);
    TakenUnused(img, sh, {}, spare, k, c);
    hide Gapped;
    ParentSplits(img1, sh1, {} + {rid}, spare, k, c, i, id, sep, right, j, s, rid, p, left, next, img', sh');
    assert ({} + {rid}) - {rid} == {};
    RouteAfterSplit(img.pages, sh.levels, route, path, k, i, rid, left, next, img'.pages, sh'.levels);
  }

  lemma TakenUnused(img: Image, sh: Shape, loose: set<PageId>, spare: set<PageId>, k: nat, c: nat)
    requires Gapped(img, sh, loose, spare, k, c)
    ensures Apart(sh.levels) && Unused(sh.levels, AfterTake(img, sh).2)
  {
    var (img', sh', x) := AfterTake(img, sh);
    TakePage(img, sh, loose);
    LedgerUnused(sh'.levels, sh'.chains, sh'.free, loose + {x}, sh'.role, img'.high, x);
  }

  /** The climb ended above the root: a page is taken for the new root. */
  lemma RootStep(img: Image, sh: Shape, spare: set<PageId>, c: nat, sep: bytes, right: PageId,
                 rid: PageId, p: PageData, img1: Image, sh1: Shape)
    requires (img1, sh1, rid) == AfterTake(img, sh)
    requires p.Internal? && p.leftmostChild == img.root && p.seps == [InternalEntry(sep, right)]
    requires AtGap(img, sh, spare, [], [], |sh.levels|, c, sep, right)
    ensures Working(img1.(pages := img1.pages[rid := p], root := rid), AddRoot(sh1, rid), {}, spare)
    ensures SameValues(img, sh, img1.(pages := img1.pages[rid := p], root := rid), AddRoot(sh1, rid))
  {
    hide Gapped, Working, Contents, ChainBytes, SepOk, SepsOk, SmallSeps, InternalFits;
    TakeGapped(img, sh, {}, spare, |sh.levels|, c);
    OneSepFits(sep, right, sh.cap);
    NewRootStep(img1, sh1, {} + {rid}, spare, c, rid, p);
    assert ({} + {rid}) - {rid} == {};
  }

  lemma OneSepFits(sep: bytes, right: PageId, cap: nat)
    requires SepOk(sep, cap)
    ensures InternalFits([InternalEntry(sep, right)]) && SepsOk([InternalEntry(sep, right)])
    ensures SmallSeps([InternalEntry(sep, right)], cap)
  {
    var e := InternalEntry(sep, right);
    assert SepSizes([e]) == [InternalRecordSize(e)];
    assert Total([InternalRecordSize(e)][1..]) == 0;
  }

  /** The partition point below `sep` is where the new separator goes. */
  lemma CutFound(seps: seq<InternalEntry>, sep: bytes, j: nat, n: nat)
    requires CutAt(seps, sep, j) && n <= |seps|
    requires var below := (e: InternalEntry) => Less(e.key, sep);
             Partitioned(seps, below) ==> forall t :: 0 <= t < |seps| ==> (below(seps[t]) <==> t < n)
    ensures n == j
  {
    var below := (e: InternalEntry) => Less(e.key, sep);
    assert Partitioned(seps, below);
    var m := if n < j then n else if j < n then j else 0;
    assert m < |seps| ==> (below(seps[m]) <==> m < j);
  }

  /** An internal page of small separators that overflows by one has a split. */
  lemma SmallSepsSplit(seps: seq<InternalEntry>, j: nat, e: InternalEntry, cap: nat)
    requires j <= |seps| && InternalFits(seps) && !InternalFits(InsertAt(seps, j, e))
    requires SepsOk(InsertAt(seps, j, e)) && SmallSeps(InsertAt(seps, j, e), cap) && 2 * cap <= RECORD_SPACE
    ensures |InsertAt(seps, j, e)| >= 3
    ensures exists c: nat :: InternalSplitFits(InsertAt(seps, j, e), c)
  {
    var es := InsertAt(seps, j, e);
    var s := SepSizes(es);
    assert s[..j] == SepSizes(seps)[..j] && s[j + 1..] == SepSizes(seps)[j..];
    TotalCut(SepSizes(seps), j);
    if |es| < 3 {
      FewFit(s, cap);
    } else {
      InternalSplitExists(es, j);
    }
  }

  lemma FewFit(s: seq<nat>, cap: nat)
    requires |s| <= 2 && forall i :: 0 <= i < |s| ==> s[i] <= cap
    ensures Total(s) <= 2 * cap
  {
    if |s| > 0 {
      assert |s| == 2 ==> s[1..][0] == s[1] && s[1..][1..] == [];
    }
  }

  // ---------------------------------------------------------------- leaves

  /** Leaf i may hold `entries`, leaving the chains of spare' without an owner. */
  ghost predicate LeafChange(img: Image, sh: Shape, spare': set<PageId>, i: nat, entries: seq<LeafEntry>) {
    && |sh.levels| > 0 && |sh.bounds| > 0 && i < |sh.levels[0]| && i < |sh.bounds[0]|
    && SortedEntries(entries)
    && (forall x :: 0 <= x < |entries| ==> InRange(entries[x].key, sh.bounds[0], i))
    && EntriesOk(img.pages, sh.chains, entries)
    && EntriesOk(img.pages, sh.chains, NewContents(img, sh, i, entries))
    && sh.lost !! spare' && Owned(NewContents(img, sh, i, entries), Claimed(sh, spare'))
    && SmallEntries(entries, sh.cap)
  }

  ghost function NewContents(img: Image, sh: Shape, i: nat, entries: seq<LeafEntry>): seq<LeafEntry>
    requires |sh.levels| > 0 && i < |sh.levels[0]|
  {
    Concat(EntryLists(img.pages, sh.levels[0])[i := entries])
  }

  ghost predicate NowHolds(img: Image, sh: Shape, img': Image, sh': Shape, es: seq<LeafEntry>) {
    && |sh'.levels| > 0 && Contents(img'.pages, sh'.levels[0]) == es
    && sh'.chains == sh.chains && sh'.cap == sh.cap && sh'.lost == sh.lost
    && SameChainBytes(img.pages, img'.pages, sh.chains)
  }

  lemma HoldsStill(img: Image, sh: Shape, img1: Image, sh1: Shape, img2: Image, sh2: Shape, es: seq<LeafEntry>)
    requires NowHolds(img, sh, img1, sh1, es) && SameValues(img1, sh1, img2, sh2)
    ensures NowHolds(img, sh, img2, sh2, es)
  {
  }

  /** The leaf has room. */
  lemma LeafTakesIt(img: Image, sh: Shape, spare: set<PageId>, spare': set<PageId>, i: nat, p: PageData)
    requires p.Leaf? && LeafFits(p.entries) && |sh.levels| > 0 && p.nextLeaf == NextOf(sh.levels[0], i)
    requires LeafChange(img, sh, spare', i, p.entries)
    requires Working(img, sh, {}, spare)
    ensures Working(img.(pages := img.pages[sh.levels[0][i] := p]), sh, {}, spare')
    ensures NowHolds(img, sh, img.(pages := img.pages[sh.levels[0][i] := p]), sh, NewContents(img, sh, i, p.entries))
  {
    hide Working;
    LeafRewrite(img, sh, {}, spare, spare', i, p);
  }

  lemma SmallSlices(es: seq<LeafEntry>, s: nat, cap: nat)
    requires SmallEntries(es, cap) && s < |es|
    ensures SmallEntries(es[..s], cap) && SmallEntries(es[s..], cap)
    ensures SLOT_SIZE + INTERNAL_RECORD_HEADER + |es[s].key| <= cap
  {
    assert LeafRecordSize(es[s]) <= cap;
  }

  /** The leaf is split and its parent is next. */
  lemma LeafSplits(img: Image, sh: Shape, spare: set<PageId>, spare': set<PageId>, route: Ids, path: seq<nat>, i: nat,
                   p: PageData, s: nat, rid: PageId, left: PageData, right: PageData,
                   img1: Image, sh1: Shape, img': Image, sh': Shape)
    requires (img1, sh1, rid) == AfterTake(img, sh)
    requires 0 < |sh.levels| == |sh.bounds| && i < |sh.levels[0]| == |sh.bounds[0]|
    requires |route| == |path| == |sh.levels| && path[|path| - 1] == i && Descends(img.pages, sh.levels, route, path)
    requires p.Leaf? && p.nextLeaf == NextOf(sh.levels[0], i)
    requires LeafHalves(p, s, rid, left, right) && LeafFits(left.entries) && LeafFits(right.entries)
    requires img' == img1.(pages := img1.pages[sh.levels[0][i] := left][rid := right])
    requires sh' == AddPage(sh1, 0, i, rid, right.entries[0].key)
    requires LeafChange(img, sh, spare', i, p.entries)
    requires Working(img, sh, {}, spare)
    ensures AtGap(img', sh', spare', route[..|route| - 1], path[..|path| - 1], 1, i + 1, right.entries[0].key, rid)
    ensures NowHolds(img, sh, img', sh', NewContents(img, sh, i, p.entries))
  {
    hide Working, Gapped, LeafHalves, LeafChange, NewContents, Descends, OnRoute, SameChainBytes;
    TakeWorking(img, sh, {}, spare);
    TakenApart(img, sh, {}, spare);
    LeafChangeSame(img, sh, img1, sh1, spare', i, p.entries);
    LeafSplitGap(img1, sh1, {} + {rid}, spare, spare', i, p, s, rid, left, right, img', sh');
    assert ({} + {rid}) - {rid} == {};
    RouteAfterSplit(img.pages, sh.levels, route, path, 0, i, rid, left, right, img'.pages, sh'.levels);
  }

  lemma LeafChangeSame(img: Image, sh: Shape, img1: Image, sh1: Shape, spare: set<PageId>, i: nat, es: seq<LeafEntry>)
    requires LeafChange(img, sh, spare, i, es)
    requires img1.pages == img.pages && sh1.levels == sh.levels && sh1.bounds == sh.bounds
    requires sh1.chains == sh.chains && sh1.cap == sh.cap && sh1.lost == sh.lost
    ensures LeafChange(img1, sh1, spare, i, es) && NewContents(img1, sh1, i, es) == NewContents(img, sh, i, es)
  {
  }

  lemma LeafSplitGap(img: Image, sh: Shape, loose: set<PageId>, spare: set<PageId>, spare': set<PageId>, i: nat,
                     p: PageData, s: nat, rid: PageId, left: PageData, right: PageData, img': Image, sh': Shape)
    requires 0 < |sh.levels| == |sh.bounds| && i < |sh.levels[0]| == |sh.bounds[0]|
    requires p.Leaf? && p.nextLeaf == NextOf(sh.levels[0], i)
    requires LeafHalves(p, s, rid, left, right) && LeafFits(left.entries) && LeafFits(right.entries)
    requires img' == img.(pages := img.pages[sh.levels[0][i] := left][rid := right])
    requires sh' == AddPage(sh, 0, i, rid, right.entries[0].key)
    requires LeafChange(img, sh, spare', i, p.entries) && rid in loose
    requires Working(img, sh, loose, spare)
    ensures Gapped(img', sh', loose - {rid}, spare', 1, i + 1)
    ensures NewPage(sh', 1, i + 1, right.entries[0].key, rid)
    ensures NowHolds(img, sh, img', sh', NewContents(img, sh, i, p.entries))
  {
    hide Working, Gapped, Swollen, Owned, InRange, LeafFits, SameChainBytes, SortedEntries, EntryOk;
    var imgV := img.(pages := img.pages[sh.levels[0][i] := p]);
    LeafRewrite(img, sh, loose, spare, spare', i, p);
    SmallSlices(p.entries, s, sh.cap);
    assert EntryOk(img.pages, sh.chains, p.entries[s]);
    EntryKeyOk(img.pages, sh.chains, p.entries[s]);
    LeafSplitStep(imgV, sh, loose, spare', i, s, rid, left, right);
    assert imgV.pages[sh.levels[0][i] := left] == img.pages[sh.levels[0][i] := left];
    SameBytesTwice(img.pages, imgV.pages, img'.pages, sh.chains);
  }

  lemma EntryKeyOk(pages: PageMap, chains: Chains, e: LeafEntry)
    requires EntryOk(pages, chains, e)
    ensures KeyOk(e.key)
  {
  }

  lemma SameBytesTwice(a: PageMap, b: PageMap, c: PageMap, chains: Chains)
    requires SameChainBytes(a, b, chains) && SameChainBytes(b, c, chains)
    ensures SameChainBytes(a, c, chains)
  {
  }

  lemma RouteAfterSplit(pages: PageMap, levels: seq<Ids>, route: Ids, path: seq<nat>, k: nat, i: nat,
                        rid: PageId, left: PageData, right: PageData, pages': PageMap, levels': seq<Ids>)
    requires Apart(levels) && Unused(levels, rid)
    requires Descends(pages, levels, route, path) && route != [] && |route| + k == |levels| && path[|path| - 1] == i
    requires i < |levels[k]| && pages' == pages[levels[k][i] := left][rid := right]
    requires levels' == levels[k := InsertAt(levels[k], i + 1, rid)]
    ensures OnRoute(pages', levels', route[..|route| - 1], path[..|path| - 1], k + 1, i + 1)
  {
    AboveUntouched(pages, levels, k, levels[k][i], left, rid, right);
    RouteAbove(pages, pages', levels, levels', route, path, k);
  }

  lemma TakenApart(img: Image, sh: Shape, loose: set<PageId>, spare: set<PageId>)
    requires Working(img, sh, loose, spare)
    ensures Apart(sh.levels) && Unused(sh.levels, AfterTake(img, sh).2)
  {
    var (img', sh', x) := AfterTake(img, sh);
    TakePage(img, sh, loose);
    LedgerUnused(sh'.levels, sh'.chains, sh'.free, loose + {x}, sh'.role, img'.high, x);
  }
}
