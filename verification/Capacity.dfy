/** Which records a tree can take: the exact condition under which a leaf and
    its ancestors fit or can be split (btree/mod.rs, insert_leaf_entries and
    insert_parent_separator). */
module Capacity {
  import opened Lex
  import opened Seqs
  import opened Pages
  import opened Tree
  import opened Records
  import opened Splits
  import opened Database
  import opened Reads
  import opened Climb
  import opened Change

  // ---------------------------------------------------------------- the split that is taken

  ghost predicate LeafSplitAt(es: seq<LeafEntry>, c: nat) {
    LeafSplitFits(es, c) && forall d: nat :: LeafSplitFits(es, d) && d != c ==> Before(c, d, |es| / 2)
  }

  ghost predicate InternalSplitAt(es: seq<InternalEntry>, c: nat) {
    InternalSplitFits(es, c) && forall d: nat :: InternalSplitFits(es, d) && d != c ==> Before(c, d, |es| / 2)
  }

  /** The number of separators below a key. */
  ghost function CountBelow(seps: seq<InternalEntry>, sep: bytes): (n: nat)
    ensures n <= |seps|
  {
    if seps == [] || !Less(seps[0].key, sep) then 0 else 1 + CountBelow(seps[1..], sep)
  }

  lemma {:induction false} CutIsCount(seps: seq<InternalEntry>, sep: bytes, j: nat)
    requires CutAt(seps, sep, j)
    ensures j == CountBelow(seps, sep)
  {
    if seps != [] && j > 0 {
      assert Less(seps[0].key, sep);
      CutIsCount(seps[1..], sep, j - 1);
    }
  }

  /** The separators of a parent that is told of a page whose first key is
      `sep`; only keys matter for the room they take. */
  ghost function Told(seps: seq<InternalEntry>, sep: bytes): (es: seq<InternalEntry>)
    ensures |es| == |seps| + 1
  {
    InsertAt(seps, CountBelow(seps, sep), InternalEntry(sep, 0))
  }

  // ---------------------------------------------------------------- what ancestors and leaves can take

  /** The parent neither has room for the separator nor can be split. */
  ghost predicate ParentStuck(p: PageData, sep: bytes) {
    p.Internal? && !InternalFits(Told(p.seps, sep)) && |Told(p.seps, sep)| < 3
  }

  /** The ancestors of a split page can take its separator: each one met on the
      way up has room, or has enough separators to be split itself. */
  ghost predicate Takes(pages: PageMap, route: Ids, sep: bytes)
    decreases |route|
  {
    route == []
    || var p := At(pages, route[|route| - 1]);
       p.Internal?
       && (InternalFits(Told(p.seps, sep))
           || (|Told(p.seps, sep)| >= 3
               && exists c: nat :: InternalSplitAt(Told(p.seps, sep), c) && Takes(pages, route[..|route| - 1], Told(p.seps, sep)[c].key)))
  }

  /** The entries neither fit in a leaf nor leave a split. */
  ghost predicate NoSplit(entries: seq<LeafEntry>) {
    !LeafFits(entries) && forall c: nat :: !LeafSplitFits(entries, c)
  }

  /** The leaf at the end of the route can be given these entries. */
  ghost predicate LeafStores(pages: PageMap, route: Ids, entries: seq<LeafEntry>)
    requires route != []
  {
    LeafFits(entries) || exists c: nat :: LeafSplitAt(entries, c) && Takes(pages, route[..|route| - 1], entries[c].key)
  }

  // ---------------------------------------------------------------- only keys and sizes matter

  ghost predicate SameSeps(es: seq<InternalEntry>, es': seq<InternalEntry>) {
    |es| == |es'| && forall i :: 0 <= i < |es| ==> es[i].key == es'[i].key
  }

  lemma SameSepsFit(es: seq<InternalEntry>, es': seq<InternalEntry>)
    requires SameSeps(es, es')
    ensures InternalFits(es) == InternalFits(es')
  {
    assert SepSizes(es) == SepSizes(es');
  }

  lemma SameSepsSplit(es: seq<InternalEntry>, es': seq<InternalEntry>, c: nat)
    requires SameSeps(es, es')
    ensures InternalSplitAt(es, c) == InternalSplitAt(es', c)
  {
    forall d: nat ensures InternalSplitFits(es, d) == InternalSplitFits(es', d) {
      if d < |es| {
        SameSepsFit(es[..d], es'[..d]);
        SameSepsFit(es[d + 1..], es'[d + 1..]);
      }
    }
  }

  lemma ToldSame(seps: seq<InternalEntry>, sep: bytes, j: nat, right: PageId)
    requires CutAt(seps, sep, j)
    ensures SameSeps(Told(seps, sep), InsertAt(seps, j, InternalEntry(sep, right)))
  {
    CutIsCount(seps, sep, j);
  }

  ghost predicate SameRecords(es: seq<LeafEntry>, es': seq<LeafEntry>) {
    |es| == |es'| && forall i :: 0 <= i < |es| ==> es[i].key == es'[i].key && LeafRecordSize(es[i]) == LeafRecordSize(es'[i])
  }

  lemma SameRecordsFit(es: seq<LeafEntry>, es': seq<LeafEntry>)
    requires SameRecords(es, es')
    ensures LeafFits(es) == LeafFits(es')
  {
    assert Sizes(es) == Sizes(es');
  }

  lemma SameRecordsSplit(es: seq<LeafEntry>, es': seq<LeafEntry>)
    requires SameRecords(es, es')
    ensures forall c: nat :: LeafSplitFits(es, c) == LeafSplitFits(es', c)
    ensures forall c: nat :: LeafSplitAt(es, c) == LeafSplitAt(es', c)
  {
    hide LeafRecordSize, LeafFits;
    forall d: nat ensures LeafSplitFits(es, d) == LeafSplitFits(es', d) {
      if d < |es| {
        SameRecordsFit(es[..d], es'[..d]);
        SameRecordsFit(es[d..], es'[d..]);
      }
    }
  }

  lemma SameRecordsStore(pages: PageMap, route: Ids, es: seq<LeafEntry>, es': seq<LeafEntry>)
    requires SameRecords(es, es') && route != []
    ensures LeafStores(pages, route, es) == LeafStores(pages, route, es')
    ensures NoSplit(es) == NoSplit(es')
  {
    hide LeafFits, LeafSplitAt, LeafSplitFits, Takes, LeafRecordSize;
    SameRecordsFit(es, es');
    SameRecordsSplit(es, es');
    forall c: nat | LeafSplitAt(es, c) ensures c < |es| {
      SplitInside(es, c);
    }
  }

  lemma SplitInside(es: seq<LeafEntry>, c: nat)
    requires LeafSplitAt(es, c)
    ensures 1 <= c < |es|
  {
  }

  // ---------------------------------------------------------------- steps of the climb

  lemma SplitOnce(es: seq<InternalEntry>, c: nat, d: nat)
    requires InternalSplitAt(es, c) && InternalSplitAt(es, d)
    ensures c == d
  {
  }

  lemma LeafSplitOnce(es: seq<LeafEntry>, c: nat, d: nat)
    requires LeafSplitAt(es, c) && LeafSplitAt(es, d)
    ensures c == d
  {
  }

  lemma {:induction false} TakesFrame(pages: PageMap, pages': PageMap, route: Ids, sep: bytes)
    requires forall t :: 0 <= t < |route| ==> At(pages', route[t]) == At(pages, route[t])
    ensures Takes(pages', route, sep) == Takes(pages, route, sep)
    decreases |route|
  {
    if route != [] {
      hide InternalFits, InternalSplitAt;
      var above := route[..|route| - 1];
      forall s: bytes ensures Takes(pages', above, s) == Takes(pages, above, s) {
        TakesFrame(pages, pages', above, s);
      }
    }
  }

  /** The parent has room. */
  lemma TakesFits(pages: PageMap, route: Ids, sep: bytes, j: nat, right: PageId)
    requires route != [] && At(pages, route[|route| - 1]).Internal?
    requires var p := At(pages, route[|route| - 1]); CutAt(p.seps, sep, j) && InternalFits(InsertAt(p.seps, j, InternalEntry(sep, right)))
    ensures Takes(pages, route, sep)
  {
    var p := At(pages, route[|route| - 1]);
    ToldSame(p.seps, sep, j, right);
    SameSepsFit(Told(p.seps, sep), InsertAt(p.seps, j, InternalEntry(sep, right)));
  }

  /** The parent is split: it takes the separator if those above it take the
      promoted one. */
  lemma TakesSplit(pages: PageMap, route: Ids, sep: bytes, j: nat, right: PageId, s: nat)
    requires route != [] && At(pages, route[|route| - 1]).Internal?
    requires j <= |At(pages, route[|route| - 1]).seps|
    requires var p := At(pages, route[|route| - 1]);
             var es := InsertAt(p.seps, j, InternalEntry(sep, right));
             CutAt(p.seps, sep, j) && !InternalFits(es) && |es| >= 3 && InternalSplitAt(es, s)
    ensures var es := InsertAt(At(pages, route[|route| - 1]).seps, j, InternalEntry(sep, right));
            s < |es| && (Takes(pages, route, sep) <==> Takes(pages, route[..|route| - 1], es[s].key))
  {
    var p := At(pages, route[|route| - 1]);
    var es := InsertAt(p.seps, j, InternalEntry(sep, right));
    ToldSame(p.seps, sep, j, right);
    SameSepsFit(Told(p.seps, sep), es);
    SameSepsSplit(Told(p.seps, sep), es, s);
    hide InternalFits, CutAt;
    if Takes(pages, route, sep) {
      var c: nat :| InternalSplitAt(Told(p.seps, sep), c) && Takes(pages, route[..|route| - 1], Told(p.seps, sep)[c].key);
      SplitOnce(Told(p.seps, sep), c, s);
    }
  }

  lemma TakesStuck(pages: PageMap, route: Ids, sep: bytes)
    requires route != [] && ParentStuck(At(pages, route[|route| - 1]), sep)
    ensures !Takes(pages, route, sep)
  {
  }

  /** The pages of a route above a split page are as they were. */
  lemma RouteUntouched(pages: PageMap, levels: seq<Ids>, route: Ids, path: seq<nat>, k: nat, i: nat, rid: PageId, left: PageData, next: PageData)
    requires Apart(levels) && Unused(levels, rid) && Descends(pages, levels, route, path)
    requires route != [] && |route| + k == |levels| && path[|path| - 1] == i && i < |levels[k]|
    ensures forall t :: 0 <= t < |route| - 1 ==> At(pages[levels[k][i] := left][rid := next], route[t]) == At(pages, route[t])
  {
    AboveUntouched(pages, levels, k, levels[k][i], left, rid, next);
    forall t | 0 <= t < |route| - 1 ensures At(pages[levels[k][i] := left][rid := next], route[t]) == At(pages, route[t]) {
      assert route[t] in levels[|levels| - 1 - t];
    }
  }

  // ---------------------------------------------------------------- the place of a key is unique

  ghost predicate PlaceOk(leaf: PageData, found: bool, x: nat) {
    leaf.Leaf? && if found then x < |leaf.entries| else x <= |leaf.entries|
  }

  ghost predicate Located(img: Image, sh: Shape, key: bytes, route: Ids, path: seq<nat>, leafId: PageId, leaf: PageData,
                          found: bool, x: nat) {
    && Reaches(img.pages, sh, key, route, path) && route[|route| - 1] == leafId
    && leafId in img.pages && leaf == img.pages[leafId] && leaf.Leaf?
    && Placed(leaf.entries, key, found, x)
  }

  lemma OffsetGrows<T>(xss: seq<seq<T>>, i: nat, j: nat)
    requires i <= j <= |xss|
    ensures Offset(xss, i) <= Offset(xss, j)
  {
    assert xss[..j] == xss[..i] + xss[i..j];
    ConcatAppend(xss[..i], xss[i..j]);
  }

  lemma ParentOnce(pages: PageMap, levels: seq<Ids>, m: nat, i: nat, j: nat, c: nat)
    requires m < |levels| && ChildOf(pages, levels, m, i, c) && ChildOf(pages, levels, m, j, c)
    ensures i == j
  {
    var ks := KidLists(pages, levels[m]);
    if i < j {
      OffsetGrows(ks, i + 1, j);
    } else if j < i {
      OffsetGrows(ks, j + 1, i);
    }
  }

  lemma {:induction false} PathOnce(pages: PageMap, levels: seq<Ids>, route: Ids, path: seq<nat>, route': Ids, path': seq<nat>, t: nat)
    requires Descends(pages, levels, route, path) && Descends(pages, levels, route', path')
    requires |path| == |path'| && t < |path| && path[|path| - 1] == path'[|path| - 1]
    ensures path[t] == path'[t]
    decreases |path| - t
  {
    if t + 1 < |path| {
      PathOnce(pages, levels, route, path, route', path', t + 1);
      assert ChildOf(pages, levels, |levels| - 1 - t, path[t], path[t + 1]);
      ParentOnce(pages, levels, |levels| - 1 - t, path[t], path'[t], path[t + 1]);
    }
  }

  /** A key lies in one range of a level only. */
  lemma RangeOnce(bnds: Bounds, key: bytes, i: nat, j: nat)
    requires Ascending(bnds) && i < |bnds| && j < |bnds| && InRange(key, bnds, i) && InRange(key, bnds, j)
    ensures i == j
  {
    assert forall m :: 0 <= m < |bnds| ==> (m <= i <==> !Less(key, bnds[m])) by {
      RangeRank(bnds, key, i);
    }
    RangeRank(bnds, key, j);
  }

  lemma RangeRank(bnds: Bounds, key: bytes, i: nat)
    requires Ascending(bnds) && i < |bnds| && InRange(key, bnds, i)
    ensures forall m :: 0 <= m < |bnds| ==> (m <= i <==> !Less(key, bnds[m]))
  {
    forall m | 0 <= m < |bnds| ensures m <= i <==> !Less(key, bnds[m]) {
      assert m < i ==> Less(bnds[m], bnds[i]);
      assert i + 1 < m ==> Less(bnds[i + 1], bnds[m]);
    }
  }

  lemma ReachesOnce(pages: PageMap, sh: Shape, key: bytes, route: Ids, path: seq<nat>, route': Ids, path': seq<nat>)
    requires Reaches(pages, sh, key, route, path) && Reaches(pages, sh, key, route', path') && Ascending(sh.bounds[0])
    ensures route == route' && path == path'
  {
    var n := |path| - 1;
    RangeOnce(sh.bounds[0], key, path[n], path'[n]);
    forall t | 0 <= t < |path| ensures path[t] == path'[t] && route[t] == route'[t] {
      PathOnce(pages, sh.levels, route, path, route', path', t);
    }
  }

  lemma PlacedOnce(entries: seq<LeafEntry>, key: bytes, found: bool, x: nat, found': bool, x': nat)
    requires SortedEntries(entries) && Placed(entries, key, found, x) && Placed(entries, key, found', x')
    ensures found == found' && x == x'
  {
    PlacedRank(entries, key, found, x);
    PlacedRank(entries, key, found', x');
    assert x < |entries| ==> (x < x <==> x < x');
    assert x' < |entries| ==> (x' < x <==> x' < x');
  }

  /** The entries below a key are those before its place. */
  lemma PlacedRank(entries: seq<LeafEntry>, key: bytes, found: bool, x: nat)
    requires SortedEntries(entries) && Placed(entries, key, found, x)
    ensures x <= |entries| && (found <==> x < |entries| && entries[x].key == key)
    ensures forall i :: 0 <= i < |entries| ==> (i < x <==> Less(entries[i].key, key))
  {
    forall i | 0 <= i < |entries| ensures i < x <==> Less(entries[i].key, key) {
      if !found && i < x {
        assert entries[..x][i] == entries[i];
      } else if !found {
        assert entries[x..][i - x] == entries[i];
      }
    }
    assert !found && x < |entries| ==> entries[x..][0] == entries[x];
  }

  // ---------------------------------------------------------------- storing a record

  /** The tree can take this record: its leaf fits or can be split, and so do
      the ancestors that a split reaches. */
  ghost predicate Stores(img: Image, sh: Shape, e: LeafEntry) {
    exists route, path, leafId, leaf, found, x ::
      Located(img, sh, e.key, route, path, leafId, leaf, found, x) && StoresAt(img.pages, route, leaf, found, x, e)
  }

  ghost predicate StoresAt(pages: PageMap, route: Ids, leaf: PageData, found: bool, x: nat, e: LeafEntry) {
    route != [] && PlaceOk(leaf, found, x) && LeafStores(pages, route, NewEntries(leaf.entries, found, x, e))
  }

  /** The leaf of the record has no room and cannot be split. */
  ghost predicate NoRoom(img: Image, sh: Shape, e: LeafEntry) {
    exists route, path, leafId, leaf, found, x ::
      Located(img, sh, e.key, route, path, leafId, leaf, found, x) && NoRoomAt(leaf, found, x, e)
  }

  ghost predicate NoRoomAt(leaf: PageData, found: bool, x: nat, e: LeafEntry) {
    PlaceOk(leaf, found, x) && NoSplit(NewEntries(leaf.entries, found, x, e))
  }

  /** Where the key of a record belongs decides whether it is stored. */
  lemma StoresHere(img: Image, sh: Shape, route: Ids, path: seq<nat>, leafId: PageId, leaf: PageData, found: bool, x: nat, e: LeafEntry)
    requires Sound(img, sh) && Located(img, sh, e.key, route, path, leafId, leaf, found, x)
    ensures Stores(img, sh, e) <==> StoresAt(img.pages, route, leaf, found, x, e)
    ensures NoRoom(img, sh, e) <==> NoRoomAt(leaf, found, x, e)
    ensures PlaceOk(leaf, found, x) && route != []
  {
    WorkingLeaf(img, sh, {}, e.key, route, path);
    hide Sound, StoresAt, NoRoomAt, Descends, InRange, LeavesOk, PageFits;
    LevelAscends(sh.levels[0], sh.bounds[0]);
    forall route', path', leafId', leaf', found', x' | Located(img, sh, e.key, route', path', leafId', leaf', found', x')
      ensures route' == route && path' == path && leafId' == leafId && leaf' == leaf && found' == found && x' == x
    {
      ReachesOnce(img.pages, sh, e.key, route, path, route', path');
      PlacedOnce(leaf.entries, e.key, found, x, found', x');
    }
  }

  lemma NoRoomNoStore(pages: PageMap, route: Ids, leaf: PageData, found: bool, x: nat, e: LeafEntry)
    requires NoRoomAt(leaf, found, x, e)
    ensures !StoresAt(pages, route, leaf, found, x, e)
  {
  }

  /** A record of the same key and size is stored alike. */
  lemma StoresAlike(pages: PageMap, route: Ids, leaf: PageData, found: bool, x: nat, e: LeafEntry, e': LeafEntry)
    requires PlaceOk(leaf, found, x) && e.key == e'.key && LeafRecordSize(e) == LeafRecordSize(e') && route != []
    ensures StoresAt(pages, route, leaf, found, x, e) == StoresAt(pages, route, leaf, found, x, e')
    ensures NoRoomAt(leaf, found, x, e) == NoRoomAt(leaf, found, x, e')
  {
    hide LeafRecordSize, LeafStores, NoSplit;
    SameRecordsStore(pages, route, NewEntries(leaf.entries, found, x, e), NewEntries(leaf.entries, found, x, e'));
  }

  lemma StoresFrame(pages: PageMap, pages': PageMap, route: Ids, leaf: PageData, found: bool, x: nat, e: LeafEntry)
    requires forall t :: 0 <= t < |route| ==> At(pages', route[t]) == At(pages, route[t])
    ensures StoresAt(pages', route, leaf, found, x, e) == StoresAt(pages, route, leaf, found, x, e)
  {
    hide Takes, LeafFits, LeafSplitAt;
    if route != [] {
      var above := route[..|route| - 1];
      forall s: bytes ensures Takes(pages', above, s) == Takes(pages, above, s) {
        TakesFrame(pages, pages', above, s);
      }
      forall es: seq<LeafEntry>, c: nat | LeafSplitAt(es, c) ensures c < |es| {
        SplitInside(es, c);
      }
    }
  }

  // ---------------------------------------------------------------- what a failed climb leaves

  /** Page `right` is in its level, split off the page before it, but the parent
      that has to learn of it neither has room nor can be split. */
  ghost predicate OrphanAt(img: Image, sh: Shape, spare: set<PageId>, route: Ids, path: seq<nat>, k: nat, c: nat, sep: bytes, right: PageId) {
    && AtGap(img, sh, spare, route, path, k, c, sep, right)
    && route != [] && ParentStuck(At(img.pages, route[|route| - 1]), sep)
  }

  ghost predicate Orphaned(img: Image, sh: Shape, spare: set<PageId>) {
    exists route, path, k, c, sep, right :: OrphanAt(img, sh, spare, route, path, k, c, sep, right)
  }

  /** No page of the tree names `right` as a child. */
  ghost predicate Unlinked(img: Image, sh: Shape, right: PageId) {
    && right != img.root
    && forall m, x :: 0 <= m < |sh.levels| && x in sh.levels[m] ==> right !in Kids(At(img.pages, x))
  }

  lemma KidBelow(pages: PageMap, ids: Ids, bnds: Bounds, below: Ids, belowBnds: Bounds, x: PageId, y: PageId)
    requires Linked(pages, ids, bnds, below, belowBnds) && x in ids && y in Kids(At(pages, x))
    ensures y in below
  {
    var i :| 0 <= i < |ids| && ids[i] == x;
    InConcat(KidLists(pages, ids), i, y);
  }

  /** The page split off last holds its part of the level, but nothing leads to
      it. */
  lemma OrphanUnlinked(img: Image, sh: Shape, spare: set<PageId>, route: Ids, path: seq<nat>, k: nat, c: nat, sep: bytes, right: PageId)
    requires OrphanAt(img, sh, spare, route, path, k, c, sep, right)
    ensures 1 <= k < |sh.levels| && c < |sh.levels[k - 1]| && sh.levels[k - 1][c] == right && Unlinked(img, sh, right)
  {
    GapTree(img, sh, spare, k, c);
    hide Gapped, Descends;
    assert k < |sh.levels|;
    GapUnlinked(img.pages, img.root, sh.levels, sh.bounds, k, c);
  }

  lemma GapTree(img: Image, sh: Shape, spare: set<PageId>, k: nat, c: nat)
    requires Gapped(img, sh, {}, spare, k, c)
    ensures TreeGap(img.pages, img.root, sh.levels, sh.bounds, k, c)
  {
    hide TreeGap, SpaceOk, RecordsOk, PagesFit;
  }

  lemma GapUnlinked(pages: PageMap, root: PageId, levels: seq<Ids>, bounds: seq<Bounds>, k: nat, c: nat)
    requires TreeGap(pages, root, levels, bounds, k, c) && k < |levels|
    ensures c < |levels[k - 1]| && levels[k - 1][c] != root
    ensures forall m, x :: 0 <= m < |levels| && x in levels[m] ==> levels[k - 1][c] !in Kids(At(pages, x))
  {
    var right := levels[k - 1][c];
    assert right in levels[k - 1] && root in levels[|levels| - 1];
    forall m, x | 0 <= m < |levels| && x in levels[m] ensures right !in Kids(At(pages, x)) {
      GapKid(pages, root, levels, bounds, k, c, m, x);
    }
  }

  lemma GapKid(pages: PageMap, root: PageId, levels: seq<Ids>, bounds: seq<Bounds>, k: nat, c: nat, m: nat, x: PageId)
    requires TreeGap(pages, root, levels, bounds, k, c) && k < |levels| && m < |levels| && x in levels[m]
    ensures levels[k - 1][c] !in Kids(At(pages, x))
  {
    var right := levels[k - 1][c];
    assert right in levels[k - 1];
    if m == 0 {
      var i :| 0 <= i < |levels[0]| && levels[0][i] == x;
      assert LeafOk(At(pages, levels[0][i]), bounds[0], i, NextOf(levels[0], i));
    } else {
      hide Linked, LeavesOk, Ascending;
      var below := if m == k then RemoveAt(levels[m - 1], c) else levels[m - 1];
      var bnds := if m == k then RemoveAt(bounds[m - 1], c) else bounds[m - 1];
      assert m != k ==> LinkedAt(pages, levels, bounds, m);
      assert LevelOk(levels[k - 1], bounds[k - 1]);
      assert right !in below;
      forall y | y in Kids(At(pages, x)) ensures y in below {
        KidBelow(pages, levels[m], bounds[m], below, bnds, x, y);
      }
    }
  }
}
