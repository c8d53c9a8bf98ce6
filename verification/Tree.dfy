/** The shape of a B+Tree stored in a page map.

    A tree is described level by level: `levels[0]` lists the leaves from left
    to right, the last level is the root alone, and every internal level
    concatenates, page by page, to the level below it.  `bounds[k][i]` is the
    lower bound of the key range of page i of level k; the empty byte string is
    below every key. */
module Tree {
  import opened Lex
  import opened Seqs
  import opened Pages

  type Ids = seq<PageId>
  type Bounds = seq<bytes>

  ghost function At(pages: PageMap, id: PageId): PageData {
    if id in pages then pages[id] else Free(0, None)
  }

  ghost function Kids(p: PageData): Ids {
    if p.Internal?
    then [p.leftmostChild] + seq(|p.seps|, i requires 0 <= i < |p.seps| => p.seps[i].rightChild)
    else []
  }

  ghost function SepKeys(p: PageData): Bounds {
    if p.Internal?
    then seq(|p.seps|, i requires 0 <= i < |p.seps| => p.seps[i].key)
    else []
  }

  ghost function Entries(p: PageData): seq<LeafEntry> {
    if p.Leaf? then p.entries else []
  }

  ghost function KidLists(pages: PageMap, ids: Ids): seq<Ids> {
    seq(|ids|, i requires 0 <= i < |ids| => Kids(At(pages, ids[i])))
  }

  ghost function BoundLists(pages: PageMap, ids: Ids, bnds: Bounds): seq<Bounds>
    requires |ids| == |bnds|
  {
    seq(|ids|, i requires 0 <= i < |ids| => [bnds[i]] + SepKeys(At(pages, ids[i])))
  }

  ghost function EntryLists(pages: PageMap, ids: Ids): seq<seq<LeafEntry>> {
    seq(|ids|, i requires 0 <= i < |ids| => Entries(At(pages, ids[i])))
  }

  /** The entries of the leaves, left to right. */
  ghost function Contents(pages: PageMap, leaves: Ids): seq<LeafEntry> {
    Concat(EntryLists(pages, leaves))
  }

  ghost predicate Ascending(bnds: Bounds) {
    forall i, j :: 0 <= i < j < |bnds| ==> Less(bnds[i], bnds[j])
  }

  ghost predicate InRange(key: bytes, bnds: Bounds, i: nat)
    requires i < |bnds|
  {
    !Less(key, bnds[i]) && (i + 1 < |bnds| ==> Less(key, bnds[i + 1]))
  }

  ghost predicate SortedEntries(es: seq<LeafEntry>) {
    forall i, j :: 0 <= i < j < |es| ==> Less(es[i].key, es[j].key)
  }

  ghost predicate SortedSeps(seps: seq<InternalEntry>) {
    forall a, b :: 0 <= a < b < |seps| ==> Less(seps[a].key, seps[b].key)
  }

  /** One level on its own: page identifiers are distinct and the bounds ascend
      from the empty string. */
  ghost predicate LevelOk(ids: Ids, bnds: Bounds) {
    && |ids| == |bnds| > 0
    && bnds[0] == []
    && Ascending(bnds)
    && NoDup(ids)
  }

  ghost predicate Internals(pages: PageMap, ids: Ids) {
    forall i :: 0 <= i < |ids| ==> At(pages, ids[i]).Internal? && At(pages, ids[i]).seps != []
  }

  /** The internal level `ids` describes exactly the level below it: children
      in order, each preceded by its separator. */
  ghost predicate Linked(pages: PageMap, ids: Ids, bnds: Bounds, below: Ids, belowBnds: Bounds) {
    && |ids| == |bnds|
    && Internals(pages, ids)
    && Concat(KidLists(pages, ids)) == below
    && Concat(BoundLists(pages, ids, bnds)) == belowBnds
  }

  ghost predicate LeafOk(p: PageData, bnds: Bounds, i: nat, next: Option<PageId>)
    requires i < |bnds|
  {
    && p.Leaf?
    && p.nextLeaf == next
    && SortedEntries(p.entries)
    && forall x :: 0 <= x < |p.entries| ==> InRange(p.entries[x].key, bnds, i)
  }

  ghost function NextOf(ids: Ids, i: nat): Option<PageId> {
    if i + 1 < |ids| then Some(ids[i + 1]) else None
  }

  ghost predicate LeavesOk(pages: PageMap, ids: Ids, bnds: Bounds) {
    && |ids| == |bnds|
    && forall i :: 0 <= i < |ids| ==> LeafOk(At(pages, ids[i]), bnds, i, NextOf(ids, i))
  }

  /** No page belongs to two levels. */
  ghost predicate Apart(levels: seq<Ids>) {
    forall k, m :: 0 <= k < |levels| && 0 <= m < |levels| && k != m ==>
      forall x :: x in levels[k] ==> x !in levels[m]
  }

  ghost predicate Unused(levels: seq<Ids>, id: PageId) {
    forall k :: 0 <= k < |levels| ==> id !in levels[k]
  }

  ghost predicate LevelsOk(pages: PageMap, levels: seq<Ids>, bounds: seq<Bounds>) {
    && |levels| == |bounds| > 0
    && (forall k :: 0 <= k < |levels| ==> LevelOk(levels[k], bounds[k]))
    && Apart(levels)
    && LeavesOk(pages, levels[0], bounds[0])
  }

  ghost predicate LinkedAt(pages: PageMap, levels: seq<Ids>, bounds: seq<Bounds>, k: nat)
    requires 1 <= k < |levels| == |bounds|
  {
    Linked(pages, levels[k], bounds[k], levels[k - 1], bounds[k - 1])
  }

  ghost predicate AllLinked(pages: PageMap, levels: seq<Ids>, bounds: seq<Bounds>, from: nat)
    requires |levels| == |bounds|
  {
    forall k :: 1 <= from <= k < |levels| ==> LinkedAt(pages, levels, bounds, k)
  }

  /** The B+Tree invariant. */
  ghost predicate TreeOk(pages: PageMap, root: PageId, levels: seq<Ids>, bounds: seq<Bounds>) {
    && LevelsOk(pages, levels, bounds)
    && levels[|levels| - 1] == [root]
    && AllLinked(pages, levels, bounds, 1)
  }

  lemma TreeRoot(pages: PageMap, root: PageId, levels: seq<Ids>, bounds: seq<Bounds>)
    requires TreeOk(pages, root, levels, bounds)
    ensures |levels| == |bounds| > 0 && levels[|levels| - 1] == [root]
  {
    hide LevelOk, Apart, LeavesOk, AllLinked;
  }

  lemma TreeLevel(pages: PageMap, root: PageId, levels: seq<Ids>, bounds: seq<Bounds>, k: nat)
    requires TreeOk(pages, root, levels, bounds) && k < |levels|
    ensures |levels| == |bounds| && LevelOk(levels[k], bounds[k]) && |levels[k]| == |bounds[k]| > 0
    ensures k > 0 ==> LinkedAt(pages, levels, bounds, k)
  {
    hide Apart, LeavesOk, Ascending, Linked;
  }

  lemma TreeLeaf(pages: PageMap, root: PageId, levels: seq<Ids>, bounds: seq<Bounds>, i: nat)
    requires TreeOk(pages, root, levels, bounds) && i < |levels[0]|
    ensures |bounds| > 0 && i < |bounds[0]| && LeafOk(At(pages, levels[0][i]), bounds[0], i, NextOf(levels[0], i))
  {
    hide Apart, LevelOk, AllLinked, LeafOk;
  }

  /** A tree in the middle of an insertion: page c of level k - 1 is new and
      level k does not know it yet; everything else is in place. */
  ghost predicate TreeGap(pages: PageMap, root: PageId, levels: seq<Ids>, bounds: seq<Bounds>, k: nat, c: nat) {
    && LevelsOk(pages, levels, bounds)
    && 1 <= k <= |levels|
    && 0 < c < |levels[k - 1]|
    && (forall m :: 1 <= m < |levels| && m != k ==> LinkedAt(pages, levels, bounds, m))
    && (k < |levels| ==>
          && levels[|levels| - 1] == [root]
          && Linked(pages, levels[k], bounds[k], RemoveAt(levels[k - 1], c), RemoveAt(bounds[k - 1], c)))
    && (k == |levels| ==> RemoveAt(levels[k - 1], c) == [root])
  }

  // ---------------------------------------------------------------- routing

  /** Where the children of the i-th page of an internal level sit below it. */
  lemma ChildBlock(pages: PageMap, ids: Ids, bnds: Bounds, below: Ids, belowBnds: Bounds, i: nat)
    requires Linked(pages, ids, bnds, below, belowBnds)
    requires i < |ids|
    ensures var ks := KidLists(pages, ids);
            var bs := BoundLists(pages, ids, bnds);
            && |below| == |belowBnds|
            && Offset(ks, i) == Offset(bs, i)
            && Offset(ks, i) + |ks[i]| == Offset(ks, i + 1) <= |below|
            && below[Offset(ks, i)..Offset(ks, i + 1)] == ks[i]
            && belowBnds[Offset(ks, i)..Offset(ks, i + 1)] == bs[i]
  {
    var ks, bs := KidLists(pages, ids), BoundLists(pages, ids, bnds);
    OffsetBlock(ks, i);
    OffsetBlock(bs, i);
    OffsetSameSizes(ks, bs, i);
    OffsetSameSizes(ks, bs, i + 1);
    OffsetSameSizes(ks, bs, |ids|);
    assert ks[..|ids|] == ks && bs[..|ids|] == bs;
  }

  lemma LinkedPage(pages: PageMap, ids: Ids, bnds: Bounds, below: Ids, belowBnds: Bounds, i: nat)
    requires Linked(pages, ids, bnds, below, belowBnds) && i < |ids|
    ensures |ids| == |bnds| && At(pages, ids[i]).Internal? && At(pages, ids[i]).seps != []
  {
    hide Concat;
  }

  /** The block after the children of page i starts with the bound of page i + 1. */
  lemma NextBlockBound(pages: PageMap, ids: Ids, bnds: Bounds, below: Ids, belowBnds: Bounds, i: nat)
    requires Linked(pages, ids, bnds, below, belowBnds)
    requires i < |ids|
    ensures Offset(KidLists(pages, ids), i + 1) < |below| == |belowBnds| ==>
              i + 1 < |ids| && belowBnds[Offset(KidLists(pages, ids), i + 1)] == bnds[i + 1]
  {
    var ks, bs := KidLists(pages, ids), BoundLists(pages, ids, bnds);
    if i + 1 < |ids| {
      ChildBlock(pages, ids, bnds, below, belowBnds, i + 1);
      assert bs[i + 1][0] == bnds[i + 1];
    } else {
      assert ks[..|ids|] == ks;
    }
  }

  /** Routing picks the one child whose range holds the key. */
  lemma Route(pages: PageMap, ids: Ids, bnds: Bounds, below: Ids, belowBnds: Bounds,
              i: nat, key: bytes, index: nat)
    requires Linked(pages, ids, bnds, below, belowBnds)
    requires i < |ids| && InRange(key, bnds, i)
    requires index <= |At(pages, ids[i]).seps|
    requires index > 0 ==> !Less(key, At(pages, ids[i]).seps[index - 1].key)
    requires index < |At(pages, ids[i]).seps| ==> Less(key, At(pages, ids[i]).seps[index].key)
    ensures var c := Offset(KidLists(pages, ids), i) + index;
            && c < |below| == |belowBnds|
            && InRange(key, belowBnds, c)
            && below[c] == Kids(At(pages, ids[i]))[index]
  {
    hide Offset, Concat, Less;
    var ks, bs := KidLists(pages, ids), BoundLists(pages, ids, bnds);
    var off, off2 := Offset(ks, i), Offset(ks, i + 1);
    ChildBlock(pages, ids, bnds, below, belowBnds, i);
    NextBlockBound(pages, ids, bnds, below, belowBnds, i);
    var c := off + index;
    assert below[c] == below[off..off2][index];
    assert belowBnds[c] == belowBnds[off..off2][index];
    assert bs[i][index] == if index == 0 then bnds[i] else At(pages, ids[i]).seps[index - 1].key;
    if c + 1 < off2 {
      assert belowBnds[c + 1] == belowBnds[off..off2][index + 1];
      assert bs[i][index + 1] == At(pages, ids[i]).seps[index].key;
    }
  }

  // ---------------------------------------------------------------- growing and splitting pages

  /** Internal page p with a separator and its right child inserted at j. */
  function Grow(p: PageData, j: nat, e: InternalEntry): PageData
    requires p.Internal? && j <= |p.seps|
  {
    p.(seps := InsertAt(p.seps, j, e))
  }

  lemma GrowLists(p: PageData, j: nat, e: InternalEntry, b: bytes)
    requires p.Internal? && j <= |p.seps|
    ensures Kids(Grow(p, j, e)) == InsertAt(Kids(p), j + 1, e.rightChild)
    ensures [b] + SepKeys(Grow(p, j, e)) == InsertAt([b] + SepKeys(p), j + 1, e.key)
  {
    hide InsertAt;
    InsertAtIndex(p.seps, j, e);
    InsertAtIndex(Kids(p), j + 1, e.rightChild);
    InsertAtIndex([b] + SepKeys(p), j + 1, e.key);
    var q := Grow(p, j, e);
    var ks, bs := InsertAt(Kids(p), j + 1, e.rightChild), InsertAt([b] + SepKeys(p), j + 1, e.key);
    forall k | 0 <= k < |ks| ensures Kids(q)[k] == ks[k] && ([b] + SepKeys(q))[k] == bs[k] {
      assert k > 0 ==> Kids(q)[k] == q.seps[k - 1].rightChild && ([b] + SepKeys(q))[k] == q.seps[k - 1].key;
    }
  }

  lemma UpdateLists(pages: PageMap, ids: Ids, bnds: Bounds, i: nat, p: PageData)
    requires NoDup(ids) && i < |ids| == |bnds|
    ensures KidLists(pages[ids[i] := p], ids) == KidLists(pages, ids)[i := Kids(p)]
    ensures BoundLists(pages[ids[i] := p], ids, bnds) == BoundLists(pages, ids, bnds)[i := [bnds[i]] + SepKeys(p)]
  {
  }

  lemma InsertLists(pages: PageMap, ids: Ids, bnds: Bounds, i: nat, rid: PageId, b: bytes, p: PageData)
    requires i <= |ids| == |bnds| && rid !in ids
    ensures KidLists(pages[rid := p], InsertAt(ids, i, rid)) == InsertAt(KidLists(pages, ids), i, Kids(p))
    ensures BoundLists(pages[rid := p], InsertAt(ids, i, rid), InsertAt(bnds, i, b))
         == InsertAt(BoundLists(pages, ids, bnds), i, [b] + SepKeys(p))
  {
    hide InsertAt, Kids, SepKeys;
    InsertAtIndex(ids, i, rid);
    InsertAtIndex(bnds, i, b);
    InsertAtIndex(KidLists(pages, ids), i, Kids(p));
    InsertAtIndex(BoundLists(pages, ids, bnds), i, [b] + SepKeys(p));
    var pages', ids' := pages[rid := p], InsertAt(ids, i, rid);
    forall k | 0 <= k <= |ids|
      ensures KidLists(pages', ids')[k] == InsertAt(KidLists(pages, ids), i, Kids(p))[k]
      ensures BoundLists(pages', ids', InsertAt(bnds, i, b))[k] == InsertAt(BoundLists(pages, ids, bnds), i, [b] + SepKeys(p))[k]
    {
      assert k < i ==> ids'[k] == ids[k];
      assert k > i ==> ids'[k] == ids[k - 1];
    }
  }

  lemma UpdateInternals(pages: PageMap, ids: Ids, i: nat, p: PageData)
    requires Internals(pages, ids) && i < |ids| && p.Internal? && p.seps != []
    ensures Internals(pages[ids[i] := p], ids)
  {
  }

  lemma InsertInternals(pages: PageMap, ids: Ids, i: nat, rid: PageId, p: PageData)
    requires Internals(pages, ids) && i <= |ids| && rid !in ids && p.Internal? && p.seps != []
    ensures Internals(pages[rid := p], InsertAt(ids, i, rid))
  {
  }

  /** Inserting a separator into page i inserts one child below. */
  lemma GrowLinked(pages: PageMap, ids: Ids, bnds: Bounds, below: Ids, belowBnds: Bounds,
                   i: nat, j: nat, e: InternalEntry, c: nat)
    requires Linked(pages, ids, bnds, below, belowBnds) && NoDup(ids)
    requires i < |ids| && j <= |At(pages, ids[i]).seps|
    requires c == Offset(KidLists(pages, ids), i) + j + 1
    ensures c <= |below| == |belowBnds|
    ensures Linked(pages[ids[i] := Grow(At(pages, ids[i]), j, e)], ids, bnds,
                   InsertAt(below, c, e.rightChild), InsertAt(belowBnds, c, e.key))
  {
    hide Concat, Offset, InsertAt, NoDup;
    var p' := Grow(At(pages, ids[i]), j, e);
    InsertAtIndex(At(pages, ids[i]).seps, j, e);
    ChildBlock(pages, ids, bnds, below, belowBnds, i);
    UpdateInternals(pages, ids, i, p');
    hide Internals;
    GrowLists(At(pages, ids[i]), j, e, bnds[i]);
    UpdateLists(pages, ids, bnds, i, p');
    ConcatInsert(KidLists(pages, ids), i, j + 1, e.rightChild);
    ConcatInsert(BoundLists(pages, ids, bnds), i, j + 1, e.key);
  }

  /** Left and right are the halves of internal page p around separator s. */
  ghost predicate Halves(p: PageData, s: nat, left: PageData, right: PageData) {
    && p.Internal? && left.Internal? && right.Internal?
    && 0 < s < |p.seps| - 1
    && left.leftmostChild == p.leftmostChild && left.seps == p.seps[..s]
    && right.leftmostChild == p.seps[s].rightChild && right.seps == p.seps[s + 1..]
  }

  lemma HalvesLists(p: PageData, s: nat, left: PageData, right: PageData, b: bytes)
    requires Halves(p, s, left, right)
    ensures Kids(p) == Kids(left) + Kids(right)
    ensures [b] + SepKeys(p) == ([b] + SepKeys(left)) + ([p.seps[s].key] + SepKeys(right))
  {
  }

  /** Splitting page i around separator s leaves the level below untouched. */
  lemma SplitLinked(pages: PageMap, ids: Ids, bnds: Bounds, below: Ids, belowBnds: Bounds,
                    i: nat, s: nat, rid: PageId, left: PageData, right: PageData)
    requires Linked(pages, ids, bnds, below, belowBnds) && NoDup(ids)
    requires i < |ids| && rid !in ids
    requires Halves(At(pages, ids[i]), s, left, right)
    ensures Linked(pages[ids[i] := left][rid := right], InsertAt(ids, i + 1, rid),
                   InsertAt(bnds, i + 1, At(pages, ids[i]).seps[s].key), below, belowBnds)
  {
    var p := At(pages, ids[i]);
    var pages1 := pages[ids[i] := left];
    HalvesLists(p, s, left, right, bnds[i]);
    UpdateLists(pages, ids, bnds, i, left);
    UpdateInternals(pages, ids, i, left);
    InsertLists(pages1, ids, bnds, i + 1, rid, p.seps[s].key, right);
    InsertInternals(pages1, ids, i + 1, rid, right);
    ConcatCut(KidLists(pages, ids), i, Kids(left), Kids(right));
    ConcatCut(BoundLists(pages, ids, bnds), i, [bnds[i]] + SepKeys(left), [p.seps[s].key] + SepKeys(right));
  }

  // ---------------------------------------------------------------- leaves

  lemma LeafInsertLists(pages: PageMap, ids: Ids, i: nat, rid: PageId, p: PageData)
    requires i <= |ids| && rid !in ids
    ensures EntryLists(pages[rid := p], InsertAt(ids, i, rid)) == InsertAt(EntryLists(pages, ids), i, Entries(p))
  {
  }

  /** Replacing the entries of leaf i. */
  lemma LeafReplaced(pages: PageMap, ids: Ids, bnds: Bounds, i: nat, p: PageData)
    requires LeavesOk(pages, ids, bnds) && NoDup(ids) && i < |ids|
    requires LeafOk(p, bnds, i, NextOf(ids, i))
    ensures LeavesOk(pages[ids[i] := p], ids, bnds)
    ensures EntryLists(pages[ids[i] := p], ids) == EntryLists(pages, ids)[i := p.entries]
  {
  }

  /** Left and right are the halves of leaf p around entry s; right takes over
      the chain. */
  ghost predicate LeafHalves(p: PageData, s: nat, rid: PageId, left: PageData, right: PageData) {
    && p.Leaf? && left.Leaf? && right.Leaf?
    && 0 < s < |p.entries|
    && left.entries == p.entries[..s] && left.nextLeaf == Some(rid)
    && right.entries == p.entries[s..] && right.nextLeaf == p.nextLeaf
  }

  lemma SplitBounds(ids: Ids, bnds: Bounds, i: nat, rid: PageId, sep: bytes)
    requires LevelOk(ids, bnds) && i < |ids| && rid !in ids
    requires Less(bnds[i], sep) && (i + 1 < |bnds| ==> Less(sep, bnds[i + 1]))
    ensures LevelOk(InsertAt(ids, i + 1, rid), InsertAt(bnds, i + 1, sep))
  {
    var b := InsertAt(bnds, i + 1, sep);
    forall x, y | 0 <= x < y < |b|
      ensures Less(b[x], b[y])
    {
      assert b[x] == if x <= i then bnds[x] else if x == i + 1 then sep else bnds[x - 1];
      assert b[y] == if y <= i then bnds[y] else if y == i + 1 then sep else bnds[y - 1];
    }
  }

  lemma LeafSplit(pages: PageMap, ids: Ids, bnds: Bounds, i: nat, s: nat, rid: PageId, left: PageData, right: PageData)
    requires LeavesOk(pages, ids, bnds) && LevelOk(ids, bnds) && i < |ids| && rid !in ids
    requires LeafHalves(At(pages, ids[i]), s, rid, left, right)
    ensures LeavesOk(pages[ids[i] := left][rid := right], InsertAt(ids, i + 1, rid),
                     InsertAt(bnds, i + 1, right.entries[0].key))
    ensures Contents(pages[ids[i] := left][rid := right], InsertAt(ids, i + 1, rid)) == Contents(pages, ids)
    ensures Less(bnds[i], right.entries[0].key)
    ensures i + 1 < |bnds| ==> Less(right.entries[0].key, bnds[i + 1])
  {
    hide LeafOk, InRange, Less, InsertAt, Contents;
    LeafSplitContents(pages, ids, i, s, rid, left, right);
    var p := At(pages, ids[i]);
    var pages' := pages[ids[i] := left][rid := right];
    var sep := right.entries[0].key;
    var ids', bnds' := InsertAt(ids, i + 1, rid), InsertAt(bnds, i + 1, sep);
    InsertAtIndex(ids, i + 1, rid);
    InsertAtIndex(bnds, i + 1, sep);
    assert LeafOk(p, bnds, i, NextOf(ids, i));
    SplitKeyInside(p, bnds, i, s, NextOf(ids, i));
    forall m | 0 <= m < |ids'|
      ensures LeafOk(At(pages', ids'[m]), bnds', m, NextOf(ids', m))
    {
      if m < i {
        assert LeafOk(At(pages, ids[m]), bnds, m, NextOf(ids, m));
        MovedLeafOk(At(pages, ids[m]), bnds, m, bnds', m, NextOf(ids, m));
      } else if m == i {
        LeftHalfOk(p, bnds, i, s, rid, left, right);
      } else if m == i + 1 {
        RightHalfOk(p, bnds, i, s, rid, left, right, NextOf(ids, i));
      } else {
        assert LeafOk(At(pages, ids[m - 1]), bnds, m - 1, NextOf(ids, m - 1));
        MovedLeafOk(At(pages, ids[m - 1]), bnds, m - 1, bnds', m, NextOf(ids, m - 1));
      }
    }
  }

  /** The first key of the right half is strictly inside the range of the leaf. */
  lemma SplitKeyInside(p: PageData, bnds: Bounds, i: nat, s: nat, next: Option<PageId>)
    requires i < |bnds| && LeafOk(p, bnds, i, next) && 0 < s < |p.entries|
    ensures p.nextLeaf == next && Less(bnds[i], p.entries[s].key)
    ensures i + 1 < |bnds| ==> Less(p.entries[s].key, bnds[i + 1])
  {
    assert InRange(p.entries[s].key, bnds, i) && InRange(p.entries[s - 1].key, bnds, i);
    assert Less(p.entries[s - 1].key, p.entries[s].key);
  }

  lemma MovedLeafOk(p: PageData, bnds: Bounds, i: nat, bnds': Bounds, i': nat, next: Option<PageId>)
    requires i < |bnds| && i' < |bnds'| && LeafOk(p, bnds, i, next) && bnds'[i'] == bnds[i]
    requires (i + 1 < |bnds|) == (i' + 1 < |bnds'|) && (i + 1 < |bnds| ==> bnds'[i' + 1] == bnds[i + 1])
    ensures LeafOk(p, bnds', i', next)
  {
    hide Less;
    forall x | 0 <= x < |p.entries| ensures InRange(p.entries[x].key, bnds', i') {
      assert InRange(p.entries[x].key, bnds, i);
    }
  }

  lemma LeafSplitContents(pages: PageMap, ids: Ids, i: nat, s: nat, rid: PageId, left: PageData, right: PageData)
    requires NoDup(ids) && i < |ids| && rid !in ids
    requires LeafHalves(At(pages, ids[i]), s, rid, left, right)
    ensures Contents(pages[ids[i] := left][rid := right], InsertAt(ids, i + 1, rid)) == Contents(pages, ids)
  {
    var p := At(pages, ids[i]);
    LeafInsertLists(pages[ids[i] := left], ids, i + 1, rid, right);
    assert EntryLists(pages[ids[i] := left], ids) == EntryLists(pages, ids)[i := left.entries];
    assert p.entries == left.entries + right.entries;
    ConcatCut(EntryLists(pages, ids), i, left.entries, right.entries);
  }

  lemma LeftHalfOk(p: PageData, bnds: Bounds, i: nat, s: nat, rid: PageId, left: PageData, right: PageData)
    requires i < |bnds| && LeafHalves(p, s, rid, left, right) && LeafOk(p, bnds, i, p.nextLeaf)
    ensures LeafOk(left, InsertAt(bnds, i + 1, right.entries[0].key), i, Some(rid))
  {
    forall x | 0 <= x < |left.entries|
      ensures InRange(left.entries[x].key, InsertAt(bnds, i + 1, right.entries[0].key), i)
    {
      assert InRange(p.entries[x].key, bnds, i);
      assert Less(p.entries[x].key, p.entries[s].key);
    }
  }

  lemma RightHalfOk(p: PageData, bnds: Bounds, i: nat, s: nat, rid: PageId, left: PageData, right: PageData,
                    next: Option<PageId>)
    requires i < |bnds| && LeafHalves(p, s, rid, left, right) && LeafOk(p, bnds, i, next)
    ensures LeafOk(right, InsertAt(bnds, i + 1, right.entries[0].key), i + 1, next)
  {
    forall x | 0 <= x < |right.entries|
      ensures InRange(right.entries[x].key, InsertAt(bnds, i + 1, right.entries[0].key), i + 1)
    {
      assert InRange(p.entries[s + x].key, bnds, i);
      if x > 0 {
        assert Less(p.entries[s].key, p.entries[s + x].key);
      }
    }
  }

  // ---------------------------------------------------------------- whole trees

  lemma LinkedFrame(pages: PageMap, pages': PageMap, ids: Ids, bnds: Bounds, below: Ids, belowBnds: Bounds)
    requires Linked(pages, ids, bnds, below, belowBnds)
    requires forall x :: x in ids ==> At(pages', x) == At(pages, x)
    ensures Linked(pages', ids, bnds, below, belowBnds)
  {
    assert KidLists(pages', ids) == KidLists(pages, ids);
    assert BoundLists(pages', ids, bnds) == BoundLists(pages, ids, bnds);
    forall i | 0 <= i < |ids| ensures At(pages', ids[i]).Internal? && At(pages', ids[i]).seps != [] {
      assert ids[i] in ids;
    }
  }

  lemma LeavesFrame(pages: PageMap, pages': PageMap, ids: Ids, bnds: Bounds)
    requires LeavesOk(pages, ids, bnds)
    requires forall x :: x in ids ==> At(pages', x) == At(pages, x)
    ensures LeavesOk(pages', ids, bnds) && Contents(pages', ids) == Contents(pages, ids)
  {
    assert EntryLists(pages', ids) == EntryLists(pages, ids);
    forall i | 0 <= i < |ids| ensures LeafOk(At(pages', ids[i]), bnds, i, NextOf(ids, i)) {
      assert ids[i] in ids;
    }
  }

  lemma ApartInsert(levels: seq<Ids>, k: nat, i: nat, rid: PageId)
    requires Apart(levels) && Unused(levels, rid) && k < |levels| && i <= |levels[k]|
    ensures Apart(levels[k := InsertAt(levels[k], i, rid)])
  {
    var levels' := levels[k := InsertAt(levels[k], i, rid)];
    forall a, b, x | 0 <= a < |levels'| && 0 <= b < |levels'| && a != b && x in levels'[a]
      ensures x !in levels'[b]
    {
      assert x == rid || x in levels[a];
    }
  }

  /** Replacing the content of one leaf. */
  lemma TreeLeafReplaced(pages: PageMap, root: PageId, levels: seq<Ids>, bounds: seq<Bounds>, i: nat, p: PageData)
    requires TreeOk(pages, root, levels, bounds) && i < |levels[0]|
    requires LeafOk(p, bounds[0], i, NextOf(levels[0], i))
    ensures TreeOk(pages[levels[0][i] := p], root, levels, bounds)
    ensures EntryLists(pages[levels[0][i] := p], levels[0]) == EntryLists(pages, levels[0])[i := p.entries]
  {
    LeafReplaced(pages, levels[0], bounds[0], i, p);
    var pages' := pages[levels[0][i] := p];
    forall k | 1 <= k < |levels| ensures LinkedAt(pages', levels, bounds, k) {
      assert LinkedAt(pages, levels, bounds, k);
      LinkedFrame(pages, pages', levels[k], bounds[k], levels[k - 1], bounds[k - 1]);
    }
  }

  /** Adding a fresh page to one level keeps the levels in order. */
  lemma LevelsInsert(pages: PageMap, levels: seq<Ids>, bounds: seq<Bounds>, k: nat, i: nat, rid: PageId, sep: bytes)
    requires |levels| == |bounds| > k
    requires forall m :: 0 <= m < |levels| ==> LevelOk(levels[m], bounds[m])
    requires Apart(levels) && Unused(levels, rid) && i < |levels[k]| == |bounds[k]|
    requires Less(bounds[k][i], sep) && (i + 1 < |bounds[k]| ==> Less(sep, bounds[k][i + 1]))
    requires LeavesOk(pages, levels[k := InsertAt(levels[k], i + 1, rid)][0], bounds[k := InsertAt(bounds[k], i + 1, sep)][0])
    ensures LevelsOk(pages, levels[k := InsertAt(levels[k], i + 1, rid)], bounds[k := InsertAt(bounds[k], i + 1, sep)])
  {
    SplitBounds(levels[k], bounds[k], i, rid, sep);
    ApartInsert(levels, k, i + 1, rid);
  }

  /** Splitting leaf i opens a gap between levels 0 and 1. */
  lemma TreeLeafSplit(pages: PageMap, root: PageId, levels: seq<Ids>, bounds: seq<Bounds>,
                      i: nat, s: nat, rid: PageId, left: PageData, right: PageData,
                      pages': PageMap, levels': seq<Ids>, bounds': seq<Bounds>)
    requires TreeOk(pages, root, levels, bounds) && i < |levels[0]| && Unused(levels, rid)
    requires LeafHalves(At(pages, levels[0][i]), s, rid, left, right)
    requires pages' == pages[levels[0][i] := left][rid := right]
    requires levels' == levels[0 := InsertAt(levels[0], i + 1, rid)]
    requires bounds' == bounds[0 := InsertAt(bounds[0], i + 1, right.entries[0].key)]
    ensures TreeGap(pages', root, levels', bounds', 1, i + 1)
    ensures Contents(pages', levels'[0]) == Contents(pages, levels[0])
  {
    assert LevelOk(levels[0], bounds[0]);
    LeafSplit(pages, levels[0], bounds[0], i, s, rid, left, right);
    assert LevelsOk(pages', levels', bounds') by {
      LevelsInsert(pages', levels, bounds, 0, i, rid, right.entries[0].key);
    }
    TreeLeafSplitLinks(pages, root, levels, bounds, i, rid, left, right, pages');
    SplitOpensGap(pages', root, levels, bounds, 0, i, rid, right.entries[0].key);
  }

  lemma TreeLeafSplitLinks(pages: PageMap, root: PageId, levels: seq<Ids>, bounds: seq<Bounds>,
                           i: nat, rid: PageId, left: PageData, right: PageData, pages': PageMap)
    requires TreeOk(pages, root, levels, bounds) && i < |levels[0]| && Unused(levels, rid)
    requires pages' == pages[levels[0][i] := left][rid := right]
    ensures AllLinked(pages', levels, bounds, 1)
  {
    forall k | 1 <= k < |levels| ensures LinkedAt(pages', levels, bounds, k) {
      assert LinkedAt(pages, levels, bounds, k);
      LinkedFrame(pages, pages', levels[k], bounds[k], levels[k - 1], bounds[k - 1]);
    }
  }

  /** Once page i of level k is split, level k + 1 is the one that lags. */
  lemma SplitOpensGap(pages: PageMap, root: PageId, levels: seq<Ids>, bounds: seq<Bounds>,
                      k: nat, i: nat, rid: PageId, sep: bytes)
    requires |levels| == |bounds| > k && |bounds[k]| == |levels[k]| > i
    requires levels[|levels| - 1] == [root]
    requires AllLinked(pages, levels, bounds, k + 1)
    requires var levels' := levels[k := InsertAt(levels[k], i + 1, rid)];
             var bounds' := bounds[k := InsertAt(bounds[k], i + 1, sep)];
             && LevelsOk(pages, levels', bounds')
             && forall m :: 1 <= m <= k ==> LinkedAt(pages, levels', bounds', m)
    ensures TreeGap(pages, root, levels[k := InsertAt(levels[k], i + 1, rid)],
                    bounds[k := InsertAt(bounds[k], i + 1, sep)], k + 1, i + 1)
  {
    var levels' := levels[k := InsertAt(levels[k], i + 1, rid)];
    var bounds' := bounds[k := InsertAt(bounds[k], i + 1, sep)];
    assert RemoveAt(levels'[k], i + 1) == levels[k];
    assert RemoveAt(bounds'[k], i + 1) == bounds[k];
    forall m | k + 2 <= m < |levels| ensures LinkedAt(pages, levels', bounds', m) {
      assert LinkedAt(pages, levels, bounds, m);
    }
    if k + 1 < |levels| {
      assert LinkedAt(pages, levels, bounds, k + 1);
    }
  }

  lemma OthersFrame(pages: PageMap, pages': PageMap, levels: seq<Ids>, bounds: seq<Bounds>, k: nat, m: nat)
    requires 1 <= m < |levels| == |bounds| && LinkedAt(pages, levels, bounds, m)
    requires forall x :: x in levels[m] ==> At(pages', x) == At(pages, x)
    ensures LinkedAt(pages', levels, bounds, m)
  {
    LinkedFrame(pages, pages', levels[m], bounds[m], levels[m - 1], bounds[m - 1]);
  }

  /** Where the parent of the new page has to take its separator. */
  lemma GapPosition(pages: PageMap, ids: Ids, bnds: Bounds, below: Ids, belowBnds: Bounds, c: nat, i: nat, t: nat)
    requires LevelOk(below, belowBnds) && 0 < c < |below|
    requires Linked(pages, ids, bnds, RemoveAt(below, c), RemoveAt(belowBnds, c))
    requires i < |ids| && t < |At(pages, ids[i]).seps|
    requires Offset(KidLists(pages, ids), i) < c <= Offset(KidLists(pages, ids), i + 1)
    ensures t < c - 1 - Offset(KidLists(pages, ids), i) ==> Less(At(pages, ids[i]).seps[t].key, belowBnds[c])
    ensures t >= c - 1 - Offset(KidLists(pages, ids), i) ==> Less(belowBnds[c], At(pages, ids[i]).seps[t].key)
  {
    var b := RemoveAt(belowBnds, c);
    var off, off2 := Offset(KidLists(pages, ids), i), Offset(KidLists(pages, ids), i + 1);
    ChildBlock(pages, ids, bnds, RemoveAt(below, c), b, i);
    assert b[off..off2][1 + t] == b[off + 1 + t];
    assert b[off + 1 + t] == At(pages, ids[i]).seps[t].key;
    if off + 1 + t < c {
      assert b[off + 1 + t] == belowBnds[off + 1 + t];
    } else {
      assert b[off + 1 + t] == belowBnds[off + 2 + t];
    }
  }

  /** Telling the parent about the new page closes the gap. */
  lemma GapCloses(pages: PageMap, root: PageId, levels: seq<Ids>, bounds: seq<Bounds>, k: nat, c: nat,
                  i: nat, j: nat, p: PageData, pages': PageMap)
    requires TreeGap(pages, root, levels, bounds, k, c) && k < |levels|
    requires i < |levels[k]| && j <= |At(pages, levels[k][i]).seps|
    requires c == Offset(KidLists(pages, levels[k]), i) + j + 1
    requires p == Grow(At(pages, levels[k][i]), j, InternalEntry(bounds[k - 1][c], levels[k - 1][c]))
    requires pages' == pages[levels[k][i] := p]
    ensures TreeOk(pages', root, levels, bounds)
  {
    var below, belowBnds := levels[k - 1], bounds[k - 1];
    assert LevelOk(levels[k], bounds[k]) && LevelOk(below, belowBnds);
    GrowLinked(pages, levels[k], bounds[k], RemoveAt(below, c), RemoveAt(belowBnds, c), i, j,
               InternalEntry(belowBnds[c], below[c]), c);
    InsertRemove(below, c);
    InsertRemove(belowBnds, c);
    assert LinkedAt(pages', levels, bounds, k);
    assert forall m, x :: 0 <= m < |levels| && m != k && x in levels[m] ==> x != levels[k][i];
    LeavesFrame(pages, pages', levels[0], bounds[0]);
    forall m | 1 <= m < |levels| && m != k ensures LinkedAt(pages', levels, bounds, m) {
      OthersFrame(pages, pages', levels, bounds, k, m);
    }
  }

  /** The promoted separator lies strictly inside the range of the page that
      is split. */
  lemma PromotedInside(pages: PageMap, ids: Ids, bnds: Bounds, below: Ids, belowBnds: Bounds, i: nat, s: nat)
    requires Linked(pages, ids, bnds, below, belowBnds) && Ascending(belowBnds)
    requires i < |ids| && s < |At(pages, ids[i]).seps|
    ensures Less(bnds[i], At(pages, ids[i]).seps[s].key)
    ensures i + 1 < |bnds| ==> Less(At(pages, ids[i]).seps[s].key, bnds[i + 1])
  {
    var off, off2 := Offset(KidLists(pages, ids), i), Offset(KidLists(pages, ids), i + 1);
    ChildBlock(pages, ids, bnds, below, belowBnds, i);
    assert belowBnds[off..off2][0] == belowBnds[off] == bnds[i];
    assert belowBnds[off..off2][1 + s] == belowBnds[off + 1 + s] == At(pages, ids[i]).seps[s].key;
    if i + 1 < |bnds| {
      OffsetBlock(KidLists(pages, ids), i + 1);
      NextBlockBound(pages, ids, bnds, below, belowBnds, i);
    }
  }

  /** Splitting page i of internal level k moves the gap one level up. */
  lemma TreeInternalSplit(pages: PageMap, root: PageId, levels: seq<Ids>, bounds: seq<Bounds>, k: nat,
                          i: nat, s: nat, rid: PageId, left: PageData, right: PageData, pages': PageMap)
    requires TreeOk(pages, root, levels, bounds) && 1 <= k < |levels| && i < |levels[k]| == |bounds[k]| && Unused(levels, rid)
    requires Halves(At(pages, levels[k][i]), s, left, right)
    requires pages' == pages[levels[k][i] := left][rid := right]
    ensures TreeGap(pages', root, levels[k := InsertAt(levels[k], i + 1, rid)],
                    bounds[k := InsertAt(bounds[k], i + 1, At(pages, levels[k][i]).seps[s].key)], k + 1, i + 1)
    ensures Contents(pages', levels[0]) == Contents(pages, levels[0])
  {
    var sep := At(pages, levels[k][i]).seps[s].key;
    var levels' := levels[k := InsertAt(levels[k], i + 1, rid)];
    var bounds' := bounds[k := InsertAt(bounds[k], i + 1, sep)];
    assert LinkedAt(pages, levels, bounds, k);
    assert LevelOk(levels[k - 1], bounds[k - 1]) && LevelOk(levels[k], bounds[k]);
    LeavesFrame(pages, pages', levels[0], bounds[0]);
    PromotedInside(pages, levels[k], bounds[k], levels[k - 1], bounds[k - 1], i, s);
    LevelsInsert(pages', levels, bounds, k, i, rid, sep);
    SplitLinked(pages, levels[k], bounds[k], levels[k - 1], bounds[k - 1], i, s, rid, left, right);
    assert LinkedAt(pages', levels', bounds', k);
    InternalSplitLinks(pages, root, levels, bounds, k, i, rid, left, right, pages');
    forall m | 1 <= m <= k ensures LinkedAt(pages', levels', bounds', m) {
      if m < k {
        assert LinkedAt(pages', levels, bounds, m);
      }
    }
    SplitOpensGap(pages', root, levels, bounds, k, i, rid, sep);
  }

  lemma InternalSplitLinks(pages: PageMap, root: PageId, levels: seq<Ids>, bounds: seq<Bounds>, k: nat,
                           i: nat, rid: PageId, left: PageData, right: PageData, pages': PageMap)
    requires TreeOk(pages, root, levels, bounds) && 1 <= k < |levels| && i < |levels[k]| && Unused(levels, rid)
    requires pages' == pages[levels[k][i] := left][rid := right]
    ensures forall m :: 1 <= m < |levels| && m != k ==> LinkedAt(pages', levels, bounds, m)
  {
    forall m | 1 <= m < |levels| && m != k ensures LinkedAt(pages', levels, bounds, m) {
      assert LinkedAt(pages, levels, bounds, m);
      OthersFrame(pages, pages', levels, bounds, k, m);
    }
  }

  /** A gap above the root is closed by a new root. */
  lemma GapNewRoot(pages: PageMap, root: PageId, levels: seq<Ids>, bounds: seq<Bounds>, c: nat,
                   rid: PageId, p: PageData, pages': PageMap)
    requires TreeGap(pages, root, levels, bounds, |levels|, c) && Unused(levels, rid)
    requires p.Internal? && p.leftmostChild == root
    requires p.seps == [InternalEntry(bounds[|levels| - 1][c], levels[|levels| - 1][c])]
    requires pages' == pages[rid := p]
    ensures TreeOk(pages', rid, levels + [[rid]], bounds + [[[]]])
    ensures Contents(pages', levels[0]) == Contents(pages, levels[0])
  {
    var h := |levels|;
    var levels', bounds' := levels + [[rid]], bounds + [[[]]];
    assert LevelOk(levels[h - 1], bounds[h - 1]);
    assert c == 1 && levels[h - 1] == [root, levels[h - 1][1]] && bounds[h - 1] == [[], bounds[h - 1][1]] by {
      assert |RemoveAt(levels[h - 1], c)| == 1;
      assert RemoveAt(levels[h - 1], c)[0] == levels[h - 1][0];
    }
    LeavesFrame(pages, pages', levels[0], bounds[0]);
    NewRootLinked(pages', rid, p, levels[h - 1], bounds[h - 1]);
    assert Apart(levels');
    assert LevelsOk(pages', levels', bounds');
    forall m | 1 <= m < |levels'| ensures LinkedAt(pages', levels', bounds', m) {
      if m < h {
        assert LinkedAt(pages, levels, bounds, m);
        OthersFrame(pages, pages', levels, bounds, h, m);
        assert LinkedAt(pages', levels, bounds, m);
      }
    }
  }

  lemma NewRootLinked(pages: PageMap, rid: PageId, p: PageData, below: Ids, belowBnds: Bounds)
    requires At(pages, rid) == p && p.Internal? && |below| == |belowBnds| == 2 && belowBnds[0] == []
    requires p.leftmostChild == below[0] && p.seps == [InternalEntry(belowBnds[1], below[1])]
    ensures Linked(pages, [rid], [[]], below, belowBnds)
  {
    assert Kids(p) == below && SepKeys(p) == [belowBnds[1]];
    assert KidLists(pages, [rid]) == [below];
    assert [[]] + SepKeys(p) == belowBnds;
    assert BoundLists(pages, [rid], [[]]) == [belowBnds];
    ConcatOne(below);
    ConcatOne(belowBnds);
  }
}
