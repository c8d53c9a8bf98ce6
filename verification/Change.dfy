/** What storing one entry does to the records and to the documents they
    stand for. */
module Change {
  import opened Lex
  import opened Seqs
  import opened Pages
  import opened KeyCodec
  import opened Tree
  import opened Records
  import opened Space
  import opened Splits
  import opened Database
  import opened Updates
  import opened Reference
  import opened Reads
  import opened Queries
  import opened Climb

  // ---------------------------------------------------------------- documents

  lemma KeyOrder(a: bytes, b: bytes)
    requires Decode(a).Good? && Decode(b).Good?
    ensures Less(a, b) <==> KeyLess(KeyOf(a), KeyOf(b))
    ensures a == b <==> KeyOf(a) == KeyOf(b)
  {
    KeyOfEncoded(a, KeyOf(a));
    KeyOfEncoded(b, KeyOf(b));
    EncodedOrder(KeyOf(a), KeyOf(b));
  }

  /** Storing an entry is an insertion in the reference model. */
  lemma {:induction false} DocsPut(pages: PageMap, chains: Chains, es: seq<LeafEntry>, e: LeafEntry)
    requires EntriesOk(pages, chains, es) && EntryOk(pages, chains, e)
    ensures DocsOf(pages, chains, PutEntry(es, e)) ==
            Insert(DocsOf(pages, chains, es), KeyOf(e.key), StateOf(pages, chains, e))
  {
    if es == [] {
      assert DocsOf(pages, chains, [e]) == [DocOf(pages, chains, e)];
    } else {
      assert EntryOk(pages, chains, es[0]);
      KeyOrder(es[0].key, e.key);
      KeyOrder(e.key, es[0].key);
      DocsCons(pages, chains, es[0], es[1..]);
      assert es == [es[0]] + es[1..];
      if es[0].key == e.key {
        DocsCons(pages, chains, e, es[1..]);
      } else if Less(e.key, es[0].key) {
        DocsCons(pages, chains, e, es);
      } else {
        DocsPut(pages, chains, es[1..], e);
        DocsCons(pages, chains, es[0], PutEntry(es[1..], e));
      }
    }
  }

  ghost function DocOf(pages: PageMap, chains: Chains, e: LeafEntry): (DocumentKey, RevisionState) {
    (KeyOf(e.key), StateOf(pages, chains, e))
  }

  lemma DocsCons(pages: PageMap, chains: Chains, e: LeafEntry, es: seq<LeafEntry>)
    ensures DocsOf(pages, chains, [e] + es) == [DocOf(pages, chains, e)] + DocsOf(pages, chains, es)
  {
  }

  /** Both images give the entries the same values. */
  ghost predicate SameHeads(pages: PageMap, chains: Chains, pages': PageMap, chains': Chains, es: seq<LeafEntry>) {
    forall i :: 0 <= i < |es| && HasChain(es[i]) ==>
      && Head(es[i]) in chains && Head(es[i]) in chains'
      && ChainBytes(pages', chains'[Head(es[i])]) == ChainBytes(pages, chains[Head(es[i])])
  }

  lemma DocsFrame(pages: PageMap, chains: Chains, pages': PageMap, chains': Chains, es: seq<LeafEntry>)
    requires SameHeads(pages, chains, pages', chains', es)
    ensures DocsOf(pages', chains', es) == DocsOf(pages, chains, es)
  {
  }

  // ---------------------------------------------------------------- one entry in its leaf

  ghost predicate Placed(entries: seq<LeafEntry>, key: bytes, found: bool, x: nat) {
    if found then x < |entries| && entries[x].key == key
    else x <= |entries| && AllBelow(entries[..x], key) && AllAbove(entries[x..], key)
  }

  method SearchLeaf(entries: seq<LeafEntry>, key: bytes) returns (found: bool, x: nat)
    requires SortedEntries(entries)
    ensures Placed(entries, key, found, x)
  {
    var below := (e: LeafEntry) => Less(e.key, key);
    x := PartitionPoint(entries, below);
    assert Partitioned(entries, below);
    assert forall i :: 0 <= i < |entries| ==> (Less(entries[i].key, key) <==> i < x) by {
      assert forall i :: 0 <= i < |entries| ==> (below(entries[i]) <==> i < x);
    }
    found := x < |entries| && entries[x].key == key;
    if !found && x < |entries| {
      assert Less(key, entries[x].key);
    }
  }

  function NewEntries(entries: seq<LeafEntry>, found: bool, x: nat, e: LeafEntry): seq<LeafEntry>
    requires if found then x < |entries| else x <= |entries|
  {
    if found then entries[x := e] else InsertAt(entries, x, e)
  }

  function WasValue(entries: seq<LeafEntry>, found: bool, x: nat): Option<ValueRef>
    requires found ==> x < |entries|
  {
    if found then entries[x].value else None
  }

  ghost function DroppedHead(v: Option<ValueRef>): set<PageId> {
    if v.Some? && v.value.Overflow? then {v.value.head} else {}
  }

  lemma PlacedContents(img: Image, sh: Shape, i: nat, entries: seq<LeafEntry>, found: bool, x: nat, e: LeafEntry)
    requires 0 < |sh.levels| == |sh.bounds|
    requires LeavesOk(img.pages, sh.levels[0], sh.bounds[0]) && Ascending(sh.bounds[0])
    requires i < |sh.levels[0]| && InRange(e.key, sh.bounds[0], i)
    requires At(img.pages, sh.levels[0][i]).Leaf? && At(img.pages, sh.levels[0][i]).entries == entries
    requires Placed(entries, e.key, found, x)
    ensures NewContents(img, sh, i, NewEntries(entries, found, x, e)) == PutEntry(Contents(img.pages, sh.levels[0]), e)
    ensures Find(Contents(img.pages, sh.levels[0]), e.key) == if found then Some(entries[x]) else None
  {
    assert LeafOk(At(img.pages, sh.levels[0][i]), sh.bounds[0], i, NextOf(sh.levels[0], i));
    assert EntryLists(img.pages, sh.levels[0])[i] == entries;
    FindInLeaf(img.pages, sh.levels[0], sh.bounds[0], i, e.key);
    if found {
      assert AllBelow(entries[..x], e.key);
      ReplaceInLeaf(img.pages, sh.levels[0], sh.bounds[0], i, x, e);
      PutAtReplaces(entries, e, x);
    } else {
      PutInLeaf(img.pages, sh.levels[0], sh.bounds[0], i, x, e);
      assert entries == entries[..x] + entries[x..];
      FindSkips(entries[..x], entries[x..], e.key);
      FindAbsent(entries[x..], e.key);
    }
  }

  lemma PlacedSorted(entries: seq<LeafEntry>, found: bool, x: nat, e: LeafEntry, bnds: Bounds, i: nat)
    requires SortedEntries(entries) && Placed(entries, e.key, found, x)
    requires i < |bnds| && InRange(e.key, bnds, i)
    requires forall y :: 0 <= y < |entries| ==> InRange(entries[y].key, bnds, i)
    ensures SortedEntries(NewEntries(entries, found, x, e))
    ensures forall y :: 0 <= y < |NewEntries(entries, found, x, e)| ==> InRange(NewEntries(entries, found, x, e)[y].key, bnds, i)
  {
    hide InRange, Less, InsertAt;
    var es := NewEntries(entries, found, x, e);
    if !found {
      InsertAtIndex(entries, x, e);
      forall a, b | 0 <= a < b < |es| ensures Less(es[a].key, es[b].key) {
        if b == x {
          assert es[a] == entries[..x][a];
        } else if a == x {
          assert es[b] == entries[x..][b - x - 1];
        }
      }
    }
  }

  lemma PlacedFits(entries: seq<LeafEntry>, found: bool, x: nat, e: LeafEntry, cap: nat)
    requires LeafFits(entries) && SmallEntries(entries, cap) && LeafRecordSize(e) <= cap
    requires if found then x < |entries| else x <= |entries|
    ensures SmallEntries(NewEntries(entries, found, x, e), cap)
    ensures FitsWithout(NewEntries(entries, found, x, e), x)
    ensures found && LeafRecordSize(e) <= LeafRecordSize(entries[x]) ==> LeafFits(NewEntries(entries, found, x, e))
  {
    hide LeafRecordSize, Total, NewEntries;
    NewSizes(entries, found, x, e);
    var s := Sizes(entries);
    if found {
      TotalAround(s, x);
      TotalAround(s[x := LeafRecordSize(e)], x);
      assert s[x := LeafRecordSize(e)][..x] == s[..x] && s[x := LeafRecordSize(e)][x + 1..] == s[x + 1..];
    } else {
      TotalCut(s, x);
      var t := InsertAt(s, x, LeafRecordSize(e));
      assert t[..x] == s[..x] && t[x + 1..] == s[x..];
    }
  }

  /** The sizes of a leaf's records after one is put at x. */
  lemma NewSizes(entries: seq<LeafEntry>, found: bool, x: nat, e: LeafEntry)
    requires if found then x < |entries| else x <= |entries|
    ensures Sizes(NewEntries(entries, found, x, e))
            == if found then Sizes(entries)[x := LeafRecordSize(e)] else InsertAt(Sizes(entries), x, LeafRecordSize(e))
    ensures |NewEntries(entries, found, x, e)| == if found then |entries| else |entries| + 1
    ensures forall i :: 0 <= i < |NewEntries(entries, found, x, e)| ==>
              NewEntries(entries, found, x, e)[i] == e || NewEntries(entries, found, x, e)[i] in entries
  {
    hide LeafRecordSize;
  }

  /** The entries other than x fit in a page. */
  ghost predicate FitsWithout(entries: seq<LeafEntry>, x: nat) {
    x < |entries| && Total(Sizes(entries)[..x]) + Total(Sizes(entries)[x + 1..]) <= RECORD_SPACE
  }

  lemma PlacedOwned(es: seq<LeafEntry>, e: LeafEntry, heads: set<PageId>)
    requires Owned(es, heads - DroppedHead(e.value)) && SortedEntries(es)
    requires DroppedHead(e.value) <= heads
    ensures var was := Find(es, e.key);
            var dropped := DroppedHead(if was.Some? then was.value.value else None);
            Owned(PutEntry(es, e), heads - dropped) && dropped <= heads
  {
    var was := Find(es, e.key);
    OwnedPut(es, e, heads - DroppedHead(e.value));
    var old' := if was.Some? && HasChain(was.value) then {Head(was.value)} else {};
    var new' := if HasChain(e) then {Head(e)} else {};
    if was.Some? && HasChain(was.value) {
      FindIn(es, e.key);
      assert Head(was.value) in heads - DroppedHead(e.value);
    }
    assert heads - DroppedHead(e.value) - old' + new' == heads - old';
  }

  lemma {:induction false} FindIn(es: seq<LeafEntry>, key: bytes)
    ensures Find(es, key).Some? ==> exists j :: 0 <= j < |es| && es[j] == Find(es, key).value
  {
    if es != [] && es[0].key != key {
      FindIn(es[1..], key);
      if Find(es, key).Some? {
        var j :| 0 <= j < |es[1..]| && es[1..][j] == Find(es, key).value;
        assert es[j + 1] == Find(es, key).value;
      }
    } else if es != [] {
      assert es[0] == es[0];
    }
  }

  /** Where a leaf sits in the tree and how it was reached. */
  ghost predicate LeafSpot(img: Image, sh: Shape, leafId: PageId, nextLeaf: Option<PageId>, route: Ids, path: seq<nat>, i: nat) {
    && 0 < |sh.levels| == |sh.bounds| && i < |sh.levels[0]| == |sh.bounds[0]|
    && |route| == |path| == |sh.levels| && path[|path| - 1] == i && Descends(img.pages, sh.levels, route, path)
    && sh.levels[0][i] == leafId && nextLeaf == NextOf(sh.levels[0], i)
  }

  /** The value of an entry that is about to be dropped. */
  ghost predicate Dropped(img: Image, sh: Shape, v: Option<ValueRef>) {
    v.Some? && v.value.Overflow? ==>
      v.value.head in sh.chains && v.value.length == |ChainBytes(img.pages, sh.chains[v.value.head])|
  }

  lemma RaiseCap(img: Image, sh: Shape, loose: set<PageId>, spare: set<PageId>, cap: nat)
    requires Working(img, sh, loose, spare) && sh.cap <= cap
    ensures Working(img, sh.(cap := cap), loose, spare)
  {
    forall k, x | 0 <= k < |sh.levels| && x in sh.levels[k] ensures PageFits(At(img.pages, x), cap) {
      assert PageFits(At(img.pages, x), sh.cap);
    }
  }

  lemma EntriesMiddle(pages: PageMap, chains: Chains, a: seq<LeafEntry>, b: seq<LeafEntry>, c: seq<LeafEntry>)
    requires EntriesOk(pages, chains, a + b + c)
    ensures EntriesOk(pages, chains, b)
  {
    forall y | 0 <= y < |b| ensures EntryOk(pages, chains, b[y]) {
      assert (a + b + c)[|a| + y] == b[y];
    }
  }

  lemma BlockOk(pages: PageMap, chains: Chains, ess: seq<seq<LeafEntry>>, i: nat)
    requires EntriesOk(pages, chains, Concat(ess)) && i < |ess|
    ensures EntriesOk(pages, chains, ess[i])
  {
    hide EntryOk;
    ConcatAround(ess, i);
    EntriesMiddle(pages, chains, Concat(ess[..i]), ess[i], Concat(ess[i + 1..]));
  }

  lemma TreeContentsSorted(img: Image, sh: Shape)
    requires TreeOk(img.pages, img.root, sh.levels, sh.bounds)
    ensures SortedEntries(Contents(img.pages, sh.levels[0]))
  {
    assert LevelOk(sh.levels[0], sh.bounds[0]);
    ContentsSorted(img.pages, sh.levels[0], sh.bounds[0], |sh.levels[0]|);
    var ess := EntryLists(img.pages, sh.levels[0]);
    assert ess[..|sh.levels[0]|] == ess;
  }

  /** A reached leaf, with what the invariant says of it. */
  ghost predicate LeafAt(img: Image, sh: Shape, i: nat, id: PageId, p: PageData) {
    && 0 < |sh.levels| == |sh.bounds| && i < |sh.levels[0]| == |sh.bounds[0]| && sh.levels[0][i] == id
    && LevelOk(sh.levels[0], sh.bounds[0]) && LeavesOk(img.pages, sh.levels[0], sh.bounds[0])
    && At(img.pages, id) == p && id in img.pages && p.Leaf?
    && LeafOk(p, sh.bounds[0], i, NextOf(sh.levels[0], i))
    && PageFits(p, sh.cap)
  }

  lemma WorkingLeaf(img: Image, sh: Shape, spare: set<PageId>, key: bytes, route: Ids, path: seq<nat>)
    requires Working(img, sh, {}, spare) && Reaches(img.pages, sh, key, route, path)
    ensures route[|route| - 1] in img.pages
    ensures LeafAt(img, sh, path[|path| - 1], route[|route| - 1], img.pages[route[|route| - 1]])
  {
    hide Working, RecordsOk, LeafOk, PageFits, InRange, LevelOk;
    LeafLevel(img, sh, {}, spare);
    var i, id := path[|path| - 1], route[|route| - 1];
    assert id == sh.levels[0][i] && id in sh.levels[0];
    TreeSettled(sh, {}, 0, id);
    assert LeafOk(At(img.pages, id), sh.bounds[0], i, NextOf(sh.levels[0], i));
    IsLeaf(At(img.pages, id), sh.bounds[0], i, NextOf(sh.levels[0], i));
  }

  lemma LeafLevel(img: Image, sh: Shape, loose: set<PageId>, spare: set<PageId>)
    requires Working(img, sh, loose, spare)
    ensures 0 < |sh.levels| == |sh.bounds| && LevelOk(sh.levels[0], sh.bounds[0]) && |sh.levels[0]| == |sh.bounds[0]|
    ensures LeavesOk(img.pages, sh.levels[0], sh.bounds[0]) && PagesFit(img.pages, sh.levels, sh.cap)
    ensures TreeRoles(sh.levels, sh.role) && LooseRoles(loose, sh.role) && Stored(img.pages, sh.role, loose)
  {
    hide RecordsOk, LeavesOk, AllLinked, Apart, PagesFit, TreeRoles, LooseRoles, ChainRoles, FreeRoles, Covers, Stored, ChainsOk, FreeOk;
  }

  lemma IsLeaf(p: PageData, bnds: Bounds, i: nat, next: Option<PageId>)
    requires i < |bnds| && LeafOk(p, bnds, i, next)
    ensures p.Leaf?
  {
  }

  /** Storing an entry in the leaf its key routes to is a lawful change. */
  lemma EntryChange(img: Image, sh: Shape, i: nat, id: PageId, p: PageData, found: bool, x: nat, e: LeafEntry)
    requires LeafAt(img, sh, i, id, p) && InRange(e.key, sh.bounds[0], i) && Placed(p.entries, e.key, found, x)
    requires SortedEntries(Contents(img.pages, sh.levels[0])) && RecordsOk(img, sh, DroppedHead(e.value))
    requires EntryOk(img.pages, sh.chains, e) && LeafRecordSize(e) <= sh.cap
    ensures LeafChange(img, sh, DroppedHead(WasValue(p.entries, found, x)), i, NewEntries(p.entries, found, x, e))
    ensures FitsWithout(NewEntries(p.entries, found, x, e), x)
    ensures NewContents(img, sh, i, NewEntries(p.entries, found, x, e)) == PutEntry(Contents(img.pages, sh.levels[0]), e)
    ensures found ==> EntryOk(img.pages, sh.chains, p.entries[x])
  {
    hide LeavesOk, LevelOk, SortedEntries, Owned, EntryOk, InRange, FitsWithout, NewContents, LeafFits, SmallEntries, Ascending, AllBelow, AllAbove;
    var es := Contents(img.pages, sh.levels[0]);
    var entries' := NewEntries(p.entries, found, x, e);
    LevelAscends(sh.levels[0], sh.bounds[0]);
    PlacedContents(img, sh, i, p.entries, found, x, e);
    PlacedSorted(p.entries, found, x, e, sh.bounds[0], i);
    PlacedFits(p.entries, found, x, e, sh.cap);
    NewHead(img.pages, sh.chains, e);
    PlacedOwned(es, e, sh.chains.Keys - sh.lost);
    EntriesPut(img.pages, sh.chains, es, e);
    NewBlock(img, sh, i, entries');
    if found {
      BlockOk(img.pages, sh.chains, EntryLists(img.pages, sh.levels[0]), i);
    }
  }

  lemma NewHead(pages: PageMap, chains: Chains, e: LeafEntry)
    requires EntryOk(pages, chains, e)
    ensures DroppedHead(e.value) <= chains.Keys
  {
  }

  lemma LevelAscends(ids: Ids, bnds: Bounds)
    requires LevelOk(ids, bnds)
    ensures Ascending(bnds)
  {
  }

  lemma NewBlock(img: Image, sh: Shape, i: nat, entries: seq<LeafEntry>)
    requires |sh.levels| > 0 && i < |sh.levels[0]|
    requires EntriesOk(img.pages, sh.chains, NewContents(img, sh, i, entries))
    ensures EntriesOk(img.pages, sh.chains, entries)
  {
    BlockOk(img.pages, sh.chains, EntryLists(img.pages, sh.levels[0])[i := entries], i);
  }
}
