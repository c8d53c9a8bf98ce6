/** Sorted sequences of leaf entries: lookup and insert-or-replace. */
module Records {
  import opened Lex
  import opened Seqs
  import opened Pages
  import opened Tree

  /** Insert-or-replace by key. */
  ghost function PutEntry(es: seq<LeafEntry>, e: LeafEntry): seq<LeafEntry> {
    if es == [] then [e]
    else if es[0].key == e.key then [e] + es[1..]
    else if Less(e.key, es[0].key) then [e] + es
    else [es[0]] + PutEntry(es[1..], e)
  }

  function Find(es: seq<LeafEntry>, key: bytes): Option<LeafEntry> {
    if es == [] then None
    else if es[0].key == key then Some(es[0])
    else Find(es[1..], key)
  }

  ghost predicate AllBelow(es: seq<LeafEntry>, key: bytes) {
    forall x :: 0 <= x < |es| ==> Less(es[x].key, key)
  }

  ghost predicate NoneBelow(es: seq<LeafEntry>, key: bytes) {
    forall x :: 0 <= x < |es| ==> !Less(es[x].key, key)
  }

  ghost predicate AllAbove(es: seq<LeafEntry>, key: bytes) {
    forall x :: 0 <= x < |es| ==> Less(key, es[x].key)
  }

  // ---------------------------------------------------------------- positions in a sorted sequence

  lemma {:induction false} PutBetween(a: seq<LeafEntry>, b: seq<LeafEntry>, e: LeafEntry)
    requires AllBelow(a, e.key) && (b != [] ==> Less(e.key, b[0].key))
    ensures PutEntry(a + b, e) == a + [e] + b
  {
    hide Less;
    if a == [] {
      assert a + b == b && a + [e] + b == [e] + b;
    } else {
      assert (a + b)[1..] == a[1..] + b;
      PutBetween(a[1..], b, e);
      assert a + [e] + b == [a[0]] + (a[1..] + [e] + b);
    }
  }

  lemma {:induction false} PutReplaces(a: seq<LeafEntry>, was: LeafEntry, b: seq<LeafEntry>, e: LeafEntry)
    requires AllBelow(a, e.key) && was.key == e.key
    ensures PutEntry(a + [was] + b, e) == a + [e] + b
  {
    if a == [] {
      assert a + [was] + b == [was] + b && a + [e] + b == [e] + b;
      assert ([was] + b)[1..] == b;
    } else {
      assert (a + [was] + b)[1..] == a[1..] + [was] + b;
      PutReplaces(a[1..], was, b, e);
      assert a + [e] + b == [a[0]] + (a[1..] + [e] + b);
    }
  }

  lemma {:induction false} FindSkips(a: seq<LeafEntry>, b: seq<LeafEntry>, key: bytes)
    requires AllBelow(a, key)
    ensures Find(a + b, key) == Find(b, key)
  {
    if a == [] {
      assert a + b == b;
    } else {
      assert (a + b)[1..] == a[1..] + b;
      FindSkips(a[1..], b, key);
    }
  }

  lemma {:induction false} FindAbsent(es: seq<LeafEntry>, key: bytes)
    requires AllAbove(es, key)
    ensures Find(es, key) == None
  {
    if es != [] {
      FindAbsent(es[1..], key);
    }
  }

  lemma {:induction false} FindIgnores(a: seq<LeafEntry>, b: seq<LeafEntry>, key: bytes)
    requires AllAbove(b, key)
    ensures Find(a + b, key) == Find(a, key)
  {
    if a == [] {
      assert a + b == b;
      FindAbsent(b, key);
    } else {
      assert (a + b)[1..] == a[1..] + b;
      FindIgnores(a[1..], b, key);
    }
  }

  // ---------------------------------------------------------------- leaves as a partition

  /** Everything left of leaf i is below its bound. */
  lemma {:induction false} LeftOfLeaf(pages: PageMap, ids: Ids, bnds: Bounds, i: nat)
    requires LeavesOk(pages, ids, bnds) && Ascending(bnds) && i < |ids|
    ensures AllBelow(Concat(EntryLists(pages, ids)[..i]), bnds[i])
  {
    var es := EntryLists(pages, ids);
    if i > 0 {
      LeftOfLeaf(pages, ids, bnds, i - 1);
      assert es[..i] == es[..i - 1] + [es[i - 1]];
      ConcatAppend(es[..i - 1], [es[i - 1]]);
      ConcatOne(es[i - 1]);
      assert LeafOk(At(pages, ids[i - 1]), bnds, i - 1, NextOf(ids, i - 1));
      assert Less(bnds[i - 1], bnds[i]);
    }
  }

  /** Nothing from leaf i on is below its bound. */
  lemma {:induction false} FromLeaf(pages: PageMap, ids: Ids, bnds: Bounds, i: nat)
    requires LeavesOk(pages, ids, bnds) && Ascending(bnds) && i < |ids|
    ensures NoneBelow(Concat(EntryLists(pages, ids)[i..]), bnds[i])
    decreases |ids| - i
  {
    var es := EntryLists(pages, ids);
    assert es[i..] == [es[i]] + es[i + 1..];
    ConcatAppend([es[i]], es[i + 1..]);
    ConcatOne(es[i]);
    assert LeafOk(At(pages, ids[i]), bnds, i, NextOf(ids, i));
    if i + 1 < |ids| {
      FromLeaf(pages, ids, bnds, i + 1);
      assert Less(bnds[i], bnds[i + 1]);
    }
  }

  /** The contents around leaf i, split by a key of its range. */
  lemma AroundLeaf(pages: PageMap, ids: Ids, bnds: Bounds, i: nat, key: bytes)
    requires LeavesOk(pages, ids, bnds) && Ascending(bnds) && i < |ids| && InRange(key, bnds, i)
    ensures var es := EntryLists(pages, ids);
            && Contents(pages, ids) == Concat(es[..i]) + es[i] + Concat(es[i + 1..])
            && AllBelow(Concat(es[..i]), key)
            && AllAbove(Concat(es[i + 1..]), key)
  {
    var es := EntryLists(pages, ids);
    ConcatAround(es, i);
    LeftOfLeaf(pages, ids, bnds, i);
    if i + 1 < |ids| {
      FromLeaf(pages, ids, bnds, i + 1);
    } else {
      assert es[i + 1..] == [];
    }
  }

  /** Looking in the routed leaf is looking in the whole tree. */
  lemma FindInLeaf(pages: PageMap, ids: Ids, bnds: Bounds, i: nat, key: bytes)
    requires LeavesOk(pages, ids, bnds) && Ascending(bnds) && i < |ids| && InRange(key, bnds, i)
    ensures Find(Contents(pages, ids), key) == Find(EntryLists(pages, ids)[i], key)
  {
    AroundLeaf(pages, ids, bnds, i, key);
    var es := EntryLists(pages, ids);
    var left, right := Concat(es[..i]), Concat(es[i + 1..]);
    assert left + es[i] + right == left + (es[i] + right);
    FindSkips(left, es[i] + right, key);
    FindIgnores(es[i], right, key);
  }

  /** Inserting into the routed leaf is inserting into the whole tree. */
  lemma PutInLeaf(pages: PageMap, ids: Ids, bnds: Bounds, i: nat, x: nat, e: LeafEntry)
    requires LeavesOk(pages, ids, bnds) && Ascending(bnds) && i < |ids| && InRange(e.key, bnds, i)
    requires var es := EntryLists(pages, ids)[i];
             x <= |es| && AllBelow(es[..x], e.key) && AllAbove(es[x..], e.key)
    ensures var ess := EntryLists(pages, ids);
            Concat(ess[i := InsertAt(ess[i], x, e)]) == PutEntry(Contents(pages, ids), e)
  {
    AroundLeaf(pages, ids, bnds, i, e.key);
    var ess := EntryLists(pages, ids);
    ConcatReplace(ess, i, InsertAt(ess[i], x, e));
    PutBetweenParts(Concat(ess[..i]), ess[i], Concat(ess[i + 1..]), x, e);
  }

  lemma PutBetweenParts(left: seq<LeafEntry>, es: seq<LeafEntry>, right: seq<LeafEntry>, x: nat, e: LeafEntry)
    requires AllBelow(left, e.key) && AllAbove(right, e.key)
    requires x <= |es| && AllBelow(es[..x], e.key) && AllAbove(es[x..], e.key)
    ensures PutEntry(left + es + right, e) == left + InsertAt(es, x, e) + right
  {
    var a, b := left + es[..x], es[x..] + right;
    assert left + es + right == a + b;
    assert left + InsertAt(es, x, e) + right == a + [e] + b;
    PutBetween(a, b, e);
  }

  /** Replacing an entry of the routed leaf is replacing it in the whole tree. */
  lemma ReplaceInLeaf(pages: PageMap, ids: Ids, bnds: Bounds, i: nat, x: nat, e: LeafEntry)
    requires LeavesOk(pages, ids, bnds) && Ascending(bnds) && i < |ids| && InRange(e.key, bnds, i)
    requires var es := EntryLists(pages, ids)[i];
             x < |es| && AllBelow(es[..x], e.key) && es[x].key == e.key
    ensures var ess := EntryLists(pages, ids);
            Concat(ess[i := ess[i][x := e]]) == PutEntry(Contents(pages, ids), e)
  {
    AroundLeaf(pages, ids, bnds, i, e.key);
    var ess := EntryLists(pages, ids);
    ConcatReplace(ess, i, ess[i][x := e]);
    PutReplacesParts(Concat(ess[..i]), ess[i], Concat(ess[i + 1..]), x, e);
  }

  lemma PutReplacesParts(left: seq<LeafEntry>, es: seq<LeafEntry>, right: seq<LeafEntry>, x: nat, e: LeafEntry)
    requires AllBelow(left, e.key) && x < |es| && AllBelow(es[..x], e.key) && es[x].key == e.key
    ensures PutEntry(left + es + right, e) == left + es[x := e] + right
  {
    var a, b := left + es[..x], es[x + 1..] + right;
    assert left + es + right == a + [es[x]] + b;
    assert left + es[x := e] + right == a + [e] + b;
    PutReplaces(a, es[x], b, e);
  }

  /** The contents of a tree are sorted. */
  lemma {:induction false} ContentsSorted(pages: PageMap, ids: Ids, bnds: Bounds, n: nat)
    requires LeavesOk(pages, ids, bnds) && Ascending(bnds) && n <= |ids|
    ensures SortedEntries(Concat(EntryLists(pages, ids)[..n]))
  {
    var es := EntryLists(pages, ids);
    if n > 0 {
      ContentsSorted(pages, ids, bnds, n - 1);
      LeftOfLeaf(pages, ids, bnds, n - 1);
      assert es[..n] == es[..n - 1] + [es[n - 1]];
      ConcatAppend(es[..n - 1], [es[n - 1]]);
      ConcatOne(es[n - 1]);
      var p := At(pages, ids[n - 1]);
      assert LeafOk(p, bnds, n - 1, NextOf(ids, n - 1));
      SortedJoin(Concat(es[..n - 1]), p.entries, bnds[n - 1]);
    }
  }

  lemma SortedJoin(a: seq<LeafEntry>, b: seq<LeafEntry>, key: bytes)
    requires SortedEntries(a) && SortedEntries(b) && AllBelow(a, key) && NoneBelow(b, key)
    ensures SortedEntries(a + b)
  {
  }
}
