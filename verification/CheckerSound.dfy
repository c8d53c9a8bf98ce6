/** What an image the checker accepts gives its readers: every entry is found,
    in key order, and every value can be read (btree/checker.rs). */
module CheckerSound {
  import opened Lex
  import opened Seqs
  import opened Pages
  import opened Tree
  import opened Records
  import opened Space
  import opened Splits
  import opened Database
  import opened Errors
  import opened Reads
  import opened Queries
  import opened Checker

  /** What decoding makes sure of: the separators of a page ascend. */
  ghost predicate Decoded(img: Image) {
    forall x :: InFile(img, x) && img.pages[x].Internal? ==> SortedSeps(img.pages[x].seps)
  }

  // ---------------------------------------------------------------- one child of a page

  /** The entries and pages of a page's children, around child c. */
  lemma AroundKid(pages: PageMap, kids: seq<Node>, c: nat)
    requires c < |kids|
    ensures EntriesOfAll(pages, kids) == EntriesOfAll(pages, kids[..c]) + EntriesOf(pages, kids[c]) + EntriesOfAll(pages, kids[c + 1..])
    ensures PagesOfAll(kids) == PagesOfAll(kids[..c]) + PagesOf(kids[c]) + PagesOfAll(kids[c + 1..])
  {
    hide *;
    assert kids == kids[..c] + [kids[c]] + kids[c + 1..];
    AllAppend(pages, kids[..c] + [kids[c]], kids[c + 1..]);
    AllAppendOne(pages, kids[..c], kids[c]);
  }

  lemma SortedPart(a: seq<LeafEntry>, b: seq<LeafEntry>, c: seq<LeafEntry>)
    requires SortedEntries(a + b + c)
    ensures SortedEntries(b)
  {
    var all := a + b + c;
    assert forall i :: 0 <= i < |b| ==> all[|a| + i] == b[i];
  }

  lemma NoDupMiddle(x: PageId, a: Ids, b: Ids, c: Ids)
    requires NoDup([x] + (a + b + c))
    ensures NoDup(b) && x !in b && forall y :: y in b ==> y in [x] + (a + b + c)
  {
    var all := [x] + (a + b + c);
    assert forall i :: 0 <= i < |b| ==> all[1 + |a| + i] == b[i];
    assert all[0] == x;
  }

  lemma KidParts(img: Image, t: Node, lower: Option<bytes>, upper: Option<bytes>, c: nat)
    requires IsTree(img, t, lower, upper) && t.InnerNode? && c < |t.kids|
    requires SortedEntries(EntriesOf(img.pages, t)) && NoDup(PagesOf(t))
    ensures SortedEntries(EntriesOf(img.pages, t.kids[c])) && NoDup(PagesOf(t.kids[c]))
    ensures t.id !in PagesOf(t.kids[c]) && forall y :: y in PagesOf(t.kids[c]) ==> y in PagesOf(t)
  {
    hide IsTree, SortedEntries, NoDup;
    AroundKid(img.pages, t.kids, c);
    SortedPart(EntriesOfAll(img.pages, t.kids[..c]), EntriesOf(img.pages, t.kids[c]), EntriesOfAll(img.pages, t.kids[c + 1..]));
    NoDupMiddle(t.id, PagesOfAll(t.kids[..c]), PagesOf(t.kids[c]), PagesOfAll(t.kids[c + 1..]));
  }

  /** All keys of child i lie between its separators. */
  ghost predicate Within(es: seq<LeafEntry>, seps: seq<InternalEntry>, i: nat)
    requires i <= |seps|
  {
    forall x :: 0 <= x < |es| ==>
      (i < |seps| ==> Less(es[x].key, seps[i].key)) && (i > 0 ==> !Less(es[x].key, seps[i - 1].key))
  }

  lemma KidWithin(es: seq<LeafEntry>, seps: seq<InternalEntry>, i: nat)
    requires i <= |seps| && SortedEntries(es) && Between(KeysIn(es), seps, i)
    ensures Within(es, seps, i)
  {
    if es != [] {
      assert KeysIn(es)[0] == es[0].key && KeysIn(es)[|es| - 1] == es[|es| - 1].key;
    }
  }

  ghost predicate KidsWithin(pages: PageMap, kids: seq<Node>, seps: seq<InternalEntry>) {
    |kids| == |seps| + 1 && forall i :: 0 <= i < |kids| ==> Within(EntriesOf(pages, kids[i]), seps, i)
  }

  lemma AllWithin(img: Image, t: Node, lower: Option<bytes>, upper: Option<bytes>)
    requires IsTree(img, t, lower, upper) && t.InnerNode?
    requires SortedEntries(EntriesOf(img.pages, t)) && NoDup(PagesOf(t))
    ensures KidsWithin(img.pages, t.kids, img.pages[t.id].seps)
  {
    var seps := img.pages[t.id].seps;
    forall i | 0 <= i < |t.kids| ensures Within(EntriesOf(img.pages, t.kids[i]), seps, i) {
      KidParts(img, t, lower, upper, i);
      assert Between(KeysOf(img.pages, t.kids[i]), seps, i);
      KidWithin(EntriesOf(img.pages, t.kids[i]), seps, i);
    }
  }

  // ---------------------------------------------------------------- the search

  lemma {:induction false} LeftBelow(pages: PageMap, kids: seq<Node>, seps: seq<InternalEntry>, key: bytes, c: nat, n: nat)
    requires KidsWithin(pages, kids, seps) && SortedSeps(seps) && ChildIndex(seps, key, c) && n <= c
    ensures AllBelow(EntriesOfAll(pages, kids[..n]), key)
  {
    if n > 0 {
      LeftBelow(pages, kids, seps, key, c, n - 1);
      assert kids[..n] == kids[..n - 1] + [kids[n - 1]];
      AllAppendOne(pages, kids[..n - 1], kids[n - 1]);
      assert Within(EntriesOf(pages, kids[n - 1]), seps, n - 1);
      hide EntriesOf, EntriesOfAll;
      assert !Less(key, seps[n - 1].key);
    }
  }

  lemma {:induction false} RightAbove(pages: PageMap, kids: seq<Node>, seps: seq<InternalEntry>, key: bytes, c: nat, n: nat)
    requires KidsWithin(pages, kids, seps) && SortedSeps(seps) && ChildIndex(seps, key, c) && c + 1 <= n <= |kids|
    ensures AllAbove(EntriesOfAll(pages, kids[c + 1..n]), key)
  {
    if c + 1 < n {
      RightAbove(pages, kids, seps, key, c, n - 1);
      assert kids[c + 1..n] == kids[c + 1..n - 1] + [kids[n - 1]];
      AllAppendOne(pages, kids[c + 1..n - 1], kids[n - 1]);
      assert Within(EntriesOf(pages, kids[n - 1]), seps, n - 1);
      hide EntriesOf, EntriesOfAll;
      assert Less(key, seps[n - 2].key);
    }
  }

  /** Whatever is stored under the key is stored below the child the separators
      choose. */
  lemma FindInKid(pages: PageMap, kids: seq<Node>, seps: seq<InternalEntry>, key: bytes, c: nat)
    requires KidsWithin(pages, kids, seps) && SortedSeps(seps) && ChildIndex(seps, key, c)
    ensures Find(EntriesOfAll(pages, kids), key) == Find(EntriesOf(pages, kids[c]), key)
  {
    LeftBelow(pages, kids, seps, key, c, c);
    RightAbove(pages, kids, seps, key, c, |kids|);
    hide EntriesOf, EntriesOfAll, KidsWithin, AllBelow, AllAbove;
    assert kids[c + 1..|kids|] == kids[c + 1..];
    AroundKid(pages, kids, c);
    var a, b, d := EntriesOfAll(pages, kids[..c]), EntriesOf(pages, kids[c]), EntriesOfAll(pages, kids[c + 1..]);
    FindIgnores(a + b, d, key);
    FindSkips(a, b, key);
  }

  lemma ChildRank(seps: seq<InternalEntry>, key: bytes, c: nat)
    requires SortedSeps(seps) && ChildIndex(seps, key, c)
    ensures forall a :: 0 <= a < |seps| ==> (a < c <==> !Less(key, seps[a].key))
  {
  }

  lemma OneChild(seps: seq<InternalEntry>, key: bytes, c: nat, d: nat)
    requires SortedSeps(seps) && ChildIndex(seps, key, c) && ChildIndex(seps, key, d)
    ensures c == d
  {
    ChildRank(seps, key, c);
    ChildRank(seps, key, d);
  }

  lemma {:induction false} SomeChild(seps: seq<InternalEntry>, key: bytes, n: nat) returns (c: nat)
    requires SortedSeps(seps) && n <= |seps| && (n > 0 ==> !Less(key, seps[n - 1].key))
    ensures ChildIndex(seps, key, c)
    decreases |seps| - n
  {
    if n == |seps| || Less(key, seps[n].key) {
      c := n;
    } else {
      c := SomeChild(seps, key, n + 1);
    }
  }

  /** A way down from node t to the leaf that decides about the key. */
  ghost predicate Leads(img: Image, t: Node, key: bytes, route: Ids) {
    && route != [] && route[0] == t.id && NoDup(route) && (forall y :: y in route ==> y in PagesOf(t))
    && (forall i :: 0 <= i < |route| - 1 ==> SendsTo(img, key, route[i], route[i + 1]))
    && InFile(img, route[|route| - 1]) && img.pages[route[|route| - 1]].Leaf?
    && Find(img.pages[route[|route| - 1]].entries, key) == Find(EntriesOf(img.pages, t), key)
  }

  lemma LeadsUp(img: Image, t: Node, key: bytes, c: nat, below: Ids)
    requires t.InnerNode? && c < |t.kids| && Leads(img, t.kids[c], key, below) && SendsTo(img, key, t.id, t.kids[c].id)
    requires t.id !in PagesOf(t.kids[c]) && forall y :: y in PagesOf(t.kids[c]) ==> y in PagesOf(t)
    requires Find(EntriesOf(img.pages, t), key) == Find(EntriesOf(img.pages, t.kids[c]), key)
    ensures Leads(img, t, key, [t.id] + below)
  {
    hide SendsTo, EntriesOf;
    var route := [t.id] + below;
    assert PagesOf(t)[0] == t.id;
    hide PagesOf;
    forall i | 0 <= i < |route| - 1 ensures SendsTo(img, key, route[i], route[i + 1]) {
      if i > 0 {
        assert route[i] == below[i - 1] && route[i + 1] == below[i];
      }
    }
    assert route[|route| - 1] == below[|below| - 1];
  }

  lemma {:induction false} WayDown(img: Image, t: Node, lower: Option<bytes>, upper: Option<bytes>, key: bytes) returns (route: Ids)
    requires IsTree(img, t, lower, upper) && Decoded(img) && SortedEntries(EntriesOf(img.pages, t)) && NoDup(PagesOf(t))
    ensures Leads(img, t, key, route)
    decreases t
  {
    match t
    case LeafNode(id, _) =>
      route := [id];
      assert PagesOf(t)[0] == id;
    case InnerNode(id, kids) =>
      var p := img.pages[id];
      AllWithin(img, t, lower, upper);
      var c := SomeChild(p.seps, key, 0);
      KidParts(img, t, lower, upper, c);
      FindInKid(img.pages, kids, p.seps, key, c);
      var below := WayDown(img, kids[c], LowerOf(p.seps, lower, c), UpperOf(p.seps, upper, c), key);
      assert SendsTo(img, key, id, kids[c].id) by {
        forall d | ChildIndex(p.seps, key, d) ensures ChildAt(p, d) == kids[c].id {
          OneChild(p.seps, key, c, d);
        }
      }
      LeadsUp(img, t, key, c, below);
      route := [id] + below;
  }

  // ---------------------------------------------------------------- the order of the leaves

  lemma {:induction false} EntriesAreLeaves(pages: PageMap, t: Node)
    ensures EntriesOf(pages, t) == Contents(pages, LeavesOf(t))
    decreases t, 1
  {
    match t
    case LeafNode(id, _) =>
      assert EntryLists(pages, [id]) == [Entries(At(pages, id))];
      ConcatOne(Entries(At(pages, id)));
    case InnerNode(_, kids) => AllEntriesAreLeaves(pages, kids);
  }

  lemma {:induction false} AllEntriesAreLeaves(pages: PageMap, ts: seq<Node>)
    ensures EntriesOfAll(pages, ts) == Contents(pages, LeavesOfAll(ts))
    decreases ts, 0
  {
    if ts != [] {
      var most, last := ts[..|ts| - 1], ts[|ts| - 1];
      AllEntriesAreLeaves(pages, most);
      EntriesAreLeaves(pages, last);
      hide Contents, EntriesOf, LeavesOf;
      ContentsJoin(pages, LeavesOfAll(most), LeavesOf(last));
    } else {
      assert EntryLists(pages, []) == [];
    }
  }

  lemma ContentsJoin(pages: PageMap, a: Ids, b: Ids)
    ensures Contents(pages, a + b) == Contents(pages, a) + Contents(pages, b)
  {
    hide Concat;
    assert EntryLists(pages, a + b) == EntryLists(pages, a) + EntryLists(pages, b);
    ConcatAppend(EntryLists(pages, a), EntryLists(pages, b));
  }

  /** In an accepted image the keys ascend strictly from leaf to leaf. */
  lemma CheckedSorted(img: Image, t: Node, free: Ids)
    requires WellFormed(img, t, free)
    ensures SortedEntries(EntriesOf(img.pages, t)) && NoDup(PagesOf(t)) && IsTree(img, t, None, None) && t.id == img.root
  {
    hide IsTree, PagesOf, EntriesOf, LeavesOf, LeafLinks, FreeLinks, Contents;
    NoDupSplit(PagesOf(t), free);
    EntriesAreLeaves(img.pages, t);
    var es, keys := EntriesOf(img.pages, t), KeysIn(EntriesOf(img.pages, t));
    forall i, j | 0 <= i < j < |es| ensures Less(es[i].key, es[j].key) {
      assert keys[i] == es[i].key && keys[j] == es[j].key;
    }
  }

  // ---------------------------------------------------------------- the values

  lemma NoDupBlock(x: PageId, chains: seq<Ids>, i: nat)
    requires NoDup([x] + Concat(chains)) && i < |chains|
    ensures NoDup(chains[i])
  {
    ConcatAround(chains, i);
    NoDupMiddle(x, Concat(chains[..i]), chains[i], Concat(chains[i + 1..]));
  }

  /** The entry has a revision, and its value can be read and is of a size the
      store accepts. */
  ghost predicate Legible(img: Image, e: LeafEntry, value: bytes) {
    && e.revision > 0
    && (e.value.Some? ==> ReadsAs(img, e.value.value, value) && |value| <= MAX_VALUE_SIZE)
    && (e.value.Some? && e.value.value.Inline? ==> |value| <= INLINE_VALUE_LIMIT)
  }

  lemma EntryRead(img: Image, e: LeafEntry, ids: Ids, lower: Option<bytes>, upper: Option<bytes>) returns (value: bytes)
    requires EntryChecks(img, e, ids, lower, upper) && NoDup(ids)
    ensures Legible(img, e, value)
  {
    match e.value
    case None => value := [];
    case Some(Inline(content)) => value := content;
    case Some(Overflow(head, length)) =>
      value := ChainBytes(img.pages, ids);
      assert ChainHolds(img, ids, head, length);
  }

  lemma {:induction false} KidOfEntry(pages: PageMap, kids: seq<Node>, e: LeafEntry) returns (i: nat)
    requires e in EntriesOfAll(pages, kids)
    ensures i < |kids| && e in EntriesOf(pages, kids[i])
  {
    var n := |kids| - 1;
    if e in EntriesOf(pages, kids[n]) {
      i := n;
    } else {
      i := KidOfEntry(pages, kids[..n], e);
    }
  }

  lemma {:induction false} EntryHeld(img: Image, t: Node, lower: Option<bytes>, upper: Option<bytes>, e: LeafEntry) returns (value: bytes)
    requires IsTree(img, t, lower, upper) && SortedEntries(EntriesOf(img.pages, t)) && NoDup(PagesOf(t))
    requires e in EntriesOf(img.pages, t)
    ensures Legible(img, e, value)
    decreases t
  {
    var p := img.pages[t.id];
    match t
    case LeafNode(id, chains) =>
      var i :| 0 <= i < |p.entries| && p.entries[i] == e;
      NoDupBlock(id, chains, i);
      value := EntryRead(img, e, chains[i], lower, upper);
    case InnerNode(id, kids) =>
      var i := KidOfEntry(img.pages, kids, e);
      KidParts(img, t, lower, upper, i);
      value := EntryHeld(img, kids[i], LowerOf(p.seps, lower, i), UpperOf(p.seps, upper, i), e);
  }

  // ---------------------------------------------------------------- what a reader gets

  /** Every value of an accepted image can be read. */
  lemma CheckedValue(img: Image, t: Node, free: Ids, e: LeafEntry) returns (value: bytes)
    requires WellFormed(img, t, free) && e in EntriesOf(img.pages, t)
    ensures Legible(img, e, value)
  {
    CheckedSorted(img, t, free);
    hide WellFormed, IsTree;
    value := EntryHeld(img, t, None, None, e);
  }

  /** The search in an accepted image ends at the leaf that decides about the
      key. */
  lemma CheckedRoute(img: Image, t: Node, free: Ids, key: bytes) returns (route: Ids)
    requires WellFormed(img, t, free) && Decoded(img)
    ensures Routes(img, key, route)
    ensures Find(img.pages[route[|route| - 1]].entries, key) == Find(EntriesOf(img.pages, t), key)
  {
    CheckedSorted(img, t, free);
    hide WellFormed, IsTree, Decoded, SendsTo;
    route := WayDown(img, t, None, None, key);
  }

  /** Among ascending entries the one with the key is the only one. */
  lemma {:induction false} FindExact(es: seq<LeafEntry>, key: bytes, e: LeafEntry)
    requires SortedEntries(es)
    ensures Find(es, key) == Some(e) <==> e in es && e.key == key
  {
    if es != [] {
      assert SortedEntries(es[1..]);
      FindExact(es[1..], key, e);
      assert e in es <==> e == es[0] || e in es[1..];
      if e in es[1..] {
        var i :| 0 <= i < |es[1..]| && es[1..][i] == e;
        assert es[i + 1] == e;
      }
    }
  }

  /** A point read of an accepted image: it succeeds, finds an entry exactly when
      the leaves hold one with that key, and reads its value. */
  method GetChecked(img: Image, encoded: bytes, ghost t: Node, ghost free: Ids) returns (r: Result<Option<LeafEntry>>, value: Option<bytes>)
    requires WellFormed(img, t, free) && Decoded(img)
    ensures r.Ok? && forall e :: r.value == Some(e) <==> e in EntriesOf(img.pages, t) && e.key == encoded
    ensures value.Some? <==> r.value.Some? && r.value.value.value.Some?
    ensures value.Some? ==> ReadsAs(img, r.value.value.value.value, value.value)
    ensures r.value.Some? ==> r.value.value.revision > 0
  {
    ghost var es := EntriesOf(img.pages, t);
    ghost var route := CheckedRoute(img, t, free, encoded);
    CheckedSorted(img, t, free);
    hide Routes, EntriesOf, Decoded, SortedEntries;
    r := FindEntry(img, encoded, Shape([], [], map[], [], map[], 0, {}));
    assert r == Ok(Find(es, encoded));
    forall e ensures Find(es, encoded) == Some(e) <==> e in es && e.key == encoded {
      FindExact(es, encoded, e);
    }
    if r.value.None? {
      return r, None;
    }
    ghost var held := CheckedValue(img, t, free, r.value.value);
    if r.value.value.value.None? {
      return r, None;
    }
    hide WellFormed;
    var found := ReadValue(img, r.value.value.value.value, held);
    return r, Some(found.value);
  }
}
