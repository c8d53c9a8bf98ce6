/** Reading a database image: routing, values, point reads (btree/mod.rs and
    the committed read view of btree/coordinator.rs).  Every operation is total
    on arbitrary page maps, cyclic or damaged ones included; what it returns is
    specified for the images that hold a tree. */
module Reads {
  import opened Lex
  import opened Seqs
  import opened Pages
  import opened KeyCodec
  import opened Tree
  import opened Records
  import opened Space
  import opened Splits
  import opened Database
  import opened Reference
  import opened Errors

  ghost predicate InFile(img: Image, id: PageId) {
    FIRST_DATA_PAGE <= id <= img.high && id in img.pages
  }

  /** What readers rely on: the tree, its chains and its entries are in place. */
  ghost predicate Readable(img: Image, sh: Shape) {
    && TreeOk(img.pages, img.root, sh.levels, sh.bounds)
    && ChainsOk(img.pages, sh.chains)
    && EntriesOk(img.pages, sh.chains, Contents(img.pages, sh.levels[0]))
    && (forall k, x :: 0 <= k < |sh.levels| && x in sh.levels[k] ==> InFile(img, x))
    && (forall h :: h in sh.chains ==> NoDup(sh.chains[h]))
    && (forall h, p :: h in sh.chains && 0 <= p < |sh.chains[h]| ==> InFile(img, sh.chains[h][p]))
  }

  lemma ConsistentReadable(img: Image, sh: Shape, loose: set<PageId>, spare: set<PageId>)
    requires Working(img, sh, loose, spare)
    ensures Readable(img, sh)
  {
    forall k, x | 0 <= k < |sh.levels| && x in sh.levels[k] ensures InFile(img, x) {
      TreeSettled(sh, loose, k, x);
    }
    forall h | h in sh.chains ensures NoDup(sh.chains[h]) {
      ChainNoDup(sh.chains, sh.role, h);
    }
  }

  function PageAt(img: Image, id: PageId): Result<PageData> {
    if id < FIRST_DATA_PAGE || id > img.high then Err(Corruption)
    else if id in img.pages then Ok(img.pages[id])
    else Err(Corruption)
  }

  // ---------------------------------------------------------------- searching inside a page

  ghost predicate Partitioned<T>(xs: seq<T>, pred: T -> bool) {
    forall i, j :: 0 <= i < j < |xs| && pred(xs[j]) ==> pred(xs[i])
  }

  method PartitionPoint<T>(xs: seq<T>, pred: T -> bool) returns (n: nat)
    ensures n <= |xs|
    ensures Partitioned(xs, pred) ==> forall i :: 0 <= i < |xs| ==> (pred(xs[i]) <==> i < n)
  {
    var low, high := 0, |xs|;
    while low < high
      invariant 0 <= low <= high <= |xs|
      invariant Partitioned(xs, pred) ==> forall i :: 0 <= i < low ==> pred(xs[i])
      invariant Partitioned(xs, pred) ==> forall i :: high <= i < |xs| ==> !pred(xs[i])
    {
      var middle := (low + high) / 2;
      if pred(xs[middle]) {
        low := middle + 1;
      } else {
        high := middle;
      }
    }
    n := low;
  }

  lemma SepsSorted(pages: PageMap, ids: Ids, bnds: Bounds, below: Ids, belowBnds: Bounds, i: nat, a: nat, b: nat)
    requires Linked(pages, ids, bnds, below, belowBnds) && Ascending(belowBnds)
    requires i < |ids| && a < b < |At(pages, ids[i]).seps|
    ensures Less(At(pages, ids[i]).seps[a].key, At(pages, ids[i]).seps[b].key)
  {
    hide Linked, Less, Offset;
    var off, off2 := Offset(KidLists(pages, ids), i), Offset(KidLists(pages, ids), i + 1);
    ChildBlock(pages, ids, bnds, below, belowBnds, i);
    assert belowBnds[off + 1 + a] == belowBnds[off..off2][1 + a] == At(pages, ids[i]).seps[a].key;
    assert belowBnds[off + 1 + b] == belowBnds[off..off2][1 + b] == At(pages, ids[i]).seps[b].key;
  }

  /** `index` separators are at or below the key. */
  ghost predicate ChildIndex(seps: seq<InternalEntry>, key: bytes, index: nat) {
    && index <= |seps|
    && (index > 0 ==> !Less(key, seps[index - 1].key))
    && (index < |seps| ==> Less(key, seps[index].key))
  }

  method ChildFor(seps: seq<InternalEntry>, key: bytes) returns (index: nat)
    ensures index <= |seps|
    ensures SortedSeps(seps) ==> ChildIndex(seps, key, index)
  {
    index := PartitionPoint(seps, (e: InternalEntry) => !Less(key, e.key));
  }

  // ---------------------------------------------------------------- routes

  function ChildAt(p: PageData, i: nat): PageId
    requires p.Internal? && i <= |p.seps|
  {
    if i == 0 then p.leftmostChild else p.seps[i - 1].rightChild
  }

  /** The separators of page x send the key to child y. */
  ghost predicate SendsTo(img: Image, key: bytes, x: PageId, y: PageId) {
    && InFile(img, x) && img.pages[x].Internal? && SortedSeps(img.pages[x].seps)
    && forall c :: ChildIndex(img.pages[x].seps, key, c) ==> ChildAt(img.pages[x], c) == y
  }

  /** The pages lead the key from the root down to a leaf. */
  ghost predicate Routes(img: Image, key: bytes, route: Ids) {
    && route != [] && route[0] == img.root && NoDup(route)
    && (forall i :: 0 <= i < |route| - 1 ==> SendsTo(img, key, route[i], route[i + 1]))
    && InFile(img, route[|route| - 1]) && img.pages[route[|route| - 1]].Leaf?
  }

  /** The search stands at the page behind the passed part of the route. */
  ghost predicate OnRoute(passed: Ids, pageId: PageId, route: Ids) {
    |passed| < |route| && passed == route[..|passed|] && pageId == route[|passed|]
  }

  /** How the search goes on from there. */
  ghost predicate Onward(img: Image, key: bytes, passed: Ids, pageId: PageId, route: Ids) {
    && InFile(img, pageId) && pageId !in passed && (img.pages[pageId].Leaf? || img.pages[pageId].Internal?)
    && (img.pages[pageId].Leaf? ==> route == passed + [pageId])
    && (img.pages[pageId].Internal? ==> SortedSeps(img.pages[pageId].seps))
    && (img.pages[pageId].Internal? ==> forall c :: ChildIndex(img.pages[pageId].seps, key, c) ==>
          OnRoute(passed + [pageId], ChildAt(img.pages[pageId], c), route))
  }

  lemma RouteBegins(img: Image, key: bytes, route: Ids)
    requires Routes(img, key, route)
    ensures OnRoute([], img.root, route)
  {
  }

  lemma OnRouteHere(img: Image, key: bytes, route: Ids, passed: Ids, pageId: PageId)
    requires Routes(img, key, route) && OnRoute(passed, pageId, route)
    ensures Onward(img, key, passed, pageId, route)
  {
    hide SortedSeps;
    var n := |passed|;
    assert forall i :: 0 <= i < n ==> passed[i] == route[i];
    if n < |route| - 1 {
      assert SendsTo(img, key, route[n], route[n + 1]);
      assert route[..n + 1] == passed + [pageId];
    } else {
      assert route == route[..n] + [route[n]];
    }
  }

  /** Child c of the level below belongs to page i of internal level m. */
  ghost predicate ChildOf(pages: PageMap, levels: seq<Ids>, m: nat, i: nat, c: nat)
    requires m < |levels|
  {
    && i < |levels[m]|
    && Offset(KidLists(pages, levels[m]), i) <= c < Offset(KidLists(pages, levels[m]), i + 1)
  }

  /** The pages of `route` lead down from the root; `path` gives their
      positions in their levels. */
  ghost predicate Descends(pages: PageMap, levels: seq<Ids>, route: Ids, path: seq<nat>) {
    && |route| == |path| <= |levels|
    && (forall t :: 0 <= t < |route| ==>
          path[t] < |levels[|levels| - 1 - t]| && route[t] == levels[|levels| - 1 - t][path[t]])
    && (forall t :: 0 <= t < |route| - 1 ==> ChildOf(pages, levels, |levels| - 1 - t, path[t], path[t + 1]))
  }

  ghost predicate Reaches(pages: PageMap, sh: Shape, key: bytes, route: Ids, path: seq<nat>) {
    && Descends(pages, sh.levels, route, path)
    && |route| == |sh.levels| == |sh.bounds| > 0
    && path[|path| - 1] < |sh.bounds[0]|
    && InRange(key, sh.bounds[0], path[|path| - 1])
  }

  /** Page i of level |levels| - 1 - |route| comes next on the way to key. */
  ghost predicate NextOnRoute(pages: PageMap, sh: Shape, key: bytes, route: Ids, path: seq<nat>, id: PageId, i: nat) {
    && |route| < |sh.levels| == |sh.bounds|
    && Descends(pages, sh.levels, route + [id], path + [i])
    && i < |sh.bounds[|sh.levels| - 1 - |route|]|
    && InRange(key, sh.bounds[|sh.levels| - 1 - |route|], i)
  }

  lemma RouteStart(img: Image, sh: Shape, key: bytes)
    requires Readable(img, sh)
    ensures NextOnRoute(img.pages, sh, key, [], [], img.root, 0)
  {
    assert LevelOk(sh.levels[|sh.levels| - 1], sh.bounds[|sh.levels| - 1]);
  }

  lemma RouteFresh(img: Image, sh: Shape, key: bytes, route: Ids, path: seq<nat>, id: PageId, i: nat)
    requires Readable(img, sh) && NextOnRoute(img.pages, sh, key, route, path, id, i)
    ensures id !in route && InFile(img, id) && |route| < |sh.levels|
    ensures |route| < |sh.levels| - 1 ==> img.pages[id].Internal?
    ensures |route| == |sh.levels| - 1 ==> img.pages[id].Leaf?
  {
    var h := |sh.levels|;
    var k := h - 1 - |route|;
    assert (route + [id])[|route|] == id && (path + [i])[|route|] == i;
    assert id == sh.levels[k][i];
    forall t | 0 <= t < |route| ensures route[t] != id {
      assert (route + [id])[t] == route[t];
      assert route[t] in sh.levels[h - 1 - t];
    }
    if k > 0 {
      assert LinkedAt(img.pages, sh.levels, sh.bounds, k);
    } else {
      assert LeafOk(At(img.pages, id), sh.bounds[0], i, NextOf(sh.levels[0], i));
    }
  }

  lemma RouteEnds(img: Image, sh: Shape, key: bytes, route: Ids, path: seq<nat>, id: PageId, i: nat)
    requires Readable(img, sh) && NextOnRoute(img.pages, sh, key, route, path, id, i)
    requires id in img.pages && img.pages[id].Leaf?
    ensures Reaches(img.pages, sh, key, route + [id], path + [i])
  {
    RouteFresh(img, sh, key, route, path, id, i);
    hide Readable, Descends, InRange;
    assert (path + [i])[|path + [i]| - 1] == i;
    DescendsLength(img.pages, sh.levels, route + [id], path + [i]);
  }

  lemma DescendsLength(pages: PageMap, levels: seq<Ids>, route: Ids, path: seq<nat>)
    requires Descends(pages, levels, route, path)
    ensures |route| == |path|
  {
  }

  lemma RouteStep(img: Image, sh: Shape, key: bytes, route: Ids, path: seq<nat>, id: PageId, i: nat, index: nat)
    returns (c: nat)
    requires Readable(img, sh) && NextOnRoute(img.pages, sh, key, route, path, id, i)
    requires id in img.pages && img.pages[id].Internal? && index <= |img.pages[id].seps|
    requires SortedSeps(img.pages[id].seps) ==> ChildIndex(img.pages[id].seps, key, index)
    ensures NextOnRoute(img.pages, sh, key, route + [id], path + [i], Kids(img.pages[id])[index], c)
  {
    hide Readable, NextOnRoute, Less, Offset, Linked, InRange, SortedSeps;
    var k := |sh.levels| - 1 - |route|;
    RouteFresh(img, sh, key, route, path, id, i);
    RouteSorted(img, sh, key, route, path, id, i);
    RoutePlace(img, sh, key, route, path, id, i);
    Route(img.pages, sh.levels[k], sh.bounds[k], sh.levels[k - 1], sh.bounds[k - 1], i, key, index);
    ChildBlock(img.pages, sh.levels[k], sh.bounds[k], sh.levels[k - 1], sh.bounds[k - 1], i);
    c := Offset(KidLists(img.pages, sh.levels[k]), i) + index;
    assert ChildOf(img.pages, sh.levels, k, i, c);
    RouteGrows(img, sh, key, route, path, id, i, Kids(img.pages[id])[index], c);
  }

  /** Where the page is, and how its level is linked to the one below. */
  lemma RoutePlace(img: Image, sh: Shape, key: bytes, route: Ids, path: seq<nat>, id: PageId, i: nat)
    requires Readable(img, sh) && NextOnRoute(img.pages, sh, key, route, path, id, i) && id in img.pages && img.pages[id].Internal?
    ensures var k := |sh.levels| - 1 - |route|;
            && 0 < k < |sh.levels| == |sh.bounds| && i < |sh.levels[k]| == |sh.bounds[k]|
            && At(img.pages, sh.levels[k][i]) == img.pages[id] && InRange(key, sh.bounds[k], i) && LinkedAt(img.pages, sh.levels, sh.bounds, k)
            && |sh.levels[k - 1]| == |sh.bounds[k - 1]|
  {
    hide TreeOk, ChainsOk, EntriesOk, NoDup, LinkedAt, InRange, LevelOk, ChildOf;
    var k := |sh.levels| - 1 - |route|;
    RouteFresh(img, sh, key, route, path, id, i);
    assert (route + [id])[|route|] == id && (path + [i])[|route|] == i;
    TreeLevel(img.pages, img.root, sh.levels, sh.bounds, k);
    TreeLevel(img.pages, img.root, sh.levels, sh.bounds, k - 1);
  }

  lemma RouteGrows(img: Image, sh: Shape, key: bytes, route: Ids, path: seq<nat>, id: PageId, i: nat, child: PageId, c: nat)
    requires NextOnRoute(img.pages, sh, key, route, path, id, i)
    requires var k := |sh.levels| - 1 - |route|;
             && 0 < k && c < |sh.levels[k - 1]| == |sh.bounds[k - 1]| && sh.levels[k - 1][c] == child
             && InRange(key, sh.bounds[k - 1], c) && ChildOf(img.pages, sh.levels, k, i, c)
    ensures NextOnRoute(img.pages, sh, key, route + [id], path + [i], child, c)
  {
    hide InRange, ChildOf, Descends;
    DescentLength(img.pages, sh.levels, route + [id], path + [i]);
    ExtendDescent(img.pages, sh.levels, route + [id], path + [i], child, c);
  }

  lemma DescentLength(pages: PageMap, levels: seq<Ids>, route: Ids, path: seq<nat>)
    requires Descends(pages, levels, route, path)
    ensures |route| == |path| <= |levels|
  {
  }

  lemma RouteSorted(img: Image, sh: Shape, key: bytes, route: Ids, path: seq<nat>, id: PageId, i: nat)
    requires Readable(img, sh) && NextOnRoute(img.pages, sh, key, route, path, id, i)
    requires id in img.pages && img.pages[id].Internal?
    ensures SortedSeps(img.pages[id].seps)
  {
    var k := |sh.levels| - 1 - |route|;
    RouteFresh(img, sh, key, route, path, id, i);
    assert (route + [id])[|route|] == id && (path + [i])[|route|] == i;
    assert LinkedAt(img.pages, sh.levels, sh.bounds, k);
    assert LevelOk(sh.levels[k - 1], sh.bounds[k - 1]);
    forall a, b | 0 <= a < b < |img.pages[id].seps|
      ensures Less(img.pages[id].seps[a].key, img.pages[id].seps[b].key)
    {
      SepsSorted(img.pages, sh.levels[k], sh.bounds[k], sh.levels[k - 1], sh.bounds[k - 1], i, a, b);
    }
  }

  lemma ExtendDescent(pages: PageMap, levels: seq<Ids>, route: Ids, path: seq<nat>, id: PageId, c: nat)
    requires Descends(pages, levels, route, path) && 0 < |route| < |levels|
    requires c < |levels[|levels| - 1 - |route|]| && levels[|levels| - 1 - |route|][c] == id
    requires ChildOf(pages, levels, |levels| - |route|, path[|path| - 1], c)
    ensures Descends(pages, levels, route + [id], path + [c])
  {
    var route', path' := route + [id], path + [c];
    forall t | 0 <= t < |route'| - 1
      ensures ChildOf(pages, levels, |levels| - 1 - t, path'[t], path'[t + 1])
    {
      if t < |route| - 1 {
        assert path'[t] == path[t] && path'[t + 1] == path[t + 1];
      }
    }
  }

  /** Routing finds the leaf whose range holds the key. */
  method FindLeaf(img: Image, key: bytes, ghost sh: Shape) returns (r: Result<(PageId, Ids)>, ghost path: seq<nat>)
    ensures r.Err? ==> r.error == Corruption
    ensures Readable(img, sh) ==>
              && r.Ok?
              && Reaches(img.pages, sh, key, r.value.1, path)
              && r.value.1[|r.value.1| - 1] == r.value.0
    ensures forall route :: Routes(img, key, route) ==> r == Ok((route[|route| - 1], route))
  {
    hide Readable, NextOnRoute, Reaches, SortedSeps, Routes;
    var pageId: PageId := img.root;
    var route: Ids := [];
    var visited: set<PageId> := {};
    path := [];
    ghost var i: nat := 0;
    if Readable(img, sh) {
      RouteStart(img, sh, key);
    }
    forall whole | Routes(img, key, whole) ensures OnRoute([], img.root, whole) {
      RouteBegins(img, key, whole);
    }
    while true
      invariant visited <= img.pages.Keys
      invariant forall x :: x in visited ==> x in route
      invariant Readable(img, sh) ==> NextOnRoute(img.pages, sh, key, route, path, pageId, i)
      invariant forall whole :: Routes(img, key, whole) ==> OnRoute(route, pageId, whole)
      decreases img.pages.Keys - visited
    {
      forall whole | Routes(img, key, whole) ensures Onward(img, key, route, pageId, whole) {
        OnRouteHere(img, key, whole, route, pageId);
      }
      if Readable(img, sh) {
        RouteFresh(img, sh, key, route, path, pageId, i);
      }
      if pageId in visited {
        return Err(Corruption), path;
      }
      var page := PageAt(img, pageId);
      if page.Err? {
        return Err(Corruption), path;
      }
      match page.value
      case Leaf(_, _, _) =>
        if Readable(img, sh) {
          RouteEnds(img, sh, key, route, path, pageId, i);
        }
        return Ok((pageId, route + [pageId])), path + [i];
      case Internal(_, leftmostChild, seps) =>
        var index := ChildFor(seps, key);
        ghost var c: nat := 0;
        if Readable(img, sh) {
          c := RouteStep(img, sh, key, route, path, pageId, i, index);
        }
        visited, route, path, i := visited + {pageId}, route + [pageId], path + [i], c;
        pageId := if index == 0 then leftmostChild else seps[index - 1].rightChild;
      case _ =>
        return Err(Corruption), path;
    }
  }

  /** The leaf at the left end of the chain. */
  method LeftmostLeaf(img: Image, ghost sh: Shape) returns (r: Result<PageId>)
    ensures r.Err? ==> r.error == Corruption
    ensures Readable(img, sh) ==> r == Ok(sh.levels[0][0])
  {
    var pageId: PageId := img.root;
    var visited: set<PageId> := {};
    ghost var k := |sh.levels| - 1;
    while true
      invariant visited <= img.pages.Keys
      invariant Readable(img, sh) ==> 0 <= k < |sh.levels| && sh.levels[k][0] == pageId
      invariant Readable(img, sh) ==> forall x :: x in visited ==> exists m :: k < m < |sh.levels| && x == sh.levels[m][0]
      decreases img.pages.Keys - visited
    {
      if Readable(img, sh) {
        LeftmostStep(img, sh, k);
      }
      if pageId in visited {
        return Err(Corruption);
      }
      var page := PageAt(img, pageId);
      if page.Err? {
        return Err(Corruption);
      }
      match page.value
      case Leaf(_, _, _) =>
        return Ok(pageId);
      case Internal(_, leftmostChild, _) =>
        visited := visited + {pageId};
        pageId := leftmostChild;
        k := k - 1;
      case _ =>
        return Err(Corruption);
    }
  }

  lemma LeftmostStep(img: Image, sh: Shape, k: nat)
    requires Readable(img, sh) && k < |sh.levels|
    ensures sh.levels[k] != [] && InFile(img, sh.levels[k][0])
    ensures forall m :: k < m < |sh.levels| ==> sh.levels[m] != [] && sh.levels[m][0] != sh.levels[k][0]
    ensures k == 0 ==> img.pages[sh.levels[k][0]].Leaf?
    ensures k > 0 ==> img.pages[sh.levels[k][0]].Internal?
                      && |sh.levels[k - 1]| > 0 && img.pages[sh.levels[k][0]].leftmostChild == sh.levels[k - 1][0]
  {
    assert LevelOk(sh.levels[k], sh.bounds[k]);
    forall m | k < m < |sh.levels| ensures sh.levels[m] != [] && sh.levels[m][0] != sh.levels[k][0] {
      assert LevelOk(sh.levels[m], sh.bounds[m]);
      assert sh.levels[m][0] in sh.levels[m];
    }
    if k > 0 {
      assert LinkedAt(img.pages, sh.levels, sh.bounds, k);
      ChildBlock(img.pages, sh.levels[k], sh.bounds[k], sh.levels[k - 1], sh.bounds[k - 1], 0);
      var ks := KidLists(img.pages, sh.levels[k]);
      assert ks[..0] == [];
      assert sh.levels[k - 1][0..Offset(ks, 1)][0] == ks[0][0];
    } else {
      assert LeafOk(At(img.pages, sh.levels[0][0]), sh.bounds[0], 0, NextOf(sh.levels[0], 0));
    }
  }

  // ---------------------------------------------------------------- values

  ghost function StateOf(pages: PageMap, chains: Chains, e: LeafEntry): RevisionState {
    match e.value
    case None => Missing(e.revision)
    case Some(Inline(content)) => Present(content, e.revision)
    case Some(Overflow(head, _)) =>
      Present(if head in chains then ChainBytes(pages, chains[head]) else [], e.revision)
  }

  ghost function KeyOf(encoded: bytes): DocumentKey {
    if Decode(encoded).Good? then Decode(encoded).value else DocumentKey([], [])
  }

  /** The entries as the reference model holds them. */
  ghost function DocsOf(pages: PageMap, chains: Chains, es: seq<LeafEntry>): States {
    seq(|es|, i requires 0 <= i < |es| => (KeyOf(es[i].key), StateOf(pages, chains, es[i])))
  }

  ghost function Docs(img: Image, sh: Shape): States
    requires |sh.levels| > 0
  {
    DocsOf(img.pages, sh.chains, Contents(img.pages, sh.levels[0]))
  }

  /** The pages `ids` hold an overflow value of the given length. */
  ghost predicate ChainHolds(img: Image, ids: Ids, head: PageId, length: nat) {
    && 0 < |ids| <= MAX_OVERFLOW_PAGES && NoDup(ids) && ids[0] == head && 0 < length
    && (forall p :: 0 <= p < |ids| ==> InFile(img, ids[p]) && ChainLink(img.pages[ids[p]], length, NextOf(ids, p)))
    && |ChainBytes(img.pages, ids)| == length
  }

  ghost predicate ChainLink(p: PageData, length: nat, next: Option<PageId>) {
    p.OverflowPage? && p.totalLength == length && p.next == next
  }

  lemma ChainReads(img: Image, ids: Ids)
    requires ChainOk(img.pages, ids) && NoDup(ids) && forall p :: 0 <= p < |ids| ==> InFile(img, ids[p])
    ensures ChainHolds(img, ids, ids[0], |ChainBytes(img.pages, ids)|)
  {
    hide ChainBytes;
    forall p | 0 <= p < |ids| ensures ChainLink(img.pages[ids[p]], |ChainBytes(img.pages, ids)|, NextOf(ids, p)) {
      assert ChainPageOk(At(img.pages, ids[p]), |ChainBytes(img.pages, ids)|, NextOf(ids, p));
    }
  }

  /** A value reference resolves to a value. */
  ghost predicate ReadsAs(img: Image, v: ValueRef, value: bytes) {
    match v
    case Inline(content) => value == content
    case Overflow(head, length) => exists ids :: ChainHolds(img, ids, head, length) && value == ChainBytes(img.pages, ids)
  }

  function ValueLength(v: ValueRef): nat {
    match v
    case Inline(content) => |content|
    case Overflow(_, length) => length
  }

  method ReadValue(img: Image, v: ValueRef, ghost value: bytes) returns (r: Result<bytes>)
    ensures r.Err? ==> r.error == Corruption
    ensures r.Ok? ==> |r.value| == ValueLength(v)
    ensures ReadsAs(img, v, value) ==> r == Ok(value)
  {
    if v.Inline? {
      return Ok(v.content);
    }
    var output: bytes := [];
    var pageId := Some(v.head);
    var visited: set<PageId> := {};
    var count := 0;
    ghost var good := ReadsAs(img, v, value);
    ghost var ids: Ids := [];
    if good {
      ids :| ChainHolds(img, ids, v.head, v.length) && value == ChainBytes(img.pages, ids);
    }
    ghost var chunks := Chunks(img.pages, ids);
    assert chunks[..0] == [];
    while pageId.Some?
      invariant visited <= img.pages.Keys
      invariant good ==> count <= |ids| && pageId == (if count < |ids| then Some(ids[count]) else None)
      invariant good ==> output == Concat(chunks[..count])
      invariant good ==> forall x :: x in visited ==> x in ids[..count]
      decreases pageId.Some?, img.pages.Keys - visited
    {
      var current := pageId.value;
      if current in visited || count >= MAX_OVERFLOW_PAGES {
        return Err(Corruption);
      }
      var page := PageAt(img, current);
      if page.Err? || !page.value.OverflowPage? {
        return Err(Corruption);
      }
      if page.value.totalLength != v.length {
        return Err(Corruption);
      }
      if good {
        ConcatTake(chunks, count);
        assert ChainLink(img.pages[ids[count]], v.length, NextOf(ids, count));
      }
      visited := visited + {current};
      output := output + page.value.chunk;
      pageId := page.value.next;
      count := count + 1;
    }
    assert good ==> chunks[..count] == chunks;
    if |output| != v.length {
      return Err(Corruption);
    }
    return Ok(output);
  }

  /** An entry reads as a document of the reference model. */
  ghost predicate EntryReads(img: Image, e: LeafEntry, d: (DocumentKey, RevisionState)) {
    && Decode(e.key) == Good(d.0)
    && d.1.revision == e.revision
    && (d.1.Present? <==> e.value.Some?)
    && (e.value.Some? ==> ReadsAs(img, e.value.value, d.1.value) && |d.1.value| == ValueLength(e.value.value))
  }

  lemma EntryReadsDoc(img: Image, sh: Shape, n: nat)
    requires Readable(img, sh) && n < |Docs(img, sh)|
    ensures EntryReads(img, Contents(img.pages, sh.levels[0])[n], Docs(img, sh)[n])
  {
    var e := Contents(img.pages, sh.levels[0])[n];
    assert EntryOk(img.pages, sh.chains, e);
    if HasChain(e) {
      ChainReads(img, sh.chains[Head(e)]);
      assert ChainHolds(img, sh.chains[Head(e)], Head(e), e.value.value.length);
    }
  }

  lemma ConcatTake<T>(xss: seq<seq<T>>, i: nat)
    requires i < |xss|
    ensures Concat(xss[..i + 1]) == Concat(xss[..i]) + xss[i]
  {
    assert xss[..i + 1] == xss[..i] + [xss[i]];
    ConcatAppend(xss[..i], [xss[i]]);
    ConcatOne(xss[i]);
  }
}
