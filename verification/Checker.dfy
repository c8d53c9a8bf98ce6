/** The invariant checker: a recursive visit of the tree, a walk of the leaf
    chain and of the free list, on page graphs of any shape
    (btree/checker.rs). */
module Checker {
  import opened Lex
  import opened Seqs
  import opened Pages
  import opened KeyCodec
  import opened Tree
  import opened Records
  import opened Space
  import opened Splits
  import opened Database
  import opened Errors
  import opened Reads

  // ---------------------------------------------------------------- what is checked

  /** A tree as it hangs in the pages; a leaf lists the overflow pages of each of
      its entries. */
  datatype Node = LeafNode(id: PageId, chains: seq<Ids>) | InnerNode(id: PageId, kids: seq<Node>)

  ghost function PagesOf(t: Node): Ids
    decreases t, 1
  {
    match t
    case LeafNode(id, chains) => [id] + Concat(chains)
    case InnerNode(id, kids) => [id] + PagesOfAll(kids)
  }

  ghost function PagesOfAll(ts: seq<Node>): Ids
    decreases ts, 0
  {
    if ts == [] then [] else PagesOfAll(ts[..|ts| - 1]) + PagesOf(ts[|ts| - 1])
  }

  ghost function LeavesOf(t: Node): Ids
    decreases t, 1
  {
    match t
    case LeafNode(id, _) => [id]
    case InnerNode(_, kids) => LeavesOfAll(kids)
  }

  ghost function LeavesOfAll(ts: seq<Node>): Ids
    decreases ts, 0
  {
    if ts == [] then [] else LeavesOfAll(ts[..|ts| - 1]) + LeavesOf(ts[|ts| - 1])
  }

  ghost predicate Above(key: bytes, lower: Option<bytes>) {
    lower.Some? ==> !Less(key, lower.value)
  }

  ghost predicate BelowBound(key: bytes, upper: Option<bytes>) {
    upper.Some? ==> Less(key, upper.value)
  }

  /** An overflow chain as the checker follows it. */
  ghost predicate Chain(img: Image, ids: Ids, head: PageId, length: nat) {
    && 0 < |ids| <= MAX_OVERFLOW_PAGES && ids[0] == head && 0 < length <= MAX_VALUE_SIZE
    && (forall p :: 0 <= p < |ids| ==> InFile(img, ids[p]) && ChainLink(img.pages[ids[p]], length, NextOf(ids, p)))
    && |ChainBytes(img.pages, ids)| == length
  }

  ghost predicate EntryChecks(img: Image, e: LeafEntry, ids: Ids, lower: Option<bytes>, upper: Option<bytes>) {
    && Above(e.key, lower) && BelowBound(e.key, upper) && e.revision != 0
    && match e.value
       case None => ids == []
       case Some(Inline(content)) => |content| <= INLINE_VALUE_LIMIT && ids == []
       case Some(Overflow(head, length)) => Chain(img, ids, head, length)
  }

  function LowerOf(seps: seq<InternalEntry>, lower: Option<bytes>, i: nat): Option<bytes>
    requires i <= |seps|
  {
    if i == 0 then lower else Some(seps[i - 1].key)
  }

  function UpperOf(seps: seq<InternalEntry>, upper: Option<bytes>, i: nat): Option<bytes>
    requires i <= |seps|
  {
    if i == |seps| then upper else Some(seps[i].key)
  }

  ghost function KeysIn(es: seq<LeafEntry>): seq<bytes> {
    seq(|es|, i requires 0 <= i < |es| => es[i].key)
  }

  /** The entries of the leaves, left to right. */
  ghost function EntriesOf(pages: PageMap, t: Node): seq<LeafEntry>
    decreases t, 1
  {
    match t
    case LeafNode(id, _) => Entries(At(pages, id))
    case InnerNode(_, kids) => EntriesOfAll(pages, kids)
  }

  ghost function EntriesOfAll(pages: PageMap, ts: seq<Node>): seq<LeafEntry>
    decreases ts, 0
  {
    if ts == [] then [] else EntriesOfAll(pages, ts[..|ts| - 1]) + EntriesOf(pages, ts[|ts| - 1])
  }

  ghost function KeysOf(pages: PageMap, t: Node): seq<bytes> {
    KeysIn(EntriesOf(pages, t))
  }

  function FirstOf(keys: seq<bytes>): Option<bytes> {
    if keys == [] then None else Some(keys[0])
  }

  function LastOf(keys: seq<bytes>): Option<bytes> {
    if keys == [] then None else Some(keys[|keys| - 1])
  }

  /** The first and last key of child i lie between its separators. */
  ghost predicate Between(keys: seq<bytes>, seps: seq<InternalEntry>, i: nat)
    requires i <= |seps|
  {
    && (i < |seps| && LastOf(keys).Some? ==> Less(LastOf(keys).value, seps[i].key))
    && (i > 0 && FirstOf(keys).Some? ==> !Less(FirstOf(keys).value, seps[i - 1].key))
  }

  /** t is a search tree in the pages. */
  ghost predicate IsTree(img: Image, t: Node, lower: Option<bytes>, upper: Option<bytes>)
    decreases t
  {
    && InFile(img, t.id)
    && var p := img.pages[t.id];
       match t
       case LeafNode(_, chains) => p.Leaf? && LeafChecks(img, p.entries, chains, lower, upper)
       case InnerNode(_, kids) =>
         && p.Internal? && p.seps != [] && |kids| == |p.seps| + 1
         && (forall i :: 0 <= i < |kids| ==>
               kids[i].id == ChildAt(p, i) && IsTree(img, kids[i], LowerOf(p.seps, lower, i), UpperOf(p.seps, upper, i)))
         && (forall i :: 0 <= i < |kids| ==> Between(KeysOf(img.pages, kids[i]), p.seps, i))
  }

  ghost predicate LeafChecks(img: Image, es: seq<LeafEntry>, chains: seq<Ids>, lower: Option<bytes>, upper: Option<bytes>) {
    && |chains| == |es|
    && forall i :: 0 <= i < |es| ==> EntryChecks(img, es[i], chains[i], lower, upper)
  }

  ghost function MaxRevision(es: seq<LeafEntry>, least: nat): nat {
    if es == [] then least
    else
      var m := MaxRevision(es[..|es| - 1], least);
      if es[|es| - 1].revision > m then es[|es| - 1].revision else m
  }

  // ---------------------------------------------------------------- the visit

  datatype CheckState = CheckState(reachable: set<PageId>, keys: set<bytes>, leaves: Ids, maxRevision: nat)

  /** A set together with the order in which its elements were inserted, each
      once. */
  ghost predicate Marks<T(!new)>(s: set<T>, order: seq<T>) {
    NoDup(order) && forall x :: x in s <==> x in order
  }

  lemma MarksGrow<T(!new)>(s: set<T>, order: seq<T>, x: T)
    requires Marks(s, order) && x !in s
    ensures Marks(s + {x}, order + [x])
  {
  }

  /** An element that a duplicate-free order has still to come is not marked. */
  lemma NotMarked<T(!new)>(s: set<T>, order: seq<T>, before: seq<T>, x: T, after: seq<T>)
    requires Marks(s, order + before) && NoDup(order + (before + [x] + after))
    ensures x !in s
  {
    var all := order + (before + [x] + after);
    assert all[|order| + |before|] == x;
    assert forall i :: 0 <= i < |order + before| ==> all[i] == (order + before)[i];
  }

  /** Follows an overflow chain, marking its pages; exact in both directions. */
  method CheckOverflow(img: Image, head: PageId, length: nat, reachable: set<PageId>, ghost order: Ids, ghost want: Ids)
    returns (r: Result<set<PageId>>, ghost ids: Ids)
    requires Marks(reachable, order)
    ensures r.Err? ==> r.error == Corruption
    ensures r.Ok? ==> Chain(img, ids, head, length) && Marks(r.value, order + ids)
    ensures Chain(img, want, head, length) && NoDup(order + want) ==> r.Ok? && ids == want
  {
    hide Marks, NoDup, Links, Chain, ChainBytes;
    ids := [];
    if length == 0 || length > MAX_VALUE_SIZE {
      ChainLength(img, want, head, length);
      return Err(Corruption), ids;
    }
    var pageId := Some(head);
    var visited: set<PageId> := {};
    var seen := reachable;
    var total, count := 0, 0;
    ghost var good := Chain(img, want, head, length) && NoDup(order + want);
    LinksStart(img, head, length);
    assert order + ids == order;
    if good {
      WantStart(img, want, head, length);
    }
    while pageId.Some?
      invariant count == |ids| <= MAX_OVERFLOW_PAGES
      invariant visited <= img.pages.Keys
      invariant forall x :: x in visited ==> x in ids
      invariant Marks(seen, order + ids)
      invariant total == |ChainBytes(img.pages, ids)|
      invariant Links(img, ids, head, length, pageId)
      invariant good ==> count <= |want| && ids == want[..count] && pageId == (if count < |want| then Some(want[count]) else None)
      decreases pageId.Some?, img.pages.Keys - visited
    {
      var current := pageId.value;
      if good {
        WantNext(img, want, head, length, count);
        assert want == ids + [current] + want[count + 1..];
        NotMarked(seen, order, ids, current, want[count + 1..]);
      }
      MarkedOrder(seen, order, ids);
      if count >= MAX_OVERFLOW_PAGES || current in visited || current in seen {
        return Err(Corruption), ids;
      }
      var page := PageAt(img, current);
      if page.Err? || !page.value.OverflowPage? || page.value.totalLength != length {
        return Err(Corruption), ids;
      }
      ChunksGrow(img.pages, ids, current);
      LinksGrow(img, ids, head, length, current);
      MarksGrow(seen, order + ids, current);
      assert order + (ids + [current]) == (order + ids) + [current];
      visited, seen, ids := visited + {current}, seen + {current}, ids + [current];
      total := total + |page.value.chunk|;
      pageId := page.value.next;
      count := count + 1;
    }
    LinksEnd(img, ids, head, length);
    if good {
      assert want[..count] == want;
      ChainLength(img, want, head, length);
    }
    if total != length {
      return Err(Corruption), ids;
    }
    return Ok(seen), ids;
  }

  lemma MarkedOrder(seen: set<PageId>, order: Ids, ids: Ids)
    requires Marks(seen, order + ids)
    ensures forall x :: x in ids ==> x in seen
  {
    assert forall i :: 0 <= i < |ids| ==> (order + ids)[|order| + i] == ids[i];
  }

  /** The pages followed so far, ending where `next` goes on. */
  ghost predicate Links(img: Image, ids: Ids, head: PageId, length: nat, next: Option<PageId>) {
    && (ids == [] ==> next == Some(head))
    && (ids != [] ==> ids[0] == head)
    && forall p :: 0 <= p < |ids| ==> InFile(img, ids[p]) && ChainLink(img.pages[ids[p]], length, NextIn(ids, p, next))
  }

  ghost function NextIn(ids: Ids, p: nat, next: Option<PageId>): Option<PageId> {
    if p + 1 < |ids| then Some(ids[p + 1]) else next
  }

  lemma LinksStart(img: Image, head: PageId, length: nat)
    ensures Links(img, [], head, length, Some(head)) && ChainBytes(img.pages, []) == []
  {
    assert Chunks(img.pages, []) == [];
  }

  lemma LinksGrow(img: Image, ids: Ids, head: PageId, length: nat, current: PageId)
    requires Links(img, ids, head, length, Some(current)) && InFile(img, current)
    requires img.pages[current].OverflowPage? && img.pages[current].totalLength == length
    ensures Links(img, ids + [current], head, length, img.pages[current].next)
  {
    var ids' := ids + [current];
    forall p | 0 <= p < |ids'| ensures InFile(img, ids'[p]) && ChainLink(img.pages[ids'[p]], length, NextIn(ids', p, img.pages[current].next)) {
      if p < |ids| {
        assert ChainLink(img.pages[ids[p]], length, NextIn(ids, p, Some(current)));
      }
    }
  }

  lemma LinksEnd(img: Image, ids: Ids, head: PageId, length: nat)
    requires Links(img, ids, head, length, None) && |ids| <= MAX_OVERFLOW_PAGES && 0 < length <= MAX_VALUE_SIZE
    ensures |ChainBytes(img.pages, ids)| == length ==> Chain(img, ids, head, length)
  {
    forall p | 0 <= p < |ids| ensures InFile(img, ids[p]) && ChainLink(img.pages[ids[p]], length, NextOf(ids, p)) {
      assert ChainLink(img.pages[ids[p]], length, NextIn(ids, p, None));
    }
  }

  lemma ChainLength(img: Image, ids: Ids, head: PageId, length: nat)
    ensures Chain(img, ids, head, length) ==> 0 < length <= MAX_VALUE_SIZE && |ChainBytes(img.pages, ids)| == length
  {
  }

  lemma ChunksGrow(pages: PageMap, ids: Ids, x: PageId)
    ensures ChainBytes(pages, ids + [x]) == ChainBytes(pages, ids) + Chunk(At(pages, x))
  {
    assert Chunks(pages, ids + [x]) == Chunks(pages, ids) + [Chunk(At(pages, x))];
    ConcatAppend(Chunks(pages, ids), [Chunk(At(pages, x))]);
    ConcatOne(Chunk(At(pages, x)));
  }

  lemma WantStart(img: Image, want: Ids, head: PageId, length: nat)
    requires Chain(img, want, head, length)
    ensures |want| > 0 && want[0] == head
  {
  }

  lemma WantNext(img: Image, want: Ids, head: PageId, length: nat, count: nat)
    requires Chain(img, want, head, length) && count < |want|
    ensures InFile(img, want[count]) && ChainLink(img.pages[want[count]], length, NextOf(want, count))
    ensures count < MAX_OVERFLOW_PAGES
  {
  }

  class TreeCheck {
    const img: Image
    var s: CheckState
    /** The pages and the keys in the order they were met. */
    ghost var order: Ids
    ghost var keyOrder: seq<bytes>

    constructor (img: Image)
      ensures this.img == img && Valid() && order == [] && keyOrder == [] && s.leaves == [] && s.maxRevision == 0
    {
      this.img := img;
      s := CheckState({}, {}, [], 0);
      order, keyOrder := [], [];
    }

    ghost predicate Valid()
      reads this
    {
      Marks(s.reachable, order) && Marks(s.keys, keyOrder)
    }

    method VisitEntry(e: LeafEntry, lower: Option<bytes>, upper: Option<bytes>, ghost want: Ids) returns (r: Result<()>, ghost ids: Ids)
      requires Valid()
      modifies this
      ensures r.Err? ==> r.error == Corruption
      ensures old(s).reachable <= s.reachable
      ensures r.Ok? ==>
                && Valid() && EntryChecks(img, e, ids, lower, upper)
                && order == old(order) + ids && keyOrder == old(keyOrder) + [e.key]
                && s.leaves == old(s).leaves && s.maxRevision == if e.revision > old(s).maxRevision then e.revision else old(s).maxRevision
      ensures EntryChecks(img, e, want, lower, upper) && NoDup(old(order) + want) && e.key !in old(keyOrder) ==> r.Ok? && ids == want
    {
      hide Marks, NoDup, Chain;
      ids := [];
      MarksIn(s.keys, keyOrder, e.key);
      if (lower.Some? && Less(e.key, lower.value)) || (upper.Some? && !Less(e.key, upper.value)) {
        return Err(Corruption), ids;
      }
      if e.revision == 0 || e.key in s.keys {
        return Err(Corruption), ids;
      }
      MarksGrow(s.keys, keyOrder, e.key);
      s := s.(keys := s.keys + {e.key}, maxRevision := if e.revision > s.maxRevision then e.revision else s.maxRevision);
      keyOrder := keyOrder + [e.key];
      assert order + [] == order;
      if e.value.Some? {
        match e.value.value
        case Inline(content) =>
          if |content| > INLINE_VALUE_LIMIT {
            return Err(Corruption), ids;
          }
        case Overflow(head, length) =>
          ghost var order0 := order;
          var pages;
          pages, ids := CheckOverflow(img, head, length, s.reachable, order, want);
          if pages.Err? {
            return Err(Corruption), ids;
          }
          MarksKept(s.reachable, pages.value, order, ids);
          s := s.(reachable := pages.value);
          order := order + ids;
      }
      return Ok(()), ids;
    }

    method VisitEntries(es: seq<LeafEntry>, lower: Option<bytes>, upper: Option<bytes>, ghost want: seq<Ids>)
      returns (r: Result<()>, ghost chains: seq<Ids>)
      requires Valid()
      modifies this
      ensures r.Err? ==> r.error == Corruption
      ensures old(s).reachable <= s.reachable
      ensures r.Ok? ==>
                && Valid() && LeafChecks(img, es, chains, lower, upper)
                && order == old(order) + Concat(chains) && keyOrder == old(keyOrder) + KeysIn(es)
                && s.leaves == old(s).leaves && s.maxRevision == MaxRevision(es, old(s).maxRevision)
      ensures LeafChecks(img, es, want, lower, upper) && NoDup(old(order) + Concat(want)) && NoDup(old(keyOrder) + KeysIn(es)) ==>
                r.Ok? && chains == want
    {
      hide Marks, NoDup, EntryChecks, Concat, MaxRevision;
      chains := [];
      ghost var good := LeafChecks(img, es, want, lower, upper) && NoDup(order + Concat(want)) && NoDup(keyOrder + KeysIn(es));
      EntriesStart(order, keyOrder, es, s.maxRevision);
      for i := 0 to |es|
        invariant Valid() && old(s).reachable <= s.reachable && s.leaves == old(s).leaves
        invariant |chains| == i && forall j :: 0 <= j < i ==> EntryChecks(img, es[j], chains[j], lower, upper)
        invariant order == old(order) + Concat(chains) && keyOrder == old(keyOrder) + KeysIn(es[..i])
        invariant s.maxRevision == MaxRevision(es[..i], old(s).maxRevision)
        invariant good ==> chains == want[..i]
      {
        ghost var wanted := if good then want[i] else [];
        if good {
          WantEntry(old(order), want, old(keyOrder), es, i);
        }
        var visited; ghost var ids;
        visited, ids := VisitEntry(es[i], lower, upper, wanted);
        if visited.Err? {
          return Err(Corruption), chains;
        }
        EntriesStep(old(order), chains, ids, old(keyOrder), es, i, old(s).maxRevision);
        chains := chains + [ids];
      }
      assert es[..|es|] == es;
      return Ok(()), chains;
    }

    /** What a finished visit adds to the state. */
    ghost predicate Added(s0: CheckState, order0: Ids, keyOrder0: seq<bytes>, pages: Ids, es: seq<LeafEntry>, leaves: Ids)
      reads this
    {
      && Valid()
      && order == order0 + pages && keyOrder == keyOrder0 + KeysIn(es)
      && s.leaves == s0.leaves + leaves && s.maxRevision == MaxRevision(es, s0.maxRevision)
    }

    /** Visits the tree below a page.  Terminates on any page graph; succeeds
        exactly when a search tree with pages and keys not met before hangs
        there. */
    method VisitTree(pageId: PageId, lower: Option<bytes>, upper: Option<bytes>, ghost want: Option<Node>)
      returns (r: Result<(Option<bytes>, Option<bytes>)>, ghost t: Node)
      requires Valid()
      modifies this
      ensures r.Err? ==> r.error == Corruption
      ensures old(s).reachable <= s.reachable
      ensures r.Ok? ==>
                && t.id == pageId && IsTree(img, t, lower, upper)
                && Added(old(s), old(order), old(keyOrder), PagesOf(t), EntriesOf(img.pages, t), LeavesOf(t))
                && r.value == (FirstOf(KeysOf(img.pages, t)), LastOf(KeysOf(img.pages, t)))
      ensures want.Some? && Fresh(img, want.value, pageId, lower, upper, old(order), old(keyOrder)) ==> r.Ok? && t == want.value
      decreases img.pages.Keys - s.reachable, 1
    {
      hide Marks, NoDup, LeafChecks, Concat, MaxRevision, IsTree, PagesOf, LeavesOf, EntriesOf, Fresh, FreshAll, KeysIn, FirstOf, LastOf, KidsOk, KidsBetween, PagesOfAll, LeavesOfAll, EntriesOfAll;
      t := LeafNode(pageId, []);
      MarksIn(s.reachable, order, pageId);
      ghost var s0, order0, keyOrder0 := s, order, keyOrder;
      ghost var good := want.Some? && Fresh(img, want.value, pageId, lower, upper, order, keyOrder);
      if good {
        FreshHead(img, want.value, pageId, lower, upper, order, keyOrder);
      }
      if pageId in s.reachable {
        return Err(Corruption), t;
      }
      MarksGrow(s.reachable, order, pageId);
      s := s.(reachable := s.reachable + {pageId});
      order := order + [pageId];
      var page := PageAt(img, pageId);
      if page.Err? {
        return Err(Corruption), t;
      }
      match page.value
      case Leaf(_, _, entries) =>
        ghost var wanted := if good then want.value.chains else [];
        if good {
          FreshLeaf(img, want.value, pageId, lower, upper, order0, keyOrder0);
        }
        var visited; ghost var chains;
        visited, chains := VisitEntries(entries, lower, upper, wanted);
        if visited.Err? {
          return Err(Corruption), t;
        }
        t := LeafNode(pageId, chains);
        LeafIsTree(img, pageId, chains, lower, upper, order0);
        s := s.(leaves := s.leaves + [pageId]);
        KeyEnds(entries);
        r := Ok((if entries == [] then None else Some(entries[0].key), if entries == [] then None else Some(entries[|entries| - 1].key)));
      case Internal(_, _, seps) =>
        if seps == [] {
          return Err(Corruption), t;
        }
        ghost var wanted := if good then want.value.kids else [];
        if good {
          FreshKids(img, want.value, pageId, lower, upper, order0, keyOrder0);
        }
        var visited; ghost var kids;
        visited, kids := VisitChildren(page.value, lower, upper, wanted);
        if visited.Err? {
          return Err(Corruption), t;
        }
        t := InnerNode(pageId, kids);
        InnerIsTree(img, pageId, kids, lower, upper, order0);
        r := visited;
      case _ =>
        return Err(Corruption), t;
    }

    /** Visits the children of an internal page in order and checks the first
        and last key below each against its separators. */
    method VisitChildren(p: PageData, lower: Option<bytes>, upper: Option<bytes>, ghost want: seq<Node>)
      returns (r: Result<(Option<bytes>, Option<bytes>)>, ghost kids: seq<Node>)
      requires Valid() && p.Internal?
      modifies this
      ensures r.Err? ==> r.error == Corruption
      ensures old(s).reachable <= s.reachable
      ensures r.Ok? ==>
                && KidsOk(img, p, kids, lower, upper, |p.seps| + 1) && KidsBetween(img.pages, p.seps, kids)
                && Added(old(s), old(order), old(keyOrder), PagesOfAll(kids), EntriesOfAll(img.pages, kids), LeavesOfAll(kids))
                && r.value == (FirstOf(KeysIn(EntriesOfAll(img.pages, kids))), LastOf(KeysIn(EntriesOfAll(img.pages, kids))))
      ensures FreshAll(img, p, want, lower, upper, old(order), old(keyOrder)) ==> r.Ok? && kids == want
      decreases img.pages.Keys - s.reachable, 2
    {
      hide Marks, NoDup, MaxRevision, IsTree, EntriesOf, LeavesOf, PagesOf, PagesOfAll, LeavesOfAll, EntriesOfAll;
      kids := [];
      var bounds: seq<(Option<bytes>, Option<bytes>)> := [];
      ghost var good := FreshAll(img, p, want, lower, upper, order, keyOrder);
      ChildrenStart(img.pages, order, keyOrder, s);
      for i := 0 to |p.seps| + 1
        invariant old(s).reachable <= s.reachable
        invariant KidsOk(img, p, kids, lower, upper, i)
        invariant Added(old(s), old(order), old(keyOrder), PagesOfAll(kids), EntriesOfAll(img.pages, kids), LeavesOfAll(kids))
        invariant BoundsOf(img.pages, kids, bounds)
        invariant good ==> kids == want[..i]
      {
        ghost var wanted := if good then Some(want[i]) else None;
        if good {
          FreshNext(img, p, want, lower, upper, old(order), old(keyOrder), i);
        }
        ghost var s1, order1, keyOrder1 := s, order, keyOrder;
        var visited; ghost var kid;
        visited, kid := VisitTree(ChildAt(p, i), LowerOf(p.seps, lower, i), UpperOf(p.seps, upper, i), wanted);
        if visited.Err? {
          return Err(Corruption), kids;
        }
        ChildrenStep(img.pages, kids, kid, old(order), old(keyOrder), old(s).leaves, old(s).maxRevision);
        assert good ==> want[..i + 1] == want[..i] + [kid];
        bounds := bounds + [visited.value];
        kids := kids + [kid];
      }
      assert good ==> want[..|want|] == want;
      var separated := CheckBounds(p.seps, bounds);
      if good {
        KidsBounds(img.pages, p.seps, want, bounds);
      }
      if !separated {
        return Err(Corruption), kids;
      }
      BoundsBetween(img.pages, p.seps, kids, bounds);
      var min := FirstBound(bounds, img.pages, kids);
      var max := LastBound(bounds, img.pages, kids);
      return Ok((min, max)), kids;
    }
  }

  // ---------------------------------------------------------------- children

  ghost predicate KidsOk(img: Image, p: PageData, kids: seq<Node>, lower: Option<bytes>, upper: Option<bytes>, n: nat)
    requires p.Internal?
  {
    && |kids| == n <= |p.seps| + 1
    && forall i :: 0 <= i < n ==>
         kids[i].id == ChildAt(p, i) && IsTree(img, kids[i], LowerOf(p.seps, lower, i), UpperOf(p.seps, upper, i))
  }

  ghost predicate KidsBetween(pages: PageMap, seps: seq<InternalEntry>, kids: seq<Node>) {
    |kids| == |seps| + 1 && forall i :: 0 <= i < |kids| ==> Between(KeysOf(pages, kids[i]), seps, i)
  }

  ghost predicate FreshAll(img: Image, p: PageData, kids: seq<Node>, lower: Option<bytes>, upper: Option<bytes>, order: Ids, keyOrder: seq<bytes>)
    requires p.Internal?
  {
    && KidsOk(img, p, kids, lower, upper, |p.seps| + 1) && KidsBetween(img.pages, p.seps, kids)
    && NoDup(order + PagesOfAll(kids)) && NoDup(keyOrder + KeysIn(EntriesOfAll(img.pages, kids)))
  }

  ghost predicate BoundsOf(pages: PageMap, kids: seq<Node>, bounds: seq<(Option<bytes>, Option<bytes>)>) {
    && |bounds| == |kids|
    && forall i :: 0 <= i < |kids| ==> bounds[i] == (FirstOf(KeysOf(pages, kids[i])), LastOf(KeysOf(pages, kids[i])))
  }

  /** Every left child ends below its separator, every right child starts at or
      above it. */
  ghost predicate Separated(seps: seq<InternalEntry>, bounds: seq<(Option<bytes>, Option<bytes>)>)
    requires |bounds| == |seps| + 1
  {
    forall i :: 0 <= i < |seps| ==>
      && (bounds[i].1.Some? ==> Less(bounds[i].1.value, seps[i].key))
      && (bounds[i + 1].0.Some? ==> !Less(bounds[i + 1].0.value, seps[i].key))
  }

  method CheckBounds(seps: seq<InternalEntry>, bounds: seq<(Option<bytes>, Option<bytes>)>) returns (ok: bool)
    requires |bounds| == |seps| + 1
    ensures ok <==> Separated(seps, bounds)
  {
    for i := 0 to |seps|
      invariant forall j :: 0 <= j < i ==>
                  && (bounds[j].1.Some? ==> Less(bounds[j].1.value, seps[j].key))
                  && (bounds[j + 1].0.Some? ==> !Less(bounds[j + 1].0.value, seps[j].key))
    {
      if bounds[i].1.Some? && !Less(bounds[i].1.value, seps[i].key) {
        return false;
      }
      if bounds[i + 1].0.Some? && Less(bounds[i + 1].0.value, seps[i].key) {
        return false;
      }
    }
    return true;
  }

  lemma BoundsBetween(pages: PageMap, seps: seq<InternalEntry>, kids: seq<Node>, bounds: seq<(Option<bytes>, Option<bytes>)>)
    requires |kids| == |seps| + 1 && BoundsOf(pages, kids, bounds) && Separated(seps, bounds)
    ensures KidsBetween(pages, seps, kids)
  {
    forall i | 0 <= i < |kids| ensures Between(KeysOf(pages, kids[i]), seps, i) {
      if i > 0 {
        assert bounds[(i - 1) + 1] == bounds[i];
      }
    }
  }

  lemma KidsBounds(pages: PageMap, seps: seq<InternalEntry>, kids: seq<Node>, bounds: seq<(Option<bytes>, Option<bytes>)>)
    requires KidsBetween(pages, seps, kids) && BoundsOf(pages, kids, bounds)
    ensures Separated(seps, bounds)
  {
    forall i | 0 <= i < |seps|
      ensures bounds[i].1.Some? ==> Less(bounds[i].1.value, seps[i].key)
      ensures bounds[i + 1].0.Some? ==> !Less(bounds[i + 1].0.value, seps[i].key)
    {
      assert Between(KeysOf(pages, kids[i]), seps, i) && Between(KeysOf(pages, kids[i + 1]), seps, i + 1);
    }
  }

  lemma KeysJoin(a: seq<LeafEntry>, b: seq<LeafEntry>)
    ensures KeysIn(a + b) == KeysIn(a) + KeysIn(b)
  {
  }

  lemma EndsJoin(a: seq<bytes>, b: seq<bytes>)
    ensures FirstOf(a + b) == if a == [] then FirstOf(b) else FirstOf(a)
    ensures LastOf(a + b) == if b == [] then LastOf(a) else LastOf(b)
  {
    if a == [] {
      assert a + b == b;
    }
  }

  lemma NoDupMiddle<T>(o: seq<T>, a: seq<T>, b: seq<T>, c: seq<T>)
    requires NoDup(o + (a + b + c))
    ensures NoDup((o + a) + b)
  {
    assert o + (a + b + c) == ((o + a) + b) + c;
    NoDupPrefix((o + a) + b, c);
  }

  /** The first bound that exists is the first key of all. */
  method FirstBound(bounds: seq<(Option<bytes>, Option<bytes>)>, ghost pages: PageMap, ghost kids: seq<Node>) returns (min: Option<bytes>)
    requires BoundsOf(pages, kids, bounds)
    ensures min == FirstOf(KeysIn(EntriesOfAll(pages, kids)))
  {
    hide EntriesOfAll, EntriesOf;
    NoKids(pages, kids);
    min := None;
    for i := 0 to |bounds|
      invariant min == FirstOf(KeysIn(EntriesOfAll(pages, kids[..i])))
    {
      AllStep(pages, kids, i);
      EndsJoin(KeysIn(EntriesOfAll(pages, kids[..i])), KeysOf(pages, kids[i]));
      if min.None? {
        min := bounds[i].0;
      }
    }
    assert kids[..|kids|] == kids;
  }

  method LastBound(bounds: seq<(Option<bytes>, Option<bytes>)>, ghost pages: PageMap, ghost kids: seq<Node>) returns (max: Option<bytes>)
    requires BoundsOf(pages, kids, bounds)
    ensures max == LastOf(KeysIn(EntriesOfAll(pages, kids)))
  {
    hide EntriesOfAll, EntriesOf;
    NoKids(pages, kids);
    max := None;
    for i := 0 to |bounds|
      invariant max == LastOf(KeysIn(EntriesOfAll(pages, kids[..i])))
    {
      AllStep(pages, kids, i);
      EndsJoin(KeysIn(EntriesOfAll(pages, kids[..i])), KeysOf(pages, kids[i]));
      if bounds[i].1.Some? {
        max := bounds[i].1;
      }
    }
    assert kids[..|kids|] == kids;
  }

  lemma AllStep(pages: PageMap, kids: seq<Node>, i: nat)
    requires i < |kids|
    ensures KeysIn(EntriesOfAll(pages, kids[..i + 1])) == KeysIn(EntriesOfAll(pages, kids[..i])) + KeysOf(pages, kids[i])
  {
    assert kids[..i + 1][..i] == kids[..i];
    KeysJoin(EntriesOfAll(pages, kids[..i]), EntriesOf(pages, kids[i]));
  }

  lemma NoKids(pages: PageMap, kids: seq<Node>)
    ensures KeysIn(EntriesOfAll(pages, kids[..0])) == []
  {
  }

  lemma ChildrenStart(pages: PageMap, order: Ids, keyOrder: seq<bytes>, s: CheckState)
    ensures order + PagesOfAll([]) == order && keyOrder + KeysIn(EntriesOfAll(pages, [])) == keyOrder
    ensures s.leaves + LeavesOfAll([]) == s.leaves && MaxRevision(EntriesOfAll(pages, []), s.maxRevision) == s.maxRevision
  {
  }

  lemma ChildrenStep(pages: PageMap, kids: seq<Node>, kid: Node, order: Ids, keyOrder: seq<bytes>, leaves: Ids, least: nat)
    ensures order + PagesOfAll(kids) + PagesOf(kid) == order + PagesOfAll(kids + [kid])
    ensures keyOrder + KeysIn(EntriesOfAll(pages, kids)) + KeysIn(EntriesOf(pages, kid)) == keyOrder + KeysIn(EntriesOfAll(pages, kids + [kid]))
    ensures leaves + LeavesOfAll(kids) + LeavesOf(kid) == leaves + LeavesOfAll(kids + [kid])
    ensures MaxRevision(EntriesOf(pages, kid), MaxRevision(EntriesOfAll(pages, kids), least)) == MaxRevision(EntriesOfAll(pages, kids + [kid]), least)
  {
    AllAppendOne(pages, kids, kid);
    hide PagesOfAll, PagesOf, LeavesOfAll, LeavesOf, EntriesOfAll, EntriesOf, MaxRevision;
    KeysJoin(EntriesOfAll(pages, kids), EntriesOf(pages, kid));
    MaxRevisionJoin(EntriesOfAll(pages, kids), EntriesOf(pages, kid), least);
  }

  lemma AllAppendOne(pages: PageMap, kids: seq<Node>, kid: Node)
    ensures PagesOfAll(kids + [kid]) == PagesOfAll(kids) + PagesOf(kid)
    ensures LeavesOfAll(kids + [kid]) == LeavesOfAll(kids) + LeavesOf(kid)
    ensures EntriesOfAll(pages, kids + [kid]) == EntriesOfAll(pages, kids) + EntriesOf(pages, kid)
  {
    assert (kids + [kid])[..|kids|] == kids;
  }

  lemma {:induction false} MaxRevisionJoin(a: seq<LeafEntry>, b: seq<LeafEntry>, least: nat)
    ensures MaxRevision(a + b, least) == MaxRevision(b, MaxRevision(a, least))
  {
    if b == [] {
      assert a + b == a;
    } else {
      assert (a + b)[..|a + b| - 1] == a + b[..|b| - 1];
      MaxRevisionJoin(a, b[..|b| - 1], least);
    }
  }

  lemma {:induction false} AllAppend(pages: PageMap, a: seq<Node>, b: seq<Node>)
    ensures PagesOfAll(a + b) == PagesOfAll(a) + PagesOfAll(b)
    ensures EntriesOfAll(pages, a + b) == EntriesOfAll(pages, a) + EntriesOfAll(pages, b)
  {
    if b == [] {
      assert a + b == a;
    } else {
      hide *;
      var most, last := b[..|b| - 1], b[|b| - 1];
      LastApart(b);
      Regroup(a, most, [last]);
      AllAppend(pages, a, most);
      AllAppendOne(pages, a + most, last);
      AllAppendOne(pages, most, last);
      Regroup(PagesOfAll(a), PagesOfAll(most), PagesOf(last));
      Regroup(EntriesOfAll(pages, a), EntriesOfAll(pages, most), EntriesOf(pages, last));
    }
  }

  lemma FreshNext(img: Image, p: PageData, want: seq<Node>, lower: Option<bytes>, upper: Option<bytes>, order: Ids, keyOrder: seq<bytes>, i: nat)
    requires p.Internal? && FreshAll(img, p, want, lower, upper, order, keyOrder) && i < |want|
    ensures Fresh(img, want[i], ChildAt(p, i), LowerOf(p.seps, lower, i), UpperOf(p.seps, upper, i),
                  order + PagesOfAll(want[..i]), keyOrder + KeysIn(EntriesOfAll(img.pages, want[..i])))
  {
    hide IsTree, Between, NoDup, PagesOfAll, PagesOf, EntriesOfAll, EntriesOf;
    var done, rest := want[..i], want[i + 1..];
    assert want == (done + [want[i]]) + rest;
    AllAppend(img.pages, done + [want[i]], rest);
    AllAppendOne(img.pages, done, want[i]);
    NoDupMiddle(order, PagesOfAll(done), PagesOf(want[i]), PagesOfAll(rest));
    KeysJoin(EntriesOfAll(img.pages, done + [want[i]]), EntriesOfAll(img.pages, rest));
    KeysJoin(EntriesOfAll(img.pages, done), EntriesOf(img.pages, want[i]));
    NoDupMiddle(keyOrder, KeysIn(EntriesOfAll(img.pages, done)), KeysOf(img.pages, want[i]), KeysIn(EntriesOfAll(img.pages, rest)));
  }

  lemma FreshKids(img: Image, t: Node, pageId: PageId, lower: Option<bytes>, upper: Option<bytes>, order: Ids, keyOrder: seq<bytes>)
    requires Fresh(img, t, pageId, lower, upper, order, keyOrder) && t.InnerNode?
    ensures pageId in img.pages && img.pages[pageId].Internal?
    ensures FreshAll(img, img.pages[pageId], t.kids, lower, upper, order + [pageId], keyOrder) && t == InnerNode(pageId, t.kids)
  {
    assert (order + [pageId]) + PagesOfAll(t.kids) == order + PagesOf(t);
  }

  lemma KeyEnds(entries: seq<LeafEntry>)
    ensures FirstOf(KeysIn(entries)) == if entries == [] then None else Some(entries[0].key)
    ensures LastOf(KeysIn(entries)) == if entries == [] then None else Some(entries[|entries| - 1].key)
  {
  }

  lemma LeafIsTree(img: Image, pageId: PageId, chains: seq<Ids>, lower: Option<bytes>, upper: Option<bytes>, order: Ids)
    requires InFile(img, pageId) && img.pages[pageId].Leaf? && LeafChecks(img, img.pages[pageId].entries, chains, lower, upper)
    ensures var t := LeafNode(pageId, chains);
            && IsTree(img, t, lower, upper) && LeavesOf(t) == [pageId] && EntriesOf(img.pages, t) == img.pages[pageId].entries
            && (order + [pageId]) + Concat(chains) == order + PagesOf(t)
  {
  }

  lemma InnerIsTree(img: Image, pageId: PageId, kids: seq<Node>, lower: Option<bytes>, upper: Option<bytes>, order: Ids)
    requires InFile(img, pageId) && img.pages[pageId].Internal? && img.pages[pageId].seps != []
    requires KidsOk(img, img.pages[pageId], kids, lower, upper, |img.pages[pageId].seps| + 1)
    requires KidsBetween(img.pages, img.pages[pageId].seps, kids)
    ensures var t := InnerNode(pageId, kids);
            && IsTree(img, t, lower, upper) && LeavesOf(t) == LeavesOfAll(kids) && EntriesOf(img.pages, t) == EntriesOfAll(img.pages, kids)
            && (order + [pageId]) + PagesOfAll(kids) == order + PagesOf(t)
  {
  }

  /** A tree that can still be met below pageId. */
  ghost predicate Fresh(img: Image, t: Node, pageId: PageId, lower: Option<bytes>, upper: Option<bytes>, order: Ids, keyOrder: seq<bytes>) {
    && t.id == pageId && IsTree(img, t, lower, upper)
    && NoDup(order + PagesOf(t)) && NoDup(keyOrder + KeysOf(img.pages, t))
  }

  lemma FreshHead(img: Image, t: Node, pageId: PageId, lower: Option<bytes>, upper: Option<bytes>, order: Ids, keyOrder: seq<bytes>)
    requires Fresh(img, t, pageId, lower, upper, order, keyOrder)
    ensures pageId !in order && InFile(img, pageId)
    ensures t.LeafNode? ==> img.pages[pageId].Leaf?
    ensures t.InnerNode? ==> img.pages[pageId].Internal? && img.pages[pageId].seps != []
  {
    var all := order + PagesOf(t);
    assert all[|order|] == pageId;
    assert forall i :: 0 <= i < |order| ==> all[i] == order[i];
  }

  lemma FreshLeaf(img: Image, t: Node, pageId: PageId, lower: Option<bytes>, upper: Option<bytes>, order: Ids, keyOrder: seq<bytes>)
    requires Fresh(img, t, pageId, lower, upper, order, keyOrder) && t.LeafNode?
    ensures pageId in img.pages && img.pages[pageId].Leaf?
    ensures LeafChecks(img, img.pages[pageId].entries, t.chains, lower, upper)
    ensures NoDup((order + [pageId]) + Concat(t.chains)) && NoDup(keyOrder + KeysIn(img.pages[pageId].entries))
    ensures t == LeafNode(pageId, t.chains)
  {
    assert (order + [pageId]) + Concat(t.chains) == order + PagesOf(t);
  }

  lemma EntriesStart(order: Ids, keyOrder: seq<bytes>, es: seq<LeafEntry>, least: nat)
    ensures order + Concat<PageId>([]) == order && keyOrder + KeysIn(es[..0]) == keyOrder && MaxRevision(es[..0], least) == least
  {
  }

  lemma EntriesStep(order: Ids, chains: seq<Ids>, ids: Ids, keyOrder: seq<bytes>, es: seq<LeafEntry>, i: nat, least: nat)
    requires i < |es|
    ensures (order + Concat(chains)) + ids == order + Concat(chains + [ids])
    ensures (keyOrder + KeysIn(es[..i])) + [es[i].key] == keyOrder + KeysIn(es[..i + 1])
    ensures var m := MaxRevision(es[..i], least); MaxRevision(es[..i + 1], least) == if es[i].revision > m then es[i].revision else m
  {
    ConcatAppend(chains, [ids]);
    ConcatOne(ids);
    assert es[..i + 1][..i] == es[..i];
    assert KeysIn(es[..i + 1]) == KeysIn(es[..i]) + [es[i].key];
  }

  lemma WantEntry(order: Ids, want: seq<Ids>, keyOrder: seq<bytes>, es: seq<LeafEntry>, i: nat)
    requires i < |es| == |want| && NoDup(order + Concat(want)) && NoDup(keyOrder + KeysIn(es))
    ensures NoDup(order + Concat(want[..i]) + want[i]) && es[i].key !in keyOrder + KeysIn(es[..i])
    ensures want[..i + 1] == want[..i] + [want[i]]
  {
    ConcatAround(want, i);
    var all, some := order + Concat(want), order + Concat(want[..i]) + want[i];
    assert all == some + Concat(want[i + 1..]);
    NoDupPrefix(some, Concat(want[i + 1..]));
    var keys, before := keyOrder + KeysIn(es), keyOrder + KeysIn(es[..i]);
    assert keys[|keyOrder| + i] == es[i].key;
    assert forall j :: 0 <= j < |before| ==> keys[j] == before[j];
  }

  lemma NoDupPrefix<T>(a: seq<T>, b: seq<T>)
    requires NoDup(a + b)
    ensures NoDup(a)
  {
    assert forall i :: 0 <= i < |a| ==> (a + b)[i] == a[i];
  }

  lemma MarksIn<T(!new)>(s: set<T>, order: seq<T>, x: T)
    requires Marks(s, order)
    ensures x in s <==> x in order
  {
  }

  lemma MarksKept(s: set<PageId>, s': set<PageId>, order: Ids, ids: Ids)
    requires Marks(s, order) && Marks(s', order + ids)
    ensures s <= s'
  {
    assert forall x :: x in order ==> x in order + ids;
  }

  // ---------------------------------------------------------------- the leftmost leaf

  lemma {:induction false} LeavesSome(img: Image, t: Node, lower: Option<bytes>, upper: Option<bytes>)
    requires IsTree(img, t, lower, upper)
    ensures LeavesOf(t) != []
    ensures t.InnerNode? ==> |t.kids| > 0 && LeavesOf(t.kids[0]) != [] && LeavesOf(t)[0] == LeavesOf(t.kids[0])[0]
    decreases t
  {
    if t.InnerNode? {
      var p := img.pages[t.id];
      LeavesSome(img, t.kids[0], LowerOf(p.seps, lower, 0), UpperOf(p.seps, upper, 0));
      FirstLeaf(t.kids);
    }
  }

  lemma {:induction false} FirstLeaf(ts: seq<Node>)
    requires ts != [] && LeavesOf(ts[0]) != []
    ensures LeavesOfAll(ts) != [] && LeavesOfAll(ts)[0] == LeavesOf(ts[0])[0]
  {
    if |ts| == 1 {
      assert ts[..0] == [];
      assert LeavesOfAll(ts) == [] + LeavesOf(ts[0]);
    } else {
      FirstLeaf(ts[..|ts| - 1]);
    }
  }

  lemma {:induction false} FirstPages(ts: seq<Node>, x: PageId)
    requires ts != [] && x in PagesOf(ts[0])
    ensures x in PagesOfAll(ts)
  {
    if |ts| == 1 {
      assert ts[..0] == [];
      assert PagesOfAll(ts) == [] + PagesOf(ts[0]);
    } else {
      FirstPages(ts[..|ts| - 1], x);
    }
  }

  /** Follows the leftmost children down. */
  method LeftmostLeaf(img: Image, pageId: PageId, visited: set<PageId>, ghost t: Node, ghost lower: Option<bytes>, ghost upper: Option<bytes>)
    returns (r: Result<PageId>)
    ensures r.Err? ==> r.error == Corruption
    ensures IsTree(img, t, lower, upper) && t.id == pageId && NoDup(PagesOf(t)) && (forall x :: x in PagesOf(t) ==> x !in visited) ==>
              LeavesOf(t) != [] && r == Ok(LeavesOf(t)[0])
    decreases img.pages.Keys - visited
  {
    ghost var good := IsTree(img, t, lower, upper) && t.id == pageId && NoDup(PagesOf(t)) && forall x :: x in PagesOf(t) ==> x !in visited;
    if good {
      assert PagesOf(t)[0] == t.id;
      LeavesSome(img, t, lower, upper);
    }
    if pageId in visited {
      return Err(Corruption);
    }
    var page := PageAt(img, pageId);
    if page.Err? {
      return Err(Corruption);
    }
    match page.value
    case Leaf(_, _, _) =>
      return Ok(pageId);
    case Internal(_, leftmostChild, seps) =>
      ghost var kid := if good then t.kids[0] else t;
      if good {
        KidUnvisited(img, t, lower, upper, visited);
      }
      r := LeftmostLeaf(img, leftmostChild, visited + {pageId}, kid,
                        if good then LowerOf(seps, lower, 0) else lower, if good then UpperOf(seps, upper, 0) else upper);
    case _ =>
      return Err(Corruption);
  }

  lemma KidUnvisited(img: Image, t: Node, lower: Option<bytes>, upper: Option<bytes>, visited: set<PageId>)
    requires IsTree(img, t, lower, upper) && t.InnerNode? && NoDup(PagesOf(t)) && forall x :: x in PagesOf(t) ==> x !in visited
    ensures |t.kids| > 0 && NoDup(PagesOf(t.kids[0])) && forall x :: x in PagesOf(t.kids[0]) ==> x !in visited + {t.id}
  {
    FirstKidPages(t);
    hide IsTree, PagesOf, PagesOfAll;
    NoDupPart(t.id, PagesOf(t.kids[0]), PagesOfAll(t.kids[1..]));
  }

  lemma FirstKidPages(t: Node)
    requires t.InnerNode? && t.kids != []
    ensures PagesOf(t) == [t.id] + (PagesOf(t.kids[0]) + PagesOfAll(t.kids[1..]))
  {
    var kid := t.kids[0];
    assert t.kids == [kid] + t.kids[1..];
    AllAppend(map[], [kid], t.kids[1..]);
    assert [kid][..0] == [] && PagesOfAll([kid]) == [] + PagesOf(kid);
  }

  lemma NoDupPart(x: PageId, a: Ids, b: Ids)
    requires NoDup([x] + (a + b))
    ensures NoDup(a) && x !in a && forall y :: y in a ==> y in [x] + (a + b)
  {
    var all := [x] + (a + b);
    assert forall i :: 0 <= i < |a| ==> all[i + 1] == a[i];
    assert all[0] == x;
  }

  // ---------------------------------------------------------------- the leaf chain

  /** The keys go on ascending from `previous`. */
  ghost predicate GoesOn(previous: Option<bytes>, keys: seq<bytes>) {
    && Ascending(keys)
    && (previous.Some? && keys != [] ==> Less(previous.value, keys[0]))
  }

  method CheckOrder(entries: seq<LeafEntry>, previous: Option<bytes>) returns (ok: bool, last: Option<bytes>)
    ensures ok <==> GoesOn(previous, KeysIn(entries))
    ensures ok ==> last == if entries == [] then previous else LastOf(KeysIn(entries))
  {
    ghost var keys := KeysIn(entries);
    last := previous;
    for i := 0 to |entries|
      invariant GoesOn(previous, keys[..i])
      invariant last == if i == 0 then previous else Some(keys[i - 1])
    {
      if last.Some? && !Less(last.value, entries[i].key) {
        OrderBroken(previous, keys, i);
        return false, last;
      }
      assert forall j :: 0 <= j < i ==> Less(keys[j], keys[i]) by {
        assert forall j :: 0 <= j < i - 1 ==> Less(keys[..i][j], keys[..i][i - 1]);
      }
      assert keys[..i + 1] == keys[..i] + [keys[i]];
      last := Some(entries[i].key);
    }
    assert keys[..|entries|] == keys;
    return true, last;
  }

  lemma OrderBroken(previous: Option<bytes>, keys: seq<bytes>, i: nat)
    requires i < |keys|
    requires if i == 0 then previous.Some? && !Less(previous.value, keys[0]) else !Less(keys[i - 1], keys[i])
    ensures !GoesOn(previous, keys)
  {
  }

  /** The leaves followed so far, ending where `next` goes on. */
  ghost predicate LeafLinks(img: Image, ids: Ids, first: PageId, next: Option<PageId>) {
    && (ids == [] ==> next == Some(first))
    && (ids != [] ==> ids[0] == first)
    && forall p :: 0 <= p < |ids| ==>
         InFile(img, ids[p]) && img.pages[ids[p]].Leaf? && img.pages[ids[p]].nextLeaf == NextIn(ids, p, next)
  }

  /** The leaves are linked in order and their keys ascend throughout. */
  ghost predicate LeafChain(img: Image, leaves: Ids, first: PageId) {
    && leaves != [] && LeafLinks(img, leaves, first, None)
    && Ascending(KeysIn(Contents(img.pages, leaves)))
  }

  lemma LeafLinksGrow(img: Image, ids: Ids, first: PageId, x: PageId)
    requires LeafLinks(img, ids, first, Some(x)) && InFile(img, x) && img.pages[x].Leaf?
    ensures LeafLinks(img, ids + [x], first, img.pages[x].nextLeaf)
  {
    var ids' := ids + [x];
    forall p | 0 <= p < |ids'|
      ensures InFile(img, ids'[p]) && img.pages[ids'[p]].Leaf? && img.pages[ids'[p]].nextLeaf == NextIn(ids', p, img.pages[x].nextLeaf)
    {
      if p < |ids| {
        assert img.pages[ids[p]].nextLeaf == NextIn(ids, p, Some(x));
      }
    }
  }

  lemma ContentsGrow(pages: PageMap, ids: Ids, x: PageId)
    ensures KeysIn(Contents(pages, ids + [x])) == KeysIn(Contents(pages, ids)) + KeysIn(Entries(At(pages, x)))
  {
    assert EntryLists(pages, ids + [x]) == EntryLists(pages, ids) + [Entries(At(pages, x))];
    ConcatAppend(EntryLists(pages, ids), [Entries(At(pages, x))]);
    ConcatOne(Entries(At(pages, x)));
    KeysJoin(Contents(pages, ids), Entries(At(pages, x)));
  }

  lemma AscendingJoin(a: seq<bytes>, b: seq<bytes>)
    ensures Ascending(a + b) <==> Ascending(a) && GoesOn(LastOf(a), b)
  {
    var c := a + b;
    if Ascending(c) {
      assert forall i :: 0 <= i < |a| ==> c[i] == a[i];
      assert forall i :: 0 <= i < |b| ==> c[|a| + i] == b[i];
    }
    if Ascending(a) && GoesOn(LastOf(a), b) {
      forall i, j | 0 <= i < j < |c| ensures Less(c[i], c[j]) {
        if i < |a| <= j {
          assert a[i] == a[|a| - 1] || Less(a[i], a[|a| - 1]);
          assert b[j - |a|] == b[0] || Less(b[0], b[j - |a|]);
        }
      }
    }
  }

  /** Walks the chain from the leftmost leaf and compares it with the leaves the
      visit met; exact in both directions. */
  method CheckLeafChain(img: Image, treeLeaves: Ids, leftmost: PageId, reachable: set<PageId>) returns (r: Result<()>)
    requires forall x :: x in treeLeaves ==> x in reachable
    requires NoDup(treeLeaves)
    ensures r.Err? ==> r.error == Corruption
    ensures r.Ok? <==> LeafChain(img, treeLeaves, leftmost)
  {
    hide LeafLinks, Ascending, GoesOn, NoDup, Contents;
    var chain: Ids := [];
    var current := Some(leftmost);
    var visited: set<PageId> := {};
    var previous: Option<bytes> := None;
    ghost var good := LeafChain(img, treeLeaves, leftmost);
    LeafStart(img, treeLeaves, leftmost);
    while current.Some?
      invariant visited <= img.pages.Keys
      invariant forall x :: x in visited ==> x in chain
      invariant LeafLinks(img, chain, leftmost, current) && (chain == [] ==> current.Some?)
      invariant Ascending(KeysIn(Contents(img.pages, chain))) && previous == LastOf(KeysIn(Contents(img.pages, chain)))
      invariant good ==> |chain| <= |treeLeaves| && chain == treeLeaves[..|chain|]
      invariant good ==> current == if |chain| < |treeLeaves| then Some(treeLeaves[|chain|]) else None
      decreases current.Some?, img.pages.Keys - visited
    {
      var pageId := current.value;
      if good {
        LeafNext(img, treeLeaves, leftmost, |chain|);
      }
      if pageId in visited || pageId !in reachable {
        return Err(Corruption);
      }
      var page := PageAt(img, pageId);
      if page.Err? || !page.value.Leaf? {
        return Err(Corruption);
      }
      ghost var keys := KeysIn(Contents(img.pages, chain));
      ContentsGrow(img.pages, chain, pageId);
      AscendingJoin(keys, KeysIn(page.value.entries));
      EndsJoin(keys, KeysIn(page.value.entries));
      var ok, last := CheckOrder(page.value.entries, previous);
      if !ok {
        return Err(Corruption);
      }
      LeafLinksGrow(img, chain, leftmost, pageId);
      assert good ==> treeLeaves[..|chain| + 1] == treeLeaves[..|chain|] + [pageId];
      visited, chain, previous := visited + {pageId}, chain + [pageId], last;
      current := page.value.nextLeaf;
    }
    assert good ==> treeLeaves[..|treeLeaves|] == treeLeaves;
    if chain != treeLeaves {
      return Err(Corruption);
    }
    return Ok(());
  }

  lemma LeafStart(img: Image, leaves: Ids, first: PageId)
    ensures LeafLinks(img, [], first, Some(first)) && KeysIn(Contents(img.pages, [])) == [] && Ascending([])
    ensures LeafChain(img, leaves, first) ==> leaves != [] && leaves[0] == first
  {
  }

  lemma LeafNext(img: Image, leaves: Ids, first: PageId, n: nat)
    requires LeafChain(img, leaves, first) && NoDup(leaves) && n < |leaves|
    ensures InFile(img, leaves[n]) && img.pages[leaves[n]].Leaf? && leaves[n] !in leaves[..n] && leaves[n] in leaves
    ensures img.pages[leaves[n]].nextLeaf == NextOf(leaves, n)
    ensures Ascending(KeysIn(Contents(img.pages, leaves[..n])) + KeysIn(img.pages[leaves[n]].entries))
  {
    assert img.pages[leaves[n]].nextLeaf == NextIn(leaves, n, None);
    ContentsGrow(img.pages, leaves[..n], leaves[n]);
    assert leaves == (leaves[..n] + [leaves[n]]) + leaves[n + 1..];
    ContentsPrefix(img.pages, leaves[..n] + [leaves[n]], leaves[n + 1..]);
    AscendingJoin(KeysIn(Contents(img.pages, leaves[..n] + [leaves[n]])), KeysIn(Contents(img.pages, leaves[n + 1..])));
  }

  lemma ContentsPrefix(pages: PageMap, a: Ids, b: Ids)
    ensures KeysIn(Contents(pages, a + b)) == KeysIn(Contents(pages, a)) + KeysIn(Contents(pages, b))
  {
    assert EntryLists(pages, a + b) == EntryLists(pages, a) + EntryLists(pages, b);
    ConcatAppend(EntryLists(pages, a), EntryLists(pages, b));
    KeysJoin(Contents(pages, a), Contents(pages, b));
  }

  // ---------------------------------------------------------------- leaves among the pages

  lemma {:induction false} LeavesInPages(t: Node)
    requires NoDup(PagesOf(t))
    ensures NoDup(LeavesOf(t)) && forall x :: x in LeavesOf(t) ==> x in PagesOf(t)
    decreases t, 1
  {
    match t
    case LeafNode(id, _) => assert PagesOf(t)[0] == id;
    case InnerNode(id, kids) =>
      var all := PagesOf(t);
      assert forall i :: 0 <= i < |PagesOfAll(kids)| ==> all[i + 1] == PagesOfAll(kids)[i];
      LeavesInAllPages(kids);
  }

  lemma {:induction false} LeavesInAllPages(ts: seq<Node>)
    requires NoDup(PagesOfAll(ts))
    ensures NoDup(LeavesOfAll(ts)) && forall x :: x in LeavesOfAll(ts) ==> x in PagesOfAll(ts)
    decreases ts, 0
  {
    if ts != [] {
      var a, b := PagesOfAll(ts[..|ts| - 1]), PagesOf(ts[|ts| - 1]);
      NoDupSplit(a, b);
      LeavesInAllPages(ts[..|ts| - 1]);
      LeavesInPages(ts[|ts| - 1]);
      NoDupJoin(LeavesOfAll(ts[..|ts| - 1]), LeavesOf(ts[|ts| - 1]));
    }
  }

  lemma NoDupSplit(a: Ids, b: Ids)
    requires NoDup(a + b)
    ensures NoDup(a) && NoDup(b) && forall x :: x in a ==> x !in b
  {
    assert forall i :: 0 <= i < |a| ==> (a + b)[i] == a[i];
    assert forall i :: 0 <= i < |b| ==> (a + b)[|a| + i] == b[i];
  }

  lemma NoDupJoin(a: Ids, b: Ids)
    requires NoDup(a) && NoDup(b) && forall x :: x in a ==> x !in b
    ensures NoDup(a + b)
  {
    var c := a + b;
    forall i, j | 0 <= i < j < |c| ensures c[i] != c[j] {
      if i < |a| <= j {
        assert a[i] in a && b[j - |a|] in b;
      }
    }
  }

  // ---------------------------------------------------------------- the free list

  /** The free pages followed so far, ending where `next` goes on. */
  ghost predicate FreeLinks(img: Image, ids: Ids, head: Option<PageId>, next: Option<PageId>) {
    && (ids == [] ==> next == head)
    && (ids != [] ==> head == Some(ids[0]))
    && forall p :: 0 <= p < |ids| ==>
         InFile(img, ids[p]) && img.pages[ids[p]].Free? && img.pages[ids[p]].nextFree == NextIn(ids, p, next)
  }

  lemma FreeLinksGrow(img: Image, ids: Ids, head: Option<PageId>, x: PageId)
    requires FreeLinks(img, ids, head, Some(x)) && InFile(img, x) && img.pages[x].Free?
    ensures FreeLinks(img, ids + [x], head, img.pages[x].nextFree)
  {
    var ids' := ids + [x];
    forall p | 0 <= p < |ids'|
      ensures InFile(img, ids'[p]) && img.pages[ids'[p]].Free? && img.pages[ids'[p]].nextFree == NextIn(ids', p, img.pages[x].nextFree)
    {
      if p < |ids| {
        assert img.pages[ids[p]].nextFree == NextIn(ids, p, Some(x));
      }
    }
  }

  /** Follows the free list; exact in both directions. */
  method CheckFreeList(img: Image, reachable: set<PageId>, ghost order: Ids, ghost want: Ids) returns (r: Result<set<PageId>>, ghost free: Ids)
    requires Marks(reachable, order)
    ensures r.Err? ==> r.error == Corruption
    ensures r.Ok? ==> FreeLinks(img, free, img.freeHead, None) && NoDup(order + free) && Marks(r.value, free)
    ensures FreeLinks(img, want, img.freeHead, None) && NoDup(order + want) ==> r.Ok? && free == want
  {
    hide Marks, NoDup, FreeLinks;
    free := [];
    var freePages: set<PageId> := {};
    var next := img.freeHead;
    ghost var good := FreeLinks(img, want, img.freeHead, None) && NoDup(order + want);
    FreeStart(img, reachable, order, want);
    while next.Some?
      invariant freePages <= img.pages.Keys
      invariant FreeLinks(img, free, img.freeHead, next) && NoDup(order + free) && Marks(freePages, free)
      invariant good ==> |free| <= |want| && free == want[..|free|]
      invariant good ==> next == if |free| < |want| then Some(want[|free|]) else None
      decreases next.Some?, img.pages.Keys - freePages
    {
      var pageId := next.value;
      if good {
        FreeNext(img, reachable, order, want, |free|);
      }
      MarksIn(freePages, free, pageId);
      MarksIn(reachable, order, pageId);
      if pageId in freePages || pageId in reachable {
        return Err(Corruption), free;
      }
      var page := PageAt(img, pageId);
      if page.Err? || !page.value.Free? {
        return Err(Corruption), free;
      }
      FreeLinksGrow(img, free, img.freeHead, pageId);
      MarksGrow(freePages, free, pageId);
      NoDupNext(order, free, pageId);
      assert good ==> want[..|free| + 1] == want[..|free|] + [pageId];
      freePages, free := freePages + {pageId}, free + [pageId];
      next := page.value.nextFree;
    }
    assert good ==> want[..|want|] == want;
    return Ok(freePages), free;
  }

  lemma FreeStart(img: Image, reachable: set<PageId>, order: Ids, want: Ids)
    requires Marks(reachable, order)
    ensures FreeLinks(img, [], img.freeHead, img.freeHead) && NoDup(order + []) && Marks<PageId>({}, [])
    ensures FreeLinks(img, want, img.freeHead, None) ==> img.freeHead == if want == [] then None else Some(want[0])
  {
    assert order + [] == order;
  }

  lemma FreeNext(img: Image, reachable: set<PageId>, order: Ids, want: Ids, n: nat)
    requires FreeLinks(img, want, img.freeHead, None) && NoDup(order + want) && n < |want|
    ensures want[n] !in order && want[n] !in want[..n] && InFile(img, want[n]) && img.pages[want[n]].Free?
    ensures img.pages[want[n]].nextFree == NextOf(want, n)
  {
    NoDupSplit(order, want);
    assert img.pages[want[n]].nextFree == NextIn(want, n, None);
  }

  lemma NoDupNext(order: Ids, free: Ids, x: PageId)
    requires NoDup(order + free) && x !in order && x !in free
    ensures NoDup(order + (free + [x]))
  {
    assert order + (free + [x]) == (order + free) + [x];
  }

  // ---------------------------------------------------------------- the whole check

  datatype Report = Report(reachablePages: nat, freePages: nat, leaked: Ids, maxRevision: nat)

  /** The image is a search tree with its overflow chains, a leaf chain in tree
      order and a free list, all on different pages. */
  ghost predicate WellFormed(img: Image, t: Node, free: Ids) {
    && t.id == img.root && IsTree(img, t, None, None)
    && NoDup(PagesOf(t) + free) && NoDup(KeysOf(img.pages, t))
    && LeavesOf(t) != [] && LeafChain(img, LeavesOf(t), LeavesOf(t)[0])
    && FreeLinks(img, free, img.freeHead, None)
  }

  method LeakedPages(high: PageId, reachable: set<PageId>, freePages: set<PageId>) returns (leaked: Ids)
    ensures forall x :: x in leaked <==> FIRST_DATA_PAGE <= x <= high && x !in reachable && x !in freePages
  {
    leaked := [];
    var x := FIRST_DATA_PAGE;
    while x <= high
      invariant x >= FIRST_DATA_PAGE && (high >= FIRST_DATA_PAGE ==> x <= high + 1)
      invariant forall y :: y in leaked <==> FIRST_DATA_PAGE <= y < x && y <= high && y !in reachable && y !in freePages
    {
      if x !in reachable && x !in freePages {
        leaked := leaked + [x];
      }
      x := x + 1;
    }
  }

  /** Checks an image of any shape.  It succeeds exactly on the well-formed ones,
      and reports as leaked exactly the pages that are neither reachable nor
      free. */
  method Check(img: Image, ghost want: Option<(Node, Ids)>) returns (r: Result<Report>, ghost t: Node, ghost free: Ids)
    ensures r.Err? ==> r.error == Corruption
    ensures r.Ok? ==> WellFormed(img, t, free)
    ensures r.Ok? ==>
              && (forall x :: x in r.value.leaked <==> FIRST_DATA_PAGE <= x <= img.high && x !in PagesOf(t) + free)
              && r.value.reachablePages == |PagesOf(t)| && r.value.freePages == |free|
              && r.value.maxRevision == MaxRevision(EntriesOf(img.pages, t), 0)
    ensures want.Some? && WellFormed(img, want.value.0, want.value.1) ==> r.Ok? && (t, free) == want.value
  {
    hide IsTree, PagesOf, LeavesOf, EntriesOf, Marks, NoDup, MaxRevision, LeafChain, FreeLinks;
    free := [];
    ghost var good := want.Some? && WellFormed(img, want.value.0, want.value.1);
    if good {
      WantTree(img, want.value.0, want.value.1);
    }
    var checker := new TreeCheck(img);
    var visited;
    visited, t := checker.VisitTree(img.root, None, None, if good then Some(want.value.0) else None);
    if visited.Err? {
      return Err(Corruption), t, free;
    }
    TreeFacts(img, t, checker.s, checker.order, checker.keyOrder);
    var leftmost := LeftmostLeaf(img, img.root, {}, t, None, None);
    if leftmost.Err? {
      return Err(Corruption), t, free;
    }
    var chain := CheckLeafChain(img, checker.s.leaves, leftmost.value, checker.s.reachable);
    if chain.Err? {
      return Err(Corruption), t, free;
    }
    var freePages;
    freePages, free := CheckFreeList(img, checker.s.reachable, PagesOf(t), if good then want.value.1 else []);
    if freePages.Err? {
      return Err(Corruption), t, free;
    }
    var leaked := LeakedPages(img.high, checker.s.reachable, freePages.value);
    LeakedExactly(checker.s.reachable, PagesOf(t), freePages.value, free);
    MarksCount(checker.s.reachable, PagesOf(t));
    MarksCount(freePages.value, free);
    r := Ok(Report(|checker.s.reachable|, |freePages.value|, leaked, checker.s.maxRevision));
  }

  lemma WantTree(img: Image, t: Node, free: Ids)
    requires WellFormed(img, t, free)
    ensures Fresh(img, t, img.root, None, None, [], [])
  {
    NoDupSplit(PagesOf(t), free);
    assert [] + PagesOf(t) == PagesOf(t) && [] + KeysOf(img.pages, t) == KeysOf(img.pages, t);
  }

  lemma TreeFacts(img: Image, t: Node, s: CheckState, order: Ids, keyOrder: seq<bytes>)
    requires IsTree(img, t, None, None) && Marks(s.reachable, order) && Marks(s.keys, keyOrder)
    requires order == [] + PagesOf(t) && keyOrder == [] + KeysIn(EntriesOf(img.pages, t)) && s.leaves == [] + LeavesOf(t)
    ensures Marks(s.reachable, PagesOf(t)) && NoDup(PagesOf(t)) && NoDup(KeysOf(img.pages, t))
    ensures s.leaves == LeavesOf(t) && LeavesOf(t) != [] && NoDup(LeavesOf(t)) && forall x :: x in LeavesOf(t) ==> x in s.reachable
  {
    assert [] + PagesOf(t) == PagesOf(t);
    assert [] + KeysOf(img.pages, t) == KeysOf(img.pages, t);
    assert [] + LeavesOf(t) == LeavesOf(t);
    LeavesSome(img, t, None, None);
    LeavesInPages(t);
  }

  lemma MarksCount(s: set<PageId>, order: Ids)
    requires Marks(s, order)
    ensures |s| == |order|
  {
    CountDistinct(order, s);
  }

  lemma LeakedExactly(reachable: set<PageId>, order: Ids, freePages: set<PageId>, free: Ids)
    requires Marks(reachable, order) && Marks(freePages, free)
    ensures forall x :: x in order + free <==> x in reachable || x in freePages
  {
  }
}
