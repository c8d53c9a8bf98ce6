/** Page ownership.  A ledger gives every allocated page exactly one role: a
    tree page of some level, a page of one overflow chain, a page of the free
    stack, or loose (allocated and not placed yet). */
module Space {
  import opened Lex
  import opened Seqs
  import opened Pages
  import opened Tree

  datatype Role = TreePage(level: nat) | ChainPage(head: PageId, pos: nat) | FreePage(pos: nat) | Loose

  type Ledger = map<PageId, Role>
  type Chains = map<PageId, Ids>

  ghost predicate TreeRoles(levels: seq<Ids>, role: Ledger) {
    && (forall k, x :: 0 <= k < |levels| && x in levels[k] ==> x in role && role[x] == TreePage(k))
    && (forall x :: x in role && role[x].TreePage? ==>
          role[x].level < |levels| && x in levels[role[x].level])
  }

  ghost predicate ChainRoles(chains: Chains, role: Ledger) {
    && (forall h, p :: h in chains && 0 <= p < |chains[h]| ==>
          chains[h][p] in role && role[chains[h][p]] == ChainPage(h, p))
    && (forall x :: x in role && role[x].ChainPage? ==>
          && role[x].head in chains
          && role[x].pos < |chains[role[x].head]|
          && chains[role[x].head][role[x].pos] == x)
  }

  ghost predicate FreeRoles(free: Ids, role: Ledger) {
    && (forall p :: 0 <= p < |free| ==> free[p] in role && role[free[p]] == FreePage(p))
    && (forall x :: x in role && role[x].FreePage? ==>
          role[x].pos < |free| && free[role[x].pos] == x)
  }

  ghost predicate LooseRoles(loose: set<PageId>, role: Ledger) {
    && (forall x :: x in loose ==> x in role && role[x] == Loose)
    && (forall x :: x in role && role[x] == Loose ==> x in loose)
  }

  /** Every page from the first data page to the high-water mark has a role. */
  ghost predicate Covers(role: Ledger, high: PageId) {
    && high >= FIRST_DATA_PAGE
    && forall x :: x in role <==> FIRST_DATA_PAGE <= x <= high
  }

  ghost predicate LedgerOk(levels: seq<Ids>, chains: Chains, free: Ids, loose: set<PageId>, role: Ledger, high: PageId) {
    && Covers(role, high)
    && TreeRoles(levels, role)
    && ChainRoles(chains, role)
    && FreeRoles(free, role)
    && LooseRoles(loose, role)
  }

  // ---------------------------------------------------------------- the free stack in pages

  ghost function Below(free: Ids, p: nat): Option<PageId>
    requires p <= |free|
  {
    if p == 0 then None else Some(free[p - 1])
  }

  /** The free stack: the head is the last element, each page names the one
      below it. */
  ghost predicate FreeOk(pages: PageMap, free: Ids, head: Option<PageId>) {
    && head == Below(free, |free|)
    && forall p :: 0 <= p < |free| ==> At(pages, free[p]).Free? && At(pages, free[p]).nextFree == Below(free, p)
  }

  // ---------------------------------------------------------------- overflow chains in pages

  ghost function Chunk(p: PageData): bytes {
    if p.OverflowPage? then p.chunk else []
  }

  ghost function Chunks(pages: PageMap, ids: Ids): seq<bytes> {
    seq(|ids|, i requires 0 <= i < |ids| => Chunk(At(pages, ids[i])))
  }

  ghost function ChainBytes(pages: PageMap, ids: Ids): bytes {
    Concat(Chunks(pages, ids))
  }

  ghost predicate ChainPageOk(p: PageData, length: nat, next: Option<PageId>) {
    && p.OverflowPage? && p.totalLength == length && p.next == next
    && 0 < |p.chunk| <= OVERFLOW_DATA_SIZE
  }

  ghost predicate ChainOk(pages: PageMap, ids: Ids) {
    && 0 < |ids| <= MAX_OVERFLOW_PAGES
    && 0 < |ChainBytes(pages, ids)| <= MAX_VALUE_SIZE
    && forall p :: 0 <= p < |ids| ==>
         ChainPageOk(At(pages, ids[p]), |ChainBytes(pages, ids)|, NextOf(ids, p))
  }

  ghost predicate ChainsOk(pages: PageMap, chains: Chains) {
    forall h :: h in chains ==> ChainOk(pages, chains[h]) && chains[h][0] == h
  }

  // ---------------------------------------------------------------- ledger steps

  lemma LedgerUnused(levels: seq<Ids>, chains: Chains, free: Ids, loose: set<PageId>, role: Ledger, high: PageId, x: PageId)
    requires LedgerOk(levels, chains, free, loose, role, high) && (x in loose || x !in role)
    ensures Unused(levels, x)
    ensures forall h, p :: h in chains && 0 <= p < |chains[h]| ==> chains[h][p] != x
    ensures forall p :: 0 <= p < |free| ==> free[p] != x
  {
  }

  lemma ChainNoDup(chains: Chains, role: Ledger, h: PageId)
    requires ChainRoles(chains, role) && h in chains
    ensures NoDup(chains[h])
  {
  }

  /** Taking the top of the free stack. */
  lemma TakeFree(levels: seq<Ids>, chains: Chains, free: Ids, loose: set<PageId>, role: Ledger, high: PageId)
    requires LedgerOk(levels, chains, free, loose, role, high) && free != []
    ensures var x := free[|free| - 1];
            && x !in loose
            && LedgerOk(levels, chains, free[..|free| - 1], loose + {x}, role[x := Loose], high)
  {
  }

  /** Extending the file by one page. */
  lemma TakeFresh(levels: seq<Ids>, chains: Chains, free: Ids, loose: set<PageId>, role: Ledger, high: PageId)
    requires LedgerOk(levels, chains, free, loose, role, high)
    ensures high + 1 !in loose
    ensures LedgerOk(levels, chains, free, loose + {high + 1}, role[high + 1 := Loose], high + 1)
  {
  }

  /** Placing a loose page in a level of the tree. */
  lemma PlaceInTree(levels: seq<Ids>, chains: Chains, free: Ids, loose: set<PageId>, role: Ledger, high: PageId,
                    k: nat, i: nat, x: PageId)
    requires LedgerOk(levels, chains, free, loose, role, high) && x in loose && k < |levels| && i <= |levels[k]|
    ensures LedgerOk(levels[k := InsertAt(levels[k], i, x)], chains, free, loose - {x}, role[x := TreePage(k)], high)
  {
    var levels' := levels[k := InsertAt(levels[k], i, x)];
    assert forall m, y :: 0 <= m < |levels| ==> (y in levels'[m] <==> y in levels[m] || (m == k && y == x));
  }

  /** A loose page becomes the root of a new level. */
  lemma PlaceRoot(levels: seq<Ids>, chains: Chains, free: Ids, loose: set<PageId>, role: Ledger, high: PageId, x: PageId)
    requires LedgerOk(levels, chains, free, loose, role, high) && x in loose
    ensures LedgerOk(levels + [[x]], chains, free, loose - {x}, role[x := TreePage(|levels|)], high)
  {
    var levels' := levels + [[x]];
    assert forall m, y :: 0 <= m < |levels'| ==> (y in levels'[m] <==> if m < |levels| then y in levels[m] else y == x);
  }

  /** Pushing a loose page on the free stack. */
  lemma PushFree(levels: seq<Ids>, chains: Chains, free: Ids, loose: set<PageId>, role: Ledger, high: PageId, x: PageId)
    requires LedgerOk(levels, chains, free, loose, role, high) && x in loose
    ensures LedgerOk(levels, chains, free + [x], loose - {x}, role[x := FreePage(|free|)], high)
  {
  }

  ghost function Claim(role: Ledger, ids: Ids, h: PageId): Ledger {
    map x | x in role :: if x in ids then ChainPage(h, Position(ids, x)) else role[x]
  }

  ghost function Position(ids: Ids, x: PageId): nat
    ensures x in ids ==> Position(ids, x) < |ids| && ids[Position(ids, x)] == x
  {
    if x in ids then var p: nat :| p < |ids| && ids[p] == x; p else 0
  }

  /** Loose pages become an overflow chain. */
  lemma PlaceChain(levels: seq<Ids>, chains: Chains, free: Ids, loose: set<PageId>, role: Ledger, high: PageId, ids: Ids)
    requires LedgerOk(levels, chains, free, loose, role, high)
    requires ids != [] && NoDup(ids) && forall x :: x in ids ==> x in loose
    requires ids[0] !in chains
    ensures LedgerOk(levels, chains[ids[0] := ids], free, loose - (set x | x in ids), Claim(role, ids, ids[0]), high)
  {
    var role' := Claim(role, ids, ids[0]);
    forall p | 0 <= p < |ids| ensures role'[ids[p]] == ChainPage(ids[0], p) {
      assert ids[p] in ids && ids[Position(ids, ids[p])] == ids[p];
    }
  }

  ghost function Release(role: Ledger, ids: Ids): Ledger {
    map x | x in role :: if x in ids then Loose else role[x]
  }

  /** The pages of a chain become loose. */
  lemma DropChain(levels: seq<Ids>, chains: Chains, free: Ids, loose: set<PageId>, role: Ledger, high: PageId, h: PageId)
    requires LedgerOk(levels, chains, free, loose, role, high) && h in chains
    ensures LedgerOk(levels, chains - {h}, free, loose + (set x | x in chains[h]), Release(role, chains[h]), high)
  {
    hide NoDup;
    var ids := chains[h];
    var chains', role' := chains - {h}, Release(role, ids);
    forall x | x in ids ensures x in role && role[x].ChainPage? && role[x].head == h {
      var p :| 0 <= p < |ids| && ids[p] == x;
      assert role[chains[h][p]] == ChainPage(h, p);
    }
    forall g, p | g in chains' && 0 <= p < |chains'[g]|
      ensures chains'[g][p] in role' && role'[chains'[g][p]] == ChainPage(g, p)
    {
      assert role[chains[g][p]] == ChainPage(g, p);
    }
    forall x | x in role' && role'[x].ChainPage?
      ensures role'[x].head in chains' && role'[x].pos < |chains'[role'[x].head]| && chains'[role'[x].head][role'[x].pos] == x
    {
      assert x !in ids && role'[x] == role[x];
    }
  }

  // ---------------------------------------------------------------- frames

  lemma FreeFrame(pages: PageMap, pages': PageMap, free: Ids, head: Option<PageId>)
    requires FreeOk(pages, free, head)
    requires forall p :: 0 <= p < |free| ==> At(pages', free[p]) == At(pages, free[p])
    ensures FreeOk(pages', free, head)
  {
  }

  lemma ChainFrame(pages: PageMap, pages': PageMap, ids: Ids)
    requires forall p :: 0 <= p < |ids| ==> At(pages', ids[p]) == At(pages, ids[p])
    ensures ChainBytes(pages', ids) == ChainBytes(pages, ids)
    ensures ChainOk(pages, ids) ==> ChainOk(pages', ids)
  {
    assert Chunks(pages', ids) == Chunks(pages, ids);
  }

  lemma ChainsFrame(pages: PageMap, pages': PageMap, chains: Chains)
    requires ChainsOk(pages, chains)
    requires forall h, p :: h in chains && 0 <= p < |chains[h]| ==> At(pages', chains[h][p]) == At(pages, chains[h][p])
    ensures ChainsOk(pages', chains)
    ensures forall h :: h in chains ==> ChainBytes(pages', chains[h]) == ChainBytes(pages, chains[h])
  {
    forall h | h in chains
      ensures ChainOk(pages', chains[h]) && chains[h][0] == h && ChainBytes(pages', chains[h]) == ChainBytes(pages, chains[h])
    {
      ChainFrame(pages, pages', chains[h]);
    }
  }
}
