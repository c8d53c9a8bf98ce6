/** The invariant of a whole database image: a B+Tree, its overflow chains and
    its free stack share the pages without overlap or leak. */
module Database {
  import opened Lex
  import opened Seqs
  import opened Pages
  import opened KeyCodec
  import opened Tree
  import opened Records
  import opened Space
  import opened Splits

  /** How an image is organised; `cap` bounds the size of every record.  The
      chains `lost` were written for records that found no place. */
  datatype Shape = Shape(levels: seq<Ids>, bounds: seq<Bounds>, chains: Chains, free: Ids, role: Ledger, cap: nat, lost: set<PageId>)

  /** The chains that records have to name, while those of `spare` have no owner. */
  ghost function Claimed(sh: Shape, spare: set<PageId>): set<PageId> {
    sh.chains.Keys - sh.lost - spare
  }

  predicate HasChain(e: LeafEntry) {
    e.value.Some? && e.value.value.Overflow?
  }

  function Head(e: LeafEntry): PageId
    requires HasChain(e)
  {
    e.value.value.head
  }

  ghost predicate KeyOk(key: bytes) {
    Decode(key).Good? && |key| <= MAX_ENCODED_KEY_SIZE
  }

  ghost predicate EntryOk(pages: PageMap, chains: Chains, e: LeafEntry) {
    && KeyOk(e.key)
    && e.revision > 0
    && InlineLength(e.value) <= INLINE_VALUE_LIMIT
    && (HasChain(e) ==> Head(e) in chains && e.value.value.length == |ChainBytes(pages, chains[Head(e)])|)
  }

  ghost predicate EntriesOk(pages: PageMap, chains: Chains, es: seq<LeafEntry>) {
    forall i :: 0 <= i < |es| ==> EntryOk(pages, chains, es[i])
  }

  /** The heads named by the entries are exactly `heads`, each named once. */
  ghost predicate Owned(es: seq<LeafEntry>, heads: set<PageId>) {
    && (forall i :: 0 <= i < |es| && HasChain(es[i]) ==> Head(es[i]) in heads)
    && (forall i, j :: 0 <= i < j < |es| && HasChain(es[i]) && HasChain(es[j]) ==> Head(es[i]) != Head(es[j]))
    && (forall h :: h in heads ==> exists i :: 0 <= i < |es| && HasChain(es[i]) && Head(es[i]) == h)
  }

  ghost predicate SepsOk(seps: seq<InternalEntry>) {
    forall j :: 0 <= j < |seps| ==> KeyOk(seps[j].key)
  }

  ghost predicate SmallEntries(es: seq<LeafEntry>, cap: nat) {
    forall i :: 0 <= i < |es| ==> LeafRecordSize(es[i]) <= cap
  }

  ghost predicate SmallSeps(seps: seq<InternalEntry>, cap: nat) {
    forall i :: 0 <= i < |seps| ==> InternalRecordSize(seps[i]) <= cap
  }

  ghost predicate PageFits(p: PageData, cap: nat) {
    && (p.Leaf? ==> LeafFits(p.entries) && SmallEntries(p.entries, cap))
    && (p.Internal? ==> InternalFits(p.seps) && SepsOk(p.seps) && SmallSeps(p.seps, cap))
  }

  ghost predicate PagesFit(pages: PageMap, levels: seq<Ids>, cap: nat) {
    forall k, x :: 0 <= k < |levels| && x in levels[k] ==> PageFits(At(pages, x), cap)
  }

  ghost predicate OthersFit(pages: PageMap, levels: seq<Ids>, id: PageId, cap: nat) {
    forall k, x :: 0 <= k < |levels| && x in levels[k] && x != id ==> PageFits(At(pages, x), cap)
  }

  /** Exactly the pages with a role are stored; loose ones may be still to come. */
  ghost predicate Stored(pages: PageMap, role: Ledger, loose: set<PageId>) {
    && (forall x :: x in role && x !in loose ==> x in pages)
    && forall x :: x in pages ==> x in role
  }

  ghost predicate SpaceOk(img: Image, sh: Shape, loose: set<PageId>) {
    && LedgerOk(sh.levels, sh.chains, sh.free, loose, sh.role, img.high)
    && FreeOk(img.pages, sh.free, img.freeHead)
    && ChainsOk(img.pages, sh.chains)
    && Stored(img.pages, sh.role, loose)
  }

  /** Entries are well formed; all chains but the spare ones belong to them. */
  ghost predicate RecordsOk(img: Image, sh: Shape, spare: set<PageId>) {
    && |sh.levels| > 0
    && EntriesOk(img.pages, sh.chains, Contents(img.pages, sh.levels[0]))
    && sh.lost <= sh.chains.Keys && sh.lost !! spare
    && Owned(Contents(img.pages, sh.levels[0]), Claimed(sh, spare))
  }

  /** A tree in place, with loose pages and spare chains still to be settled. */
  ghost predicate Working(img: Image, sh: Shape, loose: set<PageId>, spare: set<PageId>) {
    && TreeOk(img.pages, img.root, sh.levels, sh.bounds)
    && SpaceOk(img, sh, loose)
    && RecordsOk(img, sh, spare)
    && PagesFit(img.pages, sh.levels, sh.cap)
  }

  /** The same, except that tree page `id` may be too large for a page. */
  ghost predicate Swollen(img: Image, sh: Shape, loose: set<PageId>, spare: set<PageId>, id: PageId) {
    && TreeOk(img.pages, img.root, sh.levels, sh.bounds)
    && SpaceOk(img, sh, loose)
    && RecordsOk(img, sh, spare)
    && OthersFit(img.pages, sh.levels, id, sh.cap)
  }

  /** The same, while page c of level k - 1 is missing from level k. */
  ghost predicate Gapped(img: Image, sh: Shape, loose: set<PageId>, spare: set<PageId>, k: nat, c: nat) {
    && TreeGap(img.pages, img.root, sh.levels, sh.bounds, k, c)
    && SpaceOk(img, sh, loose)
    && RecordsOk(img, sh, spare)
    && PagesFit(img.pages, sh.levels, sh.cap)
  }

  /** A database between operations. */
  ghost predicate Sound(img: Image, sh: Shape) {
    Working(img, sh, {}, {})
  }

  /** One without lost chains: every page is in use or free. */
  ghost predicate Consistent(img: Image, sh: Shape) {
    Sound(img, sh) && sh.lost == {}
  }

  // ---------------------------------------------------------------- frames

  lemma TreeFrame(pages: PageMap, pages': PageMap, root: PageId, levels: seq<Ids>, bounds: seq<Bounds>)
    requires TreeOk(pages, root, levels, bounds)
    requires forall k, x :: 0 <= k < |levels| && x in levels[k] ==> At(pages', x) == At(pages, x)
    ensures TreeOk(pages', root, levels, bounds)
    ensures Contents(pages', levels[0]) == Contents(pages, levels[0])
  {
    LeavesFrame(pages, pages', levels[0], bounds[0]);
    forall k | 1 <= k < |levels| ensures LinkedAt(pages', levels, bounds, k) {
      assert LinkedAt(pages, levels, bounds, k);
      LinkedFrame(pages, pages', levels[k], bounds[k], levels[k - 1], bounds[k - 1]);
    }
  }

  lemma SpaceFrame(img: Image, pages': PageMap, sh: Shape, loose: set<PageId>)
    requires SpaceOk(img, sh, loose)
    requires forall x :: x in sh.role && !sh.role[x].TreePage? && x !in loose ==> At(pages', x) == At(img.pages, x)
    requires Stored(pages', sh.role, loose)
    ensures SpaceOk(img.(pages := pages'), sh, loose)
    ensures forall h :: h in sh.chains ==> ChainBytes(pages', sh.chains[h]) == ChainBytes(img.pages, sh.chains[h])
  {
    FreeFrame(img.pages, pages', sh.free, img.freeHead);
    ChainsFrame(img.pages, pages', sh.chains);
  }

  lemma EntriesFrame(pages: PageMap, pages': PageMap, chains: Chains, es: seq<LeafEntry>)
    requires EntriesOk(pages, chains, es)
    requires forall h :: h in chains ==> ChainBytes(pages', chains[h]) == ChainBytes(pages, chains[h])
    ensures EntriesOk(pages', chains, es)
  {
    forall i | 0 <= i < |es| ensures EntryOk(pages', chains, es[i]) {
      assert EntryOk(pages, chains, es[i]);
    }
  }

  /** Pages that already have a place are the same in both maps. */
  ghost predicate SettledSame(pages: PageMap, pages': PageMap, role: Ledger, loose: set<PageId>) {
    forall y :: y in role && y !in loose ==> At(pages', y) == At(pages, y) && (y in pages ==> y in pages')
  }

  lemma TreeSettled(sh: Shape, loose: set<PageId>, k: nat, x: PageId)
    requires TreeRoles(sh.levels, sh.role) && LooseRoles(loose, sh.role)
    requires k < |sh.levels| && x in sh.levels[k]
    ensures x in sh.role && x !in loose
  {
  }

  lemma RecordsFrame(img: Image, pages': PageMap, sh: Shape, spare: set<PageId>)
    requires RecordsOk(img, sh, spare)
    requires forall k, x :: 0 <= k < |sh.levels| && x in sh.levels[k] ==> At(pages', x) == At(img.pages, x)
    requires Contents(pages', sh.levels[0]) == Contents(img.pages, sh.levels[0])
    requires forall h :: h in sh.chains ==> ChainBytes(pages', sh.chains[h]) == ChainBytes(img.pages, sh.chains[h])
    ensures RecordsOk(img.(pages := pages'), sh, spare)
  {
    EntriesFrame(img.pages, pages', sh.chains, Contents(img.pages, sh.levels[0]));
  }

  lemma FitFrame(pages: PageMap, pages': PageMap, levels: seq<Ids>, cap: nat)
    requires PagesFit(pages, levels, cap)
    requires forall k, x :: 0 <= k < |levels| && x in levels[k] ==> At(pages', x) == At(pages, x)
    ensures PagesFit(pages', levels, cap)
  {
  }

  lemma WorkingFrame(img: Image, pages': PageMap, sh: Shape, loose: set<PageId>, spare: set<PageId>)
    requires Working(img, sh, loose, spare)
    requires SettledSame(img.pages, pages', sh.role, loose)
    requires forall x :: x in pages' ==> x in sh.role
    ensures Working(img.(pages := pages'), sh, loose, spare)
    ensures Contents(pages', sh.levels[0]) == Contents(img.pages, sh.levels[0])
    ensures forall h :: h in sh.chains ==> ChainBytes(pages', sh.chains[h]) == ChainBytes(img.pages, sh.chains[h])
  {
    forall k, x | 0 <= k < |sh.levels| && x in sh.levels[k] ensures At(pages', x) == At(img.pages, x) {
      TreeSettled(sh, loose, k, x);
    }
    TreeFrame(img.pages, pages', img.root, sh.levels, sh.bounds);
    SpaceFrame(img, pages', sh, loose);
    RecordsFrame(img, pages', sh, spare);
    FitFrame(img.pages, pages', sh.levels, sh.cap);
  }

  /** Writing a loose page disturbs nothing. */
  lemma WriteLoose(img: Image, sh: Shape, loose: set<PageId>, spare: set<PageId>, x: PageId, p: PageData)
    requires Working(img, sh, loose, spare) && x in loose
    ensures Working(img.(pages := img.pages[x := p]), sh, loose, spare)
    ensures Contents(img.pages[x := p], sh.levels[0]) == Contents(img.pages, sh.levels[0])
    ensures forall h :: h in sh.chains ==> ChainBytes(img.pages[x := p], sh.chains[h]) == ChainBytes(img.pages, sh.chains[h])
  {
    WorkingFrame(img, img.pages[x := p], sh, loose, spare);
  }

  // ---------------------------------------------------------------- allocation

  ghost function AfterTake(img: Image, sh: Shape): (Image, Shape, PageId)
  {
    if sh.free == [] then
      (img.(high := img.high + 1), sh.(role := sh.role[img.high + 1 := Loose]), img.high + 1)
    else
      var x := sh.free[|sh.free| - 1];
      (img.(freeHead := Below(sh.free, |sh.free| - 1)),
       sh.(role := sh.role[x := Loose], free := sh.free[..|sh.free| - 1]), x)
  }

  lemma TakePage(img: Image, sh: Shape, loose: set<PageId>)
    requires SpaceOk(img, sh, loose)
    ensures var (img', sh', x) := AfterTake(img, sh);
            && x !in loose && x >= FIRST_DATA_PAGE
            && SpaceOk(img', sh', loose + {x})
  {
    if sh.free == [] {
      TakeFresh(sh.levels, sh.chains, sh.free, loose, sh.role, img.high);
    } else {
      TakeFree(sh.levels, sh.chains, sh.free, loose, sh.role, img.high);
      PopFree(img.pages, sh.free, img.freeHead);
    }
  }

  lemma PopFree(pages: PageMap, free: Ids, head: Option<PageId>)
    requires FreeOk(pages, free, head) && free != []
    ensures FreeOk(pages, free[..|free| - 1], Below(free, |free| - 1))
  {
  }

  // ---------------------------------------------------------------- owning chains

  lemma OwnedPut(es: seq<LeafEntry>, e: LeafEntry, heads: set<PageId>)
    requires Owned(es, heads) && SortedEntries(es)
    requires HasChain(e) ==> Head(e) !in heads
    ensures var was := Find(es, e.key);
            Owned(PutEntry(es, e),
                  heads - (if was.Some? && HasChain(was.value) then {Head(was.value)} else {})
                        + (if HasChain(e) then {Head(e)} else {}))
  {
    var n := PutSplit(es, e);
    if n < |es| && es[n].key == e.key {
      PutAtReplaces(es, e, n);
      OwnedReplace(es, n, e, heads);
    } else {
      PutAtInserts(es, e, n);
      OwnedInsert(es, n, e, heads);
    }
  }

  lemma PutAtReplaces(es: seq<LeafEntry>, e: LeafEntry, n: nat)
    requires n < |es| && AllBelow(es[..n], e.key) && es[n].key == e.key
    ensures PutEntry(es, e) == es[n := e] && Find(es, e.key) == Some(es[n])
  {
    var a, b := es[..n], es[n + 1..];
    assert es == a + [es[n]] + b && es == a + ([es[n]] + b) && es[n := e] == a + [e] + b;
    PutReplaces(a, es[n], b, e);
    FindSkips(a, [es[n]] + b, e.key);
  }

  lemma PutAtInserts(es: seq<LeafEntry>, e: LeafEntry, n: nat)
    requires SortedEntries(es) && n <= |es| && AllBelow(es[..n], e.key) && (n < |es| ==> Less(e.key, es[n].key))
    ensures PutEntry(es, e) == InsertAt(es, n, e) && Find(es, e.key) == None
  {
    var a, b := es[..n], es[n..];
    assert es == a + b;
    PutBetween(a, b, e);
    FindSkips(a, b, e.key);
    FindAbsent(b, e.key);
  }

  /** The position of a key in a sorted sequence. */
  ghost function PutSplit(es: seq<LeafEntry>, e: LeafEntry): (n: nat)
    requires SortedEntries(es)
    ensures n <= |es| && AllBelow(es[..n], e.key)
    ensures n < |es| ==> es[n].key == e.key || Less(e.key, es[n].key)
  {
    if es == [] || !Less(es[0].key, e.key) then 0
    else
      var n := PutSplit(es[1..], e);
      assert es[..n + 1] == [es[0]] + es[1..][..n];
      n + 1
  }

  lemma OwnedReplace(es: seq<LeafEntry>, n: nat, e: LeafEntry, heads: set<PageId>)
    requires Owned(es, heads) && n < |es|
    requires HasChain(e) ==> Head(e) !in heads
    ensures Owned(es[n := e], heads - (if HasChain(es[n]) then {Head(es[n])} else {})
                                    + (if HasChain(e) then {Head(e)} else {}))
  {
    var es' := es[n := e];
    var heads' := heads - (if HasChain(es[n]) then {Head(es[n])} else {}) + (if HasChain(e) then {Head(e)} else {});
    forall h | h in heads' ensures exists i :: 0 <= i < |es'| && HasChain(es'[i]) && Head(es'[i]) == h {
      if HasChain(e) && h == Head(e) {
        assert es'[n] == e;
      } else {
        var i :| 0 <= i < |es| && HasChain(es[i]) && Head(es[i]) == h;
        assert es'[i] == es[i];
      }
    }
  }

  lemma OwnedInsert(es: seq<LeafEntry>, n: nat, e: LeafEntry, heads: set<PageId>)
    requires Owned(es, heads) && n <= |es|
    requires HasChain(e) ==> Head(e) !in heads
    ensures Owned(InsertAt(es, n, e), heads + (if HasChain(e) then {Head(e)} else {}))
  {
    var es' := InsertAt(es, n, e);
    var heads' := heads + (if HasChain(e) then {Head(e)} else {});
    assert forall i :: 0 <= i < |es'| ==> es'[i] == if i < n then es[i] else if i == n then e else es[i - 1];
    forall h | h in heads' ensures exists i :: 0 <= i < |es'| && HasChain(es'[i]) && Head(es'[i]) == h {
      if HasChain(e) && h == Head(e) {
        assert es'[n] == e;
      } else {
        var i :| 0 <= i < |es| && HasChain(es[i]) && Head(es[i]) == h;
        assert es'[if i < n then i else i + 1] == es[i];
      }
    }
  }

  lemma {:induction false} PutKeeps(es: seq<LeafEntry>, e: LeafEntry, i: nat)
    requires i < |PutEntry(es, e)|
    ensures PutEntry(es, e)[i] == e || PutEntry(es, e)[i] in es
  {
    if es != [] && es[0].key != e.key && !Less(e.key, es[0].key) && i > 0 {
      PutKeeps(es[1..], e, i - 1);
    }
  }

  lemma EntriesPut(pages: PageMap, chains: Chains, es: seq<LeafEntry>, e: LeafEntry)
    requires EntriesOk(pages, chains, es) && EntryOk(pages, chains, e)
    ensures EntriesOk(pages, chains, PutEntry(es, e))
  {
    forall i | 0 <= i < |PutEntry(es, e)| ensures EntryOk(pages, chains, PutEntry(es, e)[i]) {
      PutKeeps(es, e, i);
    }
  }
}
