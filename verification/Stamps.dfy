/** Commit stamps: the pages a transaction changed get its commit LSN, and the
    entries carrying its provisional revision get the final one
    (btree/format.rs). */
module Stamps {
  import opened Lex
  import opened Seqs
  import opened Pages
  import opened KeyCodec
  import opened Tree
  import opened Records
  import opened Space
  import opened Splits
  import opened Database
  import opened Updates
  import opened Reference
  import opened Reads
  import opened Change

  function RestampEntry(e: LeafEntry, provisional: nat, committed: nat): LeafEntry {
    if e.revision == provisional then e.(revision := committed) else e
  }

  function RestampEntries(es: seq<LeafEntry>, provisional: nat, committed: nat): seq<LeafEntry> {
    seq(|es|, i requires 0 <= i < |es| => RestampEntry(es[i], provisional, committed))
  }

  function Restamp(p: PageData, provisional: nat, committed: nat): PageData {
    match p
    case Leaf(_, nextLeaf, entries) => Leaf(committed, nextLeaf, RestampEntries(entries, provisional, committed))
    case Internal(_, leftmostChild, seps) => Internal(committed, leftmostChild, seps)
    case OverflowPage(_, next, totalLength, chunk) => OverflowPage(committed, next, totalLength, chunk)
    case Free(_, nextFree) => Free(committed, nextFree)
  }

  /** The pages after a commit restamped the dirty ones. */
  ghost function RestampPages(pages: PageMap, dirty: set<PageId>, provisional: nat, committed: nat): PageMap {
    map x | x in pages :: if x in dirty then Restamp(pages[x], provisional, committed) else pages[x]
  }

  // ---------------------------------------------------------------- what a restamp keeps

  /** The pages hold the same records and links, whatever their stamps. */
  ghost predicate Alike(pages: PageMap, pages': PageMap) {
    && pages'.Keys == pages.Keys
    && forall x :: x in pages ==> PageAlike(pages[x], pages'[x])
  }

  ghost predicate EntriesAlike(es: seq<LeafEntry>, es': seq<LeafEntry>) {
    && |es'| == |es|
    && forall i :: 0 <= i < |es| ==> es'[i].key == es[i].key && es'[i].value == es[i].value && es'[i].revision > 0
  }

  ghost predicate PageAlike(p: PageData, p': PageData) {
    match p
    case Leaf(_, nextLeaf, entries) => p'.Leaf? && p'.nextLeaf == nextLeaf && EntriesAlike(entries, p'.entries)
    case Internal(_, leftmostChild, seps) => p'.Internal? && p'.leftmostChild == leftmostChild && p'.seps == seps
    case OverflowPage(_, next, totalLength, chunk) =>
      p'.OverflowPage? && p'.next == next && p'.totalLength == totalLength && p'.chunk == chunk
    case Free(_, nextFree) => p'.Free? && p'.nextFree == nextFree
  }

  lemma LeavesAlike(pages: PageMap, pages': PageMap, ids: Ids, bnds: Bounds)
    requires Alike(pages, pages') && LeavesOk(pages, ids, bnds)
    ensures LeavesOk(pages', ids, bnds)
  {
    forall i | 0 <= i < |ids| ensures LeafOk(At(pages', ids[i]), bnds, i, NextOf(ids, i)) {
      assert LeafOk(At(pages, ids[i]), bnds, i, NextOf(ids, i));
      var es, es' := At(pages, ids[i]).entries, At(pages', ids[i]).entries;
      assert EntriesAlike(es, es');
    }
  }

  lemma LinkedAlike(pages: PageMap, pages': PageMap, ids: Ids, bnds: Bounds, below: Ids, belowBnds: Bounds)
    requires Alike(pages, pages') && Linked(pages, ids, bnds, below, belowBnds)
    ensures Linked(pages', ids, bnds, below, belowBnds)
  {
    assert KidLists(pages', ids) == KidLists(pages, ids);
    assert BoundLists(pages', ids, bnds) == BoundLists(pages, ids, bnds);
  }

  lemma TreeAlike(pages: PageMap, pages': PageMap, root: PageId, levels: seq<Ids>, bounds: seq<Bounds>)
    requires Alike(pages, pages') && TreeOk(pages, root, levels, bounds)
    ensures TreeOk(pages', root, levels, bounds)
  {
    hide Alike;
    LeavesAlike(pages, pages', levels[0], bounds[0]);
    forall k | 1 <= k < |levels| ensures LinkedAt(pages', levels, bounds, k) {
      assert LinkedAt(pages, levels, bounds, k);
      LinkedAlike(pages, pages', levels[k], bounds[k], levels[k - 1], bounds[k - 1]);
    }
  }

  lemma ChunksAlike(pages: PageMap, pages': PageMap, ids: Ids)
    requires Alike(pages, pages')
    ensures ChainBytes(pages', ids) == ChainBytes(pages, ids)
    ensures ChainOk(pages, ids) ==> ChainOk(pages', ids)
  {
    assert Chunks(pages', ids) == Chunks(pages, ids);
    if ChainOk(pages, ids) {
      forall p | 0 <= p < |ids| ensures ChainPageOk(At(pages', ids[p]), |ChainBytes(pages, ids)|, NextOf(ids, p)) {
        assert ChainPageOk(At(pages, ids[p]), |ChainBytes(pages, ids)|, NextOf(ids, p));
      }
    }
  }

  lemma SpaceAlike(img: Image, pages': PageMap, sh: Shape, loose: set<PageId>)
    requires Alike(img.pages, pages') && SpaceOk(img, sh, loose)
    ensures SpaceOk(img.(pages := pages'), sh, loose)
    ensures SameChainBytes(img.pages, pages', sh.chains)
  {
    forall h | h in sh.chains
      ensures ChainOk(pages', sh.chains[h]) && ChainBytes(pages', sh.chains[h]) == ChainBytes(img.pages, sh.chains[h])
    {
      ChunksAlike(img.pages, pages', sh.chains[h]);
    }
    assert FreeOk(pages', sh.free, img.freeHead);
  }

  lemma FitAlike(pages: PageMap, pages': PageMap, levels: seq<Ids>, cap: nat)
    requires Alike(pages, pages') && PagesFit(pages, levels, cap)
    ensures PagesFit(pages', levels, cap)
  {
    forall k, x | 0 <= k < |levels| && x in levels[k] ensures PageFits(At(pages', x), cap) {
      assert PageFits(At(pages, x), cap);
      if x in pages && pages[x].Leaf? {
        assert EntriesAlike(pages[x].entries, pages'[x].entries);
        assert Sizes(pages'[x].entries) == Sizes(pages[x].entries);
        assert forall i :: 0 <= i < |pages[x].entries| ==>
                             LeafRecordSize(pages'[x].entries[i]) == LeafRecordSize(pages[x].entries[i]);
      }
    }
  }

  lemma {:induction false} ContentsAlike(pages: PageMap, pages': PageMap, ids: Ids)
    requires Alike(pages, pages')
    ensures EntriesAlike(Contents(pages, ids), Contents(pages', ids))
  {
    if ids != [] {
      ContentsAlike(pages, pages', ids[1..]);
      assert EntryLists(pages, ids)[1..] == EntryLists(pages, ids[1..]);
      assert EntryLists(pages', ids)[1..] == EntryLists(pages', ids[1..]);
      assert EntriesAlike(Entries(At(pages, ids[0])), Entries(At(pages', ids[0])));
    }
  }

  lemma RecordsAlike(img: Image, pages': PageMap, sh: Shape, spare: set<PageId>)
    requires Alike(img.pages, pages') && RecordsOk(img, sh, spare) && SameChainBytes(img.pages, pages', sh.chains)
    ensures RecordsOk(img.(pages := pages'), sh, spare)
  {
    var es, es' := Contents(img.pages, sh.levels[0]), Contents(pages', sh.levels[0]);
    ContentsAlike(img.pages, pages', sh.levels[0]);
    forall i | 0 <= i < |es'| ensures EntryOk(pages', sh.chains, es'[i]) {
      assert EntryOk(img.pages, sh.chains, es[i]);
    }
    OwnedAlike(es, es', Claimed(sh, spare));
  }

  lemma OwnedAlike(es: seq<LeafEntry>, es': seq<LeafEntry>, heads: set<PageId>)
    requires Owned(es, heads) && EntriesAlike(es, es')
    ensures Owned(es', heads)
  {
    forall h | h in heads ensures exists i :: 0 <= i < |es'| && HasChain(es'[i]) && Head(es'[i]) == h {
      var i :| 0 <= i < |es| && HasChain(es[i]) && Head(es[i]) == h;
      assert es'[i].value == es[i].value;
    }
  }

  lemma SoundAlike(img: Image, pages': PageMap, sh: Shape)
    requires Alike(img.pages, pages') && Sound(img, sh)
    ensures Sound(img.(pages := pages'), sh)
    ensures SameChainBytes(img.pages, pages', sh.chains)
  {
    hide Alike;
    TreeAlike(img.pages, pages', img.root, sh.levels, sh.bounds);
    SpaceAlike(img, pages', sh, {});
    RecordsAlike(img, pages', sh, {});
    FitAlike(img.pages, pages', sh.levels, sh.cap);
  }

  // ---------------------------------------------------------------- leaf pages and their entries

  /** Conservation of pages: every page from the first data page to the
      high-water mark is stored, has exactly one role, and is of the kind its
      role says. */
  lemma PageConservation(img: Image, sh: Shape, x: PageId)
    requires Sound(img, sh)
    ensures x in img.pages <==> FIRST_DATA_PAGE <= x <= img.high
    ensures x in img.pages ==>
              && x in sh.role
              && match sh.role[x]
                 case TreePage(k) => k < |sh.levels| && x in sh.levels[k] && (if k == 0 then img.pages[x].Leaf? else img.pages[x].Internal?)
                 case ChainPage(h, p) => h in sh.chains && p < |sh.chains[h]| && sh.chains[h][p] == x && img.pages[x].OverflowPage?
                 case FreePage(p) => p < |sh.free| && sh.free[p] == x && img.pages[x].Free?
                 case Loose => false
  {
    if x in img.pages {
      match sh.role[x]
      case TreePage(k) => TreePageKind(img, sh, k, x);
      case ChainPage(h, p) =>
        assert ChainPageOk(At(img.pages, sh.chains[h][p]), |ChainBytes(img.pages, sh.chains[h])|, NextOf(sh.chains[h], p));
      case FreePage(p) =>
        assert At(img.pages, sh.free[p]).Free?;
      case Loose =>
    }
  }

  lemma TreePageKind(img: Image, sh: Shape, k: nat, x: PageId)
    requires TreeOk(img.pages, img.root, sh.levels, sh.bounds) && k < |sh.levels| && x in sh.levels[k]
    ensures if k == 0 then At(img.pages, x).Leaf? else At(img.pages, x).Internal?
  {
    var i :| 0 <= i < |sh.levels[k]| && sh.levels[k][i] == x;
    if k > 0 {
      assert LinkedAt(img.pages, sh.levels, sh.bounds, k);
      assert At(img.pages, sh.levels[k][i]).Internal?;
    } else {
      assert LeafOk(At(img.pages, sh.levels[0][i]), sh.bounds[0], i, NextOf(sh.levels[0], i));
    }
  }

  /** Each of its entries is an entry of the contents. */
  lemma EntryInContents(img: Image, sh: Shape, x: PageId, y: nat)
    requires Sound(img, sh) && x in img.pages && img.pages[x].Leaf? && y < |img.pages[x].entries|
    ensures exists n :: 0 <= n < |Contents(img.pages, sh.levels[0])| && Contents(img.pages, sh.levels[0])[n] == img.pages[x].entries[y]
  {
    hide Working;
    PageConservation(img, sh, x);
    assert x in sh.levels[0];
    var i :| 0 <= i < |sh.levels[0]| && sh.levels[0][i] == x;
    var ess := EntryLists(img.pages, sh.levels[0]);
    assert ess[i] == img.pages[x].entries;
    ConcatAround(ess, i);
    assert Contents(img.pages, sh.levels[0])[|Concat(ess[..i])| + y] == ess[i][y];
  }

  /** All revisions are below n. */
  ghost predicate RevisionsBelow(s: States, n: nat) {
    forall i :: 0 <= i < |s| ==> s[i].1.revision < n
  }

  /** All page LSNs and all entry revisions are below n. */
  ghost predicate StampedBelow(pages: PageMap, n: nat) {
    forall x :: x in pages ==>
      && pages[x].lsn < n
      && (pages[x].Leaf? ==> forall y :: 0 <= y < |pages[x].entries| ==> pages[x].entries[y].revision < n)
  }

  lemma EntryRevision(img: Image, sh: Shape, x: PageId, y: nat, n: nat)
    requires Sound(img, sh) && x in img.pages && img.pages[x].Leaf? && y < |img.pages[x].entries|
    requires |sh.levels| > 0 && RevisionsBelow(Docs(img, sh), n)
    ensures 0 < img.pages[x].entries[y].revision < n
  {
    EntryInContents(img, sh, x, y);
    var es := Contents(img.pages, sh.levels[0]);
    assert EntriesOk(img.pages, sh.chains, es);
    hide Working;
    var m :| 0 <= m < |es| && es[m] == img.pages[x].entries[y];
    assert EntryOk(img.pages, sh.chains, es[m]);
    assert Docs(img, sh)[m].1.revision == es[m].revision;
  }

  lemma DocsBelow(img: Image, sh: Shape, n: nat)
    requires Sound(img, sh) && StampedBelow(img.pages, n)
    ensures |sh.levels| > 0 && RevisionsBelow(Docs(img, sh), n)
  {
    forall m | 0 <= m < |Docs(img, sh)| ensures Docs(img, sh)[m].1.revision < n {
      var i, y := EntryPage(img, sh, m);
      assert At(img.pages, sh.levels[0][i]).Leaf?;
    }
  }

  /** The page an entry of the contents is in. */
  lemma EntryPage(img: Image, sh: Shape, m: nat) returns (i: nat, y: nat)
    requires TreeOk(img.pages, img.root, sh.levels, sh.bounds) && m < |Contents(img.pages, sh.levels[0])|
    ensures i < |sh.levels[0]| && sh.levels[0][i] in img.pages && img.pages[sh.levels[0][i]].Leaf?
    ensures y < |img.pages[sh.levels[0][i]].entries|
    ensures img.pages[sh.levels[0][i]].entries[y] == Contents(img.pages, sh.levels[0])[m]
  {
    var ess := EntryLists(img.pages, sh.levels[0]);
    i, y := ConcatIndex(ess, m);
    assert LeafOk(At(img.pages, sh.levels[0][i]), sh.bounds[0], i, NextOf(sh.levels[0], i));
  }

  lemma {:induction false} ConcatIndex<T>(xss: seq<seq<T>>, m: nat) returns (i: nat, y: nat)
    requires m < |Concat(xss)|
    ensures i < |xss| && y < |xss[i]| && xss[i][y] == Concat(xss)[m]
  {
    if m < |xss[0]| {
      i, y := 0, m;
    } else {
      i, y := ConcatIndex(xss[1..], m - |xss[0]|);
      i := i + 1;
    }
  }

  // ---------------------------------------------------------------- documents of a restamped image

  function RestampState(state: RevisionState, provisional: nat, committed: nat): RevisionState {
    if state.revision == provisional then state.(revision := committed) else state
  }

  function RestampDocs(s: States, provisional: nat, committed: nat): States {
    seq(|s|, i requires 0 <= i < |s| => (s[i].0, RestampState(s[i].1, provisional, committed)))
  }

  lemma RestampAlike(img: Image, sh: Shape, dirty: set<PageId>, provisional: nat, committed: nat)
    requires Sound(img, sh) && committed > 0
    requires |sh.levels| > 0 && RevisionsBelow(Docs(img, sh), provisional + 1)
    ensures Alike(img.pages, RestampPages(img.pages, dirty, provisional, committed))
  {
    hide Working, Docs, RevisionsBelow;
    forall x | x in img.pages
      ensures PageAlike(img.pages[x], RestampPages(img.pages, dirty, provisional, committed)[x])
    {
      if img.pages[x].Leaf? {
        forall y | 0 <= y < |img.pages[x].entries| ensures img.pages[x].entries[y].revision > 0 {
          EntryRevision(img, sh, x, y, provisional + 1);
        }
      }
    }
  }

  /** No clean leaf holds an entry with the provisional revision. */
  ghost predicate OnlyDirty(pages: PageMap, dirty: set<PageId>, provisional: nat) {
    forall x, y :: x in pages && x !in dirty && pages[x].Leaf? && 0 <= y < |pages[x].entries| ==>
      pages[x].entries[y].revision != provisional
  }

  lemma RestampLists(pages: PageMap, ids: Ids, dirty: set<PageId>, provisional: nat, committed: nat)
    requires OnlyDirty(pages, dirty, provisional)
    ensures var pages' := RestampPages(pages, dirty, provisional, committed);
            EntryLists(pages', ids) == RestampAll(EntryLists(pages, ids), provisional, committed)
  {
    var pages' := RestampPages(pages, dirty, provisional, committed);
    forall i | 0 <= i < |ids|
      ensures EntryLists(pages', ids)[i] == RestampEntries(EntryLists(pages, ids)[i], provisional, committed)
    {
      RestampOne(pages, ids[i], dirty, provisional, committed);
    }
  }

  lemma RestampOne(pages: PageMap, x: PageId, dirty: set<PageId>, provisional: nat, committed: nat)
    requires OnlyDirty(pages, dirty, provisional)
    ensures var pages' := RestampPages(pages, dirty, provisional, committed);
            Entries(At(pages', x)) == RestampEntries(Entries(At(pages, x)), provisional, committed)
  {
    if x in pages && x !in dirty && pages[x].Leaf? {
      var es := pages[x].entries;
      assert forall y :: 0 <= y < |es| ==> es[y].revision != provisional;
      assert RestampEntries(es, provisional, committed) == es;
    }
  }

  ghost function RestampAll(ess: seq<seq<LeafEntry>>, provisional: nat, committed: nat): seq<seq<LeafEntry>> {
    seq(|ess|, i requires 0 <= i < |ess| => RestampEntries(ess[i], provisional, committed))
  }

  lemma {:induction false} RestampConcat(ess: seq<seq<LeafEntry>>, provisional: nat, committed: nat)
    ensures Concat(RestampAll(ess, provisional, committed)) == RestampEntries(Concat(ess), provisional, committed)
  {
    if ess != [] {
      RestampConcat(ess[1..], provisional, committed);
      assert RestampAll(ess, provisional, committed)[1..] == RestampAll(ess[1..], provisional, committed);
    }
  }

  /** A restamp of the dirty pages is a restamp of the documents. */
  lemma RestampedImage(img: Image, sh: Shape, dirty: set<PageId>, provisional: nat, committed: nat)
    requires Sound(img, sh) && committed > 0 && |sh.levels| > 0
    requires RevisionsBelow(Docs(img, sh), provisional + 1) && OnlyDirty(img.pages, dirty, provisional)
    ensures var img' := img.(pages := RestampPages(img.pages, dirty, provisional, committed));
            Sound(img', sh) && Docs(img', sh) == RestampDocs(Docs(img, sh), provisional, committed)
  {
    hide Working, Alike, RevisionsBelow, OnlyDirty, RestampPages;
    var pages' := RestampPages(img.pages, dirty, provisional, committed);
    RestampAlike(img, sh, dirty, provisional, committed);
    SoundAlike(img, pages', sh);
    RestampLists(img.pages, sh.levels[0], dirty, provisional, committed);
    RestampConcat(EntryLists(img.pages, sh.levels[0]), provisional, committed);
    var es := Contents(img.pages, sh.levels[0]);
    assert Contents(pages', sh.levels[0]) == RestampEntries(es, provisional, committed);
    DocsRestamped(img.pages, pages', sh.chains, es, provisional, committed);
  }

  lemma DocsRestamped(pages: PageMap, pages': PageMap, chains: Chains, es: seq<LeafEntry>, provisional: nat, committed: nat)
    requires SameChainBytes(pages, pages', chains)
    ensures DocsOf(pages', chains, RestampEntries(es, provisional, committed)) == RestampDocs(DocsOf(pages, chains, es), provisional, committed)
  {
  }

  // ---------------------------------------------------------------- restamping an insertion

  lemma {:induction false} InsertRestamped(s: States, key: DocumentKey, state: RevisionState, provisional: nat, committed: nat)
    ensures RestampDocs(Insert(s, key, state), provisional, committed)
            == Insert(RestampDocs(s, provisional, committed), key, RestampState(state, provisional, committed))
  {
    if s != [] && s[0].0 != key && !KeyLess(key, s[0].0) {
      InsertRestamped(s[1..], key, state, provisional, committed);
      assert RestampDocs(s, provisional, committed)[1..] == RestampDocs(s[1..], provisional, committed);
    }
  }

  lemma RestampNothing(s: States, provisional: nat, committed: nat)
    requires RevisionsBelow(s, provisional)
    ensures RestampDocs(s, provisional, committed) == s
  {
  }

  lemma InsertBelow(s: States, key: DocumentKey, state: RevisionState, n: nat)
    requires RevisionsBelow(s, n) && state.revision < n
    ensures RevisionsBelow(Insert(s, key, state), n)
  {
  }

  /** Exactly the pages from the first data page to the high-water mark are
      there. */
  lemma AllPagesThere(img: Image, sh: Shape)
    requires SpaceOk(img, sh, {})
    ensures img.high >= FIRST_DATA_PAGE && forall x :: x in img.pages <==> FIRST_DATA_PAGE <= x <= img.high
  {
  }

  /** The parts of the invariant of a whole image. */
  lemma SoundParts(img: Image, sh: Shape)
    requires Sound(img, sh)
    ensures |sh.levels| > 0 && TreeOk(img.pages, img.root, sh.levels, sh.bounds)
    ensures TreeRoles(sh.levels, sh.role) && ChainRoles(sh.chains, sh.role) && FreeRoles(sh.free, sh.role)
    ensures FreeOk(img.pages, sh.free, img.freeHead) && ChainsOk(img.pages, sh.chains)
    ensures EntriesOk(img.pages, sh.chains, Contents(img.pages, sh.levels[0]))
    ensures forall x :: x in sh.role <==> FIRST_DATA_PAGE <= x <= img.high
    ensures forall x :: x in sh.role ==> InFile(img, x) && !sh.role[x].Loose?
  {
  }

  /** The entry that holds a document. */
  lemma DocEntry(img: Image, sh: Shape, i: nat) returns (x: PageId, y: nat)
    requires Sound(img, sh) && |sh.levels| > 0 && i < |Docs(img, sh)|
    ensures x in img.pages && img.pages[x].Leaf? && y < |img.pages[x].entries|
    ensures img.pages[x].entries[y].revision == Docs(img, sh)[i].1.revision
  {
    hide Working, TreeOk;
    SoundParts(img, sh);
    var k;
    k, y := EntryPage(img, sh, i);
    x := sh.levels[0][k];
  }
}
