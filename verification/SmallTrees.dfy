/** Trees of one leaf, and of two leaves below a root, without overflow values. */
module SmallTrees {
  import opened Lex
  import opened Seqs
  import opened Pages
  import opened KeyCodec
  import opened Tree
  import opened Records
  import opened Space
  import opened Splits
  import opened Database
  import opened Reads
  import opened Climb
  import opened Change
  import opened Capacity

  /** Entries that need no other page. */
  ghost predicate Plain(entries: seq<LeafEntry>) {
    forall i :: 0 <= i < |entries| ==>
      KeyOk(entries[i].key) && entries[i].revision > 0 && !HasChain(entries[i]) && InlineLength(entries[i].value) <= INLINE_VALUE_LIMIT
  }

  lemma PlainOwned(es: seq<LeafEntry>, pages: PageMap)
    requires Plain(es)
    ensures EntriesOk(pages, map[], es) && Owned(es, {})
  {
  }

  // ---------------------------------------------------------------- one leaf

  function LeafImage(lsn: nat, entries: seq<LeafEntry>): Image {
    Image(map[FIRST_DATA_PAGE := Leaf(lsn, None, entries)], FIRST_DATA_PAGE, None, FIRST_DATA_PAGE)
  }

  ghost function LeafShape(cap: nat): Shape {
    Shape([[FIRST_DATA_PAGE]], [[[]]], map[], [], map[FIRST_DATA_PAGE := TreePage(0)], cap, {})
  }

  lemma LeafTree(lsn: nat, entries: seq<LeafEntry>, cap: nat)
    requires SortedEntries(entries) && Plain(entries) && LeafFits(entries) && SmallEntries(entries, cap)
    ensures Consistent(LeafImage(lsn, entries), LeafShape(cap)) && Contents(LeafImage(lsn, entries).pages, [FIRST_DATA_PAGE]) == entries
  {
    LeafContents(LeafImage(lsn, entries).pages);
    LeafTreeOk(lsn, entries);
    LeafSpace(lsn, entries, cap);
    PlainOwned(entries, LeafImage(lsn, entries).pages);
    assert Claimed(LeafShape(cap), {}) == {};
  }

  /** A tree of one leaf holds what its leaf holds. */
  lemma LeafContents(pages: PageMap)
    ensures Contents(pages, [FIRST_DATA_PAGE]) == Entries(At(pages, FIRST_DATA_PAGE))
  {
    var ess := EntryLists(pages, [FIRST_DATA_PAGE]);
    assert ess == [ess[0]];
    ConcatOne(ess[0]);
  }

  lemma LeafTreeOk(lsn: nat, entries: seq<LeafEntry>)
    requires SortedEntries(entries)
    ensures TreeOk(LeafImage(lsn, entries).pages, FIRST_DATA_PAGE, [[FIRST_DATA_PAGE]], [[[]]])
  {
    var pages := LeafImage(lsn, entries).pages;
    assert LeafOk(At(pages, FIRST_DATA_PAGE), [[]], 0, NextOf([FIRST_DATA_PAGE], 0));
    assert LevelOk([FIRST_DATA_PAGE], [[]]);
  }

  lemma LeafSpace(lsn: nat, entries: seq<LeafEntry>, cap: nat)
    requires LeafFits(entries) && SmallEntries(entries, cap)
    ensures SpaceOk(LeafImage(lsn, entries), LeafShape(cap), {}) && PagesFit(LeafImage(lsn, entries).pages, [[FIRST_DATA_PAGE]], cap)
  {
    assert PageFits(At(LeafImage(lsn, entries).pages, FIRST_DATA_PAGE), cap);
  }

  /** In a tree of one leaf every key belongs to that leaf. */
  lemma LeafLocated(img: Image, sh: Shape, key: bytes, found: bool, x: nat)
    requires Sound(img, sh) && sh.levels == [[FIRST_DATA_PAGE]] && sh.bounds == [[[]]]
    requires FIRST_DATA_PAGE in img.pages && img.pages[FIRST_DATA_PAGE].Leaf? && Placed(img.pages[FIRST_DATA_PAGE].entries, key, found, x)
    ensures Located(img, sh, key, [FIRST_DATA_PAGE], [0], FIRST_DATA_PAGE, img.pages[FIRST_DATA_PAGE], found, x)
  {
    hide Sound, Placed;
  }

  /** The leaf of such a tree. */
  lemma LeafThere(img: Image, sh: Shape)
    requires Sound(img, sh) && sh.levels == [[FIRST_DATA_PAGE]] && sh.bounds == [[[]]]
    ensures FIRST_DATA_PAGE in img.pages && img.pages[FIRST_DATA_PAGE].Leaf?
    ensures img.pages[FIRST_DATA_PAGE].entries == Contents(img.pages, [FIRST_DATA_PAGE])
  {
    LeafLevel(img, sh, {}, {});
    assert FIRST_DATA_PAGE in sh.levels[0];
    TreeSettled(sh, {}, 0, FIRST_DATA_PAGE);
    assert LeafOk(At(img.pages, FIRST_DATA_PAGE), sh.bounds[0], 0, NextOf(sh.levels[0], 0));
    LeafContents(img.pages);
  }

  // ---------------------------------------------------------------- two leaves

  const LEFT: PageId := FIRST_DATA_PAGE
  const RIGHT: PageId := FIRST_DATA_PAGE + 1
  const ROOT: PageId := FIRST_DATA_PAGE + 2

  /** A root over two leaves, as splitting a single leaf makes it. */
  function TwoImage(a: seq<LeafEntry>, sep: bytes, b: seq<LeafEntry>): Image {
    Image(map[LEFT := Leaf(1, Some(RIGHT), a), RIGHT := Leaf(1, None, b), ROOT := Internal(1, LEFT, [InternalEntry(sep, RIGHT)])],
          ROOT, None, ROOT)
  }

  ghost function TwoShape(sep: bytes, cap: nat): Shape {
    Shape([[LEFT, RIGHT], [ROOT]], [[[], sep], [[]]], map[], [],
          map[LEFT := TreePage(0), RIGHT := TreePage(0), ROOT := TreePage(1)], cap, {})
  }

  ghost predicate TwoOk(a: seq<LeafEntry>, sep: bytes, b: seq<LeafEntry>, cap: nat) {
    && SortedEntries(a) && Plain(a) && LeafFits(a) && SmallEntries(a, cap) && AllBelow(a, sep)
    && SortedEntries(b) && Plain(b) && LeafFits(b) && SmallEntries(b, cap) && (forall i :: 0 <= i < |b| ==> !Less(b[i].key, sep))
    && sep != [] && SepOk(sep, cap)
  }

  lemma TwoTree(a: seq<LeafEntry>, sep: bytes, b: seq<LeafEntry>, cap: nat)
    requires TwoOk(a, sep, b, cap)
    ensures Consistent(TwoImage(a, sep, b), TwoShape(sep, cap)) && Contents(TwoImage(a, sep, b).pages, [LEFT, RIGHT]) == a + b
  {
    TwoContents(a, sep, b);
    TwoTreeOk(a, sep, b);
    TwoSpace(a, sep, b, cap);
    PlainOwned(a + b, TwoImage(a, sep, b).pages);
    hide TreeOk, SpaceOk, PagesFit, EntriesOk, Owned;
    assert Claimed(TwoShape(sep, cap), {}) == {};
  }

  lemma TwoContents(a: seq<LeafEntry>, sep: bytes, b: seq<LeafEntry>)
    ensures Contents(TwoImage(a, sep, b).pages, [LEFT, RIGHT]) == a + b
  {
    var ess := EntryLists(TwoImage(a, sep, b).pages, [LEFT, RIGHT]);
    assert ess == [a] + [b];
    ConcatAppend([a], [b]);
    ConcatOne(a);
    ConcatOne(b);
  }

  lemma TwoTreeOk(a: seq<LeafEntry>, sep: bytes, b: seq<LeafEntry>)
    requires SortedEntries(a) && AllBelow(a, sep) && SortedEntries(b) && sep != [] && forall i :: 0 <= i < |b| ==> !Less(b[i].key, sep)
    ensures TreeOk(TwoImage(a, sep, b).pages, ROOT, [[LEFT, RIGHT], [ROOT]], [[[], sep], [[]]])
  {
    var pages, bnds := TwoImage(a, sep, b).pages, [[], sep];
    assert LeafOk(At(pages, LEFT), bnds, 0, NextOf([LEFT, RIGHT], 0));
    assert LeafOk(At(pages, RIGHT), bnds, 1, NextOf([LEFT, RIGHT], 1));
    assert LevelOk([LEFT, RIGHT], bnds) && LevelOk([ROOT], [[]]);
    TwoLinked(a, sep, b);
    assert LinkedAt(pages, [[LEFT, RIGHT], [ROOT]], [bnds, [[]]], 1);
  }

  lemma RootLists(sep: bytes)
    ensures var root := Internal(1, LEFT, [InternalEntry(sep, RIGHT)]);
            Kids(root) == [LEFT, RIGHT] && [[]] + SepKeys(root) == [[], sep]
  {
    var root := Internal(1, LEFT, [InternalEntry(sep, RIGHT)]);
    assert |Kids(root)| == 2 && Kids(root)[0] == LEFT && Kids(root)[1] == RIGHT;
    assert SepKeys(root) == [sep];
  }

  lemma TwoLinked(a: seq<LeafEntry>, sep: bytes, b: seq<LeafEntry>)
    ensures Linked(TwoImage(a, sep, b).pages, [ROOT], [[]], [LEFT, RIGHT], [[], sep])
  {
    var pages := TwoImage(a, sep, b).pages;
    RootLists(sep);
    assert KidLists(pages, [ROOT]) == [[LEFT, RIGHT]];
    assert BoundLists(pages, [ROOT], [[]]) == [[[], sep]];
    ConcatOne([LEFT, RIGHT]);
    ConcatOne([[], sep]);
  }

  lemma TwoSpace(a: seq<LeafEntry>, sep: bytes, b: seq<LeafEntry>, cap: nat)
    requires TwoOk(a, sep, b, cap)
    ensures SpaceOk(TwoImage(a, sep, b), TwoShape(sep, cap), {}) && PagesFit(TwoImage(a, sep, b).pages, [[LEFT, RIGHT], [ROOT]], cap)
  {
    OneSepFits(sep, RIGHT, cap);
    TwoFits(a, sep, b, cap);
    TwoLedger(a, sep, b, cap);
  }

  lemma TwoFits(a: seq<LeafEntry>, sep: bytes, b: seq<LeafEntry>, cap: nat)
    requires TwoOk(a, sep, b, cap)
    ensures PagesFit(TwoImage(a, sep, b).pages, [[LEFT, RIGHT], [ROOT]], cap)
  {
    OneSepFits(sep, RIGHT, cap);
    hide Plain, SortedEntries, AllBelow, LeafFits, InternalFits, SmallEntries, SmallSeps, SepsOk, SepOk;
    assert PageFits(At(TwoImage(a, sep, b).pages, LEFT), cap);
    assert PageFits(At(TwoImage(a, sep, b).pages, RIGHT), cap);
    assert PageFits(At(TwoImage(a, sep, b).pages, ROOT), cap);
  }

  lemma TwoLedger(a: seq<LeafEntry>, sep: bytes, b: seq<LeafEntry>, cap: nat)
    ensures SpaceOk(TwoImage(a, sep, b), TwoShape(sep, cap), {})
  {
  }

  /** A key below the separator belongs to the left leaf. */
  lemma TwoLocated(a: seq<LeafEntry>, sep: bytes, b: seq<LeafEntry>, cap: nat, key: bytes, found: bool, x: nat)
    requires Less(key, sep) && Placed(a, key, found, x)
    ensures Located(TwoImage(a, sep, b), TwoShape(sep, cap), key, [ROOT, LEFT], [0, 0], LEFT, Leaf(1, Some(RIGHT), a), found, x)
  {
    hide Placed;
    var pages := TwoImage(a, sep, b).pages;
    var ks := KidLists(pages, [ROOT]);
    RootLists(sep);
    assert ks == [[LEFT, RIGHT]] && ks[..0] == [] && ks[..1] == ks;
    ConcatOne([LEFT, RIGHT]);
    assert ChildOf(pages, TwoShape(sep, cap).levels, 1, 0, 0);
  }
}
