/** What a request that fails while it is staged leaves behind: what the next
    batch commits for it, and inputs at which that happens (btree/mod.rs,
    apply_transaction_group). */
module Failures {
  import opened Lex
  import opened Seqs
  import opened Pages
  import opened KeyCodec
  import opened Tree
  import opened Records
  import opened Space
  import opened Splits
  import opened Database
  import opened Reference
  import opened Errors
  import opened Transactions
  import opened Reads
  import opened Change
  import opened Stamps
  import opened Batches
  import opened Climb
  import opened Capacity
  import opened Crowding
  import opened SmallTrees
  import Staging = Overlay
  import Group = GroupCommit

  // ---------------------------------------------------------------- what the next batch commits

  lemma {:induction false} ApplyJoin(s: States, left: seq<Mutation>, mutations: seq<Mutation>, lsn: nat)
    ensures ApplyMutations(s, left + mutations, lsn) == ApplyMutations(ApplyMutations(s, left, lsn), mutations, lsn)
  {
    if mutations == [] {
      assert left + mutations == left;
    } else {
      assert (left + mutations)[..|left + mutations| - 1] == left + mutations[..|mutations| - 1];
      ApplyJoin(s, left, mutations[..|mutations| - 1], lsn);
    }
  }

  lemma {:induction false} Touched(s: States, left: seq<Mutation>, lsn: nat, key: DocumentKey)
    ensures !Mutates(left, key) ==> Lookup(ApplyMutations(s, left, lsn), key) == Lookup(s, key)
    ensures Mutates(left, key) ==>
              Lookup(ApplyMutations(s, left, lsn), key).Some? && Lookup(ApplyMutations(s, left, lsn), key).value.revision == lsn
  {
    if left != [] {
      hide Lookup, Insert, Mutates;
      var n := |left| - 1;
      Touched(s, left[..n], lsn, key);
      InsertLookup(ApplyMutations(s, left[..n], lsn), left[n].key, left[n].State(lsn), key);
      MutatesLast(left, key);
    } else {
      hide Lookup;
    }
  }

  lemma MutatesLast(left: seq<Mutation>, key: DocumentKey)
    requires left != []
    ensures Mutates(left, key) <==> Mutates(left[..|left| - 1], key) || left[|left| - 1].key == key
  {
    var n := |left| - 1;
    if Mutates(left, key) && left[n].key != key {
      var i :| 0 <= i < |left| && left[i].key == key;
      assert left[..n][i].key == key;
    }
    if Mutates(left[..n], key) {
      var i :| 0 <= i < n && left[..n][i].key == key;
      assert left[i].key == key;
    }
  }

  /** A batch commits the requests that failed before it together with its own:
      a key shows that, unless its own request writes the key as well. */
  lemma LeftoverShows(s: States, left: seq<Mutation>, mutations: seq<Mutation>, lsn: nat, key: DocumentKey)
    requires RevisionsBelow(s, lsn)
    ensures Lookup(ApplyMutations(s, left + mutations, lsn), key) == Lookup(ApplyMutations(s, mutations, lsn), key)
            <==> (Mutates(left, key) ==> Mutates(mutations, key))
  {
    ApplyJoin(s, left, mutations, lsn);
    Touched(s, left, lsn, key);
    Touched(s, mutations, lsn, key);
    Overwritten(s, ApplyMutations(s, left, lsn), mutations, lsn, key);
    if Lookup(s, key).Some? {
      OldRevision(s, lsn, key);
    }
  }

  lemma {:induction false} Overwritten(s: States, s': States, mutations: seq<Mutation>, lsn: nat, key: DocumentKey)
    ensures Mutates(mutations, key) ==> Lookup(ApplyMutations(s, mutations, lsn), key) == Lookup(ApplyMutations(s', mutations, lsn), key)
    ensures !Mutates(mutations, key) ==> Lookup(ApplyMutations(s', mutations, lsn), key) == Lookup(s', key)
  {
    Touched(s', mutations, lsn, key);
    if Mutates(mutations, key) {
      var n := |mutations| - 1;
      InsertLookup(ApplyMutations(s, mutations[..n], lsn), mutations[n].key, mutations[n].State(lsn), key);
      InsertLookup(ApplyMutations(s', mutations[..n], lsn), mutations[n].key, mutations[n].State(lsn), key);
      MutatesLast(mutations, key);
      if mutations[n].key != key {
        Overwritten(s, s', mutations[..n], lsn, key);
      }
    }
  }

  lemma {:induction false} OldRevision(s: States, lsn: nat, key: DocumentKey)
    requires RevisionsBelow(s, lsn) && Lookup(s, key).Some?
    ensures Lookup(s, key).value.revision < lsn
  {
    if s[0].0 != key {
      OldRevision(s[1..], lsn, key);
    }
  }

  // ---------------------------------------------------------------- a refused request that is committed

  /** The keys of the crowded leaf. */
  function Key(b: byte, n: nat): DocumentKey
    requires n > 4
  {
    DocumentKey(Filled(b, n - 4), [])
  }

  /** The crowded leaf without its long entry. */
  ghost function Four(): seq<LeafEntry> {
    [Entry(1, 960), Entry(2, 960), Entry(4, 960), Entry(5, 960)]
  }

  lemma FourFits()
    ensures SortedEntries(Four()) && Plain(Four()) && LeafFits(Four()) && SmallEntries(Four(), 1000)
  {
    hide Entry, LeafRecordSize, KeyOk, LeafFits, SortedEntries;
    FourPlain();
    CrowdedSorted();
    CrowdedStuck();
    assert Four() == RemoveAt(Crowded(), 2);
    FourSorted();
  }

  lemma FourPlain()
    ensures Plain(Four()) && SmallEntries(Four(), 1000)
  {
    hide Entry, LeafRecordSize, KeyOk;
    EntryKey(1, 960);
    EntryKey(2, 960);
    EntryKey(4, 960);
    EntryKey(5, 960);
    EntryPlain(1, 960);
    EntryPlain(2, 960);
    EntryPlain(4, 960);
    EntryPlain(5, 960);
  }

  lemma EntryPlain(b: byte, n: nat)
    requires n > 4
    ensures Entry(b, n).revision == 1 && !HasChain(Entry(b, n)) && InlineLength(Entry(b, n).value) == 0
  {
  }

  lemma EntryIs(b: byte, n: nat)
    requires n > 4
    ensures Entry(b, n) == LeafEntry(Encoded(Key(b, n)), 1, Some(Inline([])))
  {
  }

  lemma FourSorted()
    requires SortedEntries(Crowded())
    ensures SortedEntries(Four())
  {
    hide Entry, Less;
    var all, four := Crowded(), Four();
    var at := [0, 1, 3, 4];
    forall i, j | 0 <= i < j < 4 ensures Less(four[i].key, four[j].key) {
      assert four[i] == all[at[i]] && four[j] == all[at[j]];
    }
  }

  /** Once its first entry is replaced by a tombstone the leaf still has no room
      for the long entry. */
  lemma FourStuck(img: Image, sh: Shape, tomb: LeafEntry, e: LeafEntry)
    requires Sound(img, sh) && sh.levels == [[FIRST_DATA_PAGE]] && sh.bounds == [[[]]]
    requires tomb.key == Entry(1, 960).key && tomb.value == None
    requires Contents(img.pages, [FIRST_DATA_PAGE]) == PutEntry(Four(), tomb)
    requires e.key == Entry(3, 2960).key && LeafRecordSize(e) == 3000
    ensures NoRoom(img, sh, e) && !Stores(img, sh, e)
  {
    var entries := [tomb, Entry(2, 960), Entry(4, 960), Entry(5, 960)];
    LeafThere(img, sh);
    FirstReplaced(tomb);
    hide Sound, Entry, LeafRecordSize;
    LongPlaced(entries);
    LeafLocated(img, sh, e.key, false, 2);
    StoresHere(img, sh, [FIRST_DATA_PAGE], [0], FIRST_DATA_PAGE, img.pages[FIRST_DATA_PAGE], false, 2, e);
    LongStuck(entries, tomb, e);
    NoRoomNoStore(img.pages, [FIRST_DATA_PAGE], img.pages[FIRST_DATA_PAGE], false, 2, e);
  }

  lemma FirstReplaced(tomb: LeafEntry)
    requires tomb.key == Entry(1, 960).key
    ensures PutEntry(Four(), tomb) == [tomb, Entry(2, 960), Entry(4, 960), Entry(5, 960)]
  {
    hide Entry;
    assert Four()[..0] == [];
    PutAtReplaces(Four(), tomb, 0);
  }

  lemma LongPlaced(entries: seq<LeafEntry>)
    requires |entries| == 4 && entries[0].key == Entry(1, 960).key && entries[1..] == Four()[1..]
    ensures Placed(entries, Entry(3, 2960).key, false, 2)
  {
    hide Entry, Less;
    assert entries[1] == entries[1..][0] && entries[2] == entries[1..][1] && entries[3] == entries[1..][2];
    EntryOrder(1, 960, 3, 2960);
    EntryOrder(2, 960, 3, 2960);
    EntryOrder(3, 2960, 4, 960);
    EntryOrder(3, 2960, 5, 960);
  }

  lemma TombSize(tomb: LeafEntry)
    requires tomb.key == Entry(1, 960).key && tomb.value == None
    ensures LeafRecordSize(tomb) == LeafRecordSize(Entry(1, 960))
  {
    hide Entry;
    EntryPlain(1, 960);
  }

  lemma LongStuck(entries: seq<LeafEntry>, tomb: LeafEntry, e: LeafEntry)
    requires entries == [tomb, Entry(2, 960), Entry(4, 960), Entry(5, 960)]
    requires tomb.key == Entry(1, 960).key && tomb.value == None && e.key == Entry(3, 2960).key && LeafRecordSize(e) == 3000
    ensures NoSplit(NewEntries(entries, false, 2, e))
  {
    hide Entry, LeafRecordSize, LeafFits, LeafSplitFits, KeyOk;
    var es := NewEntries(entries, false, 2, e);
    EntryKey(3, 2960);
    TombSize(tomb);
    assert es == [tomb, Entry(2, 960), e, Entry(4, 960), Entry(5, 960)];
    assert SameRecords(es, Crowded());
    SameRecordsFit(es, Crowded());
    SameRecordsSplit(es, Crowded());
    CrowdedStuck();
  }

  /** Deletes a document and stores one with a long key. */
  function Refused(): Request {
    Request([], [DeleteMutation(Key(1, 960)), PutMutation(Key(3, 2960), [])])
  }

  /** Deletes another document. */
  function Accepted(): Request {
    Request([], [DeleteMutation(Key(2, 960))])
  }

  ghost function FourPoint(): Staging.Point {
    Staging.Point(LeafImage(1, Four()), LeafShape(1000))
  }

  lemma KeysDiffer(a: byte, m: nat, b: byte, n: nat)
    requires a != b && m > 4 && n > 4
    ensures Key(a, m) != Key(b, n)
  {
    assert Key(a, m).pk[0] == a && Key(b, n).pk[0] == b;
  }

  lemma KeyFits(b: byte, n: nat, maxValueSize: nat)
    requires b > 0 && 4 < n <= MAX_ENCODED_KEY_SIZE
    ensures Staging.MutationOk(DeleteMutation(Key(b, n)), maxValueSize) && Staging.MutationOk(PutMutation(Key(b, n), []), maxValueSize)
    ensures Staging.DeleteSize(Key(b, n)) == n + 40
    ensures LeafRecordSize(Staging.PutDraft(Key(b, n), [], INLINE_VALUE_LIMIT)) == n + 40
  {
    EntryKey(b, n);
    EntryIs(b, n);
    hide Entry, Encoded;
  }

  lemma NotRefused(s: States, maxValueSize: nat)
    ensures Staging.Refusal(s, Refused(), maxValueSize) == None && Staging.Refusal(s, Accepted(), maxValueSize) == None
    ensures forall i :: 0 <= i < 2 ==> Staging.MutationOk(Refused().mutations[i], maxValueSize)
  {
    hide Key, Staging.MutationOk;
    KeysDiffer(1, 960, 3, 2960);
    KeyFits(1, 960, maxValueSize);
    KeyFits(2, 960, maxValueSize);
    KeyFits(3, 2960, maxValueSize);
    assert Staging.Unmet(s, []) == None;
  }

  /** The documents of the leaf. */
  lemma FourDocs()
    ensures var s := Docs(FourPoint().img, FourPoint().shape);
            Lookup(s, Key(1, 960)) == Some(Present([], 1)) && Lookup(s, Key(2, 960)) == Some(Present([], 1))
  {
    var s := Docs(FourPoint().img, FourPoint().shape);
    LeafContents(FourPoint().img.pages);
    FirstDocs(s);
  }

  lemma EntryDoc(pages: PageMap, b: byte, n: nat)
    requires n > 4
    ensures KeyOf(Entry(b, n).key) == Key(b, n) && StateOf(pages, map[], Entry(b, n)) == Present([], 1)
  {
    EntryIs(b, n);
    DecodeEncoded(Key(b, n));
    hide Entry, Key, Encoded, Decode;
  }

  lemma FirstDocs(s: States)
    requires s == DocsOf(FourPoint().img.pages, map[], Four())
    ensures Lookup(s, Key(1, 960)) == Some(Present([], 1)) && Lookup(s, Key(2, 960)) == Some(Present([], 1))
  {
    hide Entry, Key, KeyOf, StateOf;
    KeysDiffer(1, 960, 2, 960);
    EntryDoc(FourPoint().img.pages, 1, 960);
    EntryDoc(FourPoint().img.pages, 2, 960);
    assert s[0] == (Key(1, 960), Present([], 1)) && s[1] == (Key(2, 960), Present([], 1));
    assert s[1..][0] == s[1];
  }

  /** The request cannot pass its second mutation. */
  lemma MustFail(via: seq<Staging.Point>, n: nat)
    requires Staging.Trodden(FourPoint(), via, Refused().mutations, n, 2, INLINE_VALUE_LIMIT)
    ensures n < 2
    ensures n == 1 ==> NoRoom(via[1].img, via[1].shape, Staging.Draft(Refused().mutations[1], INLINE_VALUE_LIMIT))
  {
    if n >= 1 {
      assert Staging.Trod(via[0], via[1], Refused().mutations[0], 2, INLINE_VALUE_LIMIT);
      assert n == 2 ==> Staging.Trod(via[1], via[2], Refused().mutations[1], 2, INLINE_VALUE_LIMIT);
      FirstStep(via[0], via[1]);
    }
  }

  lemma FirstStep(at: Staging.Point, next: Staging.Point)
    requires at == FourPoint() && Staging.Trod(at, next, DeleteMutation(Key(1, 960)), 2, INLINE_VALUE_LIMIT)
    ensures var e := Staging.Draft(PutMutation(Key(3, 2960), []), INLINE_VALUE_LIMIT);
            NoRoom(next.img, next.shape, e) && !Stores(next.img, next.shape, e)
  {
    hide Working, Stores, Key, Entry, Docs, Encoded, Lookup;
    FourDocs();
    LeafContents(at.img.pages);
    EntryIs(1, 960);
    EntryIs(3, 2960);
    KeyFits(3, 2960, 0);
    FourStuck(next.img, next.shape, LeafEntry(Encoded(Key(1, 960)), 2, None), Staging.Draft(PutMutation(Key(3, 2960), []), INLINE_VALUE_LIMIT));
  }

  lemma FourStamps()
    ensures StampedBelow(FourPoint().img.pages, 2)
  {
    hide Entry;
    EntryPlain(1, 960);
    EntryPlain(2, 960);
    EntryPlain(4, 960);
    EntryPlain(5, 960);
  }

  /** The store holding the four documents. */
  method FourStore() returns (overlay: Staging.Overlay)
    ensures fresh(overlay) && overlay.Clean() && overlay.Pending(overlay.img, overlay.shape, [])
    ensures Staging.Point(overlay.img, overlay.shape) == FourPoint() && overlay.nextRevision == 2
    ensures overlay.inlineLimit == INLINE_VALUE_LIMIT && overlay.maxValueSize == MAX_VALUE_SIZE
  {
    hide Key, Entry, Working, Encoded, StampedBelow;
    var k1 := Encode(Key(1, 960));
    var k2 := Encode(Key(2, 960));
    var k4 := Encode(Key(4, 960));
    var k5 := Encode(Key(5, 960));
    var v := Some(Inline([]));
    var entries := [LeafEntry(k1, 1, v), LeafEntry(k2, 1, v), LeafEntry(k4, 1, v), LeafEntry(k5, 1, v)];
    EntryIs(1, 960);
    EntryIs(2, 960);
    EntryIs(4, 960);
    EntryIs(5, 960);
    assert entries == Four();
    FourFits();
    LeafTree(1, entries, 1000);
    FourStamps();
    overlay := new Staging.Overlay(LeafImage(1, entries), 2, 2, 1, 1, SlotA, 0, INLINE_VALUE_LIMIT, MAX_VALUE_SIZE, LeafShape(1000));
    Group.CleanPending(overlay);
  }

  lemma TroddenFirst(start: Staging.Point, via: seq<Staging.Point>, mutations: seq<Mutation>, n: nat, revision: nat, inlineLimit: nat)
    requires Staging.Trodden(start, via, mutations, n, revision, inlineLimit)
    ensures via[0] == start
  {
  }

  lemma LeftDocs(base: Staging.Point, at: Staging.Point, dirty: set<PageId>, left: seq<Mutation>, revision: nat)
    requires Staging.Staged(base.img, base.shape, at.img, at.shape, dirty, left, revision) && |at.shape.levels| > 0
    ensures |base.shape.levels| > 0
    ensures Docs(at.img, at.shape) == ApplyMutations(Docs(base.img, base.shape), left, revision)
  {
  }

  /** Both deletions at one LSN. */
  lemma BothDeleted(s: States, lsn: nat)
    ensures Lookup(ApplyMutations(s, [Refused().mutations[0]] + Accepted().mutations, lsn), Key(1, 960)) == Some(Missing(lsn))
    ensures Lookup(ApplyMutations(s, [Refused().mutations[0]], lsn), Key(2, 960)) == Lookup(s, Key(2, 960))
  {
    KeysDiffer(1, 960, 2, 960);
    hide Key, Lookup, ApplyMutations;
    var left, both := [Refused().mutations[0]], [Refused().mutations[0]] + Accepted().mutations;
    assert both[0].key == Key(1, 960) && both[1].key == Key(2, 960) && |both| == 2;
    MutationsLookup(s, both, lsn, Key(1, 960));
    MutationsLookup(s, left, lsn, Key(2, 960));
  }

  /** The refused request leaves its deletion behind. */
  method Refuse(overlay: Staging.Overlay) returns (r: Result<Option<Prepared>>)
    requires overlay.Pending(overlay.img, overlay.shape, [])
    requires Staging.Point(overlay.img, overlay.shape) == FourPoint() && overlay.nextRevision == 2
    requires overlay.inlineLimit == INLINE_VALUE_LIMIT && overlay.maxValueSize == MAX_VALUE_SIZE
    modifies overlay
    ensures r == Err(InvalidInput) && overlay.nextRevision == 2
    ensures overlay.Pending(FourPoint().img, FourPoint().shape, [Refused().mutations[0]])
  {
    hide Key, Docs, Staging.Refusal, Staging.Trodden, Staging.Staged, Sound, StampedBelow, NoRoom, Stores, Lookup, FourPoint, Insert,
         Staging.Accepted, Staging.CapAfter, Staging.HalfSplit, Staging.DocsNow, Staging.Reached, Staging.Draft, Staging.Overlay.Settled, Numbered, After;
    FourDocs();
    NotRefused(Docs(FourPoint().img, FourPoint().shape), MAX_VALUE_SIZE);
    ghost var n, via;
    r, n, via := overlay.PrepareTransaction(Refused(), overlay.img, overlay.shape, []);
    MustFail(via, n);
    TroddenFirst(FourPoint(), via, Refused().mutations, n, 2, INLINE_VALUE_LIMIT);
    assert [] + Refused().mutations[..1] == [Refused().mutations[0]];
  }

  /** The next request commits it. */
  method Accept(overlay: Staging.Overlay) returns (r: Result<Option<Prepared>>)
    requires overlay.Pending(FourPoint().img, FourPoint().shape, [Refused().mutations[0]]) && overlay.nextRevision == 2
    requires overlay.inlineLimit == INLINE_VALUE_LIMIT && overlay.maxValueSize == MAX_VALUE_SIZE
    modifies overlay
    ensures r.Ok? && r.value.Some? && |overlay.shape.levels| > 0
    ensures Docs(overlay.img, overlay.shape)
            == ApplyMutations(Docs(FourPoint().img, FourPoint().shape), [Refused().mutations[0]] + Accepted().mutations, r.value.value.commitLsn)
  {
    hide Key, Docs, Staging.Refusal, Staging.Trodden, Staging.Staged, Sound, StampedBelow, NoRoom, Stores, ApplyMutations, Lookup, FourPoint,
         Staging.CapAfter, Staging.HalfSplit, Staging.DocsNow, Staging.Reached, Staging.Draft, Numbered, After;
    ghost var base, at, left := FourPoint(), Staging.Point(overlay.img, overlay.shape), [Refused().mutations[0]];
    FourDocs();
    LeftDocs(base, at, overlay.dirty, left, 2);
    BothDeleted(Docs(base.img, base.shape), 2);
    NotRefused(Docs(overlay.img, overlay.shape), MAX_VALUE_SIZE);
    ghost var n, via;
    r, n, via := overlay.PrepareTransaction(Accepted(), base.img, base.shape, left);
    TroddenFirst(at, via, Accepted().mutations, n, 2, INLINE_VALUE_LIMIT);
  }

  /** A request is refused, and the batch of the next one deletes a document on
      its behalf. */
  method RefusedIsCommitted() returns (refused: Result<Option<Prepared>>, accepted: Result<Option<Prepared>>, overlay: Staging.Overlay,
                                       ghost before: States)
    ensures refused == Err(InvalidInput) && accepted.Ok? && accepted.value.Some?
    ensures |overlay.shape.levels| > 0 && Lookup(before, Key(1, 960)) == Some(Present([], 1))
    ensures Docs(overlay.img, overlay.shape)
            == ApplyMutations(before, [Refused().mutations[0]] + Accepted().mutations, accepted.value.value.commitLsn)
    ensures Lookup(Docs(overlay.img, overlay.shape), Key(1, 960)) == Some(Missing(accepted.value.value.commitLsn))
  {
    hide Key, Docs, Sound, Staging.Staged, StampedBelow, ApplyMutations, Lookup, FourPoint;
    overlay := FourStore();
    before := Docs(FourPoint().img, FourPoint().shape);
    FourDocs();
    refused := Refuse(overlay);
    accepted := Accept(overlay);
    BothDeleted(before, accepted.value.value.commitLsn);
  }

  // ---------------------------------------------------------------- a split that stops halfway

  ghost function LeftLeaf(): seq<LeafEntry> {
    [Entry(1, 100), Entry(4, 1500)]
  }

  ghost function RightLeaf(): seq<LeafEntry> {
    [Entry(5, 2960)]
  }

  ghost function Separator(): bytes {
    Entry(5, 2960).key
  }

  /** Three documents in two leaves; the separator of the leaves is long. */
  ghost function TwoPoint(): Staging.Point {
    Staging.Point(TwoImage(LeftLeaf(), Separator(), RightLeaf()), TwoShape(Separator(), 3000))
  }

  lemma TwoFit()
    ensures TwoOk(LeftLeaf(), Separator(), RightLeaf(), 3000)
  {
    hide Entry, KeyOk, Less, LeafFits, SortedEntries, Plain, SmallEntries;
    LeftFits();
    RightFits();
    EntryKey(5, 2960);
    EntryOrder(1, 100, 5, 2960);
    EntryOrder(4, 1500, 5, 2960);
    NotBelowItself(Separator());
  }

  lemma LeftFits()
    ensures SortedEntries(LeftLeaf()) && Plain(LeftLeaf()) && LeafFits(LeftLeaf()) && SmallEntries(LeftLeaf(), 3000)
  {
    hide Entry, LeafRecordSize, KeyOk, Less;
    EntryKey(1, 100);
    EntryKey(4, 1500);
    EntryPlain(1, 100);
    EntryPlain(4, 1500);
    EntryOrder(1, 100, 4, 1500);
    assert Sizes(LeftLeaf()) == [140, 1540];
    Total2(140, 1540);
  }

  lemma RightFits()
    ensures SortedEntries(RightLeaf()) && Plain(RightLeaf()) && LeafFits(RightLeaf()) && SmallEntries(RightLeaf(), 3000)
  {
    hide Entry, LeafRecordSize, KeyOk, Less;
    EntryKey(5, 2960);
    EntryPlain(5, 2960);
    assert Sizes(RightLeaf()) == [3000];
    Total1(3000);
  }

  lemma NotBelowItself(b: bytes)
    ensures !Less(b, b)
  {
  }

  lemma Total1(a: nat)
    ensures Total([a]) == a
  {
    assert [a][1..] == [];
  }

  lemma Total2(a: nat, b: nat)
    ensures Total([a, b]) == a + b
  {
    assert [a, b][1..] == [b];
    Total1(b);
  }

  lemma Total3(a: nat, b: nat, c: nat)
    ensures Total([a, b, c]) == a + b + c
  {
    assert [a, b, c][1..] == [b, c];
    Total2(b, c);
  }

  /** The left leaf with the new record: it splits before its last entry only. */
  lemma OnlySplit(es: seq<LeafEntry>, e: LeafEntry, c: nat)
    requires es == [Entry(1, 100), e, Entry(4, 1500)] && LeafRecordSize(e) == 2740
    ensures !LeafFits(es) && LeafSplitFits(es, 2) && (LeafSplitFits(es, c) ==> c == 2)
  {
    hide Entry, LeafRecordSize, KeyOk;
    EntryKey(1, 100);
    EntryKey(4, 1500);
    var s := Sizes(es);
    assert s == [140, 2740, 1540];
    Total3(140, 2740, 1540);
    Total2(140, 2740);
    Total2(2740, 1540);
    Total1(1540);
    assert s[..2] == [140, 2740] && s[2..] == [1540] && s[1..] == [2740, 1540];
    LeafSplitSizes(es, 1);
    LeafSplitSizes(es, 2);
  }

  /** The root cannot take a second separator. */
  lemma RootStuck()
    ensures !Takes(TwoPoint().img.pages, [ROOT], Entry(4, 1500).key)
  {
    hide Entry, Less, KeyOk, InternalFits, LeftLeaf, RightLeaf, ParentStuck;
    EntryOrder(4, 1500, 5, 2960);
    EntryKey(4, 1500);
    EntryKey(5, 2960);
    TwoLong(Entry(4, 1500).key, Separator());
    OneLong(Entry(4, 1500).key, Separator());
    TakesStuck(TwoPoint().img.pages, [ROOT], Entry(4, 1500).key);
  }

  lemma TwoLong(a: bytes, b: bytes)
    requires |a| == 1500 && |b| == 2960
    ensures !InternalFits([InternalEntry(a, 0), InternalEntry(b, RIGHT)])
  {
    assert SepSizes([InternalEntry(a, 0), InternalEntry(b, RIGHT)]) == [1520, 2980];
    Total2(1520, 2980);
  }

  lemma OneLong(a: bytes, b: bytes)
    requires Less(a, b) && !InternalFits([InternalEntry(a, 0), InternalEntry(b, RIGHT)])
    ensures ParentStuck(Internal(1, LEFT, [InternalEntry(b, RIGHT)]), a)
  {
    hide InternalFits, Less;
    NotBelow(a, b);
    assert Told([InternalEntry(b, RIGHT)], a) == [InternalEntry(a, 0), InternalEntry(b, RIGHT)];
  }

  lemma NotBelow(a: bytes, b: bytes)
    requires Less(a, b)
    ensures !Less(b, a)
  {
  }

  lemma NewPlaced()
    ensures Placed(LeftLeaf(), Entry(2, 2700).key, false, 1) && Less(Entry(2, 2700).key, Separator())
  {
    hide Entry, Less;
    EntryOrder(1, 100, 2, 2700);
    EntryOrder(2, 2700, 4, 1500);
    EntryOrder(2, 2700, 5, 2960);
  }

  /** A record between them makes the left leaf split, and the root stop it. */
  lemma NewStuck(e: LeafEntry)
    requires e.key == Entry(2, 2700).key && LeafRecordSize(e) == 2740
    ensures !Stores(TwoPoint().img, TwoPoint().shape, e) && !NoRoom(TwoPoint().img, TwoPoint().shape, e)
  {
    hide Entry, LeafRecordSize, Less, Takes, Placed;
    var img, sh := TwoPoint().img, TwoPoint().shape;
    TwoFit();
    TwoTree(LeftLeaf(), Separator(), RightLeaf(), 3000);
    NewPlaced();
    TwoLocated(LeftLeaf(), Separator(), RightLeaf(), 3000, e.key, false, 1);
    hide Consistent, TwoOk, Located;
    var leaf := Leaf(1, Some(RIGHT), LeftLeaf());
    StoresHere(img, sh, [ROOT, LEFT], [0, 0], LEFT, leaf, false, 1, e);
    NotStored(e);
  }

  lemma NotStored(e: LeafEntry)
    requires e.key == Entry(2, 2700).key && LeafRecordSize(e) == 2740
    ensures !StoresAt(TwoPoint().img.pages, [ROOT, LEFT], Leaf(1, Some(RIGHT), LeftLeaf()), false, 1, e)
    ensures !NoRoomAt(Leaf(1, Some(RIGHT), LeftLeaf()), false, 1, e)
  {
    hide Entry, LeafRecordSize, Takes, LeafFits, LeafSplitFits;
    var es := NewEntries(LeftLeaf(), false, 1, e);
    assert es == [Entry(1, 100), e, Entry(4, 1500)];
    OnlySplit(es, e, 2);
    RootStuck();
    assert [ROOT, LEFT][..1] == [ROOT];
    forall c: nat | LeafSplitAt(es, c) ensures c == 2 {
      OnlySplit(es, e, c);
    }
  }

  /** Stores a document between the others. */
  function Stopped(): Request {
    Request([], [PutMutation(Key(2, 2700), [])])
  }

  lemma StoppedValid(s: States, maxValueSize: nat)
    ensures Staging.Refusal(s, Stopped(), maxValueSize) == None
  {
    hide Key, Staging.MutationOk;
    KeyFits(2, 2700, maxValueSize);
    assert Staging.Unmet(s, []) == None;
  }

  lemma TwoStamps()
    ensures StampedBelow(TwoPoint().img.pages, 2)
  {
    hide Entry;
    EntryPlain(1, 100);
    EntryPlain(4, 1500);
    EntryPlain(5, 2960);
  }

  method TwoStore() returns (overlay: Staging.Overlay)
    ensures fresh(overlay) && overlay.Pending(overlay.img, overlay.shape, [])
    ensures Staging.Point(overlay.img, overlay.shape) == TwoPoint() && overlay.nextRevision == 2
    ensures overlay.inlineLimit == INLINE_VALUE_LIMIT && overlay.maxValueSize == MAX_VALUE_SIZE
  {
    hide Key, Entry, Working, Encoded, StampedBelow, TwoOk;
    var k1 := Encode(Key(1, 100));
    var k4 := Encode(Key(4, 1500));
    var k5 := Encode(Key(5, 2960));
    var v := Some(Inline([]));
    EntryIs(1, 100);
    EntryIs(4, 1500);
    EntryIs(5, 2960);
    var img := TwoImage([LeafEntry(k1, 1, v), LeafEntry(k4, 1, v)], k5, [LeafEntry(k5, 1, v)]);
    TwoFit();
    TwoTree(LeftLeaf(), Separator(), RightLeaf(), 3000);
    TwoStamps();
    overlay := new Staging.Overlay(img, 2, 2, 1, 1, SlotA, 0, INLINE_VALUE_LIMIT, MAX_VALUE_SIZE, TwoShape(k5, 3000));
    Group.CleanPending(overlay);
  }

  lemma TwoLevels()
    ensures |TwoPoint().shape.levels| == 2
  {
  }

  lemma StoppedDraft()
    ensures var e := Staging.Draft(Stopped().mutations[0], INLINE_VALUE_LIMIT); e.key == Entry(2, 2700).key && LeafRecordSize(e) == 2740
  {
    hide Key, Entry, LeafRecordSize, Encoded;
    EntryIs(2, 2700);
    KeyFits(2, 2700, 0);
  }

  lemma StoppedFails(via: seq<Staging.Point>, n: nat)
    requires Staging.Trodden(TwoPoint(), via, Stopped().mutations, n, 2, INLINE_VALUE_LIMIT)
    ensures n == 0 && via[0] == TwoPoint()
    ensures !NoRoom(via[0].img, via[0].shape, Staging.Draft(Stopped().mutations[0], INLINE_VALUE_LIMIT))
  {
    hide Key, Entry, Stores, NoRoom, LeafRecordSize;
    StoppedDraft();
    NewStuck(Staging.Draft(Stopped().mutations[0], INLINE_VALUE_LIMIT));
    assert n > 0 ==> Staging.Trod(via[0], via[1], Stopped().mutations[0], 2, INLINE_VALUE_LIMIT);
  }

  /** A request is refused after it split a leaf; the new leaf holds its part of
      the documents, but no page leads to it. */
  method SplitStops() returns (r: Result<Option<Prepared>>, overlay: Staging.Overlay, ghost right: PageId)
    ensures r == Err(InvalidInput)
    ensures |overlay.shape.levels| == 2 && right in overlay.shape.levels[0] && Unlinked(overlay.img, overlay.shape, right)
    ensures Docs(overlay.img, overlay.shape) == Insert(Docs(TwoPoint().img, TwoPoint().shape), Key(2, 2700), Present([], 2))
  {
    hide Key, Docs, Staging.Refusal, Staging.Trodden, Staging.Staged, Sound, StampedBelow, NoRoom, Stores, TwoPoint, Staging.Accepted, Staging.HalfSplit,
         Unlinked, Insert, Staging.CapAfter, Staging.Reached, Staging.Draft, Staging.Overlay.Settled, Numbered, After;
    TwoLevels();
    overlay := TwoStore();
    StoppedValid(Docs(TwoPoint().img, TwoPoint().shape), MAX_VALUE_SIZE);
    ghost var n, via;
    r, n, via := overlay.PrepareTransaction(Stopped(), overlay.img, overlay.shape, []);
    StoppedFails(via, n);
    right := OrphanLeaf(overlay.img, overlay.shape);
  }

  lemma OrphanLeaf(img: Image, sh: Shape) returns (right: PageId)
    requires Staging.HalfSplit(img, sh) && |sh.levels| == 2
    ensures right in sh.levels[0] && Unlinked(img, sh, right)
  {
    hide OrphanAt, Unlinked;
    var spare :| Orphaned(img, sh, spare);
    var route, path, k, c, sep, orphan :| OrphanAt(img, sh, spare, route, path, k, c, sep, orphan);
    OrphanUnlinked(img, sh, spare, route, path, k, c, sep, orphan);
    right := orphan;
  }
}
