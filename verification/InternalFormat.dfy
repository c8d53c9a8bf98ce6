/** Internal pages as bytes (btree/format.rs). */
module InternalFormat {
  import opened Lex
  import opened Endian
  import opened Pages
  import opened KeyCodec
  import opened Errors
  import opened Splits
  import opened Ranges
  import opened Slotted
  import opened SlotReads
  import opened Tree
  import LeafFormat

  const INTERNAL_MAGIC: bytes := [0x49, 0x4e, 0x54, 0x4e]

  /** What the encoder asks of a separator. */
  ghost predicate SepOk(e: InternalEntry) {
    FIRST_DATA_PAGE <= e.rightChild && LeafFormat.KeyOk(e.key)
  }

  ghost predicate AllSepsOk(seps: seq<InternalEntry>) {
    forall i :: 0 <= i < |seps| ==> SepOk(seps[i])
  }

  predicate Width(e: InternalEntry) {
    e.rightChild < LeafFormat.U64_RANGE
  }

  ghost predicate AllWidth(seps: seq<InternalEntry>) {
    forall i :: 0 <= i < |seps| ==> Width(seps[i])
  }

  ghost predicate ShortSeps(seps: seq<InternalEntry>) {
    forall i :: 0 <= i < |seps| ==> |seps[i].key| <= LeafFormat.U16_MAX
  }

  // ---------------------------------------------------------------- records

  function InternalRecord(e: InternalEntry): (r: bytes)
    requires Width(e) && |e.key| <= LeafFormat.U16_MAX
    ensures |r| + SLOT_SIZE == InternalRecordSize(e)
  {
    U16(|e.key|) + Zeroes(2) + U64(e.rightChild) + e.key
  }

  ghost function ReadRecord(b: bytes, slotKeyLength: nat): Option<InternalEntry>
    requires |b| >= INTERNAL_RECORD_HEADER
  {
    var e := InternalEntry(b[INTERNAL_RECORD_HEADER..], ReadU64(b[4..12]));
    if b[2..4] != Zeroes(2) || ReadU16(b[0..2]) != slotKeyLength || |b| != INTERNAL_RECORD_HEADER + slotKeyLength || !SepOk(e) then None
    else Some(e)
  }

  lemma RecordReadsBack(e: InternalEntry)
    requires Width(e) && |e.key| <= LeafFormat.U16_MAX && SepOk(e)
    ensures ReadRecord(InternalRecord(e), |e.key|) == Some(e)
  {
    hide SepOk, FromLe, U16, U64, Zeroes;
    var b := InternalRecord(e);
    assert b[0..2] == U16(|e.key|) && b[2..4] == Zeroes(2) && b[4..12] == U64(e.rightChild) && b[INTERNAL_RECORD_HEADER..] == e.key;
  }

  lemma ReadIsRecord(b: bytes, slotKeyLength: nat)
    requires |b| >= INTERNAL_RECORD_HEADER && ReadRecord(b, slotKeyLength).Some?
    ensures var e := ReadRecord(b, slotKeyLength).value;
            Width(e) && |e.key| == slotKeyLength <= LeafFormat.U16_MAX && SepOk(e) && InternalRecord(e) == b
  {
    hide SepOk, FromLe, Zeroes;
    assert b == b[0..2] + b[2..4] + b[4..12] + b[INTERNAL_RECORD_HEADER..];
  }

  method DecodeInternalRecord(b: bytes, slotKeyLength: nat) returns (r: Option<InternalEntry>)
    requires |b| >= INTERNAL_RECORD_HEADER
    ensures r == ReadRecord(b, slotKeyLength)
  {
    hide FromLe, Zeroes;
    if b[2..4] != Zeroes(2) || ReadU16(b[0..2]) != slotKeyLength || |b| != INTERNAL_RECORD_HEADER + slotKeyLength {
      return None;
    }
    var rightChild := ReadU64(b[4..12]);
    if rightChild < FIRST_DATA_PAGE {
      return None;
    }
    var document := DecodeKey(b[INTERNAL_RECORD_HEADER..]);
    if document.Bad? {
      return None;
    }
    return Some(InternalEntry(b[INTERNAL_RECORD_HEADER..], rightChild));
  }

  // ---------------------------------------------------------------- pages

  function ItemOf(e: InternalEntry): Item
    requires Width(e) && |e.key| <= LeafFormat.U16_MAX
  {
    Item(InternalRecord(e), |e.key|)
  }

  ghost function ItemsOf(seps: seq<InternalEntry>): (r: seq<Item>)
    requires AllWidth(seps) && ShortSeps(seps)
    ensures |r| == |seps|
  {
    seq(|seps|, i requires 0 <= i < |seps| => ItemOf(seps[i]))
  }

  lemma RecordRoom(e: InternalEntry)
    requires Width(e) && |e.key| <= LeafFormat.U16_MAX
    ensures |ItemOf(e).data| + SLOT_SIZE == InternalRecordSize(e)
  {
  }

  lemma {:induction false} RoomTaken(seps: seq<InternalEntry>, n: nat)
    requires AllWidth(seps) && ShortSeps(seps) && n <= |seps|
    ensures Below(ItemsOf(seps), n) + SLOT_SIZE * (|seps| - n) == Total(SepSizes(seps[n..]))
    decreases |seps| - n
  {
    hide ItemOf;
    if n < |seps| {
      RoomTaken(seps, n + 1);
      RecordRoom(seps[n]);
      assert seps[n..][1..] == seps[n + 1..];
      assert SepSizes(seps[n..])[1..] == SepSizes(seps[n..][1..]);
    }
  }

  lemma FitsIsFit(seps: seq<InternalEntry>)
    requires AllWidth(seps) && ShortSeps(seps)
    ensures InternalFits(seps) <==> Fit(ItemsOf(seps))
  {
    RoomTaken(seps, 0);
    assert seps[0..] == seps;
  }

  lemma {:induction false} SizesTotal(seps: seq<InternalEntry>)
    ensures Total(SepSizes(seps)) >= SLOT_SIZE * |seps|
  {
    if seps != [] {
      SizesTotal(seps[1..]);
      assert SepSizes(seps)[1..] == SepSizes(seps[1..]);
    }
  }

  lemma FitsShort(seps: seq<InternalEntry>)
    requires InternalFits(seps)
    ensures ShortSeps(seps) && SlotEnd(|seps|) <= BODY_SIZE
  {
    SizesTotal(seps);
    forall i | 0 <= i < |seps| ensures |seps[i].key| <= LeafFormat.U16_MAX {
      TotalAround(SepSizes(seps), i);
    }
  }

  method EnsureSorted(seps: seq<InternalEntry>) returns (ok: bool)
    ensures ok <==> SortedSeps(seps)
  {
    for k := 0 to |seps|
      invariant SortedSeps(seps[..k])
    {
      if k > 0 && !Less(seps[k - 1].key, seps[k].key) {
        return false;
      }
      forall i | 0 <= i < k ensures Less(seps[i].key, seps[k].key) {
        if i < k - 1 {
          assert Less(seps[..k][i].key, seps[..k][k - 1].key);
        }
      }
      assert forall i :: 0 <= i < k ==> seps[..k + 1][i] == seps[..k][i];
    }
    assert seps[..|seps|] == seps;
    return true;
  }

  /** Succeeds exactly on sorted separators with canonical keys and data pages
      as children that fit one page. */
  method EncodeInternal(leftmost: PageId, seps: seq<InternalEntry>) returns (r: Result<bytes>)
    requires AllWidth(seps) && leftmost < LeafFormat.U64_RANGE
    ensures r.Ok? <==> FIRST_DATA_PAGE <= leftmost && SortedSeps(seps) && AllSepsOk(seps) && InternalFits(seps)
    ensures r.Ok? ==> ShortSeps(seps) && LaidOut(r.value, INTERNAL_MAGIC, leftmost, ItemsOf(seps))
    ensures r == Err(Corruption) <==> FIRST_DATA_PAGE <= leftmost && SlotEnd(|seps|) <= BODY_SIZE && !SortedSeps(seps)
    ensures r.Err? ==> r.error == Corruption || r.error == InvalidInput
  {
    hide InternalFits, LaidOut, Fit, InternalRecord;
    if leftmost < FIRST_DATA_PAGE {
      return Err(InvalidInput);
    }
    if InternalFits(seps) {
      FitsShort(seps);
    }
    if |seps| > LeafFormat.U16_MAX || SlotEnd(|seps|) > BODY_SIZE {
      return Err(InvalidInput);
    }
    var sorted := EnsureSorted(seps);
    if !sorted {
      return Err(Corruption);
    }
    var items: seq<Item> := [];
    for i := 0 to |seps|
      invariant |items| == i && ShortSeps(seps[..i]) && AllSepsOk(seps[..i])
      invariant forall j :: 0 <= j < i ==> |seps[j].key| <= LeafFormat.U16_MAX && items[j] == ItemOf(seps[j])
    {
      if |seps[i].key| > LeafFormat.U16_MAX || seps[i].rightChild < FIRST_DATA_PAGE {
        assert |seps[i].key| <= LeafFormat.U16_MAX ==> !SepOk(seps[i]);
        return Err(InvalidInput);
      }
      var document := DecodeKey(seps[i].key);
      assert SepOk(seps[i]) <==> document.Good?;
      if document.Bad? {
        return Err(InvalidInput);
      }
      items := items + [ItemOf(seps[i])];
    }
    assert seps[..|seps|] == seps;
    assert items == ItemsOf(seps);
    FitsIsFit(seps);
    var body := FillPage(INTERNAL_MAGIC, leftmost, items);
    if body.None? {
      return Err(InvalidInput);
    }
    return Ok(body.value);
  }

  ghost predicate RecordsRead(body: bytes, slots: seq<SlotRef>, seps: seq<InternalEntry>) {
    && |seps| == |slots|
    && (forall i :: 0 <= i < |slots| ==> slots[i].range.start + INTERNAL_RECORD_HEADER <= slots[i].range.end <= |body|)
    && (forall i :: 0 <= i < |slots| ==> ReadRecord(Slice(body, slots[i].range), slots[i].keyLength) == Some(seps[i]))
  }

  /** The body reads as this internal page. */
  ghost predicate InternalReads(body: bytes, leftmost: PageId, seps: seq<InternalEntry>, slots: seq<SlotRef>) {
    && SlotsRead(body, INTERNAL_MAGIC, INTERNAL_RECORD_HEADER, slots) && RecordsRead(body, slots, seps)
    && leftmost == Link(body) && leftmost >= FIRST_DATA_PAGE
    && SortedSeps(seps)
  }

  lemma OnlyThese(body: bytes, slots: seq<SlotRef>, found: seq<InternalEntry>)
    requires SlotsRead(body, INTERNAL_MAGIC, INTERNAL_RECORD_HEADER, slots) && RecordsRead(body, slots, found)
    ensures forall leftmost, seps, other :: InternalReads(body, leftmost, seps, other) ==> seps == found
  {
    hide ReadRecord, SlotsRead;
    forall leftmost, seps, other | InternalReads(body, leftmost, seps, other) ensures seps == found {
      SlotsUnique(body, INTERNAL_MAGIC, INTERNAL_RECORD_HEADER, slots, other);
      forall i | 0 <= i < |found| ensures found[i] == seps[i] {
        assert Some(found[i]) == Some(seps[i]);
      }
    }
  }

  lemma NoOther(body: bytes, slots: seq<SlotRef>, i: nat)
    requires SlotsRead(body, INTERNAL_MAGIC, INTERNAL_RECORD_HEADER, slots) && i < |slots|
    requires slots[i].range.start + INTERNAL_RECORD_HEADER <= slots[i].range.end <= |body|
    requires ReadRecord(Slice(body, slots[i].range), slots[i].keyLength).None?
    ensures forall leftmost, seps, other :: !InternalReads(body, leftmost, seps, other)
  {
    hide ReadRecord, SlotsRead;
    forall leftmost, seps, other ensures !InternalReads(body, leftmost, seps, other) {
      if InternalReads(body, leftmost, seps, other) {
        SlotsUnique(body, INTERNAL_MAGIC, INTERNAL_RECORD_HEADER, slots, other);
      }
    }
  }

  /** Reads exactly the bodies that hold an internal page. */
  method DecodeInternal(body: bytes) returns (r: Option<(PageId, seq<InternalEntry>)>, ghost slots: seq<SlotRef>)
    ensures r.Some? ==> InternalReads(body, r.value.0, r.value.1, slots)
    ensures r.None? ==> forall leftmost, seps, slots :: !InternalReads(body, leftmost, seps, slots)
  {
    hide ReadRecord, SlotsRead;
    var found := ReadSlots(body, INTERNAL_MAGIC, INTERNAL_RECORD_HEADER);
    if found.None? {
      return None, [];
    }
    slots := found.value;
    HeaderThere(body, INTERNAL_MAGIC, INTERNAL_RECORD_HEADER, slots);
    if Link(body) < FIRST_DATA_PAGE {
      return None, slots;
    }
    var seps: seq<InternalEntry> := [];
    for i := 0 to |found.value|
      invariant |seps| == i
      invariant RecordsRead(body, slots[..i], seps)
    {
      SlotSlice(body, INTERNAL_MAGIC, INTERNAL_RECORD_HEADER, slots, i);
      var sep := DecodeInternalRecord(Slice(body, found.value[i].range), found.value[i].keyLength);
      if sep.None? {
        NoOther(body, slots, i);
        return None, slots;
      }
      seps := seps + [sep.value];
    }
    assert slots[..|slots|] == slots;
    OnlyThese(body, slots, seps);
    var sorted := EnsureSorted(seps);
    if !sorted {
      return None, slots;
    }
    return Some((Link(body), seps)), slots;
  }

  // ---------------------------------------------------------------- the round trip

  lemma LaidRecord(body: bytes, link: u64, seps: seq<InternalEntry>, i: nat)
    requires AllWidth(seps) && ShortSeps(seps) && LaidOut(body, INTERNAL_MAGIC, link, ItemsOf(seps)) && i < |seps|
    ensures SlotFor(ItemsOf(seps), i).range.start <= SlotFor(ItemsOf(seps), i).range.end <= |body|
    ensures Slice(body, SlotFor(ItemsOf(seps), i).range) == InternalRecord(seps[i]) && SlotFor(ItemsOf(seps), i).keyLength == |seps[i].key|
  {
    hide InternalRecord, LaidOut;
    FitOf(body, INTERNAL_MAGIC, link, ItemsOf(seps));
    SlotReadsBack(body, INTERNAL_MAGIC, link, ItemsOf(seps), i);
  }

  /** An internal page that was encoded reads back as itself. */
  lemma InternalRoundTrip(body: bytes, leftmost: PageId, seps: seq<InternalEntry>)
    requires AllWidth(seps) && ShortSeps(seps) && AllSepsOk(seps) && SortedSeps(seps) && FIRST_DATA_PAGE <= leftmost < LeafFormat.U64_RANGE
    requires LaidOut(body, INTERNAL_MAGIC, leftmost, ItemsOf(seps))
    ensures InternalReads(body, leftmost, seps, SlotsFor(ItemsOf(seps)))
  {
    hide ReadRecord, SlotsRead, LaidOut, InternalRecord, SlotFor;
    var items := ItemsOf(seps);
    var slots := SlotsFor(items);
    forall i | 0 <= i < |items| ensures |items[i].data| >= INTERNAL_RECORD_HEADER {
      RecordRoom(seps[i]);
    }
    LaidOutReads(body, INTERNAL_MAGIC, leftmost, items, INTERNAL_RECORD_HEADER);
    HeaderThere(body, INTERNAL_MAGIC, INTERNAL_RECORD_HEADER, slots);
    forall i | 0 <= i < |slots|
      ensures slots[i].range.start + INTERNAL_RECORD_HEADER <= slots[i].range.end <= |body|
      ensures ReadRecord(Slice(body, slots[i].range), slots[i].keyLength) == Some(seps[i])
    {
      SlotSlice(body, INTERNAL_MAGIC, INTERNAL_RECORD_HEADER, slots, i);
      LaidRecord(body, leftmost, seps, i);
      RecordReadsBack(seps[i]);
    }
  }

  lemma {:induction false} SameRoom(seps: seq<InternalEntry>, slots: seq<SlotRef>, n: nat)
    requires AllWidth(seps) && ShortSeps(seps) && |seps| == |slots| && n <= |slots|
    requires forall i :: 0 <= i < |seps| ==> |ItemOf(seps[i]).data| == slots[i].range.end - slots[i].range.start
    ensures Below(ItemsOf(seps), n) == TotalLength(RangesOf(slots)[n..])
    decreases |slots| - n
  {
    hide ItemOf;
    if n < |slots| {
      SameRoom(seps, slots, n + 1);
      assert RangesOf(slots)[n..][1..] == RangesOf(slots)[n + 1..];
    }
  }

  /** Any body that reads as an internal page holds separators that encode again. */
  lemma ReadInternalFits(body: bytes, leftmost: PageId, seps: seq<InternalEntry>, slots: seq<SlotRef>)
    requires InternalReads(body, leftmost, seps, slots)
    ensures AllWidth(seps) && ShortSeps(seps) && AllSepsOk(seps) && SortedSeps(seps) && InternalFits(seps)
  {
    hide ReadRecord, SepOk, InternalRecord, Zeroes;
    forall i | 0 <= i < |seps|
      ensures Width(seps[i]) && |seps[i].key| <= LeafFormat.U16_MAX && SepOk(seps[i])
      ensures |ItemOf(seps[i]).data| == slots[i].range.end - slots[i].range.start
    {
      SlotSlice(body, INTERNAL_MAGIC, INTERNAL_RECORD_HEADER, slots, i);
      ReadIsRecord(Slice(body, slots[i].range), slots[i].keyLength);
    }
    SameRoom(seps, slots, 0);
    var rs := RangesOf(slots);
    forall i | 0 <= i < |rs| ensures RecordsStart(body) <= rs[i].start < rs[i].end <= BODY_SIZE {
      assert Inside(slots[i], RecordsStart(body), INTERNAL_RECORD_HEADER);
    }
    DisjointRoom(rs, RecordsStart(body), BODY_SIZE);
    assert rs[0..] == rs;
    FitsIsFit(seps);
  }
}
