/** Leaf pages as bytes (btree/format.rs). */
module LeafFormat {
  import opened Lex
  import opened Endian
  import opened Pages
  import opened KeyCodec
  import opened Tree
  import opened Errors
  import opened Splits
  import opened Ranges
  import opened Slotted
  import opened SlotReads

  const LEAF_MAGIC: bytes := [0x4c, 0x45, 0x41, 0x46]
  const NULL_PAGE_ID: u64 := 0xFFFF_FFFF_FFFF_FFFF
  const U64_RANGE: nat := 0x1_0000_0000_0000_0000
  const U16_MAX: nat := 0xFFFF

  function EncodePageId(id: Option<PageId>): u64
    requires id.Some? ==> id.value < U64_RANGE
  {
    if id.Some? then id.value else NULL_PAGE_ID
  }

  function DecodePageId(value: u64): Option<PageId> {
    if value != NULL_PAGE_ID then Some(value) else None
  }

  ghost predicate KeyOk(key: bytes) {
    KeyCodec.Decode(key).Good?
  }

  // ---------------------------------------------------------------- records

  /** Numbers that the record's 64-bit fields can hold. */
  predicate Widths(e: LeafEntry) {
    && e.revision < U64_RANGE
    && match e.value
       case None => true
       case Some(Inline(content)) => |content| < U64_RANGE
       case Some(Overflow(head, length)) => head < U64_RANGE && length < U64_RANGE
  }

  /** Values that a reader accepts. */
  predicate ValueAccepted(v: Option<ValueRef>) {
    match v
    case None => true
    case Some(Inline(content)) => |content| <= MAX_VALUE_SIZE
    case Some(Overflow(head, length)) => 0 < length <= MAX_VALUE_SIZE && head != NULL_PAGE_ID
  }

  function Flags(v: Option<ValueRef>): byte {
    match v case None => 0 case Some(Inline(_)) => 1 case Some(Overflow(_, _)) => 2
  }

  function ValueLength(v: Option<ValueRef>): nat {
    match v case None => 0 case Some(Inline(content)) => |content| case Some(Overflow(_, length)) => length
  }

  function Aux(v: Option<ValueRef>): nat {
    match v case None => NULL_PAGE_ID case Some(Inline(_)) => 0 case Some(Overflow(head, _)) => head
  }

  function InlineBytes(v: Option<ValueRef>): bytes {
    if v.Some? && v.value.Inline? then v.value.content else []
  }

  function RecordHeader(e: LeafEntry): (r: bytes)
    requires Widths(e) && |e.key| <= U16_MAX
    ensures |r| == LEAF_RECORD_HEADER
  {
    U64(e.revision) + U64(ValueLength(e.value)) + U64(Aux(e.value)) + [Flags(e.value)] + [0] + U16(|e.key|) + Zeroes(4)
  }

  function LeafRecord(e: LeafEntry): (r: bytes)
    requires Widths(e) && |e.key| <= U16_MAX
    ensures |r| + SLOT_SIZE == LeafRecordSize(e)
  {
    RecordHeader(e) + e.key + InlineBytes(e.value)
  }

  /** The entry in a record, if it is one. */
  ghost function ReadRecord(b: bytes, slotKeyLength: nat): Option<LeafEntry>
    requires |b| >= LEAF_RECORD_HEADER
  {
    var length, aux, keyLength := ReadU64(b[8..16]), ReadU64(b[16..24]), ReadU16(b[26..28]);
    var keyEnd := LEAF_RECORD_HEADER + keyLength;
    if length > MAX_VALUE_SIZE || b[25] != 0 || b[28..32] != Zeroes(4) || keyLength != slotKeyLength || keyEnd > |b| then None
    else if !KeyOk(b[LEAF_RECORD_HEADER..keyEnd]) then None
    else
      var key, revision := b[LEAF_RECORD_HEADER..keyEnd], ReadU64(b[0..8]);
      if b[24] == 0 then
        if length != 0 || aux != NULL_PAGE_ID || |b| != keyEnd then None else Some(LeafEntry(key, revision, None))
      else if b[24] == 1 then
        if keyEnd + length != |b| || aux != 0 then None else Some(LeafEntry(key, revision, Some(Inline(b[keyEnd..]))))
      else if b[24] == 2 then
        if |b| != keyEnd || aux == NULL_PAGE_ID || length == 0 then None else Some(LeafEntry(key, revision, Some(Overflow(aux, length))))
      else None
  }

  lemma RecordParts(e: LeafEntry)
    requires Widths(e) && |e.key| <= U16_MAX
    ensures var b := LeafRecord(e);
            && b[0..8] == U64(e.revision) && b[8..16] == U64(ValueLength(e.value)) && b[16..24] == U64(Aux(e.value))
            && b[24] == Flags(e.value) && b[25] == 0 && b[26..28] == U16(|e.key|) && b[28..32] == Zeroes(4)
            && b[LEAF_RECORD_HEADER..LEAF_RECORD_HEADER + |e.key|] == e.key
            && b[LEAF_RECORD_HEADER + |e.key|..] == InlineBytes(e.value)
  {
    hide U16, U64, FromLe, Zeroes;
    var h, b := RecordHeader(e), LeafRecord(e);
    assert h[0..8] == U64(e.revision) && h[8..16] == U64(ValueLength(e.value)) && h[16..24] == U64(Aux(e.value));
    assert h[24] == Flags(e.value) && h[25] == 0 && h[26..28] == U16(|e.key|) && h[28..32] == Zeroes(4);
    assert b[..LEAF_RECORD_HEADER] == h;
    assert b[0..8] == h[0..8] && b[8..16] == h[8..16] && b[16..24] == h[16..24] && b[26..28] == h[26..28] && b[28..32] == h[28..32];
  }

  /** A written record reads back exactly when a reader accepts its value. */
  lemma RecordReadsBack(e: LeafEntry)
    requires Widths(e) && |e.key| <= U16_MAX && KeyOk(e.key)
    ensures ReadRecord(LeafRecord(e), |e.key|) == if ValueAccepted(e.value) then Some(e) else None
  {
    hide KeyOk, LeafRecord;
    RecordParts(e);
  }

  lemma ReadFields(b: bytes, slotKeyLength: nat)
    requires |b| >= LEAF_RECORD_HEADER && ReadRecord(b, slotKeyLength).Some?
    ensures var e := ReadRecord(b, slotKeyLength).value;
            && Widths(e) && |e.key| == slotKeyLength <= U16_MAX && KeyOk(e.key) && ValueAccepted(e.value)
            && LEAF_RECORD_HEADER + |e.key| <= |b|
            && e.revision == ReadU64(b[0..8]) && ValueLength(e.value) == ReadU64(b[8..16]) && Aux(e.value) == ReadU64(b[16..24])
            && Flags(e.value) == b[24] && b[25] == 0 && |e.key| == ReadU16(b[26..28]) && b[28..32] == Zeroes(4)
            && e.key == b[LEAF_RECORD_HEADER..LEAF_RECORD_HEADER + |e.key|] && InlineBytes(e.value) == b[LEAF_RECORD_HEADER + |e.key|..]
  {
    hide KeyOk, FromLe, Zeroes;
  }

  lemma RecordSlices(b: bytes, keyEnd: nat)
    requires LEAF_RECORD_HEADER <= keyEnd <= |b|
    ensures b == b[0..8] + b[8..16] + b[16..24] + [b[24]] + [b[25]] + b[26..28] + b[28..32] + b[LEAF_RECORD_HEADER..keyEnd] + b[keyEnd..]
  {
  }

  /** Whatever reads as an entry is that entry's record. */
  lemma ReadIsRecord(b: bytes, slotKeyLength: nat)
    requires |b| >= LEAF_RECORD_HEADER && ReadRecord(b, slotKeyLength).Some?
    ensures var e := ReadRecord(b, slotKeyLength).value;
            && Widths(e) && |e.key| == slotKeyLength <= U16_MAX && KeyOk(e.key) && ValueAccepted(e.value)
            && LeafRecord(e) == b
  {
    hide ReadRecord, KeyOk, FromLe, Zeroes, Widths, ValueAccepted, InlineBytes, Aux, Flags, ValueLength;
    ReadFields(b, slotKeyLength);
    var e := ReadRecord(b, slotKeyLength).value;
    RecordSlices(b, LEAF_RECORD_HEADER + |e.key|);
  }

  method DecodeLeafRecord(b: bytes, slotKeyLength: nat) returns (r: Option<LeafEntry>)
    requires |b| >= LEAF_RECORD_HEADER
    ensures r == ReadRecord(b, slotKeyLength)
  {
    hide FromLe, Zeroes;
    var length, aux, keyLength := ReadU64(b[8..16]), ReadU64(b[16..24]), ReadU16(b[26..28]);
    var keyEnd := LEAF_RECORD_HEADER + keyLength;
    if length > MAX_VALUE_SIZE || b[25] != 0 || b[28..32] != Zeroes(4) || keyLength != slotKeyLength || keyEnd > |b| {
      return None;
    }
    var key, revision := b[LEAF_RECORD_HEADER..keyEnd], ReadU64(b[0..8]);
    var document := DecodeKey(key);
    if document.Bad? {
      return None;
    }
    match b[24] {
      case 0 =>
        if length != 0 || aux != NULL_PAGE_ID || |b| != keyEnd {
          return None;
        }
        return Some(LeafEntry(key, revision, None));
      case 1 =>
        if keyEnd + length != |b| || aux != 0 {
          return None;
        }
        return Some(LeafEntry(key, revision, Some(Inline(b[keyEnd..]))));
      case 2 =>
        if |b| != keyEnd || aux == NULL_PAGE_ID || length == 0 {
          return None;
        }
        return Some(LeafEntry(key, revision, Some(Overflow(aux, length))));
      case _ =>
        return None;
    }
  }

  // ---------------------------------------------------------------- pages

  ghost predicate AllWidths(entries: seq<LeafEntry>) {
    forall i :: 0 <= i < |entries| ==> Widths(entries[i])
  }

  ghost predicate AllKeysOk(entries: seq<LeafEntry>) {
    forall i :: 0 <= i < |entries| ==> KeyOk(entries[i].key)
  }

  ghost predicate AllAccepted(entries: seq<LeafEntry>) {
    forall i :: 0 <= i < |entries| ==> ValueAccepted(entries[i].value)
  }

  ghost predicate ShortKeys(entries: seq<LeafEntry>) {
    forall i :: 0 <= i < |entries| ==> |entries[i].key| <= U16_MAX
  }

  function ItemOf(e: LeafEntry): Item
    requires Widths(e) && |e.key| <= U16_MAX
  {
    Item(LeafRecord(e), |e.key|)
  }

  ghost function ItemsOf(entries: seq<LeafEntry>): (r: seq<Item>)
    requires AllWidths(entries) && ShortKeys(entries)
    ensures |r| == |entries|
  {
    seq(|entries|, i requires 0 <= i < |entries| => ItemOf(entries[i]))
  }

  /** The records take the room that the split arithmetic counts. */
  lemma {:induction false} RoomTaken(entries: seq<LeafEntry>, n: nat)
    requires AllWidths(entries) && ShortKeys(entries) && n <= |entries|
    ensures Below(ItemsOf(entries), n) + SLOT_SIZE * (|entries| - n) == Total(Sizes(entries[n..]))
    decreases |entries| - n
  {
    hide ItemOf;
    if n < |entries| {
      RoomTaken(entries, n + 1);
      RecordRoom(entries[n]);
      assert entries[n..][1..] == entries[n + 1..];
      assert Sizes(entries[n..])[1..] == Sizes(entries[n..][1..]);
    }
  }

  lemma RecordRoom(e: LeafEntry)
    requires Widths(e) && |e.key| <= U16_MAX
    ensures |ItemOf(e).data| + SLOT_SIZE == LeafRecordSize(e)
  {
  }

  lemma FitsIsFit(entries: seq<LeafEntry>)
    requires AllWidths(entries) && ShortKeys(entries)
    ensures LeafFits(entries) <==> Fit(ItemsOf(entries))
  {
    RoomTaken(entries, 0);
    assert entries[0..] == entries;
  }

  lemma {:induction false} FitsShort(entries: seq<LeafEntry>)
    requires LeafFits(entries)
    ensures ShortKeys(entries) && SlotEnd(|entries|) <= BODY_SIZE
  {
    SizesTotal(entries);
    forall i | 0 <= i < |entries| ensures |entries[i].key| <= U16_MAX {
      TotalAround(Sizes(entries), i);
    }
  }

  lemma {:induction false} SizesTotal(entries: seq<LeafEntry>)
    ensures Total(Sizes(entries)) >= SLOT_SIZE * |entries|
  {
    if entries != [] {
      SizesTotal(entries[1..]);
      assert Sizes(entries)[1..] == Sizes(entries[1..]);
    }
  }

  /** An entry that becomes a tombstone leaves room. */
  lemma TombstoneFits(entries: seq<LeafEntry>, i: nat, revision: nat)
    requires LeafFits(entries) && i < |entries|
    ensures LeafFits(entries[i := LeafEntry(entries[i].key, revision, None)])
  {
    var after := entries[i := LeafEntry(entries[i].key, revision, None)];
    TotalAround(Sizes(entries), i);
    TotalAround(Sizes(after), i);
    assert Sizes(after)[..i] == Sizes(entries)[..i] && Sizes(after)[i + 1..] == Sizes(entries)[i + 1..];
  }

  method EnsureSorted(entries: seq<LeafEntry>) returns (ok: bool)
    ensures ok <==> SortedEntries(entries)
  {
    for k := 0 to |entries|
      invariant SortedEntries(entries[..k])
    {
      if k > 0 && !Less(entries[k - 1].key, entries[k].key) {
        return false;
      }
      forall i | 0 <= i < k ensures Less(entries[i].key, entries[k].key) {
        if i < k - 1 {
          assert Less(entries[..k][i].key, entries[..k][k - 1].key);
        }
      }
      assert forall i :: 0 <= i < k ==> entries[..k + 1][i] == entries[..k][i];
    }
    assert entries[..|entries|] == entries;
    return true;
  }

  /** Succeeds exactly on sorted entries with canonical keys that fit one page. */
  method EncodeLeaf(next: Option<PageId>, entries: seq<LeafEntry>) returns (r: Result<bytes>)
    requires AllWidths(entries) && (next.Some? ==> next.value < U64_RANGE)
    ensures r.Ok? <==> SortedEntries(entries) && AllKeysOk(entries) && LeafFits(entries)
    ensures r.Ok? ==> ShortKeys(entries) && LaidOut(r.value, LEAF_MAGIC, EncodePageId(next), ItemsOf(entries))
    ensures r == Err(Corruption) <==> SlotEnd(|entries|) <= BODY_SIZE && !SortedEntries(entries)
    ensures r.Err? ==> r.error == Corruption || r.error == InvalidInput
  {
    hide LeafFits, LaidOut, Fit, KeyOk, Widths, LeafRecord;
    if LeafFits(entries) {
      FitsShort(entries);
    }
    if |entries| > U16_MAX || SlotEnd(|entries|) > BODY_SIZE {
      return Err(InvalidInput);
    }
    var sorted := EnsureSorted(entries);
    if !sorted {
      return Err(Corruption);
    }
    var items: seq<Item> := [];
    for i := 0 to |entries|
      invariant |items| == i && ShortKeys(entries[..i]) && AllKeysOk(entries[..i])
      invariant forall j :: 0 <= j < i ==> |entries[j].key| <= U16_MAX && items[j] == ItemOf(entries[j])
    {
      if |entries[i].key| > U16_MAX {
        return Err(InvalidInput);
      }
      var document := DecodeKey(entries[i].key);
      assert KeyOk(entries[i].key) <==> document.Good? by { KeyOkDecodes(entries[i].key); }
      if document.Bad? {
        return Err(InvalidInput);
      }
      items := items + [ItemOf(entries[i])];
    }
    assert entries[..|entries|] == entries;
    assert items == ItemsOf(entries);
    FitsIsFit(entries);
    var body := FillPage(LEAF_MAGIC, EncodePageId(next), items);
    if body.None? {
      return Err(InvalidInput);
    }
    return Ok(body.value);
  }

  lemma KeyOkDecodes(key: bytes)
    ensures KeyOk(key) <==> KeyCodec.Decode(key).Good?
  {
  }

  /** The records at the slots read as the entries. */
  ghost predicate RecordsRead(body: bytes, slots: seq<SlotRef>, entries: seq<LeafEntry>) {
    && |entries| == |slots|
    && (forall i :: 0 <= i < |slots| ==> slots[i].range.start + LEAF_RECORD_HEADER <= slots[i].range.end <= |body|)
    && (forall i :: 0 <= i < |slots| ==> ReadRecord(Slice(body, slots[i].range), slots[i].keyLength) == Some(entries[i]))
  }

  /** The body reads as this leaf. */
  ghost predicate LeafReads(body: bytes, next: Option<PageId>, entries: seq<LeafEntry>, slots: seq<SlotRef>) {
    && SlotsRead(body, LEAF_MAGIC, LEAF_RECORD_HEADER, slots) && RecordsRead(body, slots, entries)
    && next == DecodePageId(Link(body)) && SortedEntries(entries)
  }

  /** Reads exactly the bodies that hold a leaf. */
  method DecodeLeaf(body: bytes) returns (r: Option<(Option<PageId>, seq<LeafEntry>)>, ghost slots: seq<SlotRef>)
    ensures r.Some? ==> LeafReads(body, r.value.0, r.value.1, slots)
    ensures r.None? ==> forall next, entries, slots :: !LeafReads(body, next, entries, slots)
  {
    hide ReadRecord, SlotsRead;
    var found := ReadSlots(body, LEAF_MAGIC, LEAF_RECORD_HEADER);
    if found.None? {
      return None, [];
    }
    slots := found.value;
    var entries: seq<LeafEntry> := [];
    for i := 0 to |found.value|
      invariant |entries| == i
      invariant RecordsRead(body, slots[..i], entries)
    {
      SlotSlice(body, LEAF_MAGIC, LEAF_RECORD_HEADER, slots, i);
      var entry := DecodeLeafRecord(Slice(body, found.value[i].range), found.value[i].keyLength);
      if entry.None? {
        NoOther(body, slots, i);
        return None, slots;
      }
      entries := entries + [entry.value];
    }
    assert slots[..|slots|] == slots;
    OnlyThese(body, slots, entries);
    var sorted := EnsureSorted(entries);
    if !sorted {
      return None, slots;
    }
    HeaderThere(body, LEAF_MAGIC, LEAF_RECORD_HEADER, slots);
    return Some((DecodePageId(Link(body)), entries)), slots;
  }

  lemma NoOther(body: bytes, slots: seq<SlotRef>, i: nat)
    requires SlotsRead(body, LEAF_MAGIC, LEAF_RECORD_HEADER, slots) && i < |slots|
    requires slots[i].range.start + LEAF_RECORD_HEADER <= slots[i].range.end <= |body|
    requires ReadRecord(Slice(body, slots[i].range), slots[i].keyLength).None?
    ensures forall next, entries, other :: !LeafReads(body, next, entries, other)
  {
    hide ReadRecord, SlotsRead;
    forall next, entries, other ensures !LeafReads(body, next, entries, other) {
      if LeafReads(body, next, entries, other) {
        SlotsUnique(body, LEAF_MAGIC, LEAF_RECORD_HEADER, slots, other);
      }
    }
  }

  lemma OnlyThese(body: bytes, slots: seq<SlotRef>, found: seq<LeafEntry>)
    requires SlotsRead(body, LEAF_MAGIC, LEAF_RECORD_HEADER, slots) && RecordsRead(body, slots, found)
    ensures forall next, entries, other :: LeafReads(body, next, entries, other) ==> entries == found
  {
    hide ReadRecord, SlotsRead;
    forall next, entries, other | LeafReads(body, next, entries, other) ensures entries == found {
      SlotsUnique(body, LEAF_MAGIC, LEAF_RECORD_HEADER, slots, other);
      forall i | 0 <= i < |found| ensures found[i] == entries[i] {
        assert Some(found[i]) == Some(entries[i]);
      }
    }
  }

  // ---------------------------------------------------------------- the round trip

  lemma {:induction false} LaidRecord(body: bytes, link: u64, entries: seq<LeafEntry>, i: nat)
    requires AllWidths(entries) && ShortKeys(entries) && LaidOut(body, LEAF_MAGIC, link, ItemsOf(entries)) && i < |entries|
    ensures SlotFor(ItemsOf(entries), i).range.start <= SlotFor(ItemsOf(entries), i).range.end <= |body|
    ensures Slice(body, SlotFor(ItemsOf(entries), i).range) == LeafRecord(entries[i])
  {
    hide LeafRecord, LaidOut, Widths;
    FitOf(body, LEAF_MAGIC, link, ItemsOf(entries));
    SlotReadsBack(body, LEAF_MAGIC, link, ItemsOf(entries), i);
  }

  /** A leaf that was encoded reads back as itself if a reader accepts its
      values, and not at all otherwise. */
  lemma LeafRoundTrip(body: bytes, next: Option<PageId>, entries: seq<LeafEntry>)
    requires AllWidths(entries) && ShortKeys(entries) && AllKeysOk(entries) && SortedEntries(entries)
    requires next.Some? ==> next.value < NULL_PAGE_ID
    requires LaidOut(body, LEAF_MAGIC, EncodePageId(next), ItemsOf(entries))
    ensures AllAccepted(entries) ==> LeafReads(body, next, entries, SlotsFor(ItemsOf(entries)))
    ensures !AllAccepted(entries) ==> forall n, es, slots :: !LeafReads(body, n, es, slots)
  {
    hide ReadRecord, SlotsRead, LaidOut, KeyOk, LeafRecord, Widths, ValueAccepted, SlotFor;
    var items := ItemsOf(entries);
    var slots := SlotsFor(items);
    forall i | 0 <= i < |items| ensures |items[i].data| >= LEAF_RECORD_HEADER {
      RecordRoom(entries[i]);
    }
    LaidOutReads(body, LEAF_MAGIC, EncodePageId(next), items, LEAF_RECORD_HEADER);
    HeaderThere(body, LEAF_MAGIC, LEAF_RECORD_HEADER, slots);
    forall i | 0 <= i < |slots|
      ensures slots[i].range.start + LEAF_RECORD_HEADER <= slots[i].range.end <= |body|
      ensures ReadRecord(Slice(body, slots[i].range), slots[i].keyLength) == if ValueAccepted(entries[i].value) then Some(entries[i]) else None
    {
      SlotSlice(body, LEAF_MAGIC, LEAF_RECORD_HEADER, slots, i);
      LaidRecord(body, EncodePageId(next), entries, i);
      RecordReadsBack(entries[i]);
      SlotKeyLength(items, i);
    }
    if !AllAccepted(entries) {
      var i :| 0 <= i < |entries| && !ValueAccepted(entries[i].value);
      NoOther(body, slots, i);
    }
  }

  lemma SlotKeyLength(items: seq<Item>, i: nat)
    requires i < |items|
    ensures SlotFor(items, i).keyLength == items[i].keyLength
  {
  }

  /** Any body that reads as a leaf holds entries that are sorted, canonical and
      fit a page again. */
  lemma ReadLeafFits(body: bytes, next: Option<PageId>, entries: seq<LeafEntry>, slots: seq<SlotRef>)
    requires LeafReads(body, next, entries, slots)
    ensures AllWidths(entries) && ShortKeys(entries) && AllKeysOk(entries) && AllAccepted(entries) && SortedEntries(entries)
    ensures LeafFits(entries)
  {
    hide ReadRecord, KeyOk, LeafRecord, Widths, ValueAccepted, Zeroes, SortedEntries, Below, TotalLength, Less;
    forall i | 0 <= i < |entries|
      ensures Widths(entries[i]) && |entries[i].key| <= U16_MAX && KeyOk(entries[i].key) && ValueAccepted(entries[i].value)
      ensures |ItemOf(entries[i]).data| == slots[i].range.end - slots[i].range.start
    {
      SlotSlice(body, LEAF_MAGIC, LEAF_RECORD_HEADER, slots, i);
      ReadIsRecord(Slice(body, slots[i].range), slots[i].keyLength);
    }
    SameRoom(entries, slots, 0);
    var rs := RangesOf(slots);
    forall i | 0 <= i < |rs| ensures RecordsStart(body) <= rs[i].start < rs[i].end <= BODY_SIZE {
      assert Inside(slots[i], RecordsStart(body), LEAF_RECORD_HEADER);
    }
    DisjointRoom(rs, RecordsStart(body), BODY_SIZE);
    assert rs[0..] == rs;
    FitsIsFit(entries);
  }

  lemma {:induction false} SameRoom(entries: seq<LeafEntry>, slots: seq<SlotRef>, n: nat)
    requires AllWidths(entries) && ShortKeys(entries) && |entries| == |slots| && n <= |slots|
    requires forall i :: 0 <= i < |entries| ==> |ItemOf(entries[i]).data| == slots[i].range.end - slots[i].range.start
    ensures Below(ItemsOf(entries), n) == TotalLength(RangesOf(slots)[n..])
    decreases |slots| - n
  {
    hide ItemOf;
    if n < |slots| {
      SameRoom(entries, slots, n + 1);
      assert RangesOf(slots)[n..][1..] == RangesOf(slots)[n + 1..];
    }
  }
}
