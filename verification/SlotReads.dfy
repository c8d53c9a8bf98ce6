/** Reading the slots of a page body (btree/format.rs). */
module SlotReads {
  import opened Lex
  import opened Endian
  import opened Pages
  import opened Splits
  import opened Ranges
  import opened Slotted

  datatype SlotRef = SlotRef(range: Range, keyLength: u16)

  function Count(body: bytes): nat
    requires |body| == BODY_SIZE
  {
    ReadU16(body[6..8])
  }

  function RecordsStart(body: bytes): nat
    requires |body| == BODY_SIZE
  {
    ReadU16(body[10..12])
  }

  function Link(body: bytes): u64
    requires |body| == BODY_SIZE
  {
    ReadU64(body[12..20])
  }

  predicate HeaderReads(body: bytes, magic: bytes) {
    && |body| == BODY_SIZE && body[0..4] == magic && ReadU16(body[4..6]) == LAYOUT_VERSION
    && body[20..32] == Zeroes(12)
    && ReadU16(body[8..10]) == SlotEnd(Count(body)) && SlotEnd(Count(body)) <= RecordsStart(body) <= BODY_SIZE
  }

  function SlotAt(body: bytes, i: nat): SlotRef
    requires |body| == BODY_SIZE && SlotEnd(i + 1) <= BODY_SIZE
  {
    var offset := ReadU16(body[SlotEnd(i)..SlotEnd(i) + 2]);
    SlotRef(Range(offset, offset + ReadU16(body[SlotEnd(i) + 2..SlotEnd(i) + 4])), ReadU16(body[SlotEnd(i) + 4..SlotEnd(i) + 6]))
  }

  predicate Inside(slot: SlotRef, recordsStart: nat, minimum: nat) {
    recordsStart <= slot.range.start && slot.range.end <= BODY_SIZE && slot.range.end >= slot.range.start + minimum
  }

  function RangesOf(slots: seq<SlotRef>): (r: seq<Range>)
    ensures |r| == |slots|
  {
    seq(|slots|, i requires 0 <= i < |slots| => slots[i].range)
  }

  /** A body whose slots all point at room of their own. */
  ghost predicate SlotsRead(body: bytes, magic: bytes, minimum: nat, slots: seq<SlotRef>) {
    && HeaderReads(body, magic) && |slots| == Count(body)
    && (forall i :: 0 <= i < |slots| ==> slots[i] == SlotAt(body, i) && Inside(slots[i], RecordsStart(body), minimum))
    && Disjoint(RangesOf(slots))
  }

  lemma SlotsUnique(body: bytes, magic: bytes, minimum: nat, a: seq<SlotRef>, b: seq<SlotRef>)
    requires SlotsRead(body, magic, minimum, a) && SlotsRead(body, magic, minimum, b)
    ensures a == b
  {
  }

  function Slice(body: bytes, range: Range): bytes
    requires range.start <= range.end <= |body|
  {
    body[range.start..range.end]
  }

  lemma SlotSlice(body: bytes, magic: bytes, minimum: nat, slots: seq<SlotRef>, i: nat)
    requires SlotsRead(body, magic, minimum, slots) && i < |slots|
    ensures slots[i].range.start + minimum <= slots[i].range.end <= |body| == BODY_SIZE
  {
    assert Inside(slots[i], RecordsStart(body), minimum);
  }

  lemma HeaderThere(body: bytes, magic: bytes, minimum: nat, slots: seq<SlotRef>)
    requires SlotsRead(body, magic, minimum, slots)
    ensures |body| == BODY_SIZE
  {
  }

  /** Finds the slots of exactly the bodies that have them. */
  method ReadSlots(body: bytes, magic: bytes, minimum: nat) returns (r: Option<seq<SlotRef>>)
    requires minimum > 0
    ensures r.Some? ==> SlotsRead(body, magic, minimum, r.value)
    ensures r.None? ==> forall slots :: !SlotsRead(body, magic, minimum, slots)
  {
    hide Zeroes, Link;
    if !HeaderReads(body, magic) {
      return None;
    }
    var slots: seq<SlotRef> := [];
    for i := 0 to Count(body)
      invariant |slots| == i
      invariant forall j :: 0 <= j < i ==> slots[j] == SlotAt(body, j) && Inside(slots[j], RecordsStart(body), minimum)
    {
      var slot := SlotAt(body, i);
      if !Inside(slot, RecordsStart(body), minimum) {
        forall other ensures !SlotsRead(body, magic, minimum, other) {
          assert SlotsRead(body, magic, minimum, other) ==> other[i] == slot;
        }
        return None;
      }
      slots := slots + [slot];
    }
    forall i | 0 <= i < |slots| ensures RangesOf(slots)[i].start < RangesOf(slots)[i].end {
      assert Inside(slots[i], RecordsStart(body), minimum);
    }
    var ok := EnsureNonOverlapping(RangesOf(slots));
    if !ok {
      forall other ensures !SlotsRead(body, magic, minimum, other) {
        assert SlotsRead(body, magic, minimum, other) ==> other == slots;
      }
      return None;
    }
    return Some(slots);
  }

  // ---------------------------------------------------------------- a laid-out page reads back

  function SlotFor(items: seq<Item>, i: nat): SlotRef
    requires i < |items|
  {
    SlotRef(Range(Start(items, i), Start(items, i + 1)), items[i].keyLength)
  }

  function SlotsFor(items: seq<Item>): (r: seq<SlotRef>)
    ensures |r| == |items|
  {
    seq(|items|, i requires 0 <= i < |items| => SlotFor(items, i))
  }

  lemma SlotReadsBack(body: bytes, magic: bytes, link: u64, items: seq<Item>, i: nat)
    requires LaidOut(body, magic, link, items) && i < |items|
    ensures SlotAt(body, i) == SlotFor(items, i)
    ensures SlotFor(items, i).range.end == SlotFor(items, i).range.start + |items[i].data|
    ensures body[SlotFor(items, i).range.start..SlotFor(items, i).range.end] == items[i].data
  {
    StartInside(items, i);
    StartNext(items, i);
    assert SlotLaid(body, items, i) && RecordLaid(body, items, i);
  }

  lemma HeaderReadsBack(body: bytes, magic: bytes, link: u64, items: seq<Item>)
    requires LaidOut(body, magic, link, items)
    ensures HeaderReads(body, magic) && Count(body) == |items| && RecordsStart(body) == Start(items, 0) && Link(body) == link
  {
    hide SlotLaid, RecordLaid, Zeroes;
    StartInside(items, 0);
  }

  lemma SlotsApart(items: seq<Item>)
    ensures Disjoint(RangesOf(SlotsFor(items)))
  {
    hide Start;
    forall i, j | 0 <= i < j < |items| ensures Apart(RangesOf(SlotsFor(items))[i], RangesOf(SlotsFor(items))[j]) {
      StartsAscend(items, i + 1, j);
    }
  }

  /** The slots of a laid-out page point at its records, which lie apart from
      each other and beyond the slots. */
  lemma LaidOutReads(body: bytes, magic: bytes, link: u64, items: seq<Item>, minimum: nat)
    requires LaidOut(body, magic, link, items) && forall i :: 0 <= i < |items| ==> |items[i].data| >= minimum
    ensures SlotsRead(body, magic, minimum, SlotsFor(items)) && Link(body) == link
  {
    hide Start, LaidOut, HeaderReads, SlotAt;
    HeaderReadsBack(body, magic, link, items);
    FitOf(body, magic, link, items);
    SlotsApart(items);
    forall i | 0 <= i < |items| ensures SlotFor(items, i) == SlotAt(body, i) && Inside(SlotFor(items, i), Start(items, 0), minimum) {
      SlotReadsBack(body, magic, link, items, i);
      StartInside(items, i);
    }
  }

  lemma FitOf(body: bytes, magic: bytes, link: u64, items: seq<Item>)
    requires LaidOut(body, magic, link, items)
    ensures Fit(items) && |body| == BODY_SIZE
  {
  }
}
