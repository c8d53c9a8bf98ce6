/** Slotted pages: a header, slots growing up, records growing down
    (btree/format.rs). */
module Slotted {
  import opened Lex
  import opened Endian
  import opened Pages
  import opened Splits

  const LAYOUT_VERSION: u16 := 1

  /** An encoded record, and the key length its slot repeats. */
  datatype Item = Item(data: bytes, keyLength: u16)

  function Zeroes(n: nat): (r: bytes)
    ensures |r| == n
  {
    seq(n, i => 0)
  }

  /** Bytes taken by the records from i on. */
  function Below(items: seq<Item>, i: nat): nat
    requires i <= |items|
    decreases |items| - i
  {
    if i == |items| then 0 else |items[i].data| + Below(items, i + 1)
  }

  function SlotEnd(n: nat): nat {
    PAGE_LAYOUT_HEADER + n * SLOT_SIZE
  }

  predicate Fit(items: seq<Item>) {
    SlotEnd(|items|) + Below(items, 0) <= BODY_SIZE
  }

  lemma {:induction false} BelowShrinks(items: seq<Item>, i: nat, j: nat)
    requires i <= j <= |items|
    ensures Below(items, j) <= Below(items, i)
    ensures i < j ==> Below(items, j) + |items[i].data| <= Below(items, i)
    decreases j - i
  {
    if i < j {
      BelowShrinks(items, i + 1, j);
    }
  }

  /** Where record i begins. */
  function Start(items: seq<Item>, i: nat): (r: nat)
    requires i <= |items|
    ensures r <= BODY_SIZE
  {
    if Below(items, i) <= BODY_SIZE then BODY_SIZE - Below(items, i) else 0
  }

  lemma StartNext(items: seq<Item>, i: nat)
    requires i < |items|
    ensures Start(items, i) <= Start(items, i + 1)
    ensures Below(items, i) <= BODY_SIZE ==> Start(items, i + 1) == Start(items, i) + |items[i].data|
  {
  }

  lemma StartInside(items: seq<Item>, i: nat)
    requires i <= |items| && Fit(items)
    ensures SlotEnd(|items|) <= Start(items, 0) <= Start(items, i) && Below(items, i) <= BODY_SIZE
  {
    BelowShrinks(items, 0, i);
  }

  // ---------------------------------------------------------------- the layout

  ghost predicate HeaderLaid(body: bytes, magic: bytes, link: u64, items: seq<Item>)
    requires |body| == BODY_SIZE && Fit(items)
  {
    && body[0..4] == magic && body[4..6] == U16(LAYOUT_VERSION) && body[6..8] == U16(|items|) && body[8..10] == U16(SlotEnd(|items|))
    && body[10..12] == U16(Start(items, 0)) && body[12..20] == U64(link) && body[20..32] == Zeroes(12)
  }

  ghost predicate SlotLaid(body: bytes, items: seq<Item>, i: nat)
    requires |body| == BODY_SIZE && Fit(items) && i < |items|
  {
    StartInside(items, i);
    && body[SlotEnd(i)..SlotEnd(i) + 2] == U16(Start(items, i))
    && body[SlotEnd(i) + 2..SlotEnd(i) + 4] == U16(|items[i].data|)
    && body[SlotEnd(i) + 4..SlotEnd(i) + 6] == U16(items[i].keyLength)
    && body[SlotEnd(i) + 6..SlotEnd(i) + 8] == Zeroes(2)
  }

  ghost predicate RecordLaid(body: bytes, items: seq<Item>, i: nat)
    requires |body| == BODY_SIZE && i < |items|
  {
    body[Start(items, i)..Start(items, i + 1)] == items[i].data
  }

  ghost predicate ZeroIn(body: bytes, a: nat, b: nat) {
    forall k :: a <= k < b && k < |body| ==> body[k] == 0
  }

  /** The page body, byte by byte. */
  ghost predicate LaidOut(body: bytes, magic: bytes, link: u64, items: seq<Item>) {
    && |body| == BODY_SIZE && Fit(items)
    && HeaderLaid(body, magic, link, items)
    && (forall i :: 0 <= i < |items| ==> SlotLaid(body, items, i))
    && (forall i :: 0 <= i < |items| ==> RecordLaid(body, items, i))
    && ZeroIn(body, SlotEnd(|items|), Start(items, 0))
  }

  // ---------------------------------------------------------------- patching a buffer

  function Patched(s: bytes, at: nat, p: bytes): (r: bytes)
    requires at + |p| <= |s|
    ensures |r| == |s|
  {
    s[..at] + p + s[at + |p|..]
  }

  lemma PatchedAt(s: bytes, at: nat, p: bytes)
    requires at + |p| <= |s|
    ensures Patched(s, at, p)[at..at + |p|] == p
  {
  }

  lemma PatchedElsewhere(s: bytes, at: nat, p: bytes, a: nat, b: nat)
    requires at + |p| <= |s| && a <= b <= |s| && (b <= at || at + |p| <= a)
    ensures Patched(s, at, p)[a..b] == s[a..b]
  {
    forall k | 0 <= k < b - a ensures Patched(s, at, p)[a..b][k] == s[a..b][k] {
    }
  }

  method CopyInto(body: array<byte>, at: nat, p: bytes)
    requires at + |p| <= body.Length
    modifies body
    ensures body[..] == Patched(old(body[..]), at, p)
  {
    ghost var s := body[..];
    for k := 0 to |p|
      invariant body[..] == s[..at] + p[..k] + s[at + k..]
    {
      body[at + k] := p[k];
      assert p[..k + 1] == p[..k] + [p[k]];
    }
    assert p[..|p|] == p;
  }

  // ---------------------------------------------------------------- filling a page

  lemma RecordKept(s: bytes, at: nat, p: bytes, items: seq<Item>, i: nat)
    requires |s| == BODY_SIZE && at + |p| <= BODY_SIZE && i < |items| && RecordLaid(s, items, i) && at + |p| <= Start(items, i)
    ensures RecordLaid(Patched(s, at, p), items, i)
  {
    PatchedElsewhere(s, at, p, Start(items, i), Start(items, i + 1));
  }

  lemma {:induction false} StartsAscend(items: seq<Item>, i: nat, j: nat)
    requires i <= j <= |items|
    ensures Start(items, i) <= Start(items, j)
    decreases j - i
  {
    if i < j {
      StartsAscend(items, i + 1, j);
    }
  }

  /** The records, from the last one down; fails when they reach the slots. */
  method PlaceRecords(body: array<byte>, items: seq<Item>) returns (upper: Option<nat>)
    requires body.Length == BODY_SIZE && SlotEnd(|items|) <= BODY_SIZE
    modifies body
    ensures upper.Some? <==> Fit(items)
    ensures upper.Some? ==> upper.value == Start(items, 0) && body[..upper.value] == old(body[..upper.value])
    ensures upper.Some? ==> forall i :: 0 <= i < |items| ==> RecordLaid(body[..], items, i)
  {
    var low := BODY_SIZE;
    for i := |items| downto 0
      invariant low == BODY_SIZE - Below(items, i) >= SlotEnd(|items|)
      invariant forall j :: i <= j < |items| ==> RecordLaid(body[..], items, j)
      invariant body[..low] == old(body[..low])
    {
      var data := items[i].data;
      BelowShrinks(items, 0, i);
      if low < |data| || low - |data| < SlotEnd(|items|) {
        return None;
      }
      low := low - |data|;
      ghost var s := body[..];
      forall j | i < j < |items| ensures RecordLaid(Patched(s, low, data), items, j) {
        StartsAscend(items, i + 1, j);
        RecordKept(s, low, data, items, j);
      }
      PatchedAt(s, low, data);
      CopyInto(body, low, data);
      assert body[..low] == s[..low];
    }
    return Some(low);
  }

  lemma PatchTwice(s: bytes, at: nat, p: bytes, q: bytes)
    requires at + |p| + |q| <= |s|
    ensures Patched(Patched(s, at, p), at + |p|, q) == Patched(s, at, p + q)
  {
    assert Patched(s, at, p)[..at + |p|] == s[..at] + p;
    assert Patched(s, at, p)[at + |p| + |q|..] == s[at + |p| + |q|..];
  }

  /** Offset, length and key length of one record. */
  method PlaceSlot(body: array<byte>, at: nat, offset: u16, length: u16, keyLength: u16)
    requires at + 6 <= body.Length
    modifies body
    ensures body[..] == Patched(old(body[..]), at, U16(offset) + U16(length) + U16(keyLength))
  {
    hide Patched;
    ghost var s := body[..];
    CopyInto(body, at, U16(offset));
    CopyInto(body, at + 2, U16(length));
    CopyInto(body, at + 4, U16(keyLength));
    PatchTwice(s, at, U16(offset), U16(length));
    PatchTwice(s, at, U16(offset) + U16(length), U16(keyLength));
  }

  function SlotBytes(items: seq<Item>, k: nat): bytes
    requires Fit(items) && k < |items|
  {
    StartInside(items, k);
    U16(Start(items, k)) + U16(|items[k].data|) + U16(items[k].keyLength)
  }

  lemma SlotPlaced(s: bytes, items: seq<Item>, k: nat)
    requires |s| == BODY_SIZE && Fit(items) && k < |items| && ZeroIn(s, SlotEnd(k), SlotEnd(|items|))
    ensures |SlotBytes(items, k)| == 6 && SlotLaid(Patched(s, SlotEnd(k), SlotBytes(items, k)), items, k)
  {
    hide U16, Start;
    StartInside(items, k);
    var a, b, c := U16(Start(items, k)), U16(|items[k].data|), U16(items[k].keyLength);
    var t, at := Patched(s, SlotEnd(k), a + b + c), SlotEnd(k);
    assert t[at..at + 2] == a && t[at + 2..at + 4] == b && t[at + 4..at + 6] == c;
    assert t[at + 6..at + 8] == s[at + 6..at + 8];
  }

  lemma SlotKept(s: bytes, at: nat, p: bytes, items: seq<Item>, i: nat)
    requires |s| == BODY_SIZE && at + |p| <= BODY_SIZE && Fit(items) && i < |items|
    requires SlotLaid(s, items, i) && SlotEnd(i + 1) <= at
    ensures SlotLaid(Patched(s, at, p), items, i)
  {
    PatchedElsewhere(s, at, p, SlotEnd(i), SlotEnd(i) + 2);
    PatchedElsewhere(s, at, p, SlotEnd(i) + 2, SlotEnd(i) + 4);
    PatchedElsewhere(s, at, p, SlotEnd(i) + 4, SlotEnd(i) + 6);
    PatchedElsewhere(s, at, p, SlotEnd(i) + 6, SlotEnd(i) + 8);
  }

  /** From s to t, the first k slots were written and nothing else. */
  ghost predicate SlotsDone(s: bytes, t: bytes, items: seq<Item>, k: nat)
    requires |s| == |t| == BODY_SIZE && Fit(items) && k <= |items|
  {
    && (forall i :: 0 <= i < k ==> SlotLaid(t, items, i))
    && t[..PAGE_LAYOUT_HEADER] == s[..PAGE_LAYOUT_HEADER] && t[SlotEnd(k)..] == s[SlotEnd(k)..]
  }

  lemma SlotsStep(s: bytes, t: bytes, items: seq<Item>, k: nat)
    requires |s| == |t| == BODY_SIZE && Fit(items) && k < |items| && SlotsDone(s, t, items, k)
    requires ZeroIn(s, PAGE_LAYOUT_HEADER, SlotEnd(|items|))
    ensures |SlotBytes(items, k)| == 6 && SlotsDone(s, Patched(t, SlotEnd(k), SlotBytes(items, k)), items, k + 1)
  {
    hide SlotLaid, Start, U16;
    StartInside(items, k);
    KeptZero(s, t, SlotEnd(k), SlotEnd(|items|));
    SlotPlaced(t, items, k);
    var p := SlotBytes(items, k);
    var t' := Patched(t, SlotEnd(k), p);
    forall i | 0 <= i < k ensures SlotLaid(t', items, i) {
      SlotKept(t, SlotEnd(k), p, items, i);
    }
    assert t'[..PAGE_LAYOUT_HEADER] == t[..PAGE_LAYOUT_HEADER];
    assert t'[SlotEnd(k + 1)..] == t[SlotEnd(k)..][SLOT_SIZE..] && s[SlotEnd(k)..][SLOT_SIZE..] == s[SlotEnd(k + 1)..];
  }

  method PlaceSlots(body: array<byte>, items: seq<Item>, upper: nat)
    requires body.Length == BODY_SIZE && Fit(items) && upper == Start(items, 0) && ZeroIn(body[..], PAGE_LAYOUT_HEADER, SlotEnd(|items|))
    modifies body
    ensures SlotsDone(old(body[..]), body[..], items, |items|)
  {
    hide SlotsDone, Start, U16, Patched, ZeroIn;
    ghost var s := body[..];
    SlotsBegin(s, items);
    var at := upper;
    for k := 0 to |items|
      invariant at == Start(items, k) && SlotsDone(s, body[..], items, k)
    {
      StartInside(items, k);
      StartNext(items, k);
      SlotsStep(s, body[..], items, k);
      PlaceSlot(body, SlotEnd(k), at, |items[k].data|, items[k].keyLength);
      at := at + |items[k].data|;
    }
  }

  lemma SlotsBegin(s: bytes, items: seq<Item>)
    requires |s| == BODY_SIZE && Fit(items)
    ensures SlotsDone(s, s, items, 0)
  {
  }

  lemma KeptZero(s: bytes, t: bytes, a: nat, b: nat)
    requires |s| == |t| && a <= b <= |s| && s[a..] == t[a..] && ZeroIn(s, a, b)
    ensures ZeroIn(t, a, b)
  {
    forall k | a <= k < b ensures t[k] == 0 {
      assert t[k] == t[a..][k - a] == s[a..][k - a] == s[k];
    }
  }

  // ---------------------------------------------------------------- the whole page

  method PlaceHeader(body: array<byte>, magic: bytes, link: u64, count: u16, slotEnd: u16)
    requires body.Length == BODY_SIZE && |magic| == 4
    modifies body
    ensures body[..] == Patched(Patched(old(body[..]), 0, magic + U16(LAYOUT_VERSION) + U16(count) + U16(slotEnd)), 12, U64(link))
  {
    hide Patched, U16, U64;
    ghost var s := body[..];
    CopyInto(body, 0, magic);
    CopyInto(body, 4, U16(LAYOUT_VERSION));
    CopyInto(body, 6, U16(count));
    CopyInto(body, 8, U16(slotEnd));
    PatchTwice(s, 0, magic, U16(LAYOUT_VERSION));
    PatchTwice(s, 0, magic + U16(LAYOUT_VERSION), U16(count));
    PatchTwice(s, 0, magic + U16(LAYOUT_VERSION) + U16(count), U16(slotEnd));
    CopyInto(body, 12, U64(link));
  }

  /** The header before its records field is written. */
  ghost predicate HeaderBegun(s: bytes, magic: bytes, link: u64, count: u16, slotEnd: u16)
    requires |s| == BODY_SIZE
  {
    && s[0..4] == magic && s[4..6] == U16(LAYOUT_VERSION) && s[6..8] == U16(count) && s[8..10] == U16(slotEnd)
    && s[12..20] == U64(link) && s[20..32] == Zeroes(12) && ZeroIn(s, PAGE_LAYOUT_HEADER, BODY_SIZE)
  }

  lemma HeaderPlaced(s: bytes, magic: bytes, link: u64, count: u16, slotEnd: u16)
    requires |s| == BODY_SIZE && |magic| == 4 && ZeroIn(s, 0, BODY_SIZE)
    ensures HeaderBegun(Patched(Patched(s, 0, magic + U16(LAYOUT_VERSION) + U16(count) + U16(slotEnd)), 12, U64(link)), magic, link, count, slotEnd)
  {
    hide U16, U64;
    var p := magic + U16(LAYOUT_VERSION) + U16(count) + U16(slotEnd);
    var a := Patched(s, 0, p);
    var t := Patched(a, 12, U64(link));
    assert p[0..4] == magic && p[4..6] == U16(LAYOUT_VERSION) && p[6..8] == U16(count) && p[8..10] == U16(slotEnd);
    assert t[..10] == a[..10] == p;
    assert t[0..4] == t[..10][0..4] && t[4..6] == t[..10][4..6] && t[6..8] == t[..10][6..8] && t[8..10] == t[..10][8..10];
    assert t[12..20] == U64(link);
    forall k | 20 <= k < BODY_SIZE ensures t[k] == 0 {
      assert t[k] == a[k] == s[k];
    }
    assert t[20..32] == Zeroes(12);
  }

  lemma RecordDone(t: bytes, v: bytes, p: bytes, items: seq<Item>, i: nat)
    requires |t| == |v| == BODY_SIZE && |p| == 2 && Fit(items) && i < |items| && RecordLaid(t, items, i)
    requires v[SlotEnd(|items|)..] == Patched(t, 10, p)[SlotEnd(|items|)..]
    ensures RecordLaid(v, items, i)
  {
    hide Start;
    StartInside(items, i);
    StartNext(items, i);
    SuffixSlice(Patched(t, 10, p), v, SlotEnd(|items|), Start(items, i), Start(items, i + 1));
    PatchedElsewhere(t, 10, p, Start(items, i), Start(items, i + 1));
  }

  lemma GapDone(s: bytes, t: bytes, v: bytes, p: bytes, from: nat, upper: nat)
    requires |s| == |t| == |v| == BODY_SIZE && |p| == 2 && 12 <= from <= upper <= BODY_SIZE && ZeroIn(s, from, BODY_SIZE)
    requires v[from..] == Patched(t, 10, p)[from..] && t[..upper] == s[..upper]
    ensures ZeroIn(v, from, upper)
  {
    forall k | from <= k < upper ensures v[k] == 0 {
      assert v[k] == v[from..][k - from] == Patched(t, 10, p)[from..][k - from] == Patched(t, 10, p)[k] == t[k];
      assert t[k] == t[..upper][k] == s[..upper][k] == s[k];
    }
  }

  /** From the finished parts to the finished page: t has header and records, v
      also the records field and the slots. */
  lemma PageDone(s: bytes, t: bytes, v: bytes, magic: bytes, link: u64, items: seq<Item>)
    requires |s| == |t| == |v| == BODY_SIZE && Fit(items) && |items| < 0x1_0000 && HeaderBegun(s, magic, link, |items|, SlotEnd(|items|))
    requires t[..Start(items, 0)] == s[..Start(items, 0)] && forall i :: 0 <= i < |items| ==> RecordLaid(t, items, i)
    requires SlotsDone(Patched(t, 10, U16(Start(items, 0))), v, items, |items|)
    ensures LaidOut(v, magic, link, items)
  {
    hide Start, U16, U64, SlotLaid, RecordLaid, Patched, HeaderLaid;
    StartInside(items, 0);
    forall i | 0 <= i < |items| ensures RecordLaid(v, items, i) {
      RecordDone(t, v, U16(Start(items, 0)), items, i);
    }
    HeaderDone(s, t, v, magic, link, items);
    GapDone(s, t, v, U16(Start(items, 0)), SlotEnd(|items|), Start(items, 0));
  }

  lemma SuffixSlice(u: bytes, v: bytes, from: nat, a: nat, b: nat)
    requires |u| == |v| && from <= a <= b <= |u| && u[from..] == v[from..]
    ensures u[a..b] == v[a..b]
  {
    forall k | a <= k < b ensures u[k] == v[k] {
      assert u[k] == u[from..][k - from] && v[k] == v[from..][k - from];
    }
  }

  lemma HeaderDone(s: bytes, t: bytes, v: bytes, magic: bytes, link: u64, items: seq<Item>)
    requires |s| == |t| == |v| == BODY_SIZE && Fit(items) && |items| < 0x1_0000 && HeaderBegun(s, magic, link, |items|, SlotEnd(|items|))
    requires t[..Start(items, 0)] == s[..Start(items, 0)]
    requires SlotsDone(Patched(t, 10, U16(Start(items, 0))), v, items, |items|)
    ensures HeaderLaid(v, magic, link, items)
  {
    hide Start, U16, U64, SlotLaid;
    StartInside(items, 0);
    var p := U16(Start(items, 0));
    var u := Patched(t, 10, p);
    PatchedAt(t, 10, p);
    PrefixSlice(u, v, PAGE_LAYOUT_HEADER, 10, 12);
    HeaderField(s, t, v, p, Start(items, 0), 0, 4);
    HeaderField(s, t, v, p, Start(items, 0), 4, 6);
    HeaderField(s, t, v, p, Start(items, 0), 6, 8);
    HeaderField(s, t, v, p, Start(items, 0), 8, 10);
    HeaderField(s, t, v, p, Start(items, 0), 12, 20);
    HeaderField(s, t, v, p, Start(items, 0), 20, 32);
  }

  lemma PrefixSlice(u: bytes, v: bytes, upto: nat, a: nat, b: nat)
    requires |u| == |v| && a <= b <= upto <= |u| && u[..upto] == v[..upto]
    ensures u[a..b] == v[a..b]
  {
    assert u[a..b] == u[..upto][a..b] && v[a..b] == v[..upto][a..b];
  }

  lemma HeaderField(s: bytes, t: bytes, v: bytes, p: bytes, upper: nat, a: nat, b: nat)
    requires |s| == |t| == |v| == BODY_SIZE && |p| == 2 && PAGE_LAYOUT_HEADER <= upper <= BODY_SIZE && t[..upper] == s[..upper]
    requires v[..PAGE_LAYOUT_HEADER] == Patched(t, 10, p)[..PAGE_LAYOUT_HEADER]
    requires a <= b <= PAGE_LAYOUT_HEADER && (b <= 10 || 12 <= a)
    ensures v[a..b] == s[a..b]
  {
    PrefixSlice(Patched(t, 10, p), v, PAGE_LAYOUT_HEADER, a, b);
    PatchedElsewhere(t, 10, p, a, b);
    PrefixSlice(t, s, upper, a, b);
  }

  /** The page body for the records, or nothing when they do not fit. */
  method FillPage(magic: bytes, link: u64, items: seq<Item>) returns (r: Option<bytes>)
    requires |magic| == 4
    ensures r.Some? <==> Fit(items)
    ensures r.Some? ==> LaidOut(r.value, magic, link, items)
  {
    hide Start, U16, U64, Patched, SlotsDone, RecordLaid, LaidOut;
    if |items| > 0xFFFF || SlotEnd(|items|) > BODY_SIZE {
      return None;
    }
    var body := new byte[BODY_SIZE](i => 0);
    HeaderPlaced(body[..], magic, link, |items|, SlotEnd(|items|));
    PlaceHeader(body, magic, link, |items|, SlotEnd(|items|));
    ghost var s := body[..];
    var upper := PlaceRecords(body, items);
    if upper.None? {
      return None;
    }
    ghost var t := body[..];
    StartInside(items, 0);
    CopyInto(body, 10, U16(upper.value));
    SlotAreaClear(s, t, magic, link, items);
    PlaceSlots(body, items, upper.value);
    PageDone(s, t, body[..], magic, link, items);
    return Some(body[..]);
  }

  lemma SlotAreaClear(s: bytes, t: bytes, magic: bytes, link: u64, items: seq<Item>)
    requires |s| == |t| == BODY_SIZE && Fit(items) && |items| < 0x1_0000 && HeaderBegun(s, magic, link, |items|, SlotEnd(|items|))
    requires t[..Start(items, 0)] == s[..Start(items, 0)]
    ensures Start(items, 0) < 0x1_0000 && ZeroIn(Patched(t, 10, U16(Start(items, 0))), PAGE_LAYOUT_HEADER, SlotEnd(|items|))
  {
    hide Start, U16, U64;
    StartInside(items, 0);
    var upper := Start(items, 0);
    forall k | PAGE_LAYOUT_HEADER <= k < SlotEnd(|items|) ensures Patched(t, 10, U16(upper))[k] == 0 {
      assert t[k] == t[..upper][k] == s[..upper][k];
    }
  }
}
