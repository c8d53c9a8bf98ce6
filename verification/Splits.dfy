/** Page capacity and the choice of split points (btree/format.rs,
    btree/mod.rs). */
module Splits {
  import opened Lex
  import opened Seqs
  import opened Pages

  const PAGE_LAYOUT_HEADER: nat := 32
  const SLOT_SIZE: nat := 8
  const LEAF_RECORD_HEADER: nat := 32
  const INTERNAL_RECORD_HEADER: nat := 12
  const RECORD_SPACE: nat := 4032

  function InlineLength(v: Option<ValueRef>): nat {
    if v.Some? && v.value.Inline? then |v.value.content| else 0
  }

  /** Bytes a record takes in its page, slot included. */
  function LeafRecordSize(e: LeafEntry): nat {
    SLOT_SIZE + LEAF_RECORD_HEADER + |e.key| + InlineLength(e.value)
  }

  function InternalRecordSize(e: InternalEntry): nat {
    SLOT_SIZE + INTERNAL_RECORD_HEADER + |e.key|
  }

  function Sizes(es: seq<LeafEntry>): seq<nat> {
    seq(|es|, i requires 0 <= i < |es| => LeafRecordSize(es[i]))
  }

  function SepSizes(es: seq<InternalEntry>): seq<nat> {
    seq(|es|, i requires 0 <= i < |es| => InternalRecordSize(es[i]))
  }

  function Total(sizes: seq<nat>): nat {
    if sizes == [] then 0 else sizes[0] + Total(sizes[1..])
  }

  predicate LeafFits(es: seq<LeafEntry>) {
    PAGE_LAYOUT_HEADER + Total(Sizes(es)) <= BODY_SIZE
  }

  predicate InternalFits(es: seq<InternalEntry>) {
    PAGE_LAYOUT_HEADER + Total(SepSizes(es)) <= BODY_SIZE
  }

  lemma {:induction false} TotalAppend(a: seq<nat>, b: seq<nat>)
    ensures Total(a + b) == Total(a) + Total(b)
  {
    if a == [] {
      assert a + b == b;
    } else {
      assert (a + b)[1..] == a[1..] + b;
      TotalAppend(a[1..], b);
    }
  }

  lemma TotalCut(s: seq<nat>, i: nat)
    requires i <= |s|
    ensures Total(s) == Total(s[..i]) + Total(s[i..])
  {
    assert s == s[..i] + s[i..];
    TotalAppend(s[..i], s[i..]);
  }

  lemma TotalAround(s: seq<nat>, i: nat)
    requires i < |s|
    ensures Total(s) == Total(s[..i]) + s[i] + Total(s[i + 1..])
  {
    TotalCut(s, i);
    assert s[i..][1..] == s[i + 1..];
  }

  // ---------------------------------------------------------------- candidates

  function Distance(c: nat, middle: nat): nat {
    if c < middle then middle - c else c - middle
  }

  /** Candidate a comes before candidate b: nearer the middle, or equally near
      and smaller. */
  predicate Before(a: nat, b: nat, middle: nat) {
    Distance(a, middle) < Distance(b, middle) || (Distance(a, middle) == Distance(b, middle) && a < b)
  }

  /** The positions 1 .. length - 1, stably sorted by distance from the middle. */
  method SplitCandidates(length: nat) returns (candidates: seq<nat>)
    ensures forall c: nat :: c in candidates <==> 1 <= c < length
    ensures forall i, j :: 0 <= i < j < |candidates| ==> Before(candidates[i], candidates[j], length / 2)
  {
    candidates := [];
    var middle := length / 2;
    var c := 1;
    while c < length
      invariant 1 <= c && (length > 0 ==> c <= length)
      invariant forall x: nat :: x in candidates <==> 1 <= x < c && x < length
      invariant forall i, j :: 0 <= i < j < |candidates| ==> Before(candidates[i], candidates[j], middle)
    {
      var i := |candidates|;
      while i > 0 && Distance(c, middle) < Distance(candidates[i - 1], middle)
        invariant 0 <= i <= |candidates|
        invariant forall j :: i <= j < |candidates| ==> Before(c, candidates[j], middle)
      {
        i := i - 1;
      }
      assert forall j :: 0 <= j < i ==> candidates[j] in candidates;
      assert forall j :: 0 <= j < i ==> Before(candidates[j], c, middle);
      ghost var was := candidates;
      candidates := candidates[..i] + [c] + candidates[i..];
      assert forall x: nat :: x in candidates <==> x in was || x == c;
      c := c + 1;
    }
  }

  // ---------------------------------------------------------------- choosing

  predicate LeafSplitFits(es: seq<LeafEntry>, c: nat) {
    1 <= c < |es| && LeafFits(es[..c]) && LeafFits(es[c..])
  }

  predicate InternalSplitFits(es: seq<InternalEntry>, c: nat) {
    1 <= c < |es| && InternalFits(es[..c]) && InternalFits(es[c + 1..])
  }

  method ChooseLeafSplit(es: seq<LeafEntry>) returns (r: Option<nat>)
    ensures r.Some? ==> LeafSplitFits(es, r.value)
    ensures r.Some? ==> forall c: nat :: LeafSplitFits(es, c) && c != r.value ==> Before(r.value, c, |es| / 2)
    ensures r.None? ==> forall c: nat :: !LeafSplitFits(es, c)
  {
    var candidates := SplitCandidates(|es|);
    for i := 0 to |candidates|
      invariant forall j :: 0 <= j < i ==> !LeafSplitFits(es, candidates[j])
    {
      assert candidates[i] in candidates;
      var c := candidates[i];
      if LeafFits(es[..c]) && LeafFits(es[c..]) {
        forall d: nat | LeafSplitFits(es, d) && d != c ensures Before(c, d, |es| / 2) {
          assert d in candidates;
        }
        return Some(c);
      }
    }
    forall d: nat ensures !LeafSplitFits(es, d) {
      assert 1 <= d < |es| ==> d in candidates;
    }
    return None;
  }

  method ChooseInternalSplit(es: seq<InternalEntry>) returns (r: Option<nat>)
    ensures |es| < 3 ==> r.None?
    ensures r.Some? ==> InternalSplitFits(es, r.value)
    ensures r.Some? ==> forall c: nat :: InternalSplitFits(es, c) && c != r.value ==> Before(r.value, c, |es| / 2)
    ensures r.None? && |es| >= 3 ==> forall c: nat :: !InternalSplitFits(es, c)
  {
    if |es| < 3 {
      return None;
    }
    var candidates := SplitCandidates(|es|);
    for i := 0 to |candidates|
      invariant forall j :: 0 <= j < i ==> !InternalSplitFits(es, candidates[j])
    {
      assert candidates[i] in candidates;
      var c := candidates[i];
      if InternalFits(es[..c]) && InternalFits(es[c + 1..]) {
        forall d: nat | InternalSplitFits(es, d) && d != c ensures Before(c, d, |es| / 2) {
          assert d in candidates;
        }
        return Some(c);
      }
    }
    forall d: nat ensures !InternalSplitFits(es, d) {
      assert 1 <= d < |es| ==> d in candidates;
    }
    return None;
  }

  // ---------------------------------------------------------------- when a split exists

  lemma SizesSlice(es: seq<LeafEntry>, a: nat, b: nat)
    requires a <= b <= |es|
    ensures Sizes(es[a..b]) == Sizes(es)[a..b]
  {
  }

  lemma SepSizesSlice(es: seq<InternalEntry>, a: nat, b: nat)
    requires a <= b <= |es|
    ensures SepSizes(es[a..b]) == SepSizes(es)[a..b]
  {
  }

  /** The split at c, in terms of record sizes. */
  lemma LeafSplitSizes(es: seq<LeafEntry>, c: nat)
    requires c <= |es|
    ensures LeafFits(es[..c]) <==> Total(Sizes(es)[..c]) <= RECORD_SPACE
    ensures LeafFits(es[c..]) <==> Total(Sizes(es)[c..]) <= RECORD_SPACE
  {
    SizesSlice(es, 0, c);
    SizesSlice(es, c, |es|);
    assert es[0..c] == es[..c] && es[c..|es|] == es[c..];
    assert Sizes(es)[0..c] == Sizes(es)[..c] && Sizes(es)[c..|es|] == Sizes(es)[c..];
  }

  lemma TotalMonotone(s: seq<nat>, a: nat, b: nat)
    requires a <= b <= |s|
    ensures Total(s[..a]) <= Total(s[..b])
    ensures Total(s[b..]) <= Total(s[a..])
  {
    TotalCut(s[..b], a);
    assert s[..b][..a] == s[..a];
    TotalCut(s[a..], b - a);
    assert s[a..][b - a..] == s[b..];
  }

  /** A leaf that overflows because of the entry at position p, while the other
      entries still fit together, can be split exactly when that entry fits
      beside everything on one of its sides. */
  lemma LeafSplitExists(es: seq<LeafEntry>, p: nat)
    requires p < |es| && !LeafFits(es)
    requires Total(Sizes(es)[..p]) + Total(Sizes(es)[p + 1..]) <= RECORD_SPACE
    ensures (exists c: nat :: LeafSplitFits(es, c)) <==>
              (p + 1 < |es| && Total(Sizes(es)[..p + 1]) <= RECORD_SPACE)
              || (0 < p && Total(Sizes(es)[p..]) <= RECORD_SPACE)
  {
    var s := Sizes(es);
    assert s[..|s|] == s && es[..|es|] == es;
    LeafSplitSizes(es, |es|);
    LeafSplitSizes(es, p);
    LeafSplitSizes(es, p + 1);
    TotalAround(s, p);
    if 0 < p && Total(s[p..]) <= RECORD_SPACE {
      assert LeafSplitFits(es, p);
    }
    if p + 1 < |es| && Total(s[..p + 1]) <= RECORD_SPACE {
      assert LeafSplitFits(es, p + 1);
    }
    forall c: nat | LeafSplitFits(es, c)
      ensures (p + 1 < |es| && Total(s[..p + 1]) <= RECORD_SPACE) || (0 < p && Total(s[p..]) <= RECORD_SPACE)
    {
      LeafSplitSizes(es, c);
      if c <= p {
        TotalMonotone(s, c, p);
      } else {
        TotalMonotone(s, p + 1, c);
      }
    }
  }

  /** An entry of at most half a page always leaves a split. */
  lemma SmallEntrySplits(es: seq<LeafEntry>, p: nat)
    requires p < |es| && !LeafFits(es)
    requires Total(Sizes(es)[..p]) + Total(Sizes(es)[p + 1..]) <= RECORD_SPACE
    requires 2 * LeafRecordSize(es[p]) <= RECORD_SPACE
    ensures exists c: nat :: LeafSplitFits(es, c)
  {
    LeafSplitExists(es, p);
    var s := Sizes(es);
    LeafSplitSizes(es, |es|);
    assert es[..|es|] == es && s[..|s|] == s;
    TotalAround(s, p);
    TotalCut(s, p);
    TotalCut(s, p + 1);
    assert p == 0 ==> s[..p] == [];
    assert p + 1 == |es| ==> s[p + 1..] == [];
  }

  lemma InternalSplitSizes(es: seq<InternalEntry>, c: nat)
    requires c < |es|
    ensures InternalFits(es[..c]) <==> Total(SepSizes(es)[..c]) <= RECORD_SPACE
    ensures InternalFits(es[c + 1..]) <==> Total(SepSizes(es)[c + 1..]) <= RECORD_SPACE
  {
    SepSizesSlice(es, 0, c);
    SepSizesSlice(es, c + 1, |es|);
    assert es[0..c] == es[..c] && es[c + 1..|es|] == es[c + 1..];
    assert SepSizes(es)[0..c] == SepSizes(es)[..c] && SepSizes(es)[c + 1..|es|] == SepSizes(es)[c + 1..];
  }

  /** An internal page of three or more separators that fits without the
      separator at p can always be split, and the split nearest the middle
      leaves separators on both sides. */
  lemma InternalSplitExists(es: seq<InternalEntry>, p: nat)
    requires p < |es| && |es| >= 3
    requires forall i :: 0 <= i < |es| ==> |es[i].key| <= MAX_ENCODED_KEY_SIZE
    requires Total(SepSizes(es)[..p]) + Total(SepSizes(es)[p + 1..]) <= RECORD_SPACE
    ensures exists c: nat :: InternalSplitFits(es, c)
  {
    var s := SepSizes(es);
    if p == 0 {
      InternalSplitSizes(es, 1);
      assert s[..1] == [s[0]];
      TotalMonotone(s, 1, 2);
      assert InternalSplitFits(es, 1);
    } else {
      InternalSplitSizes(es, p);
      assert InternalSplitFits(es, p);
    }
  }

  lemma ChosenInternalSplitKeepsRight(es: seq<InternalEntry>, c: nat)
    requires |es| >= 3 && InternalSplitFits(es, c)
    requires forall i :: 0 <= i < |es| ==> |es[i].key| <= MAX_ENCODED_KEY_SIZE
    requires forall d: nat :: InternalSplitFits(es, d) && d != c ==> Before(c, d, |es| / 2)
    ensures 0 < c < |es| - 1
  {
    if c == |es| - 1 {
      LastSplitIsNotNearest(es);
    }
  }

  lemma LastSplitIsNotNearest(es: seq<InternalEntry>)
    requires |es| >= 3 && InternalSplitFits(es, |es| - 1)
    requires forall i :: 0 <= i < |es| ==> |es[i].key| <= MAX_ENCODED_KEY_SIZE
    ensures InternalSplitFits(es, |es| - 2)
    ensures Before(|es| - 2, |es| - 1, |es| / 2)
  {
    var s, d := SepSizes(es), |es| - 2;
    InternalSplitSizes(es, d + 1);
    InternalSplitSizes(es, d);
    TotalMonotone(s, d, d + 1);
    assert s[d + 1..] == [s[d + 1]];
  }
}
