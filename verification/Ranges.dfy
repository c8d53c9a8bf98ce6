/** Byte ranges of records inside a page: sorting them and comparing neighbours
    finds every overlap (btree/format.rs). */
module Ranges {

  datatype Range = Range(start: nat, end: nat)

  ghost predicate Apart(a: Range, b: Range) {
    a.end <= b.start || b.end <= a.start
  }

  ghost predicate Disjoint(rs: seq<Range>) {
    forall i, j :: 0 <= i < j < |rs| ==> Apart(rs[i], rs[j])
  }

  ghost predicate NonEmpty(rs: seq<Range>) {
    forall i :: 0 <= i < |rs| ==> rs[i].start < rs[i].end
  }

  predicate Before(a: Range, b: Range) {
    a.start < b.start || (a.start == b.start && a.end <= b.end)
  }

  ghost predicate InOrder(rs: seq<Range>) {
    forall i, j :: 0 <= i < j < |rs| ==> Before(rs[i], rs[j])
  }

  function Insert(rs: seq<Range>, x: Range): seq<Range> {
    if rs == [] || Before(x, rs[0]) then [x] + rs else [rs[0]] + Insert(rs[1..], x)
  }

  function Arranged(rs: seq<Range>): seq<Range> {
    if rs == [] then [] else Insert(Arranged(rs[1..]), rs[0])
  }

  function TotalLength(rs: seq<Range>): int {
    if rs == [] then 0 else rs[0].end - rs[0].start + TotalLength(rs[1..])
  }

  // ---------------------------------------------------------------- insertion

  /** Insertion puts x at one position and moves nothing else. */
  lemma {:induction false} InsertedAt(rs: seq<Range>, x: Range) returns (p: nat)
    ensures p <= |rs| && Insert(rs, x) == rs[..p] + [x] + rs[p..]
    ensures forall i :: 0 <= i < p ==> !Before(x, rs[i])
    ensures p < |rs| ==> Before(x, rs[p])
  {
    if rs == [] || Before(x, rs[0]) {
      p := 0;
    } else {
      var q := InsertedAt(rs[1..], x);
      p := q + 1;
      assert rs[..p] == [rs[0]] + rs[1..][..q] && rs[p..] == rs[1..][q..];
    }
  }

  lemma InsertInOrder(rs: seq<Range>, x: Range)
    requires InOrder(rs)
    ensures InOrder(Insert(rs, x))
  {
    var p := InsertedAt(rs, x);
    var r := Insert(rs, x);
    forall i, j | 0 <= i < j < |r| ensures Before(r[i], r[j]) {
      if p < |rs| && p < j && i == p {
        assert j == p + 1 || Before(rs[p], rs[j - 1]);
      }
    }
  }

  /** The elements other than x keep their mutual order. */
  lemma InsertDisjoint(rs: seq<Range>, x: Range)
    ensures Disjoint(Insert(rs, x)) <==> Disjoint(rs) && forall i :: 0 <= i < |rs| ==> Apart(x, rs[i])
  {
    var p := InsertedAt(rs, x);
    var r := Insert(rs, x);
    if Disjoint(r) {
      forall i, j | 0 <= i < j < |rs| ensures Apart(rs[i], rs[j]) {
        var a, b := if i < p then i else i + 1, if j < p then j else j + 1;
        assert Apart(r[a], r[b]);
      }
      forall i | 0 <= i < |rs| ensures Apart(x, rs[i]) {
        if i < p {
          assert Apart(r[i], r[p]);
        } else {
          assert Apart(r[p], r[i + 1]);
        }
      }
    }
  }

  lemma InsertMembers(rs: seq<Range>, x: Range, y: Range)
    ensures y in Insert(rs, x) <==> y == x || y in rs
  {
    var p := InsertedAt(rs, x);
    assert rs == rs[..p] + rs[p..];
  }

  lemma {:induction false} InsertTotal(rs: seq<Range>, x: Range)
    ensures TotalLength(Insert(rs, x)) == TotalLength(rs) + x.end - x.start
  {
    if rs == [] || Before(x, rs[0]) {
      assert ([x] + rs)[1..] == rs;
    } else {
      InsertTotal(rs[1..], x);
      assert Insert(rs, x)[1..] == Insert(rs[1..], x);
    }
  }

  // ---------------------------------------------------------------- sorting

  ghost predicate SameMembers(a: seq<Range>, b: seq<Range>) {
    forall x :: x in a <==> x in b
  }

  lemma {:induction false} ArrangedKeeps(rs: seq<Range>)
    ensures InOrder(Arranged(rs)) && |Arranged(rs)| == |rs| && SameMembers(Arranged(rs), rs)
    ensures Disjoint(Arranged(rs)) <==> Disjoint(rs)
    ensures TotalLength(Arranged(rs)) == TotalLength(rs)
  {
    if rs != [] {
      var rest, x := rs[1..], rs[0];
      ArrangedKeeps(rest);
      InsertInOrder(Arranged(rest), x);
      InsertDisjoint(Arranged(rest), x);
      InsertTotal(Arranged(rest), x);
      var p := InsertedAt(Arranged(rest), x);
      forall y ensures y in Arranged(rs) <==> y in rs {
        InsertMembers(Arranged(rest), x, y);
        assert y in rs <==> y == x || y in rest by { assert rs == [x] + rest; }
      }
      DisjointCons(x, rest, Arranged(rest));
      assert rs == [x] + rest;
    }
  }

  lemma DisjointCons(x: Range, rest: seq<Range>, arranged: seq<Range>)
    requires SameMembers(arranged, rest)
    ensures (forall i :: 0 <= i < |arranged| ==> Apart(x, arranged[i])) <==> (forall i :: 0 <= i < |rest| ==> Apart(x, rest[i]))
    ensures Disjoint([x] + rest) <==> Disjoint(rest) && forall i :: 0 <= i < |rest| ==> Apart(x, rest[i])
  {
    var rs := [x] + rest;
    if Disjoint(rs) {
      forall i, j | 0 <= i < j < |rest| ensures Apart(rest[i], rest[j]) {
        assert Apart(rs[i + 1], rs[j + 1]);
      }
      forall i | 0 <= i < |rest| ensures Apart(x, rest[i]) {
        assert Apart(rs[0], rs[i + 1]);
      }
    }
    assert (forall i :: 0 <= i < |arranged| ==> Apart(x, arranged[i])) <==> forall y :: y in arranged ==> Apart(x, y);
    assert (forall i :: 0 <= i < |rest| ==> Apart(x, rest[i])) <==> forall y :: y in rest ==> Apart(x, y);
  }

  /** Neighbours that do not overlap, in order, leave no overlap anywhere. */
  lemma {:induction false} NeighboursSuffice(rs: seq<Range>, i: nat, j: nat)
    requires NonEmpty(rs) && i < j < |rs| && forall k :: 0 <= k < |rs| - 1 ==> rs[k].end <= rs[k + 1].start
    ensures rs[i].end <= rs[j].start
    decreases j - i
  {
    if i + 1 < j {
      NeighboursSuffice(rs, i + 1, j);
    }
  }

  /** Succeeds exactly when no two of the ranges overlap. */
  method EnsureNonOverlapping(ranges: seq<Range>) returns (ok: bool)
    requires NonEmpty(ranges)
    ensures ok <==> Disjoint(ranges)
  {
    var sorted := Arranged(ranges);
    ArrangedKeeps(ranges);
    forall i | 0 <= i < |sorted| ensures sorted[i].start < sorted[i].end {
      assert sorted[i] in ranges;
    }
    for k := 0 to if sorted == [] then 0 else |sorted| - 1
      invariant forall i :: 0 <= i < k ==> sorted[i].end <= sorted[i + 1].start
    {
      if sorted[k].end > sorted[k + 1].start {
        assert Before(sorted[k], sorted[k + 1]) && !Apart(sorted[k], sorted[k + 1]);
        return false;
      }
    }
    forall i, j | 0 <= i < j < |sorted| ensures Apart(sorted[i], sorted[j]) {
      NeighboursSuffice(sorted, i, j);
    }
    return true;
  }

  // ---------------------------------------------------------------- room

  lemma {:induction false} OrderedRoom(rs: seq<Range>, low: nat, high: nat)
    requires NonEmpty(rs) && low <= high && forall i :: 0 <= i < |rs| ==> low <= rs[i].start && rs[i].end <= high
    requires forall i, j :: 0 <= i < j < |rs| ==> rs[i].end <= rs[j].start
    ensures TotalLength(rs) <= high - low
  {
    if rs != [] {
      OrderedRoom(rs[1..], rs[0].end, high);
    }
  }

  /** Disjoint ranges inside an interval are together no longer than it. */
  lemma DisjointRoom(rs: seq<Range>, low: nat, high: nat)
    requires NonEmpty(rs) && Disjoint(rs) && low <= high && forall i :: 0 <= i < |rs| ==> low <= rs[i].start && rs[i].end <= high
    ensures TotalLength(rs) <= high - low
  {
    var sorted := Arranged(rs);
    ArrangedKeeps(rs);
    forall i | 0 <= i < |sorted| ensures sorted[i].start < sorted[i].end && low <= sorted[i].start && sorted[i].end <= high {
      assert sorted[i] in rs;
    }
    forall i, j | 0 <= i < j < |sorted| ensures sorted[i].end <= sorted[j].start {
      assert Before(sorted[i], sorted[j]) && Apart(sorted[i], sorted[j]);
    }
    OrderedRoom(sorted, low, high);
  }
}
