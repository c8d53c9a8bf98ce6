/** What ordered reads return: every document of the range, in key order, page
    by page (dodb-testkit/src/reference.rs). */
module OrderedReads {
  import opened Lex
  import opened Seqs
  import opened KeyCodec
  import opened Pages
  import opened Reference

  /** The document is stored. */
  ghost predicate Stored(s: States, d: Document) {
    Lookup(s, d.key) == Some(Present(d.value, d.revision))
  }

  ghost predicate Ascend(rows: seq<Document>) {
    forall i, j :: 0 <= i < j < |rows| ==> KeyLess(rows[i].key, rows[j].key)
  }

  // ---------------------------------------------------------------- members of a selection

  lemma {:induction false} LookupAt(s: States, i: nat)
    requires Sorted(s) && i < |s|
    ensures Lookup(s, s[i].0) == Some(s[i].1)
  {
    if i > 0 {
      assert s[1..][i - 1] == s[i] && KeyLess(s[0].0, s[i].0);
      LookupAt(s[1..], i - 1);
    }
  }

  lemma {:induction false} LookupFinds(s: States, key: DocumentKey) returns (i: nat)
    requires Lookup(s, key).Some?
    ensures i < |s| && s[i] == (key, Lookup(s, key).value)
  {
    i := 0;
    if s[0].0 != key {
      i := LookupFinds(s[1..], key);
      i := i + 1;
    }
  }

  lemma {:induction false} SelectedFrom(s: States, range: Range, k: nat) returns (i: nat)
    requires k < |Select(s, range)|
    ensures i < |s| && Wanted(s[i], range) && Select(s, range)[k] == Row(s[i])
  {
    var n := |s| - 1;
    if k < |Select(s[..n], range)| {
      i := SelectedFrom(s[..n], range, k);
    } else {
      i := n;
    }
  }

  lemma {:induction false} SelectTakes(s: States, range: Range, i: nat)
    requires i < |s| && Wanted(s[i], range)
    ensures Row(s[i]) in Select(s, range)
  {
    SelectStep(s, range, i);
    SelectPrefix(s, range, i + 1);
    var part := Select(s[..i + 1], range);
    assert part[|part| - 1] == Row(s[i]) && part <= Select(s, range);
    assert Select(s, range)[|part| - 1] == Row(s[i]);
  }

  lemma {:induction false} SelectAscends(s: States, range: Range)
    requires Sorted(s)
    ensures Ascend(Select(s, range))
  {
    if s != [] {
      var n := |s| - 1;
      SelectAscends(s[..n], range);
      var rows := Select(s[..n], range);
      forall k | 0 <= k < |rows| ensures KeyLess(rows[k].key, s[n].0) {
        var i := SelectedFrom(s[..n], range, k);
        assert s[..n][i] == s[i];
      }
    }
  }

  /** The selection holds exactly the stored documents of the range. */
  lemma SelectExact(s: States, range: Range, d: Document)
    requires Sorted(s)
    ensures d in Select(s, range) <==> Stored(s, d) && Contains(range, d.key)
  {
    if d in Select(s, range) {
      var k :| 0 <= k < |Select(s, range)| && Select(s, range)[k] == d;
      var i := SelectedFrom(s, range, k);
      LookupAt(s, i);
    }
    if Stored(s, d) && Contains(range, d.key) {
      var i := LookupFinds(s, d.key);
      SelectTakes(s, range, i);
    }
  }

  // ---------------------------------------------------------------- the first rows

  lemma TakenFirst(rows: seq<Document>, limit: nat, d: Document)
    requires Ascend(rows) && d in rows
    ensures d in Take(rows, limit) || (|Take(rows, limit)| == limit && forall r :: r in Take(rows, limit) ==> KeyLess(r.key, d.key))
  {
    var k :| 0 <= k < |rows| && rows[k] == d;
    if k < limit {
      assert Take(rows, limit)[k] == d;
    } else {
      forall r | r in Take(rows, limit) ensures KeyLess(r.key, d.key) {
        var i :| 0 <= i < |Take(rows, limit)| && Take(rows, limit)[i] == r;
        assert rows[i] == r;
      }
    }
  }

  /** A query answers with stored documents of the primary key beyond the sort
      key, in ascending order, and leaves out only documents behind the last
      row of a full page. */
  lemma QueryExact(s: States, pk: bytes, afterSk: Option<bytes>, limit: nat)
    requires Sorted(s)
    ensures Ascend(Query(s, pk, afterSk, limit)) && |Query(s, pk, afterSk, limit)| <= limit
    ensures forall d :: d in Query(s, pk, afterSk, limit) ==>
              Stored(s, d) && d.key.pk == pk && (afterSk.None? || Less(afterSk.value, d.key.sk))
    ensures forall d :: Stored(s, d) && d.key.pk == pk && (afterSk.None? || Less(afterSk.value, d.key.sk)) ==>
              || d in Query(s, pk, afterSk, limit)
              || (|Query(s, pk, afterSk, limit)| == limit && forall r :: r in Query(s, pk, afterSk, limit) ==> KeyLess(r.key, d.key))
  {
    var range := QueryRange(pk, afterSk);
    SelectAscends(s, range);
    forall d | Stored(s, d) && d.key.pk == pk && (afterSk.None? || Less(afterSk.value, d.key.sk))
      ensures || d in Query(s, pk, afterSk, limit)
              || (|Query(s, pk, afterSk, limit)| == limit && forall r :: r in Query(s, pk, afterSk, limit) ==> KeyLess(r.key, d.key))
    {
      SelectExact(s, range, d);
      TakenFirst(Select(s, range), limit, d);
    }
    forall d | d in Query(s, pk, afterSk, limit)
      ensures Stored(s, d) && d.key.pk == pk && (afterSk.None? || Less(afterSk.value, d.key.sk))
    {
      SelectExact(s, range, d);
    }
  }

  /** The same for a scan of all primary keys. */
  lemma ScanExact(s: States, afterKey: Option<DocumentKey>, limit: nat)
    requires Sorted(s)
    ensures Ascend(Scan(s, afterKey, limit)) && |Scan(s, afterKey, limit)| <= limit
    ensures forall d :: d in Scan(s, afterKey, limit) ==> Stored(s, d) && (afterKey.None? || KeyLess(afterKey.value, d.key))
    ensures forall d :: Stored(s, d) && (afterKey.None? || KeyLess(afterKey.value, d.key)) ==>
              || d in Scan(s, afterKey, limit)
              || (|Scan(s, afterKey, limit)| == limit && forall r :: r in Scan(s, afterKey, limit) ==> KeyLess(r.key, d.key))
  {
    var range := ScanRange(afterKey);
    SelectAscends(s, range);
    forall d | Stored(s, d) && (afterKey.None? || KeyLess(afterKey.value, d.key))
      ensures || d in Scan(s, afterKey, limit)
              || (|Scan(s, afterKey, limit)| == limit && forall r :: r in Scan(s, afterKey, limit) ==> KeyLess(r.key, d.key))
    {
      SelectExact(s, range, d);
      TakenFirst(Select(s, range), limit, d);
    }
    forall d | d in Scan(s, afterKey, limit) ensures Stored(s, d) && (afterKey.None? || KeyLess(afterKey.value, d.key)) {
      SelectExact(s, range, d);
    }
  }

  /** If no more documents match than the limit allows, a query answers with
      exactly those that match. */
  lemma QueryAll(s: States, pk: bytes, afterSk: Option<bytes>, limit: nat, matching: set<Document>)
    requires Sorted(s) && |matching| <= limit
    requires forall d :: d in matching <==> Stored(s, d) && d.key.pk == pk && (afterSk.None? || Less(afterSk.value, d.key.sk))
    ensures forall d :: d in Query(s, pk, afterSk, limit) <==> d in matching
  {
    QueryExact(s, pk, afterSk, limit);
    RowsAll(Query(s, pk, afterSk, limit), limit, matching);
  }

  lemma ScanAll(s: States, afterKey: Option<DocumentKey>, limit: nat, matching: set<Document>)
    requires Sorted(s) && |matching| <= limit
    requires forall d :: d in matching <==> Stored(s, d) && (afterKey.None? || KeyLess(afterKey.value, d.key))
    ensures forall d :: d in Scan(s, afterKey, limit) <==> d in matching
  {
    ScanExact(s, afterKey, limit);
    RowsAll(Scan(s, afterKey, limit), limit, matching);
  }

  lemma RowsAll(rows: seq<Document>, limit: nat, matching: set<Document>)
    requires Ascend(rows) && |matching| <= limit && forall d :: d in rows ==> d in matching
    requires forall d :: d in matching ==> d in rows || |rows| == limit
    ensures forall d :: d in rows <==> d in matching
  {
    var listed := set d | d in rows;
    CountDistinct(rows, listed);
    assert listed <= matching && matching == listed + (matching - listed);
    if |rows| == limit {
      assert |matching - listed| == 0;
    }
  }

  // ---------------------------------------------------------------- pages

  /** Ascending rows are determined by which rows they are. */
  lemma {:induction false} SameRows(a: seq<Document>, b: seq<Document>)
    requires Ascend(a) && Ascend(b) && forall d :: d in a <==> d in b
    ensures a == b
  {
    assert b != [] ==> b[0] in b;
    if a != [] {
      assert a[0] in a;
      var i :| 0 <= i < |b| && b[i] == a[0];
      var j :| 0 <= j < |a| && a[j] == b[0];
      assert a[0] == b[0];
      forall d ensures d in a[1..] <==> d in b[1..] {
        RestOf(a, d);
        RestOf(b, d);
      }
      SameRows(a[1..], b[1..]);
      assert a == [a[0]] + a[1..] && b == [b[0]] + b[1..];
    }
  }

  lemma RestOf(a: seq<Document>, d: Document)
    requires Ascend(a) && a != []
    ensures d in a[1..] <==> d in a && d != a[0]
  {
    if d in a[1..] {
      var i :| 0 <= i < |a[1..]| && a[1..][i] == d;
      assert a[i + 1] == d && KeyLess(a[0].key, d.key);
    }
    if d in a && d != a[0] {
      var i :| 0 <= i < |a| && a[i] == d;
      assert a[1..][i - 1] == d;
    }
  }

  /** What lies behind row n - 1 of a selection is the rest of it. */
  lemma SelectBehind(s: States, range: Range, behind: Range, n: nat)
    requires Sorted(s) && 0 < n <= |Select(s, range)|
    requires forall key :: Contains(behind, key) <==> Contains(range, key) && KeyLess(Select(s, range)[n - 1].key, key)
    ensures Select(s, behind) == Select(s, range)[n..]
  {
    var rows, last := Select(s, range), Select(s, range)[n - 1].key;
    SelectAscends(s, range);
    SelectAscends(s, behind);
    forall d ensures d in Select(s, behind) <==> d in rows[n..] {
      SelectExact(s, range, d);
      SelectExact(s, behind, d);
      Behind(rows, n, d);
    }
    SameRows(Select(s, behind), rows[n..]);
  }

  lemma Behind(rows: seq<Document>, n: nat, d: Document)
    requires Ascend(rows) && 0 < n <= |rows|
    ensures d in rows[n..] <==> d in rows && KeyLess(rows[n - 1].key, d.key)
  {
    if d in rows[n..] {
      var i :| 0 <= i < |rows[n..]| && rows[n..][i] == d;
      assert rows[n + i] == d;
    }
    if d in rows && KeyLess(rows[n - 1].key, d.key) {
      var i :| 0 <= i < |rows| && rows[i] == d;
      assert i >= n;
      assert rows[n..][i - n] == d;
    }
  }

  lemma TakeMore(rows: seq<Document>, n: nat, m: nat)
    requires n > 0 && rows != []
    ensures var first := |Take(rows, n)|;
            && 0 < first <= |rows| && Take(rows, n) == rows[..first]
            && Take(rows, n) + Take(rows[first..], m) == Take(rows, n + m)
  {
  }

  /** Paging: a page followed by the page behind its last sort key is the page of
      both lengths together. */
  lemma QueryPages(s: States, pk: bytes, afterSk: Option<bytes>, n: nat, m: nat)
    requires Sorted(s) && Query(s, pk, afterSk, n) != []
    ensures var page := Query(s, pk, afterSk, n);
            page + Query(s, pk, Some(page[|page| - 1].key.sk), m) == Query(s, pk, afterSk, n + m)
  {
    var range := QueryRange(pk, afterSk);
    var rows, page := Select(s, range), Query(s, pk, afterSk, n);
    TakeMore(rows, n, m);
    var last := page[|page| - 1].key;
    assert rows[|page| - 1].key == last;
    SelectExact(s, range, rows[|page| - 1]);
    SelectBehind(s, range, QueryRange(pk, Some(last.sk)), |page|);
  }

  lemma ScanPages(s: States, afterKey: Option<DocumentKey>, n: nat, m: nat)
    requires Sorted(s) && Scan(s, afterKey, n) != []
    ensures var page := Scan(s, afterKey, n);
            page + Scan(s, Some(page[|page| - 1].key), m) == Scan(s, afterKey, n + m)
  {
    var range := ScanRange(afterKey);
    var rows, page := Select(s, range), Scan(s, afterKey, n);
    TakeMore(rows, n, m);
    var last := page[|page| - 1].key;
    assert rows[|page| - 1].key == last;
    SelectExact(s, range, rows[|page| - 1]);
    SelectBehind(s, range, ScanRange(Some(last)), |page|);
  }

  /** A smaller limit answers with the first rows of a larger one. */
  lemma QueryLimit(s: States, pk: bytes, afterSk: Option<bytes>, n: nat, m: nat)
    requires n <= m
    ensures Query(s, pk, afterSk, n) == Take(Query(s, pk, afterSk, m), n)
    ensures Query(s, pk, afterSk, n) <= Query(s, pk, afterSk, m)
  {
  }
}
