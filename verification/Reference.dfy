/** The specification of the store: a sorted map from document keys to
    revision states (dodb-testkit/src/reference.rs). */
module Reference {
  import opened Lex
  import opened KeyCodec
  import opened Pages

  datatype RevisionState = Present(value: bytes, revision: nat) | Missing(revision: nat) {
    predicate IsMissing() { Missing? }
    function Observed(): ObservedState {
      if Present? then SeenPresent(revision) else SeenMissing(revision)
    }
  }

  datatype ObservedState = SeenPresent(revision: nat) | SeenMissing(revision: nat) {
    predicate IsMissing() { SeenMissing? }
  }

  datatype Document = Document(key: DocumentKey, value: bytes, revision: nat)

  /** A BTreeMap is the strictly ascending sequence of its entries. */
  type States = seq<(DocumentKey, RevisionState)>

  ghost predicate Sorted(s: States) {
    forall i, j :: 0 <= i < j < |s| ==> KeyLess(s[i].0, s[j].0)
  }

  function Lookup(s: States, key: DocumentKey): Option<RevisionState> {
    if s == [] then None
    else if s[0].0 == key then Some(s[0].1)
    else Lookup(s[1..], key)
  }

  function Insert(s: States, key: DocumentKey, state: RevisionState): States {
    if s == [] then [(key, state)]
    else if s[0].0 == key then [(key, state)] + s[1..]
    else if KeyLess(key, s[0].0) then [(key, state)] + s
    else [s[0]] + Insert(s[1..], key, state)
  }

  function Get(s: States, key: DocumentKey): RevisionState {
    match Lookup(s, key)
    case Some(state) => state
    case None => Missing(0)
  }

  // ---------------------------------------------------------------- ordered reads

  /** The keys a query or a scan asks for. */
  datatype Range = QueryRange(pk: bytes, afterSk: Option<bytes>) | ScanRange(afterKey: Option<DocumentKey>)

  predicate Contains(range: Range, key: DocumentKey) {
    match range
    case QueryRange(pk, afterSk) => key.pk == pk && (afterSk.Some? ==> Less(afterSk.value, key.sk))
    case ScanRange(afterKey) => afterKey.Some? ==> KeyLess(afterKey.value, key)
  }

  predicate Wanted(d: (DocumentKey, RevisionState), range: Range) {
    Contains(range, d.0) && d.1.Present?
  }

  function Row(d: (DocumentKey, RevisionState)): Document
    requires d.1.Present?
  {
    Document(d.0, d.1.value, d.1.revision)
  }

  /** The present documents of a range, in key order. */
  function Select(s: States, range: Range): seq<Document> {
    if s == [] then []
    else
      var last := s[|s| - 1];
      Select(s[..|s| - 1], range) + (if Wanted(last, range) then [Row(last)] else [])
  }

  function Take(rows: seq<Document>, limit: nat): seq<Document> {
    if |rows| <= limit then rows else rows[..limit]
  }

  function Query(s: States, pk: bytes, afterSk: Option<bytes>, limit: nat): seq<Document> {
    Take(Select(s, QueryRange(pk, afterSk)), limit)
  }

  function Scan(s: States, afterKey: Option<DocumentKey>, limit: nat): seq<Document> {
    Take(Select(s, ScanRange(afterKey)), limit)
  }

  lemma SelectStep(s: States, range: Range, n: nat)
    requires n < |s|
    ensures Select(s[..n + 1], range) == Select(s[..n], range) + (if Wanted(s[n], range) then [Row(s[n])] else [])
  {
    assert s[..n + 1][..n] == s[..n];
  }

  /** A stretch without wanted documents adds nothing. */
  lemma {:induction false} SelectSkips(s: States, range: Range, a: nat, b: nat)
    requires a <= b <= |s|
    requires forall i :: a <= i < b ==> !Wanted(s[i], range)
    ensures Select(s[..b], range) == Select(s[..a], range)
  {
    if a < b {
      SelectSkips(s, range, a, b - 1);
      SelectStep(s, range, b - 1);
    }
  }

  lemma {:induction false} SelectPrefix(s: States, range: Range, n: nat)
    requires n <= |s|
    ensures Select(s[..n], range) <= Select(s, range)
    decreases |s| - n
  {
    if n < |s| {
      SelectPrefix(s, range, n + 1);
      SelectStep(s, range, n);
    } else {
      assert s[..n] == s;
    }
  }

  // ---------------------------------------------------------------- the map it represents

  /** Insertion acts as a map update. */
  lemma {:induction false} InsertLookup(s: States, key: DocumentKey, state: RevisionState, other: DocumentKey)
    ensures Lookup(Insert(s, key, state), other) == if other == key then Some(state) else Lookup(s, other)
  {
    if s == [] {
    } else if s[0].0 == key {
      assert ([(key, state)] + s[1..])[1..] == s[1..];
    } else if KeyLess(key, s[0].0) {
      assert ([(key, state)] + s)[1..] == s;
    } else {
      InsertLookup(s[1..], key, state, other);
      assert ([s[0]] + Insert(s[1..], key, state))[1..] == Insert(s[1..], key, state);
    }
  }

  lemma {:induction false} InsertKeys(s: States, key: DocumentKey, state: RevisionState, i: nat)
    requires i < |Insert(s, key, state)|
    ensures Insert(s, key, state)[i].0 == key || exists j :: 0 <= j < |s| && s[j].0 == Insert(s, key, state)[i].0
  {
    if s != [] && s[0].0 != key && !KeyLess(key, s[0].0) {
      if i > 0 {
        InsertKeys(s[1..], key, state, i - 1);
        if Insert(s, key, state)[i].0 != key {
          var j :| 0 <= j < |s[1..]| && s[1..][j].0 == Insert(s, key, state)[i].0;
          assert s[j + 1].0 == Insert(s, key, state)[i].0;
        }
      }
    } else if s != [] && s[0].0 == key && i > 0 {
      assert Insert(s, key, state)[i] == s[i];
    } else if s != [] && i > 0 {
      assert Insert(s, key, state)[i] == s[i - 1];
    }
  }

  /** Insertion keeps the order. */
  lemma {:induction false} InsertSorted(s: States, key: DocumentKey, state: RevisionState)
    requires Sorted(s)
    ensures Sorted(Insert(s, key, state))
  {
    if s != [] && s[0].0 != key && !KeyLess(key, s[0].0) {
      InsertSorted(s[1..], key, state);
      var t := Insert(s[1..], key, state);
      forall i | 0 <= i < |t| ensures KeyLess(s[0].0, t[i].0) {
        InsertKeys(s[1..], key, state, i);
      }
    }
  }
}
