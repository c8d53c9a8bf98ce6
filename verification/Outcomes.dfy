/** Operations whose outcome the soak run does not know, against the reference
    model (dodb-soak/src/lib.rs). */
module Outcomes {
  import opened Lex
  import opened KeyCodec
  import opened Pages
  import Reference
  import opened Transactions
  import opened Reconcile

  const MODEL_INLINE_VALUE_LIMIT: nat := 512

  /** SHA-256 is any function from values to digests. */
  type Digest = bytes -> bytes

  datatype ExpectedState = ExpectedPresent(value: Fingerprint, revision: nat) | ExpectedMissing(revision: nat)

  /** `Reading` stands for the operations that change nothing. */
  datatype Operation = Put(key: DocumentKey, value: bytes) | Delete(key: DocumentKey) | Transact(mutations: seq<Mutation>) | Reading

  function FromBytes(digest: Digest, value: bytes): Fingerprint {
    Fingerprint(|value|, digest(value), if |value| <= MODEL_INLINE_VALUE_LIMIT then Some(value) else None)
  }

  function ExpectedShape(state: ExpectedState): StateShape {
    if state.ExpectedPresent? then Holding(state.value) else Gone
  }

  function ActualShape(digest: Digest, state: Reference.RevisionState): StateShape {
    if state.Present? then Holding(FromBytes(digest, state.value)) else Gone
  }

  predicate MatchesState(digest: Digest, expected: ExpectedState, actual: Reference.RevisionState) {
    && expected.revision == actual.revision
    && expected.ExpectedPresent? == actual.Present?
    && (expected.ExpectedPresent? ==> expected.value.length == |actual.value| && expected.value.digest == digest(actual.value))
  }

  ghost predicate MatchesAll(digest: Digest, current: seq<ExpectedState>, actual: seq<Reference.RevisionState>) {
    |current| == |actual| && forall i :: 0 <= i < |current| ==> MatchesState(digest, current[i], actual[i])
  }

  function ExpectedShapes(current: seq<ExpectedState>): (r: Shapes)
    ensures |r| == |current|
  {
    seq(|current|, i requires 0 <= i < |current| => ExpectedShape(current[i]))
  }

  function ActualShapes(digest: Digest, actual: seq<Reference.RevisionState>): (r: Shapes)
    ensures |r| == |actual|
  {
    seq(|actual|, i requires 0 <= i < |actual| => ActualShape(digest, actual[i]))
  }

  // ---------------------------------------------------------------- effects

  /** What an operation does to the reference model. */
  function MutationsOf(op: Operation): seq<Mutation> {
    match op
    case Put(key, value) => [PutMutation(key, value)]
    case Delete(key) => [DeleteMutation(key)]
    case Transact(mutations) => mutations
    case Reading => []
  }

  /** Every key the operation changes is among the keys that were read. */
  ghost predicate Known(op: Operation, keys: seq<DocumentKey>) {
    !op.Reading? && forall i :: 0 <= i < |MutationsOf(op)| ==> MutationsOf(op)[i].key in keys
  }

  predicate FirstAt(keys: seq<DocumentKey>, key: DocumentKey, p: nat) {
    p < |keys| && keys[p] == key && key !in keys[..p]
  }

  function ShapeOf(digest: Digest, m: Mutation): StateShape {
    if m.PutMutation? then Holding(FromBytes(digest, m.value)) else Gone
  }

  /** Effects that stand for the mutations, one each, at the keys' positions. */
  ghost predicate StandFor(digest: Digest, mutations: seq<Mutation>, keys: seq<DocumentKey>, e: Effects) {
    && |e| == |mutations|
    && forall i :: 0 <= i < |e| ==> FirstAt(keys, mutations[i].key, e[i].0) && e[i].1 == ShapeOf(digest, mutations[i])
  }

  method Position(keys: seq<DocumentKey>, key: DocumentKey) returns (p: Option<nat>)
    ensures p.None? <==> key !in keys
    ensures p.Some? ==> FirstAt(keys, key, p.value)
  {
    for i := 0 to |keys|
      invariant key !in keys[..i]
    {
      if keys[i] == key {
        return Some(i);
      }
    }
    return None;
  }

  method OperationEffects(digest: Digest, op: Operation, keys: seq<DocumentKey>) returns (r: Option<Effects>)
    ensures r.None? <==> !Known(op, keys)
    ensures r.Some? ==> StandFor(digest, MutationsOf(op), keys, r.value)
  {
    var e: Effects := [];
    match op {
      case Put(key, value) =>
        assert MutationsOf(op)[0].key == key;
        var p := Position(keys, key);
        if p.None? { return None; }
        e := e + [(p.value, Holding(FromBytes(digest, value)))];
      case Delete(key) =>
        assert MutationsOf(op)[0].key == key;
        var p := Position(keys, key);
        if p.None? { return None; }
        e := e + [(p.value, Gone)];
      case Transact(mutations) =>
        for i := 0 to |mutations|
          invariant StandFor(digest, mutations[..i], keys, e)
          invariant forall j :: 0 <= j < i ==> mutations[j].key in keys
        {
          var m := mutations[i];
          assert m == MutationsOf(op)[i];
          var p := Position(keys, m.key);
          if p.None? { return None; }
          e := e + [(p.value, match m case PutMutation(_, value) => Holding(FromBytes(digest, value)) case DeleteMutation(_) => Gone)];
        }
        assert mutations[..|mutations|] == mutations;
      case Reading =>
        return None;
    }
    return Some(e);
  }

  ghost predicate AllKnown(operations: seq<Operation>, keys: seq<DocumentKey>) {
    forall i :: 0 <= i < |operations| ==> Known(operations[i], keys)
  }

  ghost predicate AllStandFor(digest: Digest, operations: seq<Operation>, keys: seq<DocumentKey>, ops: seq<Effects>) {
    |ops| == |operations| && forall i :: 0 <= i < |ops| ==> StandFor(digest, MutationsOf(operations[i]), keys, ops[i])
  }

  method AllEffects(digest: Digest, operations: seq<Operation>, keys: seq<DocumentKey>) returns (r: Option<seq<Effects>>)
    ensures r.None? <==> !AllKnown(operations, keys)
    ensures r.Some? ==> AllStandFor(digest, operations, keys, r.value)
  {
    var ops := [];
    for i := 0 to |operations|
      invariant AllKnown(operations[..i], keys) && AllStandFor(digest, operations[..i], keys, ops)
    {
      var e := OperationEffects(digest, operations[i], keys);
      if e.None? { return None; }
      ops := ops + [e.value];
    }
    assert operations[..|operations|] == operations;
    return Some(ops);
  }

  // ---------------------------------------------------------------- effects are what the reference does

  /** The shapes a read of the keys sees. */
  ghost function Read(digest: Digest, s: Reference.States, keys: seq<DocumentKey>): (r: Shapes)
    ensures |r| == |keys|
  {
    seq(|keys|, i requires 0 <= i < |keys| => ActualShape(digest, Reference.Get(s, keys[i])))
  }

  ghost predicate Distinct(keys: seq<DocumentKey>) {
    forall i, j :: 0 <= i < j < |keys| ==> keys[i] != keys[j]
  }

  lemma {:induction false} EffectsAreMutations(digest: Digest, s: Reference.States, mutations: seq<Mutation>, keys: seq<DocumentKey>, e: Effects, lsn: nat)
    requires Distinct(keys) && StandFor(digest, mutations, keys, e)
    ensures ApplyOne(Read(digest, s, keys), e) == Read(digest, ApplyMutations(s, mutations, lsn), keys)
  {
    if e != [] {
      var n := |e| - 1;
      var before, m := ApplyMutations(s, mutations[..n], lsn), mutations[n];
      EffectsAreMutations(digest, s, mutations[..n], keys, e[..n], lsn);
      hide FromBytes, Reference.Lookup, Reference.Insert;
      forall i | 0 <= i < |keys|
        ensures ApplyOne(Read(digest, s, keys), e)[i] == ActualShape(digest, Reference.Get(ApplyMutations(s, mutations, lsn), keys[i]))
      {
        Reference.InsertLookup(before, m.key, m.State(lsn), keys[i]);
      }
    }
  }

  /** Serial execution of some of the operations at ascending commit LSNs. */
  ghost function RunSerial(s: Reference.States, operations: seq<Operation>, order: seq<nat>, lsn: nat): Reference.States
    requires Ordering(order, |operations|)
  {
    if order == [] then s
    else
      var n := |order| - 1;
      ApplyMutations(RunSerial(s, operations, order[..n], lsn), MutationsOf(operations[order[n]]), lsn + n)
  }

  lemma {:induction false} ApplyAllIsSerial(digest: Digest, s: Reference.States, operations: seq<Operation>, keys: seq<DocumentKey>, ops: seq<Effects>, order: seq<nat>, lsn: nat)
    requires Distinct(keys) && AllStandFor(digest, operations, keys, ops) && InBounds(ops, |keys|) && Ordering(order, |ops|)
    ensures ApplyAll(Read(digest, s, keys), ops, order) == Read(digest, RunSerial(s, operations, order, lsn), keys)
  {
    if order != [] {
      var n := |order| - 1;
      ApplyAllIsSerial(digest, s, operations, keys, ops, order[..n], lsn);
      EffectsAreMutations(digest, RunSerial(s, operations, order[..n], lsn), MutationsOf(operations[order[n]]), keys, ops[order[n]], lsn + n);
    }
  }

  // ---------------------------------------------------------------- nothing was applied

  /** What the soak run keeps of a state of the reference model. */
  function Kept(digest: Digest, state: Reference.RevisionState): ExpectedState {
    if state.Present? then ExpectedPresent(FromBytes(digest, state.value), state.revision) else ExpectedMissing(state.revision)
  }

  ghost predicate Describes(digest: Digest, current: seq<ExpectedState>, s: Reference.States, keys: seq<DocumentKey>) {
    |current| == |keys| && forall i :: 0 <= i < |keys| ==> current[i] == Kept(digest, Reference.Get(s, keys[i]))
  }

  ghost predicate ReadsFrom(actual: seq<Reference.RevisionState>, s: Reference.States, keys: seq<DocumentKey>) {
    |actual| == |keys| && forall i :: 0 <= i < |keys| ==> actual[i] == Reference.Get(s, keys[i])
  }

  /** Every state the keys have is older than lsn. */
  ghost predicate Older(s: Reference.States, keys: seq<DocumentKey>, lsn: nat) {
    forall i :: 0 <= i < |keys| ==> Reference.Get(s, keys[i]).revision < lsn
  }

  /** None of the operations of `order` mutates anything. */
  ghost predicate Idle(operations: seq<Operation>, order: seq<nat>)
    requires Ordering(order, |operations|)
  {
    forall n :: 0 <= n < |order| ==> MutationsOf(operations[order[n]]) == []
  }

  /** A kept state matches the state it was kept of and, where digests do not
      collide, no other. */
  lemma MatchesKept(digest: Digest, state: Reference.RevisionState, actual: Reference.RevisionState)
    ensures MatchesState(digest, Kept(digest, state), state)
    ensures MatchesState(digest, Kept(digest, state), actual) && state.Present? ==> actual.Present? && |actual.value| == |state.value|
    ensures MatchesState(digest, Kept(digest, state), actual) && (forall a, b :: digest(a) == digest(b) ==> a == b) ==> actual == state
  {
  }

  lemma {:induction false} MutatedLast(s: Reference.States, mutations: seq<Mutation>, lsn: nat, key: DocumentKey)
    ensures Reference.Get(ApplyMutations(s, mutations, lsn), key).revision ==
            if Mutates(mutations, key) then lsn else Reference.Get(s, key).revision
  {
    if mutations != [] {
      var n := |mutations| - 1;
      var m, before := mutations[n], mutations[..n];
      MutatedLast(s, before, lsn, key);
      Reference.InsertLookup(ApplyMutations(s, before, lsn), m.key, m.State(lsn), key);
      assert Mutates(before, key) ==> Mutates(mutations, key) by {
        if Mutates(before, key) {
          var i :| 0 <= i < n && before[i].key == key;
          assert mutations[i].key == key;
        }
      }
      assert Mutates(mutations, key) && m.key != key ==> Mutates(before, key) by {
        if Mutates(mutations, key) && m.key != key {
          var i :| 0 <= i < |mutations| && mutations[i].key == key;
          assert before[i].key == key;
        }
      }
    }
  }

  /** An operation that was run leaves its keys with a new revision. */
  lemma {:induction false} RunWrites(s: Reference.States, operations: seq<Operation>, order: seq<nat>, lsn: nat, i: nat, key: DocumentKey)
    requires Ordering(order, |operations|) && i < |order| && Mutates(MutationsOf(operations[order[i]]), key)
    ensures Reference.Get(RunSerial(s, operations, order, lsn), key).revision >= lsn
  {
    hide Mutates, MutationsOf, Reference.Get;
    var n := |order| - 1;
    if i < n {
      RunWrites(s, operations, order[..n], lsn, i, key);
    }
    MutatedLast(RunSerial(s, operations, order[..n], lsn), MutationsOf(operations[order[n]]), lsn + n, key);
  }

  lemma {:induction false} RunIdle(s: Reference.States, operations: seq<Operation>, order: seq<nat>, lsn: nat)
    requires Ordering(order, |operations|) && Idle(operations, order)
    ensures RunSerial(s, operations, order, lsn) == s
  {
    hide MutationsOf;
    if order != [] {
      var n := |order| - 1;
      RunIdle(s, operations, order[..n], lsn);
    }
  }

  /** A read of known keys matches what was kept exactly when no operation that
      was run mutates anything. */
  lemma NotAppliedExact(digest: Digest, s: Reference.States, operations: seq<Operation>, keys: seq<DocumentKey>, order: seq<nat>, lsn: nat,
                        current: seq<ExpectedState>, actual: seq<Reference.RevisionState>)
    requires AllKnown(operations, keys) && Ordering(order, |operations|) && Older(s, keys, lsn)
    requires Describes(digest, current, s, keys) && ReadsFrom(actual, RunSerial(s, operations, order, lsn), keys)
    ensures MatchesAll(digest, current, actual) <==> Idle(operations, order)
  {
    if Idle(operations, order) {
      RunIdle(s, operations, order, lsn);
    } else {
      var n :| 0 <= n < |order| && MutationsOf(operations[order[n]]) != [];
      assert Known(operations[order[n]], keys);
      var key := MutationsOf(operations[order[n]])[0].key;
      assert Mutates(MutationsOf(operations[order[n]]), key);
      var i :| 0 <= i < |keys| && keys[i] == key;
      RunWrites(s, operations, order, lsn, n, key);
      assert !MatchesState(digest, current[i], actual[i]);
    }
  }

  // ---------------------------------------------------------------- the answer

  /** Some of the operations, run one after the other on the reference model
      from s, leave what was read. */
  ghost predicate Possible(digest: Digest, s: Reference.States, operations: seq<Operation>, keys: seq<DocumentKey>, seen: Shapes, lsn: nat) {
    exists order :: Ordering(order, |operations|) && Read(digest, RunSerial(s, operations, order, lsn), keys) == seen
  }

  lemma ExplainedIsPossible(digest: Digest, s: Reference.States, operations: seq<Operation>, keys: seq<DocumentKey>, ops: seq<Effects>, seen: Shapes, lsn: nat)
    requires Distinct(keys) && AllStandFor(digest, operations, keys, ops) && InBounds(ops, |keys|)
    ensures Explained(Read(digest, s, keys), ops, seen) <==> Possible(digest, s, operations, keys, seen, lsn)
  {
    forall order | Ordering(order, |ops|)
      ensures ApplyAll(Read(digest, s, keys), ops, order) == Read(digest, RunSerial(s, operations, order, lsn), keys)
    {
      ApplyAllIsSerial(digest, s, operations, keys, ops, order, lsn);
    }
    if Explained(Read(digest, s, keys), ops, seen) {
      var order :| Ordering(order, |ops|) && ApplyAll(Read(digest, s, keys), ops, order) == seen;
      assert Read(digest, RunSerial(s, operations, order, lsn), keys) == seen;
    }
    if Possible(digest, s, operations, keys, seen, lsn) {
      var order :| Ordering(order, |operations|) && Read(digest, RunSerial(s, operations, order, lsn), keys) == seen;
      assert ApplyAll(Read(digest, s, keys), ops, order) == seen;
    }
  }

  lemma StandForInBounds(digest: Digest, operations: seq<Operation>, keys: seq<DocumentKey>, ops: seq<Effects>)
    requires AllStandFor(digest, operations, keys, ops)
    ensures InBounds(ops, |keys|)
  {
    forall i, j | 0 <= i < |ops| && 0 <= j < |ops[i]| ensures ops[i][j].0 < |keys| {
      assert FirstAt(keys, MutationsOf(operations[i])[j].key, ops[i][j].0);
    }
  }

  /** The operations the answer is exact for. */
  ghost predicate Decidable(operations: seq<Operation>) {
    |operations| <= MAX_SEARCHED || forall i :: 0 <= i < |operations| ==> |MutationsOf(operations[i])| == 1
  }

  /** The read shows what every mutation of every operation writes. */
  ghost predicate AllSeen(digest: Digest, operations: seq<Operation>, keys: seq<DocumentKey>, seen: Shapes) {
    forall i :: 0 <= i < |operations| ==> OperationSeen(digest, MutationsOf(operations[i]), keys, seen)
  }

  ghost predicate OperationSeen(digest: Digest, mutations: seq<Mutation>, keys: seq<DocumentKey>, seen: Shapes) {
    forall j, p: nat :: 0 <= j < |mutations| && FirstAt(keys, mutations[j].key, p) && p < |seen| ==> seen[p] == ShapeOf(digest, mutations[j])
  }

  lemma SeenIsVisible(digest: Digest, operations: seq<Operation>, keys: seq<DocumentKey>, ops: seq<Effects>, seen: Shapes)
    requires AllStandFor(digest, operations, keys, ops) && InBounds(ops, |keys|) && |seen| == |keys|
    ensures AllSeen(digest, operations, keys, seen) <==> AllVisible(ops, seen)
  {
    hide ShapeOf, MutationsOf;
    forall i | 0 <= i < |ops|
      ensures OperationSeen(digest, MutationsOf(operations[i]), keys, seen) <==> forall j :: 0 <= j < |ops[i]| ==> seen[ops[i][j].0] == ops[i][j].1
    {
      assert StandFor(digest, MutationsOf(operations[i]), keys, ops[i]);
      OneSeen(digest, MutationsOf(operations[i]), keys, ops[i], seen);
    }
  }

  lemma FirstOnce(keys: seq<DocumentKey>, key: DocumentKey, p: nat, q: nat)
    requires FirstAt(keys, key, p) && FirstAt(keys, key, q)
    ensures p == q
  {
    assert forall i :: 0 <= i < p ==> keys[i] == keys[..p][i] && keys[i] != key;
    assert forall i :: 0 <= i < q ==> keys[i] == keys[..q][i] && keys[i] != key;
  }

  lemma OneSeen(digest: Digest, mutations: seq<Mutation>, keys: seq<DocumentKey>, e: Effects, seen: Shapes)
    requires StandFor(digest, mutations, keys, e) && |seen| == |keys|
    ensures forall j :: 0 <= j < |e| ==> e[j].0 < |seen|
    ensures OperationSeen(digest, mutations, keys, seen) <==> forall j :: 0 <= j < |e| ==> seen[e[j].0] == e[j].1
  {
    hide ShapeOf;
    forall j, p: nat | 0 <= j < |mutations| && FirstAt(keys, mutations[j].key, p) ensures p == e[j].0 {
      FirstOnce(keys, mutations[j].key, p, e[j].0);
    }
  }

  method Matches(digest: Digest, current: seq<ExpectedState>, actual: seq<Reference.RevisionState>) returns (same: bool)
    requires |current| == |actual|
    ensures same <==> MatchesAll(digest, current, actual)
  {
    for i := 0 to |current|
      invariant forall j :: 0 <= j < i ==> MatchesState(digest, current[j], actual[j])
    {
      if !MatchesState(digest, current[i], actual[i]) {
        return false;
      }
    }
    return true;
  }

  /** If s is a state of the reference model that the expected states describe,
      the answer for a read that differs is Applied exactly when some of the
      operations, run serially on s, leave what was read. */
  method ReconcileUnknownOperations(digest: Digest, operations: seq<Operation>, keys: seq<DocumentKey>, current: seq<ExpectedState>, actual: seq<Reference.RevisionState>, ghost s: Reference.States, ghost lsn: nat)
    returns (r: Option<Resolution>)
    ensures r.None? <==> |keys| != |current| || |keys| != |actual| || operations == [] || !AllKnown(operations, keys)
    ensures r.Some? ==> (r.value.NotApplied? <==> MatchesAll(digest, current, actual))
    ensures r.Some? && Describes(digest, current, s, keys) && Older(s, keys, lsn) ==>
              forall order :: Ordering(order, |operations|) && ReadsFrom(actual, RunSerial(s, operations, order, lsn), keys) ==>
                (r.value.NotApplied? <==> Idle(operations, order))
    ensures r.Some? && !r.value.NotApplied? && Decidable(operations) && Distinct(keys) && ExpectedShapes(current) == Read(digest, s, keys) ==>
              (r.value.Applied? <==> Possible(digest, s, operations, keys, ActualShapes(digest, actual), lsn))
    ensures r.Some? && !r.value.NotApplied? && !Decidable(operations) ==>
              (r.value.Applied? <==> AllSeen(digest, operations, keys, ActualShapes(digest, actual)))
  {
    if |keys| != |current| || |keys| != |actual| || operations == [] {
      return None;
    }
    var effects := AllEffects(digest, operations, keys);
    if effects.None? {
      return None;
    }
    var ops := effects.value;
    StandForInBounds(digest, operations, keys, ops);
    var same := Matches(digest, current, actual);
    r := Resolve(ExpectedShapes(current), ActualShapes(digest, actual), ops, same);
    SeenIsVisible(digest, operations, keys, ops, ActualShapes(digest, actual));
    assert Decidable(operations) <==> SingleKey(ops) || |ops| <= MAX_SEARCHED;
    if Distinct(keys) && ExpectedShapes(current) == Read(digest, s, keys) {
      ExplainedIsPossible(digest, s, operations, keys, ops, ActualShapes(digest, actual), lsn);
    }
    hide RunSerial, Possible, MatchesAll, AllSeen, Describes, Older, AllKnown, ReadsFrom, Idle;
    if Describes(digest, current, s, keys) && Older(s, keys, lsn) {
      forall order | Ordering(order, |operations|) && ReadsFrom(actual, RunSerial(s, operations, order, lsn), keys)
        ensures same <==> Idle(operations, order)
      {
        NotAppliedExact(digest, s, operations, keys, order, lsn, current, actual);
      }
    }
  }
}
