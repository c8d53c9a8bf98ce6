/** Transaction requests and their meaning in the reference model
    (dodb-core/src/transaction.rs, dodb-testkit/src/reference.rs). */
module Transactions {
  import opened Lex
  import opened KeyCodec
  import opened Pages
  import opened Reference
  import opened Errors

  datatype Condition = RevisionEquals(key: DocumentKey, revision: nat) | Exists(key: DocumentKey) | NotExists(key: DocumentKey) {
    function Expectation(): Expectation {
      match this
      case RevisionEquals(_, revision) => RevisionEqualsExpected(revision)
      case Exists(_) => ExistsExpected
      case NotExists(_) => NotExistsExpected
    }

    predicate Satisfied(actual: ObservedState) {
      match this
      case RevisionEquals(_, expected) => actual.revision == expected
      case Exists(_) => !actual.IsMissing()
      case NotExists(_) => actual.IsMissing()
    }
  }

  datatype Mutation = PutMutation(key: DocumentKey, value: bytes) | DeleteMutation(key: DocumentKey) {
    function State(lsn: nat): RevisionState {
      if PutMutation? then Present(value, lsn) else Missing(lsn)
    }
  }

  datatype Request = Request(conditions: seq<Condition>, mutations: seq<Mutation>)

  predicate ValidRequest(request: Request) {
    && (request.conditions != [] || request.mutations != [])
    && (forall i, j :: 0 <= i < j < |request.mutations| ==> request.mutations[i].key != request.mutations[j].key)
    && (forall i, j :: 0 <= i < j < |request.conditions| ==> request.conditions[i].key != request.conditions[j].key)
  }

  // ---------------------------------------------------------------- the reference meaning

  /** The conflict of the first condition that does not hold. */
  function FirstConflict(s: States, conditions: seq<Condition>): Option<Error> {
    if conditions == [] then None
    else
      var c := conditions[0];
      var actual := Get(s, c.key).Observed();
      if c.Satisfied(actual) then FirstConflict(s, conditions[1..])
      else Some(Conflict(c.key, c.Expectation(), actual))
  }

  /** All mutations at one commit LSN. */
  function ApplyMutations(s: States, mutations: seq<Mutation>, lsn: nat): States {
    if mutations == [] then s
    else
      var m := mutations[|mutations| - 1];
      Insert(ApplyMutations(s, mutations[..|mutations| - 1], lsn), m.key, m.State(lsn))
  }

  function TransactAt(s: States, request: Request, lsn: nat): Result<States> {
    if lsn == 0 || !ValidRequest(request) then Err(InvalidRequest)
    else match FirstConflict(s, request.conditions)
      case Some(conflict) => Err(conflict)
      case None => Ok(ApplyMutations(s, request.mutations, lsn))
  }

  class ReferenceDb {
    var states: States
    var nextLsn: nat

    constructor ()
      ensures states == [] && nextLsn == 1
    {
      states, nextLsn := [], 1;
    }

    /** A refused request changes nothing; an accepted one is applied whole. */
    method Transact(request: Request, commitLsn: nat) returns (r: Result<nat>)
      modifies this
      ensures match TransactAt(old(states), request, commitLsn)
              case Err(error) => r == Err(error) && states == old(states) && nextLsn == old(nextLsn)
              case Ok(after) => r == Ok(commitLsn) && states == after && nextLsn > commitLsn && nextLsn >= old(nextLsn)
    {
      if commitLsn == 0 || !ValidRequest(request) {
        return Err(InvalidRequest);
      }
      for i := 0 to |request.conditions|
        invariant FirstConflict(states, request.conditions) == FirstConflict(states, request.conditions[i..])
        invariant states == old(states) && nextLsn == old(nextLsn)
      {
        var c := request.conditions[i];
        var actual := Get(states, c.key);
        assert request.conditions[i..][1..] == request.conditions[i + 1..];
        if !c.Satisfied(actual.Observed()) {
          return Err(Conflict(c.key, c.Expectation(), actual.Observed()));
        }
      }
      for i := 0 to |request.mutations|
        invariant states == ApplyMutations(old(states), request.mutations[..i], commitLsn) && nextLsn == old(nextLsn)
      {
        var m := request.mutations[i];
        assert request.mutations[..i + 1][..i] == request.mutations[..i];
        states := Insert(states, m.key, m.State(commitLsn));
      }
      assert request.mutations[..|request.mutations|] == request.mutations;
      if commitLsn + 1 > nextLsn {
        nextLsn := commitLsn + 1;
      }
      return Ok(commitLsn);
    }
  }

  // ---------------------------------------------------------------- a transaction is one map update

  predicate Mutates(mutations: seq<Mutation>, key: DocumentKey) {
    exists i :: 0 <= i < |mutations| && mutations[i].key == key
  }

  /** Atomicity in terms of single keys: a mutated key gets its new state at the
      commit LSN, every other key keeps the state it had. */
  lemma {:induction false} MutationsLookup(s: States, mutations: seq<Mutation>, lsn: nat, key: DocumentKey)
    requires forall i, j :: 0 <= i < j < |mutations| ==> mutations[i].key != mutations[j].key
    ensures !Mutates(mutations, key) ==> Lookup(ApplyMutations(s, mutations, lsn), key) == Lookup(s, key)
    ensures forall i :: 0 <= i < |mutations| && mutations[i].key == key ==>
              Lookup(ApplyMutations(s, mutations, lsn), key) == Some(mutations[i].State(lsn))
  {
    if mutations != [] {
      var n := |mutations| - 1;
      MutationsLookup(s, mutations[..n], lsn, key);
      InsertLookup(ApplyMutations(s, mutations[..n], lsn), mutations[n].key, mutations[n].State(lsn), key);
      if !Mutates(mutations, key) {
        assert !Mutates(mutations[..n], key);
      }
      forall i | 0 <= i < |mutations| && mutations[i].key == key
        ensures Lookup(ApplyMutations(s, mutations, lsn), key) == Some(mutations[i].State(lsn))
      {
        if i < n {
          assert mutations[..n][i] == mutations[i];
        }
      }
    }
  }

  lemma {:induction false} MutationsSorted(s: States, mutations: seq<Mutation>, lsn: nat)
    requires Sorted(s)
    ensures Sorted(ApplyMutations(s, mutations, lsn))
  {
    if mutations != [] {
      var n := |mutations| - 1;
      MutationsSorted(s, mutations[..n], lsn);
      InsertSorted(ApplyMutations(s, mutations[..n], lsn), mutations[n].key, mutations[n].State(lsn));
    }
  }

  lemma {:induction false} InsertMembers(s: States, key: DocumentKey, state: RevisionState)
    ensures (key, state) in Insert(s, key, state)
    ensures forall d :: d in Insert(s, key, state) ==> d == (key, state) || d in s
  {
    if s != [] && s[0].0 != key && !KeyLess(key, s[0].0) {
      InsertMembers(s[1..], key, state);
      assert (key, state) in Insert(s[1..], key, state);
    }
  }

  lemma {:induction false} MutationRevisions(s: States, mutations: seq<Mutation>, lsn: nat)
    ensures forall d :: d in ApplyMutations(s, mutations, lsn) ==> d.1.revision == lsn || d in s
    ensures mutations != [] ==> exists d :: d in ApplyMutations(s, mutations, lsn) && d.1.revision == lsn
  {
    if mutations != [] {
      var n := |mutations| - 1;
      var before, m := ApplyMutations(s, mutations[..n], lsn), mutations[n];
      MutationRevisions(s, mutations[..n], lsn);
      InsertMembers(before, m.key, m.State(lsn));
      assert (m.key, m.State(lsn)) in ApplyMutations(s, mutations, lsn);
    }
  }
}
