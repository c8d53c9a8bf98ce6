/** What the conditions of a request decide, and the update they protect
    (btree/mod.rs, dodb-testkit/src/reference.rs). */
module Conditions {
  import opened Lex
  import opened KeyCodec
  import opened Pages
  import opened Reference
  import opened Errors
  import opened Transactions
  import opened Batches
  import Stamps
  import Staging = Overlay
  import Group = GroupCommit
  import Versions
  import Durability
  import DurabilityProof
  import Tales
  import EndToEnd

  // ---------------------------------------------------------------- one condition

  /** What a condition asks of the documents. */
  ghost predicate Holds(s: States, c: Condition) {
    match c
    case RevisionEquals(key, revision) => revision == match Lookup(s, key) { case Some(state) => state.revision case None => 0 }
    case Exists(key) => Lookup(s, key).Some? && Lookup(s, key).value.Present?
    case NotExists(key) => Lookup(s, key).None? || Lookup(s, key).value.Missing?
  }

  /** The conflict names the condition and the state of its key. */
  ghost predicate Names(s: States, c: Condition, error: Error) {
    && error.Conflict? && error.key == c.key
    && (match c
        case RevisionEquals(_, revision) => error.expected == RevisionEqualsExpected(revision)
        case Exists(_) => error.expected == ExistsExpected
        case NotExists(_) => error.expected == NotExistsExpected)
    && (match Lookup(s, c.key)
        case Some(Present(_, revision)) => error.actual == SeenPresent(revision)
        case Some(Missing(revision)) => error.actual == SeenMissing(revision)
        case None => error.actual == SeenMissing(0))
  }

  ghost predicate AllHold(s: States, conditions: seq<Condition>) {
    forall i :: 0 <= i < |conditions| ==> Holds(s, conditions[i])
  }

  /** Condition i is the first that does not hold, and the error says so. */
  ghost predicate Broken(s: States, conditions: seq<Condition>, i: nat, error: Error) {
    && i < |conditions| && !Holds(s, conditions[i]) && AllHold(s, conditions[..i])
    && Names(s, conditions[i], error)
  }

  /** The conditions name keys short enough to be stored. */
  ghost predicate Storable(conditions: seq<Condition>) {
    forall i :: 0 <= i < |conditions| ==> |Encoded(conditions[i].key)| <= MAX_ENCODED_KEY_SIZE
  }

  /** Condition i is the first that does not hold or names a key too long to be
      stored, and the error says which. */
  ghost predicate Rejected(s: States, conditions: seq<Condition>, i: nat, error: Error) {
    && i < |conditions| && Storable(conditions[..i]) && AllHold(s, conditions[..i])
    && if |Encoded(conditions[i].key)| > MAX_ENCODED_KEY_SIZE then error == InvalidInput
       else !Holds(s, conditions[i]) && Names(s, conditions[i], error)
  }

  lemma HoldsExact(s: States, c: Condition)
    ensures c.Satisfied(Get(s, c.key).Observed()) <==> Holds(s, c)
    ensures Names(s, c, Conflict(c.key, c.Expectation(), Get(s, c.key).Observed()))
  {
  }

  lemma AllHoldStep(s: States, conditions: seq<Condition>)
    requires conditions != []
    ensures AllHold(s, conditions) <==> Holds(s, conditions[0]) && AllHold(s, conditions[1..])
    ensures Storable(conditions) <==> |Encoded(conditions[0].key)| <= MAX_ENCODED_KEY_SIZE && Storable(conditions[1..])
  {
    hide Holds;
    var c, rest := conditions[0], conditions[1..];
    assert forall i :: 0 < i < |conditions| ==> conditions[i] == rest[i - 1];
    assert forall i :: 0 <= i < |rest| ==> rest[i] == conditions[i + 1];
  }

  /** The store meets the conditions exactly when all keys can be stored and all
      conditions hold; otherwise the first that fails is named. */
  lemma {:induction false} UnmetExact(s: States, conditions: seq<Condition>) returns (i: nat)
    ensures Staging.Unmet(s, conditions).None? <==> AllHold(s, conditions) && Storable(conditions)
    ensures Staging.Unmet(s, conditions).Some? ==> Rejected(s, conditions, i, Staging.Unmet(s, conditions).value)
  {
    hide Holds, Names, AllHold, Storable;
    i := 0;
    assert AllHold(s, []) && Storable([]) by {
      EmptyHolds(s);
    }
    if conditions != [] {
      var c, rest := conditions[0], conditions[1..];
      AllHoldStep(s, conditions);
      HoldsExact(s, c);
      if |Encoded(c.key)| <= MAX_ENCODED_KEY_SIZE && Holds(s, c) {
        i := UnmetExact(s, rest);
        if Staging.Unmet(s, rest).Some? {
          i := i + 1;
          assert conditions[..i][0] == c && conditions[..i][1..] == rest[..i - 1] && conditions[i] == rest[i - 1];
          AllHoldStep(s, conditions[..i]);
        }
      } else {
        assert conditions[..0] == [];
      }
    }
  }

  lemma EmptyHolds(s: States)
    ensures AllHold(s, []) && Storable([])
  {
  }

  /** The reference model accepts a valid request exactly when every condition
      holds; otherwise it names the first that does not. */
  lemma TransactExact(s: States, request: Request, lsn: nat) returns (i: nat)
    requires lsn > 0 && ValidRequest(request)
    ensures TransactAt(s, request, lsn).Ok? <==> AllHold(s, request.conditions)
    ensures TransactAt(s, request, lsn).Err? ==> Broken(s, request.conditions, i, TransactAt(s, request, lsn).error)
  {
    hide Holds, Names, AllHold;
    i := ConflictExact(s, request.conditions);
  }

  lemma {:induction false} ConflictExact(s: States, conditions: seq<Condition>) returns (i: nat)
    ensures FirstConflict(s, conditions).None? <==> AllHold(s, conditions)
    ensures FirstConflict(s, conditions).Some? ==> Broken(s, conditions, i, FirstConflict(s, conditions).value)
  {
    hide Holds, Names, AllHold;
    i := 0;
    EmptyHolds(s);
    if conditions != [] {
      var c, rest := conditions[0], conditions[1..];
      AllHoldStep(s, conditions);
      HoldsExact(s, c);
      if Holds(s, c) {
        i := ConflictExact(s, rest);
        if FirstConflict(s, rest).Some? {
          i := i + 1;
          assert conditions[..i][0] == c && conditions[..i][1..] == rest[..i - 1] && conditions[i] == rest[i - 1];
          AllHoldStep(s, conditions[..i]);
        }
      } else {
        assert conditions[..0] == [];
      }
    }
  }

  // ---------------------------------------------------------------- no lost update

  ghost predicate Commits(outcome: Group.Outcome) {
    outcome.Ok? && outcome.value.Some?
  }

  ghost function LsnOf(outcome: Group.Outcome): nat {
    if Commits(outcome) then outcome.value.value else 0
  }

  /** Commit LSNs rise along the outcomes and lie beyond every revision of s. */
  ghost predicate Climbing(s: States, outcomes: seq<Group.Outcome>) {
    && (forall i :: 0 <= i < |outcomes| && Commits(outcomes[i]) ==> LsnOf(outcomes[i]) > 0 && Stamps.RevisionsBelow(s, LsnOf(outcomes[i])))
    && (forall i, j :: 0 <= i < j < |outcomes| && Commits(outcomes[i]) && Commits(outcomes[j]) ==> LsnOf(outcomes[i]) < LsnOf(outcomes[j]))
  }

  /** The revision of a key after the first p requests. */
  ghost function RevisionAt(s: States, requests: seq<Request>, outcomes: seq<Group.Outcome>, p: nat, key: DocumentKey): nat
    requires p <= |requests| == |outcomes|
  {
    Get(Group.SerialState(s, requests[..p], outcomes[..p]), key).revision
  }

  /** A committed request gives the keys it writes its commit LSN; no other
      revision changes. */
  lemma RevisionStep(s: States, requests: seq<Request>, outcomes: seq<Group.Outcome>, maxValueSize: nat, p: nat, key: DocumentKey)
    requires Group.Serial(s, requests, outcomes, maxValueSize) && p < |requests|
    ensures |outcomes| == |requests|
    ensures RevisionAt(s, requests, outcomes, p + 1, key) ==
            if Commits(outcomes[p]) && Mutates(requests[p].mutations, key) then LsnOf(outcomes[p])
            else RevisionAt(s, requests, outcomes, p, key)
  {
    var rs, os := requests[..p + 1], outcomes[..p + 1];
    assert rs[..p] == requests[..p] && os[..p] == outcomes[..p];
    var before := Group.SerialState(s, requests[..p], outcomes[..p]);
    assert Group.OutcomeOk(before, requests[p], outcomes[p], maxValueSize);
    if Commits(outcomes[p]) {
      MutationsLookup(before, requests[p].mutations, LsnOf(outcomes[p]), key);
    }
  }

  lemma {:induction false} RevisionBound(s: States, key: DocumentKey, n: nat)
    requires Stamps.RevisionsBelow(s, n) && n > 0
    ensures Get(s, key).revision < n
  {
    if s != [] && s[0].0 != key {
      assert Stamps.RevisionsBelow(s[1..], n);
      RevisionBound(s[1..], key, n);
    }
  }

  /** No key has the revision of a commit that is still to come. */
  lemma {:induction false} RevisionBelow(s: States, requests: seq<Request>, outcomes: seq<Group.Outcome>, maxValueSize: nat, p: nat, j: nat, key: DocumentKey)
    requires Group.Serial(s, requests, outcomes, maxValueSize) && Climbing(s, outcomes) && p <= j < |requests| == |outcomes| && Commits(outcomes[j])
    ensures RevisionAt(s, requests, outcomes, p, key) < LsnOf(outcomes[j])
    decreases p
  {
    if p == 0 {
      RevisionBound(s, key, LsnOf(outcomes[j]));
    } else {
      RevisionBelow(s, requests, outcomes, maxValueSize, p - 1, j, key);
      hide Group.Serial, RevisionAt, Stamps.RevisionsBelow;
      RevisionStep(s, requests, outcomes, maxValueSize, p - 1, key);
    }
  }

  /** Once written, a key never has an older revision again. */
  lemma {:induction false} RevisionKept(s: States, requests: seq<Request>, outcomes: seq<Group.Outcome>, maxValueSize: nat, i: nat, p: nat, key: DocumentKey)
    requires Group.Serial(s, requests, outcomes, maxValueSize) && Climbing(s, outcomes) && i < p <= |requests| == |outcomes|
    requires Commits(outcomes[i]) && Mutates(requests[i].mutations, key)
    ensures RevisionAt(s, requests, outcomes, p, key) >= LsnOf(outcomes[i])
    decreases p
  {
    hide Group.Serial, RevisionAt, Stamps.RevisionsBelow;
    if i + 1 < p {
      RevisionKept(s, requests, outcomes, maxValueSize, i, p - 1, key);
    }
    RevisionStep(s, requests, outcomes, maxValueSize, p - 1, key);
  }

  /** An accepted request meets its revision conditions. */
  lemma AcceptedMeets(s: States, requests: seq<Request>, outcomes: seq<Group.Outcome>, maxValueSize: nat, p: nat, key: DocumentKey, revision: nat)
    requires Group.Serial(s, requests, outcomes, maxValueSize) && p < |requests| == |outcomes| && outcomes[p].Ok?
    requires RevisionEquals(key, revision) in requests[p].conditions
    ensures RevisionAt(s, requests, outcomes, p, key) == revision
    ensures requests[p].mutations != [] ==> Commits(outcomes[p])
  {
    var before := Group.SerialState(s, requests[..p], outcomes[..p]);
    assert Group.OutcomeOk(before, requests[p], outcomes[p], maxValueSize);
    var i := UnmetExact(before, requests[p].conditions);
    var c :| 0 <= c < |requests[p].conditions| && requests[p].conditions[c] == RevisionEquals(key, revision);
    assert Holds(before, requests[p].conditions[c]);
  }

  /** No update is lost: of two requests of a serial run that demand the same
      revision of a key, the first of which writes it, at most one is
      accepted. */
  lemma NoLostUpdate(s: States, requests: seq<Request>, outcomes: seq<Group.Outcome>, maxValueSize: nat, i: nat, j: nat, key: DocumentKey, revision: nat)
    requires Group.Serial(s, requests, outcomes, maxValueSize) && Climbing(s, outcomes) && i < j < |requests|
    requires RevisionEquals(key, revision) in requests[i].conditions && RevisionEquals(key, revision) in requests[j].conditions
    requires Mutates(requests[i].mutations, key)
    ensures |outcomes| == |requests| && (outcomes[i].Err? || outcomes[j].Err?)
  {
    Group.SerialCount(s, requests, outcomes, maxValueSize);
    hide Group.Serial, Climbing, RevisionAt;
    if outcomes[i].Ok? && outcomes[j].Ok? {
      AcceptedMeets(s, requests, outcomes, maxValueSize, i, key, revision);
      AcceptedMeets(s, requests, outcomes, maxValueSize, j, key, revision);
      RevisionBelow(s, requests, outcomes, maxValueSize, i, i, key);
      RevisionKept(s, requests, outcomes, maxValueSize, i, j, key);
    }
  }

  // ---------------------------------------------------------------- over every run

  lemma {:induction false} CommittedAt(outcomes: seq<Group.Outcome>, i: nat)
    requires i < |outcomes| && Commits(outcomes[i])
    ensures var at := |Group.Committed(outcomes[..i])|;
            at < |Group.Committed(outcomes)| && Group.Committed(outcomes)[at] == LsnOf(outcomes[i])
  {
    assert outcomes[..i + 1][..i] == outcomes[..i];
    Tales.CommittedPrefix(outcomes, i + 1);
  }

  lemma AscendingClimbs(outcomes: seq<Group.Outcome>)
    requires var lsns := Group.Committed(outcomes);
             (forall a :: 0 <= a < |lsns| ==> lsns[a] > 0) && (forall a, b :: 0 <= a < b < |lsns| ==> lsns[a] < lsns[b])
    ensures Climbing([], outcomes)
  {
    hide Group.Committed;
    forall i | 0 <= i < |outcomes| && Commits(outcomes[i]) ensures LsnOf(outcomes[i]) > 0 {
      CommittedAt(outcomes, i);
    }
    forall i, j | 0 <= i < j < |outcomes| && Commits(outcomes[i]) && Commits(outcomes[j]) ensures LsnOf(outcomes[i]) < LsnOf(outcomes[j]) {
      CommittedAt(outcomes, i);
      CommittedAt(outcomes, j);
      CommittedAt(outcomes[..j], i);
      assert outcomes[..j][..i] == outcomes[..i];
    }
  }

  lemma LogClimbs(s: Durability.State)
    requires Durability.Inv(s)
    ensures var lsns := Group.CommitLsns(s.h.log);
            (forall a :: 0 <= a < |lsns| ==> lsns[a] > 0) && (forall a, b :: 0 <= a < b < |lsns| ==> lsns[a] < lsns[b])
  {
    hide Durability.PhaseOk, Durability.FilesOk, Versions.LogOk, Durability.WalFileOk;
    DurabilityProof.FilesHistory(s.h, s.disk);
    DurabilityProof.HistoryLog(s.h);
    forall a | 0 <= a < |s.h.log| ensures s.h.log[a].commitLsn > 0 {
      Versions.LsnAscends(s.h.base, s.h.lsn0, s.h.log, 0, a + 1);
    }
    forall a, b | 0 <= a < b < |s.h.log| ensures s.h.log[a].commitLsn < s.h.log[b].commitLsn {
      Versions.LsnAscends(s.h.base, s.h.lsn0, s.h.log, a + 1, b + 1);
    }
  }

  /** The law over every run from the initialised store, through any crashes and
      recoveries: of two requests whose effects are told at a point where the
      store serves and that demand the same revision of a key the first writes,
      at most one was accepted. */
  lemma NoUpdateLostInAnyRun(states: seq<Durability.State>, steps: seq<Durability.Step>, tales: seq<Tales.Tale>, maxValueSize: nat, at: nat,
                             i: nat, j: nat, key: DocumentKey, revision: nat)
    requires EndToEnd.TaleRun(states, steps, tales, maxValueSize) && at < |states| && states[at].phase.Idle?
    requires i < j < |tales[at].requests| && Mutates(tales[at].requests[i].mutations, key)
    requires RevisionEquals(key, revision) in tales[at].requests[i].conditions
    requires RevisionEquals(key, revision) in tales[at].requests[j].conditions
    ensures |tales[at].outcomes| == |tales[at].requests|
    ensures tales[at].outcomes[i].Err? || tales[at].outcomes[j].Err?
  {
    hide Durability.Inv, Group.Serial, Group.CommitLsns, Group.Committed, Group.SerialState, EndToEnd.Documented, Durability.Transition, EndToEnd.TaleStep;
    var t := tales[at];
    EndToEnd.DocumentsSurvive(states, steps, tales, maxValueSize, at, at);
    EndToEnd.RunTruthful(states, steps, tales, maxValueSize, at);
    hide EndToEnd.TaleRun, EndToEnd.Truthful;
    LogClimbs(states[at]);
    AscendingClimbs(t.outcomes);
    NoLostUpdate([], t.requests, t.outcomes, maxValueSize, i, j, key, revision);
  }
}
