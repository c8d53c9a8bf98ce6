/** The whole store: group commit over the tree, the durability protocol below
    it, and the documents that survive. */
module EndToEnd {
  import opened Pages
  import opened Splits
  import opened Batches
  import opened Versions
  import opened Redo
  import opened Disk
  import opened Chronicle
  import opened Durability
  import opened CrashSafety
  import opened Reference
  import opened Transactions
  import opened Seqs
  import opened Tree
  import opened Space
  import opened Database
  import opened SmallTrees
  import opened Reads
  import opened Tales
  import Stamps
  import Group = GroupCommit

  lemma ConsistentWhole(img: Image, sh: Shape)
    requires Consistent(img, sh)
    ensures Whole(img)
  {
    Stamps.AllPagesThere(img, sh);
  }

  lemma GroupConsistent(img: Image, group: seq<Prepared>, shapes: seq<Shape>, states: seq<States>, k: nat)
    requires Group.History(img, group, shapes, states) && Group.Roomy(shapes) && k <= |group|
    ensures |shapes| == |states| == |group| + 1
    ensures Consistent(ImageAfter(img, group[..k]), shapes[k]) && Documented(ImageAfter(img, group[..k]), states[k])
  {
    hide Working;
    assert Group.Holds(ImageAfter(img, group[..k]), shapes[k], states[k]);
  }

  /** The image is a consistent tree that holds exactly these documents, in
      records of at most half a page. */
  ghost predicate Documented(img: Image, docs: States) {
    exists sh :: Group.Holds(img, sh, docs) && 2 * sh.cap <= RECORD_SPACE
  }

  /** The documents after every prefix of the log. */
  ghost predicate Told(base: Image, log: seq<Prepared>, docs: seq<States>) {
    && |docs| == |log| + 1
    && forall k :: 0 <= k <= |log| ==> Documented(ImageAfter(base, log[..k]), docs[k])
  }

  lemma ToldPrefix(base: Image, log: seq<Prepared>, docs: seq<States>, n: nat)
    requires Told(base, log, docs) && n <= |log|
    ensures Told(base, log[..n], docs[..n + 1])
  {
    hide Documented;
    forall k | 0 <= k <= n ensures Documented(ImageAfter(base, log[..n][..k]), docs[..n + 1][k]) {
      assert log[..n][..k] == log[..k];
    }
  }

  lemma ToldGrows(base: Image, log: seq<Prepared>, docs: seq<States>, group: seq<Prepared>, shapes: seq<Shape>, states: seq<States>)
    requires Told(base, log, docs) && Group.History(ImageAfter(base, log), group, shapes, states) && Group.Roomy(shapes)
    ensures |states| == |group| + 1 && Told(base, log + group, docs + states[1..])
  {
    hide Documented, Group.History, Working;
    GroupConsistent(ImageAfter(base, log), group, shapes, states, 0);
    var log', docs' := log + group, docs + states[1..];
    forall k | 0 <= k <= |log'| ensures Documented(ImageAfter(base, log'[..k]), docs'[k]) {
      if k <= |log| {
        assert log'[..k] == log[..k];
      } else {
        GroupConsistent(ImageAfter(base, log), group, shapes, states, k - |log|);
        assert log'[..k] == log + group[..k - |log|];
        ImageJoin(base, log, group[..k - |log|]);
      }
    }
  }

  // ---------------------------------------------------------------- the initialised store

  ghost function InitialShape(): Shape {
    LeafShape(0)
  }

  /** The initialised store is a consistent tree without documents. */
  lemma InitialConsistent()
    ensures Consistent(InitialImage(), InitialShape()) && Docs(InitialImage(), InitialShape()) == []
  {
    assert Total(Sizes([])) == 0;
    LeafTree(0, [], 0);
  }

  lemma InitialDocumented()
    ensures Told(InitialImage(), [], [[]])
  {
    hide Working;
    InitialConsistent();
    assert Group.Holds(InitialImage(), InitialShape(), []);
    assert Documented(InitialImage(), []);
  }

  // ---------------------------------------------------------------- tales along a run

  /** The logged batches and, while a group is being appended, that group. */
  ghost function FullLog(s: State): seq<Prepared> {
    if s.phase.Appended? then s.h.log + s.phase.tail else s.h.log
  }

  /** The batches are what group commit makes of some requests on the served
      image and its documents. */
  ghost predicate StagedAs(s: State, group: seq<Prepared>, docs: States, requests: seq<Request>, outcomes: seq<Group.Outcome>,
                           shapes: seq<Shape>, states: seq<States>, maxValueSize: nat) {
    && s.phase.Idle?
    && Group.GroupOk(Committed(s.h), docs, CountersOf(s.phase.mem), requests, outcomes, group, shapes, states,
                     ImageAfter(Committed(s.h), group), Next(group, |group|, CountersOf(s.phase.mem)), maxValueSize)
    && Group.Roomy(shapes)
  }

  /** How the tale goes on: a group adds its requests, a sync settles them, and a
      crash cuts the tale behind the last surviving commit. */
  ghost predicate TaleStep(s: State, step: Step, s': State, t: Tale, t': Tale, maxValueSize: nat) {
    match step
    case Append(group, _) =>
      exists requests, outcomes, shapes, states ::
        && StagedAs(s, group, Now(t), requests, outcomes, shapes, states, maxValueSize)
        && states != [] && t' == TaleGrown(t, requests, outcomes, states)
    case SyncLog => t' == t.(settled := |t.requests|)
    case Crash(_, _, _) =>
      && t.settled <= |t.outcomes| == |t.requests| && |s'.h.log| < |t.docs|
      && t' == TaleCut(t, |s'.h.log|)
    case _ => t' == t
  }

  /** A run from the freshly initialised store, with what was asked of it. */
  ghost predicate TaleRun(states: seq<State>, steps: seq<Step>, tales: seq<Tale>, maxValueSize: nat) {
    && |states| == |steps| + 1 == |tales| && states[0] == InitialState() && tales[0] == NoTale()
    && (forall i :: 0 <= i < |steps| ==> Transition(states[i], steps[i], states[i + 1]))
    && (forall i :: 0 <= i < |steps| ==> TaleStep(states[i], steps[i], states[i + 1], tales[i], tales[i + 1], maxValueSize))
  }

  lemma TaleRunIsRun(states: seq<State>, steps: seq<Step>, tales: seq<Tale>, maxValueSize: nat)
    requires TaleRun(states, steps, tales, maxValueSize)
    ensures Run(states, steps)
  {
    hide Transition, TaleStep;
    InitialStart();
  }

  lemma StepLogs(s: State, step: Step, s': State)
    requires Inv(s) && Transition(s, step, s')
    ensures s'.h.base == s.h.base && s.h.log <= s'.h.log
    ensures step.Append? ==> s.h.log == FullLog(s) && FullLog(s') == s.h.log + step.group && s'.h == s.h
    ensures step.SyncLog? ==> FullLog(s') == s'.h.log == FullLog(s)
    ensures step.Crash? ==> s'.h.log <= FullLog(s) && FullLog(s') == s'.h.log
    ensures !step.Append? && !step.SyncLog? && !step.Crash? ==> FullLog(s') == FullLog(s) && s'.h.log == s.h.log
  {
    hide Inv, GroupFrom, CrashesTo, Recovered, Since, Forget, Checkpointed, Ordered, Extend, Write, HighestRevision;
    StepKeepsLog(s, step, s');
    DurabilityProofInv(s);
    match step
    case SyncLog => GrowAdds(s.h, s.phase.tail);
    case Crash(_, _, kept) =>
      if s.phase.Appended? && kept <= |s.phase.tail| {
        GrowAdds(s.h, s.phase.tail[..kept]);
      }
    case Serve(_) => ForgetLog(s.h, ChooseSuperblock(s.disk.volatile[0], s.disk.volatile[1]).value.1);
    case MarkWrite =>
      assert Checkpointed(s.h).log == s.h.log by {
        CheckpointLog(s.h);
      }
    case _ =>
  }

  lemma ForgetLog(h: History, sb: Superblock)
    ensures Forget(h, sb).log == h.log
  {
  }

  lemma CheckpointLog(h: History)
    requires h.events != []
    ensures Checkpointed(h).log == h.log
  {
  }

  lemma DurabilityProofInv(s: State)
    requires Inv(s)
    ensures s.h.events != []
  {
  }

  // ---------------------------------------------------------------- the tale is true

  /** The tale fits the log: its commits are the batches, the settled part is
      what is durable, and the images hold its documents. */
  ghost predicate Truthful(s: State, t: Tale, maxValueSize: nat) {
    && TaleOk(t, maxValueSize) && |t.outcomes| == |t.requests|
    && Group.Committed(t.outcomes) == Group.CommitLsns(FullLog(s))
    && Group.Committed(t.outcomes[..t.settled]) == Group.CommitLsns(s.h.log)
    && Told(InitialImage(), FullLog(s), t.docs)
  }

  lemma TruthfulStart(maxValueSize: nat)
    ensures Truthful(InitialState(), NoTale(), maxValueSize)
  {
    NoTaleOk(maxValueSize);
    InitialDocumented();
  }

  lemma StagedParts(s: State, group: seq<Prepared>, docs: States, requests: seq<Request>, outcomes: seq<Group.Outcome>,
                    shapes: seq<Shape>, states: seq<States>, maxValueSize: nat)
    requires StagedAs(s, group, docs, requests, outcomes, shapes, states, maxValueSize)
    ensures Group.Serial(docs, requests, outcomes, maxValueSize) && Group.Along(docs, requests, outcomes, states)
    ensures |outcomes| == |requests| && states != [] && states[0] == docs && |states| == |Group.Committed(outcomes)| + 1
    ensures Group.Committed(outcomes) == Group.CommitLsns(group) && |Group.Committed(outcomes)| == |group|
    ensures Group.History(Committed(s.h), group, shapes, states) && Group.Roomy(shapes) && Ordered(group, CountersOf(s.phase.mem))
  {
    hide Group.Holds, Group.Along, Group.OutcomeOk, Ordered;
  }

  lemma TruthfulAppend(s: State, group: seq<Prepared>, s': State, t: Tale, requests: seq<Request>, outcomes: seq<Group.Outcome>,
                       shapes: seq<Shape>, states: seq<States>, maxValueSize: nat)
    requires Truthful(s, t, maxValueSize) && s.h.base == InitialImage()
    requires StagedAs(s, group, Now(t), requests, outcomes, shapes, states, maxValueSize)
    requires s.h.log == FullLog(s) && FullLog(s') == s.h.log + group && s'.h == s.h
    ensures states != [] && Truthful(s', TaleGrown(t, requests, outcomes, states), maxValueSize)
  {
    hide StagedAs, TaleOk, Told, Group.Serial, Group.Along, Group.History, Group.Roomy, Group.Committed, Ordered;
    StagedParts(s, group, Now(t), requests, outcomes, shapes, states, maxValueSize);
    TaleBasics(t, maxValueSize);
    TaleGrows(t, requests, outcomes, states, maxValueSize);
    assert s.h.log[..|s.h.log|] == s.h.log;
    ToldGrows(InitialImage(), s.h.log, t.docs, group, shapes, states);
    LsnsJoin(s.h.log, group);
    SettledSame(t, requests, outcomes);
  }

  lemma SettledSame(t: Tale, requests: seq<Request>, outcomes: seq<Group.Outcome>)
    requires t.settled <= |t.requests| == |t.outcomes|
    ensures (t.outcomes + outcomes)[..t.settled] == t.outcomes[..t.settled]
  {
  }

  lemma LsnsJoin(a: seq<Prepared>, b: seq<Prepared>)
    ensures Group.CommitLsns(a + b) == Group.CommitLsns(a) + Group.CommitLsns(b)
  {
  }

  lemma LsnsPrefix(a: seq<Prepared>, n: nat)
    requires n <= |a|
    ensures Group.CommitLsns(a[..n]) == Group.CommitLsns(a)[..n] && |Group.CommitLsns(a)| == |a|
  {
  }

  lemma TruthfulCrash(s: State, s': State, t: Tale, maxValueSize: nat)
    requires Truthful(s, t, maxValueSize) && s'.h.log <= FullLog(s) && FullLog(s') == s'.h.log && s.h.log <= s'.h.log
    ensures t.settled <= |t.outcomes| == |t.requests| && |s'.h.log| < |t.docs|
    ensures Truthful(s', TaleCut(t, |s'.h.log|), maxValueSize)
    ensures t.requests[..t.settled] <= TaleCut(t, |s'.h.log|).requests && t.outcomes[..t.settled] <= TaleCut(t, |s'.h.log|).outcomes
  {
    hide TaleOk, Told, Group.Committed, Survivors;
    var n := |s'.h.log|;
    TaleBasics(t, maxValueSize);
    LsnsPrefix(FullLog(s), n);
    LsnsPrefix(s.h.log, |s.h.log|);
    assert s'.h.log == FullLog(s)[..n];
    TaleCuts(t, n, maxValueSize);
    ToldPrefix(InitialImage(), FullLog(s), t.docs, n);
    var t' := TaleCut(t, n);
    assert t'.outcomes[..t'.settled] == t'.outcomes;
  }

  lemma TaleBasics(t: Tale, maxValueSize: nat)
    requires TaleOk(t, maxValueSize)
    ensures |t.outcomes| == |t.requests| && t.settled <= |t.requests| && |t.docs| == |Group.Committed(t.outcomes)| + 1
  {
    hide Group.Committed, Group.OutcomeOk;
  }

  lemma TruthfulStep(s: State, step: Step, s': State, t: Tale, t': Tale, maxValueSize: nat)
    requires Inv(s) && Transition(s, step, s') && TaleStep(s, step, s', t, t', maxValueSize)
    requires Truthful(s, t, maxValueSize) && s.h.base == InitialImage()
    ensures Truthful(s', t', maxValueSize) && s'.h.base == InitialImage()
    ensures t.requests[..t.settled] <= t'.requests && t.outcomes[..t.settled] <= t'.outcomes && t.settled <= t'.settled
  {
    hide Inv, Transition, Truthful, StagedAs, Survivors;
    StepLogs(s, step, s');
    TruthfulBasics(s, t, maxValueSize);
    match step
    case Append(group, _) =>
      var requests, outcomes, shapes, states :|
        && StagedAs(s, group, Now(t), requests, outcomes, shapes, states, maxValueSize)
        && states != [] && t' == TaleGrown(t, requests, outcomes, states);
      TruthfulAppend(s, group, s', t, requests, outcomes, shapes, states, maxValueSize);
    case SyncLog => TruthfulSync(s, s', t, maxValueSize);
    case Crash(_, _, _) =>
      TruthfulCrash(s, s', t, maxValueSize);
      CutSettled(t, |s'.h.log|);
    case _ => TruthfulSame(s, s', t, maxValueSize);
  }

  lemma CutSettled(t: Tale, n: nat)
    requires t.settled <= |t.outcomes| == |t.requests| && n < |t.docs|
    ensures t.settled <= TaleCut(t, n).settled
  {
    hide CutAt, Group.Committed;
  }

  lemma TruthfulBasics(s: State, t: Tale, maxValueSize: nat)
    requires Truthful(s, t, maxValueSize)
    ensures |t.outcomes| == |t.requests| && t.settled <= |t.requests|
  {
    hide Told;
    TaleBasics(t, maxValueSize);
  }

  lemma TruthfulSync(s: State, s': State, t: Tale, maxValueSize: nat)
    requires Truthful(s, t, maxValueSize) && FullLog(s') == s'.h.log == FullLog(s)
    ensures Truthful(s', t.(settled := |t.requests|), maxValueSize)
  {
    hide Told, Group.Committed, Group.Along, Group.Serial;
    assert t.outcomes[..|t.requests|] == t.outcomes;
  }

  lemma TruthfulSame(s: State, s': State, t: Tale, maxValueSize: nat)
    requires Truthful(s, t, maxValueSize) && FullLog(s') == FullLog(s) && s'.h.log == s.h.log
    ensures Truthful(s', t, maxValueSize)
  {
    hide Told, Group.Committed, TaleOk;
  }

  lemma {:induction false} RunTruthful(states: seq<State>, steps: seq<Step>, tales: seq<Tale>, maxValueSize: nat, i: nat)
    requires TaleRun(states, steps, tales, maxValueSize) && i < |states|
    ensures Truthful(states[i], tales[i], maxValueSize) && states[i].h.base == InitialImage() && Inv(states[i])
  {
    hide Inv, Transition, Truthful, TaleStep, Run;
    TaleRunIsRun(states, steps, tales, maxValueSize);
    RunInv(states, steps, i);
    if i == 0 {
      TruthfulStart(maxValueSize);
    } else {
      RunTruthful(states, steps, tales, maxValueSize, i - 1);
      TruthfulStep(states[i - 1], steps[i - 1], states[i], tales[i - 1], tales[i], maxValueSize);
    }
  }

  /** What was settled stays told. */
  lemma {:induction false} RunKeepsTale(states: seq<State>, steps: seq<Step>, tales: seq<Tale>, maxValueSize: nat, i: nat, j: nat)
    requires TaleRun(states, steps, tales, maxValueSize) && i <= j < |states|
    ensures tales[i].settled <= |tales[i].requests| == |tales[i].outcomes| && tales[i].settled <= tales[j].settled
    ensures tales[j].settled <= |tales[j].requests| == |tales[j].outcomes|
    ensures tales[i].requests[..tales[i].settled] <= tales[j].requests && tales[i].outcomes[..tales[i].settled] <= tales[j].outcomes
    decreases j
  {
    hide Inv, Transition, Truthful, TaleStep;
    RunTruthful(states, steps, tales, maxValueSize, j);
    TruthfulBasics(states[j], tales[j], maxValueSize);
    if i < j {
      RunKeepsTale(states, steps, tales, maxValueSize, i, j - 1);
      RunTruthful(states, steps, tales, maxValueSize, j - 1);
      TruthfulStep(states[j - 1], steps[j - 1], states[j], tales[j - 1], tales[j], maxValueSize);
      PrefixTrans(tales[i].requests, tales[j - 1].requests, tales[j].requests, tales[i].settled, tales[j - 1].settled);
      PrefixTrans(tales[i].outcomes, tales[j - 1].outcomes, tales[j].outcomes, tales[i].settled, tales[j - 1].settled);
    }
  }

  lemma PrefixTrans<T>(a: seq<T>, b: seq<T>, c: seq<T>, m: nat, n: nat)
    requires m <= |a| && n <= |b| && m <= n && a[..m] <= b && b[..n] <= c
    ensures a[..m] <= c
  {
    assert a[..m] == b[..n][..m];
  }

  // ---------------------------------------------------------------- the theorem

  /** Crash safety of the documents.  At any later point of any run from the
      initialised store, whatever crashes and interrupted recoveries lie
      between, a running store is a consistent tree that holds exactly the
      documents of the serial execution of a sequence of requests from the empty
      database.  The commits of that sequence are the surviving batches; it
      begins with all requests whose groups were durable earlier, acknowledged
      ones included, and their outcomes are those of the serial execution. */
  lemma DocumentsSurvive(states: seq<State>, steps: seq<Step>, tales: seq<Tale>, maxValueSize: nat, i: nat, j: nat)
    requires TaleRun(states, steps, tales, maxValueSize) && i <= j < |states| && states[j].phase.Idle?
    ensures |tales[j].outcomes| == |tales[j].requests|
    ensures Documented(Served(states[j]), Group.SerialState([], tales[j].requests, tales[j].outcomes))
    ensures Group.Serial([], tales[j].requests, tales[j].outcomes, maxValueSize)
    ensures Group.Committed(tales[j].outcomes) == Group.CommitLsns(states[j].h.log)
    ensures tales[i].settled <= |tales[i].requests| == |tales[i].outcomes|
    ensures tales[i].requests[..tales[i].settled] <= tales[j].requests && tales[i].outcomes[..tales[i].settled] <= tales[j].outcomes
    ensures Group.Committed(tales[i].outcomes[..tales[i].settled]) == Group.CommitLsns(states[i].h.log)
    ensures states[i].acked <= |states[i].h.log|
  {
    hide Inv, Transition, TaleStep, Documented, TaleRun, Run, Group.Committed, Group.SerialState;
    RunStarts(states, steps, tales, maxValueSize);
    RunTruthful(states, steps, tales, maxValueSize, i);
    RunTruthful(states, steps, tales, maxValueSize, j);
    RunKeepsTale(states, steps, tales, maxValueSize, i, j);
    TaleRunIsRun(states, steps, tales, maxValueSize);
    CrashSafe(states, steps, i, j);
    TaleEnds(tales[j], maxValueSize);
    ToldEnd(states[j], tales[j]);
  }

  lemma RunStarts(states: seq<State>, steps: seq<Step>, tales: seq<Tale>, maxValueSize: nat)
    requires TaleRun(states, steps, tales, maxValueSize)
    ensures |states| == |steps| + 1 == |tales| && states[0].h.base == InitialImage()
  {
    hide Transition, TaleStep;
  }

  lemma ToldEnd(s: State, t: Tale)
    requires s.phase.Idle? && Told(InitialImage(), FullLog(s), t.docs)
    ensures t.docs != [] && Documented(ImageAfter(InitialImage(), s.h.log), t.docs[|t.docs| - 1])
  {
    hide Documented;
    assert s.h.log[..|s.h.log|] == s.h.log;
  }

  /** For requests within the storage limits the surviving documents, and every
      answer, are those of the reference database. */
  lemma SurvivorsAreReference(states: seq<State>, steps: seq<Step>, tales: seq<Tale>, maxValueSize: nat, j: nat, lsns: seq<nat>)
    requires TaleRun(states, steps, tales, maxValueSize) && j < |states| && states[j].phase.Idle?
    requires Group.Replays(tales[j].outcomes, lsns)
    requires forall k :: 0 <= k < |tales[j].requests| ==> Group.WithinLimits(tales[j].requests[k], maxValueSize)
    ensures |lsns| == |tales[j].outcomes| == |tales[j].requests|
    ensures Documented(Served(states[j]), Group.ReferenceState([], tales[j].requests, lsns))
    ensures forall k :: 0 <= k < |tales[j].requests| ==>
              Group.Agrees(Group.ReferenceState([], tales[j].requests[..k], lsns[..k]), tales[j].requests[k], lsns[k], tales[j].outcomes[k])
  {
    hide TaleRun, Documented, Group.Agrees, Group.WithinLimits, Group.Committed, Group.Serial, Group.SerialState, Group.ReferenceState, Served;
    RunStarts(states, steps, tales, maxValueSize);
    DocumentsSurvive(states, steps, tales, maxValueSize, j, j);
    Group.GroupIsReference([], tales[j].requests, tales[j].outcomes, lsns, maxValueSize);
  }
}
