/** Revisions across restarts: the counters that a reopened store computes are
    beyond every stamp in the tree, so the next group can be staged
    (btree/mod.rs, open_with_wal_internal). */
module Resume {
  import opened Lex
  import opened KeyCodec
  import opened Pages
  import opened Splits
  import opened Batches
  import opened Versions
  import opened Redo
  import opened Disk
  import opened Chronicle
  import opened Durability
  import opened DurabilityProof
  import opened CrashSafety
  import opened Reference
  import opened Transactions
  import opened Seqs
  import opened Tree
  import opened Database
  import opened Reads
  import opened Stamps
  import opened Tales
  import opened EndToEnd
  import Group = GroupCommit
  import Checker
  import CheckerComplete
  import Staging = Overlay

  // ---------------------------------------------------------------- the revisions of a serial run

  lemma NothingCommitted(outcomes: seq<Group.Outcome>, maxValueSize: nat)
    requires Group.Serial([], [], outcomes, maxValueSize)
    ensures outcomes == []
  {
  }

  lemma LastOutcome(requests: seq<Request>, outcomes: seq<Group.Outcome>, maxValueSize: nat)
    requires Group.Serial([], requests, outcomes, maxValueSize) && requests != []
    ensures |outcomes| == |requests|
    ensures var o := outcomes[|outcomes| - 1]; o.Ok? && o.value.Some? ==> requests[|requests| - 1].mutations != []
  {
    hide Group.SerialState, Staging.Refusal;
    var n := |requests| - 1;
    assert Group.OutcomeOk(Group.SerialState([], requests[..n], outcomes[..n]), requests[n], outcomes[n], maxValueSize);
  }

  /** Every revision is a commit LSN, and the last commit LSN is a revision. */
  lemma {:induction false} SerialRevisions(requests: seq<Request>, outcomes: seq<Group.Outcome>, maxValueSize: nat)
    requires Group.Serial([], requests, outcomes, maxValueSize)
    ensures forall d :: d in Group.SerialState([], requests, outcomes) ==> d.1.revision in Group.Committed(outcomes)
    ensures var lsns := Group.Committed(outcomes);
            lsns != [] ==> exists d :: d in Group.SerialState([], requests, outcomes) && d.1.revision == lsns[|lsns| - 1]
  {
    hide ApplyMutations, Group.OutcomeOk, Group.Serial;
    if requests == [] {
      NothingCommitted(outcomes, maxValueSize);
    } else {
      var n := |requests| - 1;
      LastOutcome(requests, outcomes, maxValueSize);
      Group.SerialPrefix([], requests, outcomes, n, maxValueSize);
      SerialRevisions(requests[..n], outcomes[..n], maxValueSize);
      if outcomes[n].Ok? && outcomes[n].value.Some? {
        MutationRevisions(Group.SerialState([], requests[..n], outcomes[..n]), requests[n].mutations, outcomes[n].value.value);
      }
    }
  }

  // ---------------------------------------------------------------- the revisions of the committed image

  /** The commit LSN of the last batch, 0 if there is none. */
  ghost function LastLsn(s: State): nat {
    LsnOf(0, s.h.log, |s.h.log|)
  }

  lemma {:induction false} LsnsBelow(base: Image, lsn0: nat, log: seq<Prepared>, i: nat)
    requires LogOk(base, lsn0, log) && i < |log|
    ensures 0 < log[i].commitLsn <= LsnOf(lsn0, log, |log|)
  {
    LsnAscends(base, lsn0, log, i + 1, |log|);
    assert BatchOk(base, lsn0, log, i);
  }

  /** The documents of a tale whose commits are all logged: no revision beyond
      the last commit, and that one is there. */
  lemma TaleRevisions(s: State, t: Tale, maxValueSize: nat)
    requires Truthful(s, t, maxValueSize) && FullLog(s) == s.h.log && LogOk(s.h.base, 0, s.h.log)
    ensures t.docs != [] && RevisionsBelow(Now(t), LastLsn(s) + 1)
    ensures s.h.log != [] ==> exists d :: d in Now(t) && d.1.revision == LastLsn(s)
    ensures s.h.log == [] ==> Now(t) == []
  {
    hide Told, LogOk, Group.SerialState, Group.Committed;
    TaleEnds(t, maxValueSize);
    TaleSerial(t, maxValueSize);
    SerialRevisions(t.requests, t.outcomes, maxValueSize);
    var lsns, docs := Group.Committed(t.outcomes), Now(t);
    assert lsns == Group.CommitLsns(s.h.log) && |lsns| == |s.h.log|;
    forall i | 0 <= i < |docs| ensures docs[i].1.revision < LastLsn(s) + 1 {
      assert docs[i] in docs;
      var k :| 0 <= k < |lsns| && lsns[k] == docs[i].1.revision;
      LsnsBelow(s.h.base, 0, s.h.log, k);
    }
    assert docs != [] ==> docs[0] in docs && docs[0].1.revision in lsns;
  }

  lemma TaleSerial(t: Tale, maxValueSize: nat)
    requires TaleOk(t, maxValueSize)
    ensures Group.Serial([], t.requests, t.outcomes, maxValueSize)
  {
  }

  /** Stamps and revisions of a tree whose documents are that old. */
  lemma StampsBelow(img: Image, sh: Shape, docs: States, lsn: nat)
    requires Group.Holds(img, sh, docs) && RevisionsBelow(docs, lsn + 1) && forall x :: x in img.pages ==> img.pages[x].lsn <= lsn
    ensures StampedBelow(img.pages, lsn + 1)
  {
    hide Working, Docs, RevisionsBelow;
    forall x, y | x in img.pages && img.pages[x].Leaf? && 0 <= y < |img.pages[x].entries| ensures img.pages[x].entries[y].revision < lsn + 1 {
      EntryRevision(img, sh, x, y, lsn + 1);
    }
  }

  /** The data pages of a file are those of the image. */
  ghost predicate FileHolds(cells: Cells, img: Image) {
    && |cells| == img.high + 1
    && (forall x :: x in img.pages <==> FIRST_DATA_PAGE <= x < |cells|)
    && (forall x :: x in img.pages ==> cells[x] == DataCell(img.pages[x]))
  }

  lemma RestoredHolds(h: History, cells: Cells)
    requires Restored(h.base, h.log, cells) && Whole(Committed(h))
    ensures FileHolds(cells, Committed(h))
  {
    forall x | x in Committed(h).pages ensures cells[x] == DataCell(Committed(h).pages[x]) {
      assert IsVersion(h.base, h.log, x, cells[x], |h.log|);
    }
  }

  /** The largest revision in the file is the last commit LSN. */
  lemma HighestIsLast(img: Image, sh: Shape, docs: States, cells: Cells, m: nat, lsn: nat)
    requires Group.Holds(img, sh, docs) && FileHolds(cells, img) && HighestRevision(cells, m) && RevisionsBelow(docs, lsn + 1)
    requires (exists d :: d in docs && d.1.revision == lsn) || lsn == 0
    ensures m == lsn
  {
    hide Working, Docs, Group.Holds, RevisionsBelow;
    if m > lsn {
      var x: nat, y: nat :| FIRST_DATA_PAGE <= x < |cells| && y < EntryCount(cells[x]) && RevisionIn(cells[x], y) == m;
      HoldsRevision(img, sh, docs, x, y, lsn);
    }
    if exists d :: d in docs && d.1.revision == lsn {
      var d :| d in docs && d.1.revision == lsn;
      var i :| 0 <= i < |docs| && docs[i] == d;
      HoldsDocs(img, sh, docs);
      var x, y := DocEntry(img, sh, i);
      assert RevisionIn(cells[x], y) == lsn;
    }
  }

  lemma HoldsDocs(img: Image, sh: Shape, docs: States)
    requires Group.Holds(img, sh, docs)
    ensures Consistent(img, sh) && |sh.levels| > 0 && Docs(img, sh) == docs
  {
    hide Working, Docs;
  }

  lemma HoldsRevision(img: Image, sh: Shape, docs: States, x: PageId, y: nat, lsn: nat)
    requires Group.Holds(img, sh, docs) && RevisionsBelow(docs, lsn + 1)
    requires x in img.pages && img.pages[x].Leaf? && y < |img.pages[x].entries|
    ensures img.pages[x].entries[y].revision <= lsn
  {
    hide Working, Docs, RevisionsBelow;
    EntryRevision(img, sh, x, y, lsn + 1);
  }

  // ---------------------------------------------------------------- the counters along a run

  ghost predicate HasMem(phase: Phase) {
    phase.Idle? || phase.Appended? || phase.Marking? || phase.Resetting?
  }

  ghost predicate RevisionOk(s: State) {
    HasMem(s.phase) ==> s.phase.mem.nextRevision == LastLsn(s) + 1
  }

  /** Every step but the end of a recovery keeps the revision counter right by
      itself. */
  lemma StepRevision(s: State, step: Step, s': State)
    requires Inv(s) && Transition(s, step, s') && RevisionOk(s) && !step.Serve?
    ensures RevisionOk(s')
  {
    hide Inv, GroupFrom, CrashesTo, Recovered, Since, Checkpointed, Ordered, Extend, Write, Chronicle.Grow;
    DurabilityProofInv(s);
    match step
    case SyncLog => GrowAdds(s.h, s.phase.tail);
    case MarkWrite =>
      assert Checkpointed(s.h).log == s.h.log by {
        CheckpointLog(s.h);
      }
    case _ =>
  }

  lemma LoggedLast(s: State)
    requires Inv(s) && s.wal.durable.Log?
    ensures LastLogged(s.wal.durable.batches) == (if s.c < |s.h.log| then LastLsn(s) else 0) && s.c <= |s.h.log|
  {
    hide FilesOk, PhaseOk, Settled, ResetAt;
    var batches := s.wal.durable.batches;
    assert WalHolds(batches, s.h.log, s.c);
    if batches != [] {
      assert Logs(batches[|batches| - 1], s.h.log[s.c + |batches| - 1]);
    }
  }

  /** A recovery computes the revision counter from the tree and the log. */
  lemma ServeRevision(s: State, maxRevision: nat, s': State, t: Tale, maxValueSize: nat)
    requires Inv(s) && DoServe(s, maxRevision, s') && s.h.lsn0 == 0 && s.h.base == InitialImage()
    requires Truthful(s, t, maxValueSize)
    ensures RevisionOk(s') && maxRevision == LastLsn(s)
  {
    hide Inv, Truthful, Told, HighestRevision, Recovered, Needed, Group.Holds, RevisionsBelow, Restored, Forget;
    var g := ReplayRestores(s);
    ReplayingParts(s);
    HistoryLog(s.h);
    ImgWhole(s.h.base, 0, s.h.log, |s.h.log|);
    RestoredHolds(s.h, s.disk.volatile);
    TaleRevisions(s, t, maxValueSize);
    var sh := TruthfulShape(s, t, maxValueSize);
    HighestIsLast(Committed(s.h), sh, Now(t), s.disk.volatile, maxRevision, LastLsn(s));
    LoggedLast(s);
    ForgetLog(s.h, ChooseSuperblock(s.disk.volatile[0], s.disk.volatile[1]).value.1);
  }

  lemma TruthfulShape(s: State, t: Tale, maxValueSize: nat) returns (sh: Shape)
    requires Truthful(s, t, maxValueSize) && FullLog(s) == s.h.log && s.h.base == InitialImage()
    ensures Group.Holds(Committed(s.h), sh, Now(t)) && 2 * sh.cap <= RECORD_SPACE
  {
    hide TaleOk, Group.Holds;
    assert s.h.log[..|s.h.log|] == s.h.log;
    assert Documented(ImageAfter(InitialImage(), s.h.log), Now(t));
    sh :| Group.Holds(Committed(s.h), sh, Now(t)) && 2 * sh.cap <= RECORD_SPACE;
  }

  lemma {:induction false} RunRevision(states: seq<State>, steps: seq<Step>, tales: seq<Tale>, maxValueSize: nat, i: nat)
    requires TaleRun(states, steps, tales, maxValueSize) && i < |states|
    ensures RevisionOk(states[i]) && states[i].h.lsn0 == 0
  {
    hide Inv, Truthful, TaleStep, Run, Transition, RevisionOk;
    if i == 0 {
      InitialRevision();
    } else {
      var s, step, s' := states[i - 1], steps[i - 1], states[i];
      RunRevision(states, steps, tales, maxValueSize, i - 1);
      RunTruthful(states, steps, tales, maxValueSize, i - 1);
      StepKeepsLog(s, step, s');
      if step.Serve? {
        ServeStep(s, step, s');
        ServeRevision(s, step.maxRevision, s', tales[i - 1], maxValueSize);
      } else {
        StepRevision(s, step, s');
      }
    }
  }

  lemma ServeStep(s: State, step: Step, s': State)
    requires Transition(s, step, s') && step.Serve?
    ensures DoServe(s, step.maxRevision, s')
  {
    hide DoServe;
  }

  lemma InitialRevision()
    ensures RevisionOk(InitialState()) && InitialState().h.lsn0 == 0
  {
  }

  /** Revision discipline over whole runs: whenever the store runs, after any
      crashes, log resets and recoveries, its next revision is one more than the
      last commit LSN; every page stamp and every revision in the tree is below
      it, and it is at most the next LSN. */
  lemma StampsStayBelow(states: seq<State>, steps: seq<Step>, tales: seq<Tale>, maxValueSize: nat, j: nat) returns (sh: Shape)
    requires TaleRun(states, steps, tales, maxValueSize) && j < |states| && states[j].phase.Idle?
    ensures Group.Holds(Served(states[j]), sh, Now(tales[j])) && 2 * sh.cap <= RECORD_SPACE
    ensures var mem := states[j].phase.mem;
            && mem.nextRevision == LastLsn(states[j]) + 1 && 0 < mem.nextRevision <= mem.nextLsn
            && StampedBelow(Served(states[j]).pages, mem.nextRevision)
  {
    hide Inv, Transition, Truthful, TaleStep, StampedBelow, Group.Holds, RevisionsBelow, Served, LogOk;
    var s := states[j];
    RunTruthful(states, steps, tales, maxValueSize, j);
    RunRevision(states, steps, tales, maxValueSize, j);
    IdleParts(s);
    TaleRevisions(s, tales[j], maxValueSize);
    sh := TruthfulShape(s, tales[j], maxValueSize);
    ServesCommitted(s);
    assert s.h.log[..|s.h.log|] == s.h.log;
    forall x | x in Committed(s.h).pages ensures Committed(s.h).pages[x].lsn <= LastLsn(s) {
      StampUpper(s.h.base, 0, s.h.log, x, |s.h.log|);
    }
    StampsBelow(Committed(s.h), sh, Now(tales[j]), LastLsn(s));
  }

  lemma IdleParts(s: State)
    requires Inv(s) && s.phase.Idle?
    ensures LogOk(s.h.base, s.h.lsn0, s.h.log) && s.phase.mem.nextLsn > LsnOf(s.h.lsn0, s.h.log, |s.h.log|)
  {
    hide LogOk, View, Unflushed, Flushed, Settled, ResetAt, WalFileOk, DiskOk;
  }

  // ---------------------------------------------------------------- the counters are the ones computed

  lemma {:induction false} MaxRevisionBounds(es: seq<LeafEntry>)
    ensures forall i :: 0 <= i < |es| ==> es[i].revision <= Checker.MaxRevision(es, 0)
    ensures Checker.MaxRevision(es, 0) > 0 ==> exists i :: 0 <= i < |es| && es[i].revision == Checker.MaxRevision(es, 0)
  {
    if es != [] {
      MaxRevisionBounds(es[..|es| - 1]);
    }
  }

  /** The revision that the check of a recovered store reports is the largest in
      its file. */
  method ReportedRevision(img: Image, ghost sh: Shape, ghost cells: Cells) returns (maxRevision: nat)
    requires Consistent(img, sh) && FileHolds(cells, img)
    ensures HighestRevision(cells, maxRevision)
  {
    hide Working, HighestRevision;
    var report := CheckerComplete.CheckBuilt(img, sh);
    maxRevision := report.value.maxRevision;
    HighestInContents(img, sh, cells);
  }

  lemma HighestInContents(img: Image, sh: Shape, cells: Cells)
    requires Consistent(img, sh) && FileHolds(cells, img)
    ensures |sh.levels| > 0 && HighestRevision(cells, Checker.MaxRevision(Contents(img.pages, sh.levels[0]), 0))
  {
    hide Working, Checker.MaxRevision, Contents;
    SoundParts(img, sh);
    hide TreeOk;
    var es := Contents(img.pages, sh.levels[0]);
    var m := Checker.MaxRevision(es, 0);
    MaxRevisionBounds(es);
    forall x: nat, y: nat | FIRST_DATA_PAGE <= x < |cells| && y < EntryCount(cells[x]) ensures RevisionIn(cells[x], y) <= m {
      EntryInContents(img, sh, x, y);
      var n :| 0 <= n < |es| && es[n] == img.pages[x].entries[y];
    }
    if m > 0 {
      var i :| 0 <= i < |es| && es[i].revision == m;
      var k, y := EntryPage(img, sh, i);
      var x := sh.levels[0][k];
      assert RevisionIn(cells[x], y) == m;
    }
  }

  // ---------------------------------------------------------------- going on

  /** The overlay of a running store is ready to stage transactions. */
  method Begin(ghost states: seq<State>, ghost steps: seq<Step>, ghost tales: seq<Tale>, ghost j: nat, img: Image, mem: Mem,
               inlineLimit: nat, maxValueSize: nat)
    returns (overlay: Staging.Overlay)
    requires TaleRun(states, steps, tales, maxValueSize) && j < |states| && states[j].phase.Idle?
    requires img == Served(states[j]) && mem == states[j].phase.mem
    ensures fresh(overlay) && overlay.Clean() && 2 * overlay.shape.cap <= RECORD_SPACE
    ensures overlay.img == img && overlay.Numbers() == CountersOf(mem) && Docs(overlay.img, overlay.shape) == Now(tales[j])
    ensures overlay.inlineLimit == inlineLimit && overlay.maxValueSize == maxValueSize
  {
    hide Working, TaleRun, StampedBelow, Served;
    ghost var sh := StampsStayBelow(states, steps, tales, maxValueSize, j);
    overlay := new Staging.Overlay(img, mem.nextRevision, mem.nextLsn, mem.nextBatchId, mem.sb.generation, mem.slot, mem.sb.checkpointLsn,
                                   inlineLimit, maxValueSize, sh);
  }

  /** A running store commits: whatever group is staged, after any run, its
      batches can be appended and the tale goes on with its requests. */
  method CommitGroup(ghost states: seq<State>, ghost steps: seq<Step>, ghost tales: seq<Tale>, ghost j: nat, img: Image, mem: Mem,
                     inlineLimit: nat, maxValueSize: nat, requests: seq<Request>)
    returns (outcomes: seq<Group.Outcome>, batches: seq<Prepared>, ghost shapes: seq<Shape>, ghost docs: seq<States>)
    requires TaleRun(states, steps, tales, maxValueSize) && j < |states| && states[j].phase.Idle?
    requires img == Served(states[j]) && mem == states[j].phase.mem && Group.HalfPage(requests, inlineLimit, maxValueSize)
    ensures StagedAs(states[j], batches, Now(tales[j]), requests, outcomes, shapes, docs, maxValueSize)
    ensures batches != [] ==> GroupFrom(states[j].h, mem, batches) && Appendable(mem, batches)
  {
    hide Working, TaleRun, StampedBelow, Served, Group.GroupOk, Group.HalfPage, Group.Roomy, Inv;
    RunStarts(states, steps, tales, maxValueSize);
    ServedIsCommitted(states, steps, tales, maxValueSize, j);
    var overlay := Begin(states, steps, tales, j, img, mem, inlineLimit, maxValueSize);
    outcomes, batches, shapes, docs := Group.StageGroup(overlay, requests);
    GroupAtEnd(img, Now(tales[j]), CountersOf(mem), requests, outcomes, batches, shapes, docs, overlay.img, overlay.Numbers(), maxValueSize);
    if batches != [] {
      StagedGroupFits(states[j], batches, Now(tales[j]), requests, outcomes, shapes, docs, maxValueSize);
      RunTruthful(states, steps, tales, maxValueSize, j);
      IdleAccepts(states[j], batches);
    }
  }

  lemma IdleAccepts(s: State, batches: seq<Prepared>)
    requires Inv(s) && s.phase.Idle? && GroupFrom(s.h, s.phase.mem, batches)
    ensures Appendable(s.phase.mem, batches)
  {
    hide FilesOk, Settled, ResetAt, View, Unflushed, Flushed, WalFileOk, Ordered, Whole, AllLogged, Accepts;
    forall records | AllLogged(records, batches) ensures Accepts(s.phase.mem.log, records) {
      RecordsExpected(s.phase.mem, batches, records);
    }
  }

  lemma ServedIsCommitted(states: seq<State>, steps: seq<Step>, tales: seq<Tale>, maxValueSize: nat, j: nat)
    requires TaleRun(states, steps, tales, maxValueSize) && j < |states| && states[j].phase.Idle?
    ensures Served(states[j]) == Committed(states[j].h)
  {
    hide Inv, Transition, TaleStep, Truthful, Served;
    RunTruthful(states, steps, tales, maxValueSize, j);
    ServesCommitted(states[j]);
    assert states[j].h.log[..|states[j].h.log|] == states[j].h.log;
  }

  lemma GroupAtEnd(img0: Image, s0: States, first: Counters, requests: seq<Request>, outcomes: seq<Group.Outcome>,
                   batches: seq<Prepared>, shapes: seq<Shape>, states: seq<States>, img: Image, now: Counters, maxValueSize: nat)
    requires Group.GroupOk(img0, s0, first, requests, outcomes, batches, shapes, states, img, now, maxValueSize)
    ensures img == ImageAfter(img0, batches) && now == Next(batches, |batches|, first)
  {
    hide Group.Serial, Group.History, Group.Along, Ordered;
  }

  /** The batches of a staged group are fit to be logged: pages are complete
      after each of them. */
  lemma StagedGroupFits(s: State, group: seq<Prepared>, docs: States, requests: seq<Request>, outcomes: seq<Group.Outcome>,
                        shapes: seq<Shape>, states: seq<States>, maxValueSize: nat)
    requires StagedAs(s, group, docs, requests, outcomes, shapes, states, maxValueSize) && group != []
    ensures GroupFrom(s.h, s.phase.mem, group)
  {
    hide Ordered, StagedAs, Group.History, Group.Roomy, Documented, Working;
    StagedParts(s, group, docs, requests, outcomes, shapes, states, maxValueSize);
    forall k | 0 <= k <= |group| ensures Whole(ImageAfter(Committed(s.h), group[..k])) {
      GroupConsistent(Committed(s.h), group, shapes, states, k);
      ConsistentWhole(ImageAfter(Committed(s.h), group[..k]), shapes[k]);
    }
  }
}
