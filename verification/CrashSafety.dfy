/** Crash safety over whole runs of the store. */
module CrashSafety {
  import opened Pages
  import opened Batches
  import opened Versions
  import opened Redo
  import opened Disk
  import opened Chronicle
  import opened Durability
  import opened DurabilityProof

  // ---------------------------------------------------------------- runs

  /** An initialised and synced store. */
  ghost predicate Start(s: State) {
    && s.phase.Idle? && s.h.log == [] && |s.h.events| == 1 && s.c == 0 && s.acked == 0
    && var e, mem, cells := s.h.events[0], s.phase.mem, s.disk.volatile;
       && e == Event(Superblock(e.sb.generation, s.h.base.root, s.h.base.freeHead, s.h.base.high, s.h.lsn0), 0, 0)
       && Whole(s.h.base) && (forall x :: x in s.h.base.pages ==> s.h.base.pages[x].lsn <= s.h.lsn0)
       && s.disk == Fresh(cells) && |cells| == s.h.base.high + 1
       && (forall x :: x in s.h.base.pages ==> cells[x] == DataCell(s.h.base.pages[x]))
       && cells[0] == cells[1] == SuperCell(e.sb)
       && s.wal == Wal(Log(s.h.lsn0, [], 0, 0), Log(s.h.lsn0, [], 0, 0))
       && mem == Mem(map[], None, e.sb, SlotA, s.h.lsn0 + 1, 1, mem.nextRevision, Writer(s.h.lsn0 + 1, 1))
  }

  /** The freshly initialised database: one empty leaf. */
  function InitialImage(): Image {
    Image(map[FIRST_DATA_PAGE := Leaf(0, None, [])], FIRST_DATA_PAGE, None, FIRST_DATA_PAGE)
  }

  function InitialSuperblock(): Superblock {
    Superblock(1, FIRST_DATA_PAGE, None, FIRST_DATA_PAGE, 0)
  }

  /** Both superblocks and the root are written and synced, the log is empty. */
  ghost function InitialState(): State {
    var sb := InitialSuperblock();
    State(History(InitialImage(), 0, [], [Event(sb, 0, 0)]), 0,
          Fresh([SuperCell(sb), SuperCell(sb), DataCell(Leaf(0, None, []))]),
          Wal(Log(0, [], 0, 0), Log(0, [], 0, 0)), 0, Idle(Mem(map[], None, sb, SlotA, 1, 1, 1, Writer(1, 1))))
  }

  lemma InitialStart()
    ensures Start(InitialState())
  {
  }

  lemma StartInv(s: State)
    requires Start(s)
    ensures Inv(s)
  {
    var h, cells := s.h, s.disk.volatile;
    assert h.log[..0] == [];
    assert Committed(h) == h.base && Describes(h, h.events[0]);
    assert HistoryOk(h);
    assert ResetAt(h, 0) by {
      assert h.events[0].k == h.events[0].j == 0;
    }
    forall x, c | FIRST_DATA_PAGE <= x < |cells| && Possible(s.disk, x, c) ensures Repairable(h.base, h.log, x, c, 0) {
      assert IsVersion(h.base, h.log, x, c, 0);
    }
    StartSlots(s);
  }

  lemma StartSlots(s: State)
    requires Start(s)
    ensures forall x, c :: 0 <= x < FIRST_DATA_PAGE && Possible(s.disk, x, c) ==> SlotOk(s.h, x, c)
  {
    var h, cells := s.h, s.disk.volatile;
    forall x, c | 0 <= x < FIRST_DATA_PAGE && Possible(s.disk, x, c) ensures SlotOk(h, x, c) {
      assert IsEvent(h, x, cells[x], 0);
    }
  }

  ghost predicate Run(states: seq<State>, steps: seq<Step>) {
    && |states| == |steps| + 1 && Start(states[0])
    && forall i :: 0 <= i < |steps| ==> Transition(states[i], steps[i], states[i + 1])
  }

  lemma {:induction false} RunInv(states: seq<State>, steps: seq<Step>, i: nat)
    requires Run(states, steps) && i < |states|
    ensures Inv(states[i])
  {
    hide Inv, Transition, Start;
    if i == 0 {
      StartInv(states[0]);
    } else {
      RunInv(states, steps, i - 1);
      NextKeeps(states[i - 1], steps[i - 1], states[i]);
    }
  }

  /** No step loses a committed batch or takes an acknowledgement back. */
  lemma StepKeepsLog(s: State, step: Step, s': State)
    requires Inv(s) && Transition(s, step, s')
    ensures s.h.log <= s'.h.log && s'.h.base == s.h.base && s'.h.lsn0 == s.h.lsn0 && s.acked <= s'.acked
  {
    hide Inv;
    InvSafe(s);
    hide Safe, Grow;
    match step
    case SyncLog => GrowAdds(s.h, s.phase.tail);
    case Crash(_, _, kept) =>
      if s.phase.Appended? && kept <= |s.phase.tail| {
        GrowAdds(s.h, s.phase.tail[..kept]);
      }
    case _ =>
  }

  lemma {:induction false} RunKeepsLog(states: seq<State>, steps: seq<Step>, i: nat, j: nat)
    requires Run(states, steps) && i <= j < |states|
    ensures states[i].h.log <= states[j].h.log && states[j].h.base == states[i].h.base && states[i].acked <= states[j].acked
    decreases j
  {
    hide Inv, Transition, Start;
    if i < j {
      RunKeepsLog(states, steps, i, j - 1);
      RunInv(states, steps, j - 1);
      StepKeepsLog(states[j - 1], steps[j - 1], states[j]);
    }
  }

  // ---------------------------------------------------------------- what the store serves

  /** The image a running store reads: dirty pages over the data file, with the
      root, free list and high-water mark of its superblock. */
  ghost function Served(s: State): Image
    requires s.phase.Idle?
  {
    var mem := s.phase.mem;
    Image(map x: PageId | FIRST_DATA_PAGE <= x <= mem.sb.high && (x in mem.dirty || (x < |s.disk.volatile| && s.disk.volatile[x].DataCell?)) ::
            if x in mem.dirty then mem.dirty[x] else s.disk.volatile[x].page,
          mem.sb.root, mem.sb.freeHead, mem.sb.high)
  }

  /** A running store serves exactly the committed image. */
  lemma ServesCommitted(s: State)
    requires Inv(s) && s.phase.Idle?
    ensures Served(s) == ImageAfter(s.h.base, s.h.log)
  {
    hide FilesOk, WalFileOk, ResetAt, Settled, Unflushed, Flushed;
    var h, mem, img := s.h, s.phase.mem, Committed(s.h);
    FilesHistory(h, s.disk);
    assert h.log[..|h.log|] == h.log;
    assert Describes(h, h.events[Last(h)]);
    ImgWhole(h.base, h.lsn0, h.log, |h.log|);
    assert View(h, s.disk, mem.dirty);
    assert Served(s).pages == img.pages;
  }

  /** Crash safety: at any later point of any run, whatever crashes, flushes,
      checkpoints and interrupted recoveries lie between, a running store serves
      the image after a sequence of whole batches that starts with every batch
      committed before, acknowledged ones included. */
  lemma CrashSafe(states: seq<State>, steps: seq<Step>, i: nat, j: nat)
    requires Run(states, steps) && i <= j < |states| && states[j].phase.Idle?
    ensures Served(states[j]) == ImageAfter(states[0].h.base, states[j].h.log)
    ensures states[i].h.log <= states[j].h.log && states[i].acked <= |states[i].h.log|
  {
    hide Inv, Transition, Start;
    RunInv(states, steps, i);
    RunInv(states, steps, j);
    RunKeepsLog(states, steps, i, j);
    RunKeepsLog(states, steps, 0, j);
    ServesCommitted(states[j]);
    InvSafe(states[i]);
  }

  /** Whatever a crash leaves, the committed batches are the old ones and a
      prefix of the group that was being appended. */
  lemma CrashKeepsPrefix(s: State, cells: Cells, file: WalFile, kept: nat, s': State)
    requires Inv(s) && DoCrash(s, cells, file, kept, s')
    ensures s.phase.Appended? && kept <= |s.phase.tail| ==> s'.h.log == s.h.log + s.phase.tail[..kept]
    ensures !s.phase.Appended? ==> s'.h.log == s.h.log
  {
    InvSafe(s);
    hide Inv;
    if s.phase.Appended? && kept <= |s.phase.tail| {
      GrowAdds(s.h, s.phase.tail[..kept]);
    }
  }

  // ---------------------------------------------------------------- recovery never fails

  /** None of the checks of the recovery path can fail: a log exists when both
      superblocks are lost, a torn first frame is recognised, and after the
      replay a superblock is found that agrees with the file length. */
  lemma RecoveryNeverFails(s: State)
    requires Inv(s)
    ensures s.phase.Down? ==>
              && |s.disk.volatile| > FIRST_DATA_PAGE
              && (ChooseSuperblock(s.disk.volatile[0], s.disk.volatile[1]).None? ==> s.wal.durable.Log? && s.wal.durable.batches != [])
    ensures s.phase.Opening? && s.wal.volatile.TornInit? ==> s.wal.volatile.start == s.phase.hint
    ensures s.phase.Replaying? && s.disk.volatile == Recovered(s.phase.start, Needed(s)) ==>
              && |s.disk.volatile| > FIRST_DATA_PAGE
              && var chosen := ChooseSuperblock(s.disk.volatile[0], s.disk.volatile[1]);
                 && chosen.Some? && |s.disk.volatile| == chosen.value.1.high + 1
                 && chosen.value.1.root == Committed(s.h).root && chosen.value.1.freeHead == Committed(s.h).freeHead
  {
    InvSafe(s);
    if s.phase.Down? {
      DownChecks(s);
    } else if s.phase.Opening? && s.wal.volatile.TornInit? {
      TornChecks(s);
    } else if s.phase.Replaying? && s.disk.volatile == Recovered(s.phase.start, Needed(s)) {
      hide Inv;
      var g := ReplayRestores(s);
      ReplayingParts(s);
      assert Describes(s.h, s.h.events[g]);
    }
  }

  lemma DownChecks(s: State)
    requires Inv(s) && s.phase.Down?
    ensures |s.disk.volatile| > FIRST_DATA_PAGE
    ensures ChooseSuperblock(s.disk.volatile[0], s.disk.volatile[1]).None? ==> s.wal.durable.Log? && s.wal.durable.batches != []
  {
    hide FilesOk, ResetAt;
    FilesSlots(s.h, s.disk);
    FilesHistory(s.h, s.disk);
    if ChooseSuperblock(s.disk.volatile[0], s.disk.volatile[1]).None? && s.c == |s.h.log| {
      SettledHint(s.h, s.disk);
    }
  }

  lemma TornChecks(s: State)
    requires Inv(s) && s.phase.Opening? && s.wal.volatile.TornInit?
    ensures s.wal.volatile.start == s.phase.hint
  {
    hide FilesOk, ResetAt, Settled;
    SettledHint(s.h, s.disk);
  }
}
