/** Every step of the durability protocol keeps its invariant. */
module DurabilityProof {
  import opened Pages
  import opened Batches
  import opened Versions
  import opened Redo
  import opened Disk
  import opened Chronicle
  import opened Durability

  // ---------------------------------------------------------------- the files

  lemma FilesWrite(h: History, d: Disk, x: PageId, c: Cell)
    requires FilesOk(h, d) && x < |d.volatile|
    requires x >= FIRST_DATA_PAGE ==> Covered(h.log, x, Mark(h), |h.log|) && Repairable(h.base, h.log, x, c, Mark(h))
    requires x < FIRST_DATA_PAGE ==> SlotOk(h, x, c)
    ensures FilesOk(h, Write(d, x, c))
  {
    hide HistoryOk, SlotOk;
    WriteOk(d, x, c);
    var d' := Write(d, x, c);
    forall y, e | FIRST_DATA_PAGE <= y < |d'.volatile| && Possible(d', y, e) ensures Repairable(h.base, h.log, y, e, Mark(h)) {
      assert Possible(d, y, e) || (y == x && (e == c || e == Garbage));
    }
    GarbageSlot(h, x);
  }

  lemma GarbageSlot(h: History, x: PageId)
    ensures SlotOk(h, x, Garbage)
  {
  }

  lemma FilesExtend(h: History, d: Disk, length: nat)
    requires FilesOk(h, d) && |d.volatile| <= length <= Committed(h).high + 1
    ensures FilesOk(h, Extend(d, length))
  {
    hide SlotOk, EventsOk;
    ExtendOk(d, length);
    var d' := Extend(d, length);
    forall y, e | FIRST_DATA_PAGE <= y < |d'.volatile| && Possible(d', y, e) ensures Repairable(h.base, h.log, y, e, Mark(h)) {
      assert Possible(d, y, e);
      if y >= |d.volatile| {
        NewPagesCovered(h.base, h.lsn0, h.log, Mark(h), |h.log|, y);
      }
    }
  }

  lemma FilesCrash(h: History, d: Disk, cells: Cells)
    requires FilesOk(h, d) && CrashesTo(d, cells)
    ensures FilesOk(h, Fresh(cells))
  {
    hide HistoryOk, SlotOk, Repairable;
    FreshOk(cells);
    var d' := Fresh(cells);
    forall y, e | FIRST_DATA_PAGE <= y < |d'.volatile| && Possible(d', y, e) ensures Repairable(h.base, h.log, y, e, Mark(h)) {
      assert Possible(d, y, cells[y]);
    }
    FilesLength(h, d);
    forall y, e | 0 <= y < FIRST_DATA_PAGE && Possible(d', y, e) ensures SlotOk(h, y, e) {
      assert Possible(d, y, cells[y]);
    }
  }

  lemma FilesLength(h: History, d: Disk)
    requires FilesOk(h, d)
    ensures |d.durable| > FIRST_DATA_PAGE
  {
    hide SlotOk, Repairable, Possible;
    ImgWhole(h.base, h.lsn0, h.log, Mark(h));
  }

  lemma FilesGrow(h: History, d: Disk, bs: seq<Prepared>)
    requires FilesOk(h, d) && AllContinue(h, bs)
    ensures FilesOk(Grow(h, bs), d)
  {
    var h' := Grow(h, bs);
    hide SlotOk, Repairable, Possible, AllContinue;
    GrowOk(h, bs);
    GrowAdds(h, bs);
    ImgPrefix(h.base, h.log, bs, Mark(h));
    ImgPrefix(h.base, h.log, bs, |h.log|);
    HighGrows(h'.base, h'.lsn0, h'.log, |h.log|, |h'.log|);
    forall y, e | FIRST_DATA_PAGE <= y < |d.volatile| && Possible(d, y, e) ensures Repairable(h'.base, h'.log, y, e, Mark(h')) {
      RepairableGrows(h.base, h.log, bs, y, e, Mark(h));
    }
    forall y, e | 0 <= y < FIRST_DATA_PAGE && Possible(d, y, e) ensures SlotOk(h', y, e) {
      SlotOkGrows(h, h', y, e);
    }
  }

  // ---------------------------------------------------------------- commits

  /** The counters of the store are those of its history. */
  ghost predicate Starts(h: History, first: Counters)
    requires h.events != []
  {
    && first.generation == h.events[Last(h)].sb.generation && first.slot == SlotAt(h, Last(h))
    && Mark(h) <= |h.log| && first.checkpointLsn == LsnOf(h.lsn0, h.log, Mark(h))
    && first.nextLsn > LsnOf(h.lsn0, h.log, |h.log|)
  }

  lemma MemStarts(h: History, d: Disk, c: nat, mem: Mem)
    requires HistoryOk(h) && MemOk(h, d, c, mem)
    ensures Starts(h, CountersOf(mem))
  {
    hide View, Unflushed, Flushed, LogOk;
    assert Describes(h, h.events[Last(h)]);
  }

  ghost predicate AllWhole(img: Image, group: seq<Prepared>) {
    forall k :: 0 <= k <= |group| ==> Whole(ImageAfter(img, group[..k]))
  }

  /** A group numbered by the counters of the store continues its history. */
  lemma {:induction false} GroupContinues(h: History, first: Counters, group: seq<Prepared>, n: nat)
    requires HistoryOk(h) && Starts(h, first) && Ordered(group, first) && AllWhole(Committed(h), group) && n <= |group|
    ensures AllContinue(h, group[..n])
    ensures Committed(Grow(h, group[..n])) == ImageAfter(Committed(h), group[..n])
    decreases n
  {
    if n == 0 {
      assert group[..0] == [];
    } else {
      hide HistoryOk, Starts, Ordered, AllWhole, Continues;
      GroupContinues(h, first, group, n - 1);
      GroupContinuesOne(h, first, group, n - 1);
      AllContinueStep(h, group, n - 1);
    }
  }

  lemma AllContinueStep(h: History, group: seq<Prepared>, n: nat)
    requires h.events != [] && n < |group| && AllContinue(h, group[..n]) && Continues(Grow(h, group[..n]), group[n])
    ensures AllContinue(h, group[..n + 1])
  {
    hide Continues, Grow;
    var bs := group[..n + 1];
    forall i | 0 <= i < |bs| ensures ContinuesAt(h, bs, i) {
      assert bs[..i] == group[..i];
      if i < n {
        assert ContinuesAt(h, group[..n], i);
        assert group[..n][..i] == group[..i];
      }
    }
  }

  lemma GroupContinuesOne(h: History, first: Counters, group: seq<Prepared>, n: nat)
    requires HistoryOk(h) && Starts(h, first) && Ordered(group, first) && AllWhole(Committed(h), group) && n < |group|
    requires Committed(Grow(h, group[..n])) == ImageAfter(Committed(h), group[..n])
    ensures Continues(Grow(h, group[..n]), group[n])
    ensures Committed(Grow(h, group[..n + 1])) == ImageAfter(Committed(h), group[..n + 1])
  {
    hide HistoryOk, Ordered, Whole;
    var h', b := Grow(h, group[..n]), group[n];
    GrowAdds(h, group[..n]);
    assert group[..n + 1][..n] == group[..n];
    GrownImage(h', b);
    assert Whole(ImageAfter(Committed(h), group[..n + 1]));
    GroupNumbers(h, first, group, n);
    ImgPrefix(h.base, h.log, group[..n], Mark(h));
  }

  lemma GrownImage(h: History, b: Prepared)
    requires h.events != []
    ensures Committed(GrowOne(h, b)) == ApplyBatch(Committed(h), b)
  {
    ImgStep(h.base, h.log + [b], |h.log|);
    ImgPrefix(h.base, h.log, [b], |h.log|);
  }

  lemma GroupNumbers(h: History, first: Counters, group: seq<Prepared>, n: nat)
    requires h.events != [] && Starts(h, first) && Ordered(group, first) && n < |group|
    ensures var h' := Grow(h, group[..n]);
            && group[n].generation == h'.events[Last(h')].sb.generation + 1
            && group[n].slot == SlotAt(h', |h'.events|) && BatchStamped(group[n])
            && Mark(h') == Mark(h) <= |h'.log| && group[n].checkpointLsn == LsnOf(h'.lsn0, h'.log, Mark(h'))
            && group[n].commitLsn > LsnOf(h'.lsn0, h'.log, |h'.log|)
  {
    GrowAdds(h, group[..n]);
    GroupSlots(h, group, first, n);
    assert InOrder(group, n, first);
    hide Ordered;
    if n == 0 {
      assert group[..0] == [];
    }
  }

  lemma {:induction false} GroupSlots(h: History, group: seq<Prepared>, first: Counters, i: nat)
    requires h.events != [] && Ordered(group, first) && first.slot == SlotAt(h, Last(h)) && i < |group|
    ensures group[i].slot == SlotAt(h, |h.events| + i) && group[i].checkpointLsn == first.checkpointLsn
  {
    assert InOrder(group, i, first);
    if i > 0 {
      GroupSlots(h, group, first, i - 1);
    }
  }

  lemma AppendKeeps(s: State, group: seq<Prepared>, records: seq<WalBatch>, s': State)
    requires Inv(s) && DoAppend(s, group, records, s')
    ensures Inv(s')
  {
    hide FilesOk, MemOk, AllContinue, Ordered, Whole, Settled, WalFileOk, NumberedFile, Logs, Accepts;
    FilesHistory(s.h, s.disk);
    InvSafe(s);
    FileNumbers(s.h, s.wal.durable, s.c);
    AppendedNumbers(s.wal.durable, s'.wal.volatile, s.phase.mem, group, records);
    MemStarts(s.h, s.disk, s.c, s.phase.mem);
    GroupContinues(s.h, CountersOf(s.phase.mem), group, |group|);
    assert group[..|group|] == group;
  }

  lemma FileNumbers(h: History, f: WalFile, c: nat)
    requires h.events != [] && WalFileOk(h, f, c)
    ensures NumberedFile(f)
  {
    hide WalHolds;
  }

  /** The numbers of a group lie beyond those in the file and end with its last
      batch. */
  lemma AppendedNumbers(f: WalFile, f': WalFile, mem: Mem, group: seq<Prepared>, records: seq<WalBatch>)
    requires NumberedFile(f) && FollowsFile(f, mem) && Ordered(group, CountersOf(mem)) && group != []
    requires |records| == |group| && forall i :: 0 <= i < |group| ==> Logs(records[i], group[i])
    requires var last := records[|records| - 1]; f' == Log(f.start, f.batches + records, last.commitLsn, last.batchId)
    ensures NumberedFile(f') && f.last <= f'.last && f.highest <= f'.highest
    ensures f'.last == group[|group| - 1].commitLsn && f'.highest == group[|group| - 1].batchId
  {
    hide Ordered;
    var n := |group| - 1;
    forall i | 0 <= i < |records|
      ensures f.last <= records[i].commitLsn <= f'.last && f.highest <= records[i].batchId <= f'.highest
    {
      assert Logs(records[i], group[i]) && Logs(records[n], group[n]);
      GroupAscends(group, CountersOf(mem), i, n);
    }
  }

  lemma {:induction false} GroupAscends(group: seq<Prepared>, first: Counters, i: nat, j: nat)
    requires Ordered(group, first) && i <= j < |group|
    ensures first.nextLsn < group[i].commitLsn <= group[j].commitLsn && first.nextBatchId <= group[i].batchId <= group[j].batchId
    decreases j
  {
    assert InOrder(group, j, first);
    if i < j {
      GroupAscends(group, first, i, j - 1);
    } else if j > 0 {
      GroupAscends(group, first, j - 1, j - 1);
    }
  }

  lemma FilesHistory(h: History, d: Disk)
    requires FilesOk(h, d)
    ensures HistoryOk(h) && Mark(h) <= |h.log| && h.events[Last(h)].k == |h.log|
  {
    hide Repairable, SlotOk, Possible, LogOk;
  }

  /** Publishing a group adds its pages to the committed image. */
  lemma {:induction false} GrownPages(h: History, bs: seq<Prepared>)
    requires h.events != []
    ensures Committed(Grow(h, bs)).pages == Committed(h).pages + AllPages(bs)
  {
    if bs != [] {
      GrownPages(h, bs[..|bs| - 1]);
      GrownImage(Grow(h, bs[..|bs| - 1]), bs[|bs| - 1]);
    }
  }

  lemma {:induction false} AllPagesCovered(log: seq<Prepared>, bs: seq<Prepared>, x: PageId, m: nat)
    requires x in AllPages(bs) && m <= |log|
    ensures Covered(log + bs, x, m, |log + bs|)
  {
    var n := |bs| - 1;
    if x in bs[n].pages {
      assert (log + bs)[|log| + n] == bs[n];
    } else {
      AllPagesCovered(log, bs[..n], x, m);
      var j :| m <= j < |log + bs[..n]| && x in (log + bs[..n])[j].pages;
      assert (log + bs)[j] == (log + bs[..n])[j];
    }
  }

  lemma CoveredGrows(log: seq<Prepared>, bs: seq<Prepared>, x: PageId, m: nat)
    requires Covered(log, x, m, |log|)
    ensures Covered(log + bs, x, m, |log + bs|)
  {
    var j :| m <= j < |log| && x in log[j].pages;
    assert (log + bs)[j] == log[j];
  }

  lemma ViewGrows(h: History, d: Disk, dirty: PageMap, bs: seq<Prepared>)
    requires h.events != [] && View(h, d, dirty) && Unflushed(h, dirty)
    ensures View(Grow(h, bs), d, dirty + AllPages(bs)) && Unflushed(Grow(h, bs), dirty + AllPages(bs))
  {
    GrownPages(h, bs);
    GrowAdds(h, bs);
    var h' := Grow(h, bs);
    forall x | x in dirty + AllPages(bs) ensures x in Committed(h').pages && Covered(h'.log, x, Mark(h'), |h'.log|) {
      if x in AllPages(bs) {
        AllPagesCovered(h.log, bs, x, Mark(h));
      } else {
        CoveredGrows(h.log, bs, x, Mark(h));
      }
    }
  }

  lemma WalGrows(h: History, f: WalFile, f': WalFile, c: nat, tail: seq<Prepared>, kept: nat, file: WalFile)
    requires h.events != [] && WalFileOk(h, f, c) && Appends(f, f', tail) && kept <= |tail| && Mark(h) <= |h.log|
    requires file.Log? && file.start == f.start && file.batches == f'.batches[..|f.batches| + kept] && NumberedFile(file)
    ensures WalFileOk(Grow(h, tail[..kept]), file, c)
  {
    hide NumberedFile;
    var h' := Grow(h, tail[..kept]);
    GrowAdds(h, tail[..kept]);
    var ws := f'.batches[..|f.batches| + kept];
    forall i | 0 <= i < |ws| ensures Logs(ws[i], h'.log[c + i]) {
      if i < |f.batches| {
        assert ws[i] == f'.batches[..|f.batches|][i] && Logs(f.batches[i], h.log[c + i]);
      } else {
        assert Logs(f'.batches[|f.batches| + (i - |f.batches|)], tail[i - |f.batches|]);
      }
    }
  }

  lemma ResetGrows(h: History, bs: seq<Prepared>, c: nat)
    requires h.events != [] && ResetAt(h, c)
    ensures ResetAt(Grow(h, bs), c)
  {
    var g :| 0 <= g < |h.events| && h.events[g].k == h.events[g].j == c;
    GrowAdds(h, bs);
    assert Grow(h, bs).events[g] == Grow(h, bs).events[..|h.events|][g];
  }

  lemma SyncLogKeeps(s: State, s': State)
    requires Inv(s) && DoSyncLog(s, s')
    ensures Inv(s')
  {
    hide FilesOk, MemOk, AllContinue, Settled, WalFileOk, ResetAt, View, Unflushed, AllPages;
    var group := s.phase.tail;
    FilesHistory(s.h, s.disk);
    FilesGrow(s.h, s.disk, group);
    GrowAdds(s.h, group);
    ResetGrows(s.h, group, s.c);
    assert group[..|group|] == group;
    assert s.wal.volatile.batches[..|s.wal.durable.batches| + |group|] == s.wal.volatile.batches;
    WalGrows(s.h, s.wal.durable, s.wal.volatile, s.c, group, |group|, s.wal.volatile);
    WalIndex(s.h, s.wal.durable, s.c);
    SyncMem(s.h, s.disk, s.c, s.phase.mem, group);
  }

  lemma WalIndex(h: History, f: WalFile, c: nat)
    requires h.events != [] && WalFileOk(h, f, c) && Mark(h) <= |h.log|
    ensures c <= |h.log|
  {
  }

  lemma GroupContinuesAt(h: History, group: seq<Prepared>, i: nat)
    requires h.events != [] && AllContinue(h, group) && i < |group|
    ensures ContinuesAt(h, group, i)
  {
    hide ContinuesAt;
  }

  lemma GroupSlot(h: History, group: seq<Prepared>)
    requires h.events != [] && AllContinue(h, group) && group != []
    ensures group[|group| - 1].slot == SlotAt(h, |h.events| + |group| - 1)
  {
    hide Grow, AllContinue, BatchStamped, Whole;
    GroupContinuesAt(h, group, |group| - 1);
    GrowAdds(h, group[..|group| - 1]);
  }

  /** What the counters of a grown history are. */
  lemma GrownEnd(h: History, group: seq<Prepared>)
    requires h.events != [] && AllContinue(h, group) && group != []
    ensures var h', last := Grow(h, group), group[|group| - 1];
            && |h'.log| == |h.log| + |group| && h'.events[Last(h')].sb == SuperOf(last) && SlotAt(h', Last(h')) == last.slot
            && LsnOf(h'.lsn0, h'.log, |h'.log|) == last.commitLsn
  {
    hide AllContinue, Grow;
    GrowAdds(h, group);
    GroupSlot(h, group);
  }

  lemma SyncMem(h: History, d: Disk, c: nat, mem: Mem, group: seq<Prepared>)
    requires HistoryOk(h) && MemOk(h, d, c, mem) && AllContinue(h, group) && group != [] && c <= |h.log|
    ensures var last := group[|group| - 1];
            MemOk(Grow(h, group), d, c, Mem(mem.dirty + AllPages(group), Some(SuperOf(last)), SuperOf(last), last.slot,
                                            last.commitLsn + 1, last.batchId + 1, last.commitLsn + 1,
                                            Writer(last.commitLsn + 1, last.batchId + 1)))
  {
    hide View, Unflushed, Flushed, HistoryOk, LogOk, AllContinue, AllPages, Grow;
    HistoryLog(h);
    GrownEnd(h, group);
    ViewGrows(h, d, mem.dirty, group);
  }

  lemma AcknowledgeKeeps(s: State, s': State)
    requires Inv(s) && DoAcknowledge(s, s')
    ensures Inv(s')
  {
    hide FilesOk, MemOk, Settled, WalFileOk, ResetAt;
  }

  // ---------------------------------------------------------------- flush

  lemma LastDescribes(h: History)
    requires HistoryOk(h)
    ensures h.events[Last(h)].sb.high == Committed(h).high && Mark(h) <= |h.log|
    ensures h.events[Last(h)].sb.checkpointLsn == LsnOf(h.lsn0, h.log, Mark(h))
  {
    hide LogOk;
    assert Describes(h, h.events[Last(h)]);
  }

  lemma FlushLengthKeeps(s: State, s': State)
    requires Inv(s) && DoFlushLength(s, s')
    ensures Inv(s')
  {
    hide FilesOk, Settled, WalFileOk, ResetAt, Unflushed, Flushed;
    FilesHistory(s.h, s.disk);
    LastDescribes(s.h);
    FilesExtend(s.h, s.disk, s.phase.mem.sb.high + 1);
  }

  lemma FlushPageKeeps(s: State, x: PageId, s': State)
    requires Inv(s) && DoFlushPage(s, x, s')
    ensures Inv(s')
  {
    hide FilesOk, Settled, WalFileOk, ResetAt, Flushed, View, Unflushed, Repairable;
    var dirty := s.phase.mem.dirty;
    FilesHistory(s.h, s.disk);
    DirtyPage(s.h, s.disk, dirty, x);
    FilesWrite(s.h, s.disk, x, DataCell(dirty[x]));
  }

  lemma DirtyPage(h: History, d: Disk, dirty: PageMap, x: PageId)
    requires HistoryOk(h) && View(h, d, dirty) && Unflushed(h, dirty) && x in dirty && x < |d.volatile|
    ensures x >= FIRST_DATA_PAGE && Covered(h.log, x, Mark(h), |h.log|)
    ensures Repairable(h.base, h.log, x, DataCell(dirty[x]), Mark(h))
    ensures View(h, Write(d, x, DataCell(dirty[x])), dirty)
  {
    ImgWhole(h.base, h.lsn0, h.log, |h.log|);
    assert IsVersion(h.base, h.log, x, DataCell(dirty[x]), |h.log|);
  }

  lemma FlushSuperblockKeeps(s: State, s': State)
    requires Inv(s) && DoFlushSuperblock(s, s')
    ensures Inv(s')
  {
    hide FilesOk, Settled, WalFileOk, ResetAt, Flushed, Unflushed;
    var mem := s.phase.mem;
    FilesHistory(s.h, s.disk);
    assert IsEvent(s.h, SlotPage(mem.slot), SuperCell(mem.sb), Last(s.h));
    FilesWrite(s.h, s.disk, SlotPage(mem.slot), SuperCell(mem.sb));
    SlotWriteView(s.h, s.disk, mem.dirty, SlotPage(mem.slot), SuperCell(mem.sb));
  }

  lemma SlotWriteView(h: History, d: Disk, dirty: PageMap, x: PageId, c: Cell)
    requires HistoryOk(h) && View(h, d, dirty) && x < FIRST_DATA_PAGE && x < |d.volatile|
    ensures View(h, Write(d, x, c), dirty)
  {
    ImgWhole(h.base, h.lsn0, h.log, |h.log|);
  }

  lemma FilesSync(h: History, d: Disk)
    requires FilesOk(h, d)
    ensures FilesOk(h, Sync(d))
  {
    CrashLosesNothing(d);
    FilesCrash(h, d, d.volatile);
  }

  lemma FilesBound(h: History, d: Disk)
    requires FilesOk(h, d)
    ensures |d.durable| <= |d.volatile| <= Committed(h).high + 1
  {
    hide Repairable, SlotOk, Possible, HistoryOk;
  }

  lemma FlushSyncKeeps(s: State, s': State)
    requires Inv(s) && DoFlushSync(s, s')
    ensures Inv(s')
  {
    hide FilesOk, WalFileOk, ResetAt;
    var mem := s.phase.mem;
    FilesHistory(s.h, s.disk);
    LastDescribes(s.h);
    FilesSync(s.h, s.disk);
    FilesBound(s.h, s.disk);
    FilesLength(s.h, s.disk);
    SyncedView(s.h, s.disk, mem.dirty);
  }

  lemma SyncedView(h: History, d: Disk, dirty: PageMap)
    requires View(h, d, dirty)
    requires forall x :: x in dirty ==> x < |d.volatile| && d.volatile[x] == DataCell(dirty[x])
    ensures View(h, Sync(d), map[])
  {
  }

  // ---------------------------------------------------------------- checkpoint and log reset

  /** A flushed file holds the committed image and nothing else. */
  lemma FlushedVersions(h: History, d: Disk, x: PageId, c: Cell)
    requires HistoryOk(h) && View(h, d, map[]) && Flushed(h, d) && FIRST_DATA_PAGE <= x < |d.volatile| && Possible(d, x, c)
    ensures IsVersion(h.base, h.log, x, c, |h.log|)
  {
    ImgWhole(h.base, h.lsn0, h.log, |h.log|);
    assert x in Committed(h).pages;
  }

  lemma FilesMark(h: History, d: Disk)
    requires FilesOk(h, d) && View(h, d, map[]) && Flushed(h, d)
    ensures FilesOk(Checkpointed(h), d)
  {
    var h' := Checkpointed(h);
    hide SlotOk, Repairable, Possible, View;
    CheckpointedOk(h);
    FilesHistory(h, d);
    forall y, e | FIRST_DATA_PAGE <= y < |d.volatile| && Possible(d, y, e) ensures Repairable(h'.base, h'.log, y, e, Mark(h')) {
      FlushedVersions(h, d, y, e);
      MarkedRepairable(h'.base, h'.log, y, e);
    }
    forall y, e | 0 <= y < FIRST_DATA_PAGE && Possible(d, y, e) ensures SlotOk(h', y, e) {
      SlotOkGrows(h, h', y, e);
    }
  }

  lemma MarkedRepairable(base: Image, log: seq<Prepared>, x: PageId, c: Cell)
    requires IsVersion(base, log, x, c, |log|)
    ensures Repairable(base, log, x, c, |log|)
  {
  }

  lemma MarkWriteKeeps(s: State, s': State)
    requires Inv(s) && DoMarkWrite(s, s')
    ensures Inv(s')
  {
    hide FilesOk, WalFileOk, ResetAt, View, Unflushed, Settled;
    var mem, h' := s.phase.mem, Checkpointed(s.h);
    FilesHistory(s.h, s.disk);
    LogTail(s.h, s.wal.durable, s.c);
    LastDescribes(s.h);
    FilesMark(s.h, s.disk);
    var sb := h'.events[Last(h')].sb;
    var x := SlotPage(OtherSlot(mem.slot));
    assert IsEvent(h', x, SuperCell(sb), Last(h'));
    FilesHistory(h', s.disk);
    FilesWrite(h', s.disk, x, SuperCell(sb));
    FilesLength(s.h, s.disk);
    CheckpointedReset(s.h, s.c);
    CheckpointedWal(s.h, s.wal.durable, s.c);
    CheckpointedView(s.h, s.disk);
    SlotWriteView(h', s.disk, map[], x, SuperCell(sb));
  }

  /** The last batch in the log is the last commit. */
  lemma LogTail(h: History, f: WalFile, c: nat)
    requires h.events != [] && WalFileOk(h, f, c) && f.Log? && Mark(h) <= |h.log|
    ensures c + |f.batches| == |h.log|
    ensures f.batches != [] ==> c < |h.log| && f.batches[|f.batches| - 1].commitLsn == LsnOf(h.lsn0, h.log, |h.log|)
  {
    if f.batches != [] {
      assert Logs(f.batches[|f.batches| - 1], h.log[c + (|f.batches| - 1)]);
    }
  }

  lemma CheckpointedReset(h: History, c: nat)
    requires h.events != [] && ResetAt(h, c)
    ensures ResetAt(Checkpointed(h), c)
  {
    var g :| 0 <= g < |h.events| && h.events[g].k == h.events[g].j == c;
    assert Checkpointed(h).events[g] == h.events[g];
  }

  lemma CheckpointedWal(h: History, f: WalFile, c: nat)
    requires h.events != [] && WalFileOk(h, f, c) && Mark(h) <= |h.log|
    ensures WalFileOk(Checkpointed(h), f, c)
  {
  }

  lemma CheckpointedView(h: History, d: Disk)
    requires h.events != [] && View(h, d, map[])
    ensures View(Checkpointed(h), d, map[])
  {
  }

  lemma MarkSyncKeeps(s: State, s': State)
    requires Inv(s) && DoMarkSync(s, s')
    ensures Inv(s')
  {
    hide FilesOk, WalFileOk, ResetAt;
    FilesHistory(s.h, s.disk);
    FilesSync(s.h, s.disk);
    FilesLength(s.h, s.disk);
    FilesBound(s.h, s.disk);
    SyncedView(s.h, s.disk, map[]);
  }

  lemma ResetCutKeeps(s: State, s': State)
    requires Inv(s) && DoResetCut(s, s')
    ensures Inv(s')
  {
    hide FilesOk, MemOk, ResetAt, Settled;
    FilesHistory(s.h, s.disk);
    LogTail(s.h, s.wal.durable, s.c);
    LastDescribes(s.h);
    MemSuper(s.h, s.disk, s.c, s.phase.mem);
    if Mark(s.h) < |s.h.log| {
      LsnAscends(s.h.base, s.h.lsn0, s.h.log, Mark(s.h), |s.h.log|);
    }
  }

  lemma MemSuper(h: History, d: Disk, c: nat, mem: Mem)
    requires h.events != [] && MemOk(h, d, c, mem)
    ensures mem.sb == h.events[Last(h)].sb
    ensures mem.dirtySuper.None? ==> Settled(h, d) && forall c' :: MemOk(h, d, c', mem)
  {
  }

  lemma ResetCutSyncKeeps(s: State, s': State)
    requires Inv(s) && DoResetCutSync(s, s')
    ensures Inv(s')
  {
    hide FilesOk, MemOk, Settled;
    FilesHistory(s.h, s.disk);
    MemSuper(s.h, s.disk, s.c, s.phase.mem);
    assert s.h.events[Last(s.h)].k == s.h.events[Last(s.h)].j == |s.h.log|;
  }

  lemma ResetInitKeeps(s: State, s': State)
    requires Inv(s) && DoResetInit(s, s')
    ensures Inv(s')
  {
    hide FilesOk, MemOk, Settled, ResetAt;
    FilesHistory(s.h, s.disk);
    LastDescribes(s.h);
    MemSuper(s.h, s.disk, s.c, s.phase.mem);
  }

  lemma ResetSyncKeeps(s: State, s': State)
    requires Inv(s) && DoResetSync(s, s')
    ensures Inv(s')
  {
    hide FilesOk, Settled, ResetAt, View, Unflushed, Flushed;
    FilesHistory(s.h, s.disk);
  }

  // ---------------------------------------------------------------- crashes

  lemma SettledCrash(h: History, d: Disk, cells: Cells)
    requires h.events != [] && Settled(h, d) && CrashesTo(d, cells)
    ensures Settled(h, Fresh(cells))
  {
    assert Possible(d, LastSlot(h), cells[LastSlot(h)]);
  }

  /** The store's files after a crash, when no unsynced batch survives. */
  lemma CrashPlain(s: State, cells: Cells, file: WalFile, c: nat)
    requires Inv(s) && CrashesTo(s.disk, cells) && WalFileOk(s.h, file, c) && ResetAt(s.h, c)
    requires c == |s.h.log| ==> Settled(s.h, s.disk)
    ensures Inv(State(s.h, s.acked, Fresh(cells), Wal(file, file), c, Down))
  {
    hide FilesOk, WalFileOk, ResetAt, PhaseOk, Settled, CrashesTo;
    FilesHistory(s.h, s.disk);
    FilesCrash(s.h, s.disk, cells);
    if c == |s.h.log| {
      SettledCrash(s.h, s.disk, cells);
    }
    DownOk(State(s.h, s.acked, Fresh(cells), Wal(file, file), c, Down));
  }

  lemma DownOk(s: State)
    requires s.h.events != [] && s.phase.Down? && s.disk == Fresh(s.disk.volatile) && s.wal.volatile == s.wal.durable
    ensures PhaseOk(s)
  {
  }

  lemma CrashAppended(s: State, cells: Cells, kept: nat, file: WalFile)
    requires Inv(s) && CrashesTo(s.disk, cells) && s.phase.Appended? && kept <= |s.phase.tail|
    requires s.wal.durable.Log? && s.wal.volatile.Log? && |s.wal.durable.batches| + kept <= |s.wal.volatile.batches|
    requires file.Log? && file.start == s.wal.durable.start && NumberedFile(file)
    requires file.batches == s.wal.volatile.batches[..|s.wal.durable.batches| + kept]
    ensures Inv(State(Grow(s.h, s.phase.tail[..kept]), s.acked, Fresh(cells), Wal(file, file), s.c, Down))
  {
    hide FilesOk, WalFileOk, ResetAt, Settled, CrashesTo, MemOk, AllContinue;
    var bs := s.phase.tail[..kept];
    FilesHistory(s.h, s.disk);
    ContinuePrefix(s.h, s.phase.tail, kept);
    FilesGrow(s.h, s.disk, bs);
    FilesCrash(Grow(s.h, bs), s.disk, cells);
    WalGrows(s.h, s.wal.durable, s.wal.volatile, s.c, s.phase.tail, kept, file);
    ResetGrows(s.h, bs, s.c);
    WalIndex(s.h, s.wal.durable, s.c);
    GrowAdds(s.h, bs);
    if kept == 0 {
      assert Grow(s.h, bs) == s.h;
      if s.c == |s.h.log| {
        SettledCrash(s.h, s.disk, cells);
      }
    }
  }

  /** A log file that is being created or reset covers nothing, because the
      checkpoint covers everything. */
  lemma NewLogFile(s: State, file: WalFile)
    requires Inv(s) && !s.phase.Appended? && file != s.wal.durable
    requires file == s.wal.volatile || (s.wal.durable == Empty && s.wal.volatile.Log? && file == TornInit(s.wal.volatile.start))
    ensures WalFileOk(s.h, file, |s.h.log|) && ResetAt(s.h, |s.h.log|) && Settled(s.h, s.disk)
  {
    hide FilesOk, MemOk, Settled;
    FilesHistory(s.h, s.disk);
    assert s.phase.Opening? || s.phase.Resetting?;
    assert Mark(s.h) == |s.h.log|;
    assert s.h.events[Last(s.h)].k == s.h.events[Last(s.h)].j == |s.h.log|;
    if s.phase.Opening? {
      SettledHint(s.h, s.disk);
    } else {
      MemSuper(s.h, s.disk, s.c, s.phase.mem);
    }
  }

  /** With a settled superblock the hint is the LSN of the last commit. */
  lemma SettledHint(h: History, d: Disk)
    requires FilesOk(h, d) && d == Fresh(d.volatile) && Settled(h, d)
    ensures Chosen(h, d.volatile, Last(h))
    ensures HintOf(d.volatile) == LsnOf(h.lsn0, h.log, Mark(h))
  {
    FilesSlots(h, d);
    FilesHistory(h, d);
    LastDescribes(h);
    hide FilesOk;
    assert IsEvent(h, LastSlot(h), d.volatile[LastSlot(h)], Last(h));
    var g := ChoiceExists(h, d.volatile);
  }

  lemma FilesSlots(h: History, d: Disk)
    requires FilesOk(h, d) && d == Fresh(d.volatile)
    ensures |d.volatile| > FIRST_DATA_PAGE && SlotOk(h, 0, d.volatile[0]) && SlotOk(h, 1, d.volatile[1])
  {
    hide SlotOk, Repairable, HistoryOk;
    FilesLength(h, d);
    assert Possible(d, 0, d.volatile[0]) && Possible(d, 1, d.volatile[1]);
  }

  lemma CrashKeeps(s: State, cells: Cells, file: WalFile, kept: nat, s': State)
    requires Inv(s) && DoCrash(s, cells, file, kept, s')
    ensures Inv(s')
  {
    hide FilesOk, WalFileOk, ResetAt, Settled, CrashesTo, Inv;
    if s.phase.Appended? {
      AppendedFiles(s);
      CrashAppended(s, cells, kept, file);
    } else if file == s.wal.durable {
      InvSafe(s);
      CrashPlain(s, cells, file, s.c);
    } else {
      NewLogFile(s, file);
      CrashPlain(s, cells, file, |s.h.log|);
    }
  }

  lemma AppendedFiles(s: State)
    requires Inv(s) && s.phase.Appended?
    ensures s.wal.durable.Log? && s.wal.volatile.Log? && |s.wal.durable.batches| <= |s.wal.volatile.batches|
    ensures s.wal.durable.batches == s.wal.volatile.batches[..|s.wal.durable.batches| + 0] && NumberedFile(s.wal.durable)
    ensures Grow(s.h, s.phase.tail[..0]) == s.h
  {
    hide FilesOk, MemOk, Settled, ResetAt, WalHolds;
  }

  lemma InvSafe(s: State)
    requires Inv(s)
    ensures s.h.events != [] && s.acked <= |s.h.log|
    ensures WalFileOk(s.h, s.wal.durable, s.c) && ResetAt(s.h, s.c) && (s.c == |s.h.log| ==> Settled(s.h, s.disk))
  {
    hide FilesOk, PhaseOk;
  }

  // ---------------------------------------------------------------- recovery

  lemma OpenKeeps(s: State, s': State)
    requires Inv(s) && DoOpen(s, s')
    ensures Inv(s')
  {
    hide FilesOk, WalFileOk, ResetAt, Settled;
    FilesLength(s.h, s.disk);
  }

  lemma OpenLogKeeps(s: State, s': State)
    requires Inv(s) && (DoTornCut(s, s') || DoTornCutSync(s, s') || DoInitWrite(s, s') || DoInitSync(s, s'))
    ensures Inv(s')
  {
    hide FilesOk, ResetAt, Settled;
    FilesHistory(s.h, s.disk);
    if s.wal.durable == Empty {
      SettledHint(s.h, s.disk);
    }
  }

  lemma StartReplayKeeps(s: State, s': State)
    requires Inv(s) && DoStartReplay(s, s')
    ensures Inv(s')
  {
    hide WalFileOk, ResetAt, HistoryOk, SlotOk, Repairable;
    FilesSlots(s.h, s.disk);
    FilesHistory(s.h, s.disk);
    forall x | FIRST_DATA_PAGE <= x < |s.disk.volatile|
      ensures Repairable(s.h.base, s.h.log, x, s.disk.volatile[x], Mark(s.h))
    {
      assert Possible(s.disk, x, s.disk.volatile[x]);
    }
  }

  /** Where the replay starts: at the first batch of the log, or after the
      checkpoint of the newest superblock. */
  lemma ReplayFrom(h: History, c: nat, start: Cells, batches: seq<WalBatch>) returns (from: nat)
    requires HistoryOk(h) && StartOk(h, c, start) && WalHolds(batches, h.log, c) && c <= Mark(h) <= |h.log|
    ensures c <= from <= Mark(h) && WalHolds(Since(batches, HintOf(start)), h.log, from)
    ensures ChooseSuperblock(start[0], start[1]).None? ==> from == c < |h.log|
    ensures forall g: nat :: Chosen(h, start, g) ==> h.events[g].j <= from
    ensures from == |h.log| ==> exists g: nat :: Chosen(h, start, g) && h.events[g].k == |h.log| && c <= h.events[g].j
  {
    hide LogOk, WalHolds, EventsOk, FileRepairable, SlotOk, Chosen, Since;
    if ChooseSuperblock(start[0], start[1]).None? {
      NoneChosen(h, c, start);
      from := c;
      SinceZero(h.base, h.lsn0, h.log, c, batches, |batches|);
      assert batches[..|batches|] == batches;
    } else {
      var g := NewestChosen(h, c, start);
      var j := h.events[g].j;
      from := if j <= c then c else j;
      SinceSuffix(h.base, h.lsn0, h.log, c, batches, j);
    }
  }

  lemma NoneChosen(h: History, c: nat, start: Cells)
    requires h.events != [] && StartOk(h, c, start) && c <= |h.log| && ChooseSuperblock(start[0], start[1]).None?
    ensures c < |h.log| && forall g: nat :: !Chosen(h, start, g)
  {
    hide FileRepairable, SlotOk;
  }

  /** The superblock recovery chooses, and where its checkpoint lies. */
  lemma NewestChosen(h: History, c: nat, start: Cells) returns (g: nat)
    requires HistoryOk(h) && StartOk(h, c, start) && c <= Mark(h) <= |h.log| && ChooseSuperblock(start[0], start[1]).Some?
    ensures Chosen(h, start, g) && forall f: nat :: Chosen(h, start, f) ==> f == g
    ensures g < |h.events| && h.events[g].j <= Mark(h) && h.events[g].j <= h.events[g].k <= |h.log|
    ensures HintOf(start) == LsnOf(h.lsn0, h.log, h.events[g].j)
    ensures c == |h.log| ==> h.events[g].j == |h.log|
  {
    hide LogOk, FileRepairable;
    g := ChoiceExists(h, start);
    assert Describes(h, h.events[g]);
    EventsAscend(h, g, Last(h));
    forall f: nat | Chosen(h, start, f) ensures f == g {
      ChosenOnce(h, start, f, g);
    }
    if c == |h.log| {
      assert IsEvent(h, LastSlot(h), start[LastSlot(h)], Last(h));
    }
  }

  lemma ChosenOnce(h: History, cells: Cells, f: nat, g: nat)
    requires EventsOk(h) && Chosen(h, cells, f) && Chosen(h, cells, g)
    ensures f == g
  {
    EventsAscend(h, 0, f);
    EventsAscend(h, 0, g);
  }

  lemma ReplayingParts(s: State)
    requires Inv(s) && s.phase.Replaying?
    ensures HistoryOk(s.h) && Mark(s.h) <= |s.h.log| && s.wal.durable.Log? && s.wal.volatile == s.wal.durable
    ensures StartOk(s.h, s.c, s.phase.start) && WalHolds(s.wal.durable.batches, s.h.log, s.c) && s.c <= Mark(s.h)
    ensures s.phase.hint == HintOf(s.phase.start)
  {
    hide HistoryOk, StartOk, Possible, Repairable, SlotOk;
  }

  lemma RedoLengthKeeps(s: State, s': State)
    requires Inv(s) && DoRedoLength(s, s')
    ensures Inv(s')
  {
    hide FilesOk, ResetAt, Settled, StartOk, WalHolds, HistoryOk;
    ReplayingParts(s);
    FilesBound(s.h, s.disk);
    FilesLength(s.h, s.disk);
    var from := ReplayFrom(s.h, s.c, s.phase.start, s.wal.durable.batches);
    NeededBound(s.h, from, Needed(s));
    FilesExtend(s.h, s.disk, HighestPage(Needed(s)) + 1);
    NeededSome(s.h, from, Needed(s));
  }

  lemma NeededBound(h: History, from: nat, needed: seq<WalBatch>)
    requires HistoryOk(h) && WalHolds(needed, h.log, from)
    ensures HighestPage(needed) <= Committed(h).high
  {
    hide EventsOk;
    ImgWhole(h.base, h.lsn0, h.log, |h.log|);
    ReplayLength(h.base, h.lsn0, h.log, from, needed, |h.log|, Committed(h).high + 1);
  }

  lemma NeededSome(h: History, from: nat, needed: seq<WalBatch>)
    requires WalHolds(needed, h.log, from) && needed != []
    ensures from < |h.log|
  {
  }

  /** The images to be replayed are those of committed batches. */
  lemma NeededLogs(s: State, b: nat) returns (k: nat)
    requires Inv(s) && s.phase.Replaying? && b < |Needed(s)|
    ensures s.c <= k < |s.h.log| && Logs(Needed(s)[b], s.h.log[k])
  {
    hide FilesOk, ResetAt, Settled, StartOk, HistoryOk, Logs;
    ReplayingParts(s);
    var from := ReplayFrom(s.h, s.c, s.phase.start, s.wal.durable.batches);
    k := from + b;
  }

  lemma RedoImageKeeps(s: State, b: nat, i: nat, s': State)
    requires Inv(s) && DoRedoImage(s, b, i, s')
    ensures Inv(s')
  {
    hide ResetAt, Settled, StartOk, WalFileOk, FilesOk, Inv;
    var (x, cell) := Needed(s)[b].images[i];
    var k := NeededLogs(s, b);
    assert ImageOf(Needed(s)[b].images[i], s.h.log[k]);
    if x >= FIRST_DATA_PAGE {
      RedoPageKeeps(s, Needed(s)[b].commitLsn, k, x, s');
    } else {
      RedoSuperblockKeeps(s, k, s');
    }
  }

  lemma RedoPageKeeps(s: State, lsn: nat, b: nat, x: PageId, s': State)
    requires Inv(s) && s.phase.Replaying? && s.c <= b < |s.h.log| && lsn == s.h.log[b].commitLsn && x in s.h.log[b].pages
    requires FIRST_DATA_PAGE <= x < |s.disk.volatile| && MustWrite(s.disk.volatile, x, lsn)
    requires s' == s.(disk := Write(s.disk, x, DataCell(s.h.log[b].pages[x])))
    ensures Inv(s')
  {
    hide ResetAt, Settled, StartOk, WalFileOk, FilesOk;
    FilesHistory(s.h, s.disk);
    CellRepairable(s.h, s.disk, x);
    RedoneRepairable(s.h, s.disk.volatile[x], b, x);
    FilesWrite(s.h, s.disk, x, DataCell(s.h.log[b].pages[x]));
  }

  lemma CellRepairable(h: History, d: Disk, x: PageId)
    requires FilesOk(h, d) && FIRST_DATA_PAGE <= x < |d.volatile|
    ensures Repairable(h.base, h.log, x, d.volatile[x], Mark(h))
  {
    hide SlotOk, Repairable, HistoryOk;
    assert Possible(d, x, d.volatile[x]);
  }

  /** Only pages that the log covers since the latest checkpoint are ever
      rewritten by a replay. */
  lemma RedoneRepairable(h: History, cell: Cell, b: nat, x: PageId)
    requires HistoryOk(h) && Mark(h) <= |h.log| && Repairable(h.base, h.log, x, cell, Mark(h))
    requires b < |h.log| && x in h.log[b].pages && !(cell.DataCell? && cell.page.lsn >= h.log[b].commitLsn)
    ensures Covered(h.log, x, Mark(h), |h.log|)
    ensures Repairable(h.base, h.log, x, DataCell(h.log[b].pages[x]), Mark(h))
  {
    hide EventsOk;
    if !Covered(h.log, x, Mark(h), |h.log|) {
      StampLower(h.base, h.lsn0, h.log, x, b, |h.log|);
    }
    ImgStep(h.base, h.log, b);
    assert IsVersion(h.base, h.log, x, DataCell(h.log[b].pages[x]), b + 1);
  }

  lemma RedoSuperblockKeeps(s: State, b: nat, s': State)
    requires Inv(s) && s.phase.Replaying? && s.c <= b < |s.h.log| && SlotPage(s.h.log[b].slot) < |s.disk.volatile|
    requires s' == s.(disk := Write(s.disk, SlotPage(s.h.log[b].slot), SuperCell(SuperOf(s.h.log[b]))))
    ensures Inv(s')
  {
    hide ResetAt, Settled, StartOk, WalFileOk, FilesOk;
    FilesHistory(s.h, s.disk);
    var g := EventOf(s.h, b, Last(s.h));
    assert IsEvent(s.h, SlotPage(s.h.log[b].slot), SuperCell(SuperOf(s.h.log[b])), g);
    FilesWrite(s.h, s.disk, SlotPage(s.h.log[b].slot), SuperCell(SuperOf(s.h.log[b])));
  }

  /** A complete replay restores the committed image, and the newest superblock
      describes it. */
  lemma ReplayRestores(s: State) returns (g: nat)
    requires Inv(s) && s.phase.Replaying? && s.disk.volatile == Recovered(s.phase.start, Needed(s))
    ensures Restored(s.h.base, s.h.log, s.disk.volatile) && |s.disk.volatile| > FIRST_DATA_PAGE
    ensures Chosen(s.h, s.disk.volatile, g) && s.h.events[g].k == |s.h.log| && s.c <= s.h.events[g].j
    ensures ChooseSuperblock(s.disk.volatile[0], s.disk.volatile[1]).value.0 == SlotAt(s.h, g)
    ensures SlotOk(s.h, 0, s.disk.volatile[0]) && SlotOk(s.h, 1, s.disk.volatile[1])
  {
    hide FilesOk, WalHolds, Settled, FileRepairable, LogOk, Restored, SlotFrom;
    ReplayingParts(s);
    InvSafe(s);
    var start, needed := s.phase.start, Needed(s);
    var from := ReplayFrom(s.h, s.c, start, s.wal.durable.batches);
    RedoConverges(s.h.base, s.h.lsn0, s.h.log, from, needed, start, Mark(s.h));
    WalLength(needed, s.h.log, from);
    if from == |s.h.log| {
      g :| Chosen(s.h, start, g) && s.h.events[g].k == |s.h.log| && s.c <= s.h.events[g].j;
      FirstSlot(s.h, s.c, start, g);
    } else {
      StartEvents(s.h, start, from);
      g := ReplayedChoice(s.h, start, s.disk.volatile, from);
      ResetBefore(s.h, s.c, g);
    }
  }

  lemma FirstSlot(h: History, c: nat, start: Cells, g: nat)
    requires EventsOk(h) && StartOk(h, c, start) && Chosen(h, start, g) && h.events[g].k == |h.log| && c <= |h.log|
    ensures ChooseSuperblock(start[0], start[1]).value.0 == SlotAt(h, g)
  {
    hide FileRepairable;
    if g == 0 {
      assert IsEvent(h, LastSlot(h), start[LastSlot(h)], Last(h));
      if start[1].SuperCell? {
        var f: nat :| IsEvent(h, 1, start[1], f);
        assert f <= 0;
      }
    }
  }

  lemma StartEvents(h: History, start: Cells, from: nat)
    requires EventsOk(h) && |start| >= FIRST_DATA_PAGE && SlotOk(h, 0, start[0]) && SlotOk(h, 1, start[1]) && from < |h.log|
    requires forall g: nat :: Chosen(h, start, g) ==> h.events[g].j <= from
    ensures forall x: nat, f: nat :: 0 <= x < FIRST_DATA_PAGE && IsEvent(h, x, start[x], f) ==> h.events[f].j < |h.log|
  {
    forall x: nat, f: nat | 0 <= x < FIRST_DATA_PAGE && IsEvent(h, x, start[x], f) ensures h.events[f].j < |h.log| {
      var g := ChoiceExists(h, start);
      EventsAscend(h, f, g);
    }
  }

  lemma ResetBefore(h: History, c: nat, g: nat)
    requires EventsOk(h) && ResetAt(h, c) && g < |h.events| && h.events[g].k == |h.log| && c < |h.log|
    ensures c <= h.events[g].j && exists f :: 0 <= f < g && h.events[f].k == h.events[f].j == c
  {
    var f :| 0 <= f < |h.events| && h.events[f].k == h.events[f].j == c;
    if g <= f {
      EventsAscend(h, g, f);
    } else {
      EventsAscend(h, f, g);
    }
  }

  ghost function Truncated(h: History, g: nat): History
    requires g < |h.events|
  {
    h.(events := h.events[..g + 1])
  }

  lemma ForgetIs(h: History, g: nat)
    requires EventsOk(h) && g < |h.events|
    ensures Forget(h, h.events[g].sb) == Truncated(h, g)
  {
    EventsAscend(h, 0, g);
  }

  lemma TruncatedOk(h: History, g: nat)
    requires HistoryOk(h) && g < |h.events| && h.events[g].k == |h.log|
    ensures HistoryOk(Truncated(h, g)) && Mark(Truncated(h, g)) == h.events[g].j <= |h.log|
  {
    var h' := Truncated(h, g);
    hide LogOk;
    assert Describes(h, h.events[g]);
    forall f | 0 <= f < |h'.events| ensures Describes(h', h'.events[f]) {
      assert Describes(h, h.events[f]);
    }
    forall f | 0 < f < |h'.events| ensures Follows(h', f) {
      assert Follows(h, f);
    }
  }

  lemma ServedFiles(h: History, cells: Cells, g: nat)
    requires HistoryOk(h) && Restored(h.base, h.log, cells) && |cells| > FIRST_DATA_PAGE
    requires Chosen(h, cells, g) && h.events[g].k == |h.log| && SlotOk(h, 0, cells[0]) && SlotOk(h, 1, cells[1])
    requires ChooseSuperblock(cells[0], cells[1]).value.0 == SlotAt(h, g)
    ensures FilesOk(Truncated(h, g), Fresh(cells)) && Settled(Truncated(h, g), Fresh(cells))
    ensures View(Truncated(h, g), Fresh(cells), map[])
  {
    hide HistoryOk, LogOk, SlotOk;
    var h' := Truncated(h, g);
    HistoryLog(h);
    TruncatedOk(h, g);
    FreshOk(cells);
    HighGrows(h.base, h.lsn0, h.log, Mark(h'), |h.log|);
    ImgWhole(h.base, h.lsn0, h.log, |h.log|);
    forall y, e | FIRST_DATA_PAGE <= y < |cells| && Possible(Fresh(cells), y, e) ensures Repairable(h'.base, h'.log, y, e, Mark(h')) {
      assert IsVersion(h.base, h.log, y, cells[y], |h.log|);
    }
    forall y, e | 0 <= y < FIRST_DATA_PAGE && Possible(Fresh(cells), y, e) ensures SlotOk(h', y, e) {
      TruncatedSlot(h, cells, g, y);
    }
    TruncatedView(h, cells);
  }

  lemma TruncatedSlot(h: History, cells: Cells, g: nat, x: PageId)
    requires x < FIRST_DATA_PAGE && Chosen(h, cells, g) && SlotOk(h, x, cells[x])
    ensures SlotOk(Truncated(h, g), x, cells[x])
  {
    if cells[x] != Garbage {
      var f: nat :| IsEvent(h, x, cells[x], f);
      assert IsEvent(Truncated(h, g), x, cells[x], f);
    }
  }

  lemma TruncatedView(h: History, cells: Cells)
    requires Restored(h.base, h.log, cells) && Whole(Committed(h))
    ensures View(h, Fresh(cells), map[])
  {
    forall x | x in Committed(h).pages ensures x < |cells| && cells[x] == DataCell(Committed(h).pages[x]) {
      assert IsVersion(h.base, h.log, x, cells[x], |h.log|);
    }
  }

  lemma ServeKeeps(s: State, maxRevision: nat, s': State)
    requires Inv(s) && DoServe(s, maxRevision, s')
    ensures Inv(s') && s'.h.log == s.h.log && s'.h.base == s.h.base
  {
    hide FilesOk, Settled, Restored, View, HistoryOk, StartOk, WalHolds, SlotOk, ResetAt, Inv;
    var g := ReplayRestores(s);
    ReplayingParts(s);
    InvSafe(s);
    HistoryEvents(s.h);
    ForgetIs(s.h, g);
    TruncatedOk(s.h, g);
    ServedFiles(s.h, s.disk.volatile, g);
    ServedLength(s.h, s.disk.volatile);
    ServedReset(s.h, s.c, g);
    FileNumbers(s.h, s.wal.durable, s.c);
    ServedLsn(s, s'.phase.mem.nextLsn, g);
    ServedWal(s.h, s.wal.durable, s.c, g);
    ServedInv(s', Truncated(s.h, g));
  }

  lemma ServedWal(h: History, f: WalFile, c: nat, g: nat)
    requires h.events != [] && WalFileOk(h, f, c) && f.Log? && g < |h.events| && c <= h.events[g].j
    ensures WalFileOk(Truncated(h, g), f, c)
  {
  }

  lemma ServedInv(s: State, h: History)
    requires s.h == h && FilesOk(h, s.disk) && s.phase.Idle? && h.events != []
    requires Settled(h, s.disk) && View(h, s.disk, map[]) && s.disk == Fresh(s.disk.volatile)
    requires |s.disk.volatile| == Committed(h).high + 1 && s.acked <= |h.log|
    requires s.wal.durable.Log? && s.wal.volatile == s.wal.durable && WalFileOk(h, s.wal.durable, s.c) && ResetAt(h, s.c)
    requires s.phase.mem == Mem(map[], None, h.events[Last(h)].sb, SlotAt(h, Last(h)), s.phase.mem.nextLsn, s.phase.mem.nextBatchId,
                                s.phase.mem.nextRevision, Writer(s.phase.mem.nextLsn, s.phase.mem.nextBatchId))
    requires FollowsFile(s.wal.durable, s.phase.mem)
    requires s.phase.mem.nextLsn > LsnOf(h.lsn0, h.log, |h.log|)
    ensures Inv(s)
  {
    hide FilesOk, Settled, View, WalFileOk, ResetAt;
    FilesHistory(h, s.disk);
  }

  lemma HistoryLog(h: History)
    requires HistoryOk(h)
    ensures LogOk(h.base, h.lsn0, h.log) && h.events != []
  {
    hide LogOk;
  }

  lemma HistoryEvents(h: History)
    requires HistoryOk(h)
    ensures EventsOk(h)
  {
  }

  lemma ServedLength(h: History, cells: Cells)
    requires Restored(h.base, h.log, cells)
    ensures |cells| == Committed(h).high + 1
  {
  }

  lemma ServedReset(h: History, c: nat, g: nat)
    requires EventsOk(h) && ResetAt(h, c) && g < |h.events| && h.events[g].k == |h.log| && c <= h.events[g].j
    ensures ResetAt(Truncated(h, g), c)
  {
    var h' := Truncated(h, g);
    assert Describes(h, h.events[g]);
    if c < |h.log| {
      ResetBefore(h, c, g);
      var f :| 0 <= f < g && h.events[f].k == h.events[f].j == c;
      assert h'.events[f] == h.events[f];
    } else {
      assert h'.events[g] == h.events[g];
    }
  }

  /** The next LSN is above everything committed. */
  lemma ServedLsn(s: State, nextLsn: nat, g: nat)
    requires HistoryOk(s.h) && s.wal.durable.Log? && WalHolds(s.wal.durable.batches, s.h.log, s.c) && s.c <= |s.h.log|
    requires g < |s.h.events| && s.c <= s.h.events[g].j && nextLsn > s.h.events[g].sb.checkpointLsn
    requires forall i :: 0 <= i < |s.wal.durable.batches| ==> nextLsn > s.wal.durable.batches[i].commitLsn
    ensures nextLsn > LsnOf(s.h.lsn0, s.h.log, |s.h.log|)
  {
    hide LogOk;
    var ws := s.wal.durable.batches;
    assert Describes(s.h, s.h.events[g]);
    if s.c < |s.h.log| {
      assert Logs(ws[|ws| - 1], s.h.log[s.c + (|ws| - 1)]);
    }
  }

  /** Whatever is staged from the counters of the store passes the checks of the
      log. */
  lemma RecordsExpected(mem: Mem, batches: seq<Prepared>, records: seq<WalBatch>)
    requires Ordered(batches, CountersOf(mem)) && mem.log == Writer(mem.nextLsn, mem.nextBatchId)
    requires AllLogged(records, batches)
    ensures Accepts(mem.log, records)
  {
    forall i | 0 <= i < |records| ensures Expected(WriterAt(mem.log, records, i), records[i]) {
      assert InOrder(batches, i, CountersOf(mem)) && Logs(records[i], batches[i]);
      assert i > 0 ==> Logs(records[i - 1], batches[i - 1]);
      LoggedCount(records[i], batches[i]);
    }
  }

  // ---------------------------------------------------------------- every step, every run

  lemma NextKeeps(s: State, step: Step, s': State)
    requires Inv(s) && Transition(s, step, s')
    ensures Inv(s')
  {
    hide Inv;
    match step
    case Append(group, records) => AppendKeeps(s, group, records, s');
    case SyncLog => SyncLogKeeps(s, s');
    case Acknowledge => AcknowledgeKeeps(s, s');
    case FlushLength => FlushLengthKeeps(s, s');
    case FlushPage(x) => FlushPageKeeps(s, x, s');
    case FlushSuperblock => FlushSuperblockKeeps(s, s');
    case FlushSync => FlushSyncKeeps(s, s');
    case MarkWrite => MarkWriteKeeps(s, s');
    case MarkSync => MarkSyncKeeps(s, s');
    case ResetCut => ResetCutKeeps(s, s');
    case ResetCutSync => ResetCutSyncKeeps(s, s');
    case ResetInit => ResetInitKeeps(s, s');
    case ResetSync => ResetSyncKeeps(s, s');
    case Crash(cells, file, kept) => CrashKeeps(s, cells, file, kept, s');
    case Open => OpenKeeps(s, s');
    case TornCut => OpenLogKeeps(s, s');
    case TornCutSync => OpenLogKeeps(s, s');
    case InitWrite => OpenLogKeeps(s, s');
    case InitSync => OpenLogKeeps(s, s');
    case StartReplay => StartReplayKeeps(s, s');
    case RedoLength => RedoLengthKeeps(s, s');
    case RedoImage(b, i) => RedoImageKeeps(s, b, i, s');
    case Serve(maxRevision) => ServeKeeps(s, maxRevision, s');
  }
}
