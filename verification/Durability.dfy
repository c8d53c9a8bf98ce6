/** The durability protocol as a state machine: log append and sync, publication,
    flush, checkpoint, log reset, crashes at any point, and recovery, itself
    interruptible (btree/mod.rs, wal.rs). */
module Durability {
  import opened Pages
  import opened Batches
  import opened Versions
  import opened Redo
  import opened Disk
  import opened Chronicle

  /** The log file: nothing, a torn first frame, or an initialised log with its
      committed batches, the LSN of its last record and its highest batch
      number, committed or not. */
  datatype WalFile = Empty | TornInit(start: nat) | Log(start: nat, batches: seq<WalBatch>, last: nat, highest: nat)

  datatype Wal = Wal(volatile: WalFile, durable: WalFile)

  /** Where the log goes on, as the log itself keeps it. */
  datatype Writer = Writer(nextLsn: nat, nextBatchId: nat)

  /** What the running store keeps in memory; `log` belongs to its log. */
  datatype Mem = Mem(dirty: PageMap, dirtySuper: Option<Superblock>, sb: Superblock, slot: Slot, nextLsn: nat, nextBatchId: nat,
                     nextRevision: nat, log: Writer)

  datatype Phase =
    | Down
    | Opening(hint: nat)
    | Replaying(start: Cells, hint: nat)
    | Idle(mem: Mem)
    | Appended(mem: Mem, tail: seq<Prepared>)
    | Marking(mem: Mem)
    | Resetting(mem: Mem)

  /** The history h and the index c of the first batch the log still holds are
      what is to be proved about the files; acked counts the commits whose
      callers were told. */
  datatype State = State(h: History, acked: nat, disk: Disk, wal: Wal, c: nat, phase: Phase)

  // ---------------------------------------------------------------- the invariant

  ghost function Count(h: History): nat {
    |h.log|
  }

  ghost function Committed(h: History): Image {
    Img(h.base, h.log, |h.log|)
  }

  /** Whatever a crash leaves of the data file can be repaired. */
  ghost predicate FilesOk(h: History, d: Disk) {
    && HistoryOk(h) && DiskOk(d) && Mark(h) <= |h.log|
    && Img(h.base, h.log, Mark(h)).high < |d.durable| && |d.volatile| <= Committed(h).high + 1
    && (forall x, c :: FIRST_DATA_PAGE <= x < |d.volatile| && Possible(d, x, c) ==> Repairable(h.base, h.log, x, c, Mark(h)))
    && (forall x, c :: 0 <= x < FIRST_DATA_PAGE && Possible(d, x, c) ==> SlotOk(h, x, c))
  }

  ghost function LastSlot(h: History): PageId
    requires h.events != []
  {
    SlotPage(SlotAt(h, Last(h)))
  }

  /** The newest superblock is safely in its slot. */
  ghost predicate Settled(h: History, d: Disk)
    requires h.events != []
  {
    && |d.durable| > FIRST_DATA_PAGE
    && LastSlot(h) !in d.unsynced
    && d.durable[LastSlot(h)] == SuperCell(h.events[Last(h)].sb)
  }

  ghost predicate WalFileOk(h: History, f: WalFile, c: nat)
    requires h.events != []
  {
    match f
    case Empty => c == |h.log| == Mark(h)
    case TornInit(start) => c == |h.log| == Mark(h) && start == LsnOf(h.lsn0, h.log, |h.log|)
    case Log(start, batches, _, _) => c <= Mark(h) && WalHolds(batches, h.log, c) && start == LsnOf(h.lsn0, h.log, c) && NumberedFile(f)
  }

  /** No batch is numbered beyond the last record. */
  ghost predicate NumberedFile(f: WalFile) {
    f.Log? ==> forall i :: 0 <= i < |f.batches| ==> f.batches[i].commitLsn <= f.last && f.batches[i].batchId <= f.highest
  }

  /** The counters lie beyond everything in the file. */
  ghost predicate FollowsFile(f: WalFile, mem: Mem) {
    f.Log? && f.last < mem.nextLsn && f.highest < mem.nextBatchId
  }

  ghost predicate Safe(s: State) {
    && FilesOk(s.h, s.disk)
    && WalFileOk(s.h, s.wal.durable, s.c)
    && (s.c == |s.h.log| ==> Settled(s.h, s.disk))
    && ResetAt(s.h, s.c)
    && s.acked <= |s.h.log|
  }

  /** The log starts where some checkpoint of everything left it. */
  ghost predicate ResetAt(h: History, c: nat) {
    exists g :: 0 <= g < |h.events| && h.events[g].k == h.events[g].j == c
  }

  /** Reads through the dirty pages see the committed image. */
  ghost predicate View(h: History, d: Disk, dirty: PageMap) {
    forall x :: x in Committed(h).pages ==>
      if x in dirty then dirty[x] == Committed(h).pages[x]
      else x < |d.volatile| && d.volatile[x] == DataCell(Committed(h).pages[x])
  }

  ghost predicate Unflushed(h: History, dirty: PageMap)
    requires h.events != []
  {
    Mark(h) <= |h.log| && forall x :: x in dirty ==> x in Committed(h).pages && Covered(h.log, x, Mark(h), |h.log|)
  }

  ghost predicate Flushed(h: History, d: Disk)
    requires h.events != []
  {
    d == Fresh(d.volatile) && Settled(h, d) && |d.volatile| == Committed(h).high + 1
  }

  ghost predicate MemOk(h: History, d: Disk, c: nat, mem: Mem)
    requires h.events != []
  {
    && mem.sb == h.events[Last(h)].sb && mem.slot == SlotAt(h, Last(h))
    && mem.nextLsn > LsnOf(h.lsn0, h.log, |h.log|)
    && mem.log == Writer(mem.nextLsn, mem.nextBatchId)
    && View(h, d, mem.dirty) && Unflushed(h, mem.dirty)
    && (mem.dirtySuper.Some? ==> mem.dirtySuper.value == mem.sb && c < |h.log|)
    && (mem.dirtySuper.None? ==> mem.dirty == map[] && Flushed(h, d))
  }

  ghost function HintOf(cells: Cells): nat
    requires |cells| >= FIRST_DATA_PAGE
  {
    match ChooseSuperblock(cells[0], cells[1])
    case Some((_, sb)) => sb.checkpointLsn
    case None => 0
  }

  ghost predicate StartOk(h: History, c: nat, start: Cells)
    requires h.events != []
  {
    && FileRepairable(h.base, h.log, start, Mark(h)) && |start| > FIRST_DATA_PAGE
    && SlotOk(h, 0, start[0]) && SlotOk(h, 1, start[1])
    && (c == |h.log| ==> start[LastSlot(h)] == SuperCell(h.events[Last(h)].sb))
  }

  ghost predicate Appends(w: WalFile, w': WalFile, tail: seq<Prepared>) {
    && w.Log? && w'.Log? && w'.start == w.start && w.last <= w'.last && w.highest <= w'.highest && NumberedFile(w')
    && (tail != [] ==> w'.last == tail[|tail| - 1].commitLsn && w'.highest == tail[|tail| - 1].batchId)
    && |w'.batches| == |w.batches| + |tail| && w'.batches[..|w.batches|] == w.batches
    && forall i :: 0 <= i < |tail| ==> Logs(w'.batches[|w.batches| + i], tail[i])
  }

  ghost predicate PhaseOk(s: State)
    requires s.h.events != []
  {
    match s.phase
    case Down => s.disk == Fresh(s.disk.volatile) && s.wal.volatile == s.wal.durable
    case Opening(hint) =>
      && s.disk == Fresh(s.disk.volatile) && |s.disk.volatile| > FIRST_DATA_PAGE && hint == HintOf(s.disk.volatile)
      && (|| s.wal.volatile == s.wal.durable
          || (s.wal.durable.TornInit? && s.wal.volatile == Empty)
          || (s.wal.durable == Empty && s.wal.volatile == Log(hint, [], 0, 0)))
    case Replaying(start, hint) =>
      && s.wal.volatile == s.wal.durable && s.wal.durable.Log?
      && StartOk(s.h, s.c, start) && hint == HintOf(start)
    case Idle(mem) => s.wal.volatile == s.wal.durable && FollowsFile(s.wal.durable, mem) && MemOk(s.h, s.disk, s.c, mem)
    case Appended(mem, tail) =>
      && Appends(s.wal.durable, s.wal.volatile, tail) && AllContinue(s.h, tail) && tail != []
      && MemOk(s.h, s.disk, s.c, mem)
    case Marking(mem) =>
      && s.wal.volatile == s.wal.durable && FollowsFile(s.wal.durable, mem) && s.c < |s.h.log|
      && mem.log == Writer(mem.nextLsn, mem.nextBatchId)
      && mem.dirty == map[] && mem.dirtySuper.None? && View(s.h, s.disk, map[]) && Mark(s.h) == |s.h.log|
      && mem.sb == s.h.events[Last(s.h)].sb && mem.slot == SlotAt(s.h, Last(s.h))
      && mem.nextLsn > LsnOf(s.h.lsn0, s.h.log, |s.h.log|) && |s.disk.volatile| == Committed(s.h).high + 1 > FIRST_DATA_PAGE
      && s.disk.volatile[LastSlot(s.h)] == SuperCell(s.h.events[Last(s.h)].sb)
    case Resetting(mem) =>
      && MemOk(s.h, s.disk, s.c, mem) && mem.dirtySuper.None? && Mark(s.h) == |s.h.log|
      && (|| (s.wal.durable.Log? && s.wal.volatile == Empty)
          || (s.wal.durable == Empty && s.wal.volatile == Empty)
          || (s.wal.durable == Empty && s.wal.volatile == Log(LsnOf(s.h.lsn0, s.h.log, |s.h.log|), [], 0, 0)))
  }

  ghost predicate Inv(s: State) {
    Safe(s) && PhaseOk(s)
  }

  // ---------------------------------------------------------------- steps

  datatype Step =
    | Append(group: seq<Prepared>, records: seq<WalBatch>)
    | SyncLog
    | Acknowledge
    | FlushLength
    | FlushPage(x: PageId)
    | FlushSuperblock
    | FlushSync
    | MarkWrite
    | MarkSync
    | ResetCut
    | ResetCutSync
    | ResetInit
    | ResetSync
    | Crash(cells: Cells, file: WalFile, kept: nat)
    | Open
    | TornCut
    | TornCutSync
    | InitWrite
    | InitSync
    | StartReplay
    | RedoLength
    | RedoImage(b: nat, i: nat)
    | Serve(maxRevision: nat)

  ghost function CountersOf(mem: Mem): Counters {
    Counters(mem.nextLsn, mem.nextBatchId, mem.sb.generation, mem.slot, mem.sb.checkpointLsn)
  }

  /** A group as group commit prepares it. */
  ghost predicate GroupFrom(h: History, mem: Mem, group: seq<Prepared>) {
    && group != [] && Ordered(group, CountersOf(mem))
    && forall k :: 0 <= k <= |group| ==> Whole(ImageAfter(Committed(h), group[..k]))
  }

  ghost function AllPages(group: seq<Prepared>): PageMap {
    if group == [] then map[] else AllPages(group[..|group| - 1]) + group[|group| - 1].pages
  }

  /** The log goes on after each record. */
  ghost function WriterAt(w: Writer, records: seq<WalBatch>, i: nat): Writer
    requires i <= |records|
  {
    if i == 0 then w else Writer(records[i - 1].commitLsn + 1, records[i - 1].batchId + 1)
  }

  /** What the log demands of a batch: the expected number, and one LSN for each
      image before that of the commit. */
  ghost predicate Expected(w: Writer, r: WalBatch) {
    r.batchId == w.nextBatchId && r.commitLsn == w.nextLsn + |r.images|
  }

  ghost predicate Accepts(w: Writer, records: seq<WalBatch>) {
    forall i :: 0 <= i < |records| ==> Expected(WriterAt(w, records, i), records[i])
  }

  ghost predicate AllLogged(records: seq<WalBatch>, group: seq<Prepared>) {
    |records| == |group| && forall i :: 0 <= i < |group| ==> Logs(records[i], group[i])
  }

  /** However its pages are ordered, the log accepts the group. */
  ghost predicate Appendable(mem: Mem, group: seq<Prepared>) {
    forall records :: AllLogged(records, group) ==> Accepts(mem.log, records)
  }

  /** The log accepts the group, and all its records are in the file, not yet
      synced. */
  ghost predicate DoAppend(s: State, group: seq<Prepared>, records: seq<WalBatch>, s': State) {
    && s.phase.Idle? && s.wal.volatile.Log?
    && GroupFrom(s.h, s.phase.mem, group)
    && AllLogged(records, group) && Accepts(s.phase.mem.log, records)
    && var last := records[|records| - 1];
       s' == s.(wal := s.wal.(volatile := Log(s.wal.volatile.start, s.wal.volatile.batches + records, last.commitLsn, last.batchId)),
                phase := Appended(s.phase.mem, group))
  }

  /** The log is synced: the group is committed and published in memory. */
  ghost predicate DoSyncLog(s: State, s': State) {
    && s.phase.Appended? && s.h.events != [] && s.wal.volatile.Log?
    && var group, mem := s.phase.tail, s.phase.mem;
       && group != []
       && var last := group[|group| - 1];
          s' == s.(h := Grow(s.h, group), wal := Wal(s.wal.volatile, s.wal.volatile),
                   phase := Idle(Mem(mem.dirty + AllPages(group), Some(SuperOf(last)), SuperOf(last), last.slot,
                                     last.commitLsn + 1, last.batchId + 1, last.commitLsn + 1,
                                     Writer(s.wal.volatile.last + 1, s.wal.volatile.highest + 1))))
  }

  ghost predicate DoAcknowledge(s: State, s': State) {
    s.phase.Idle? && s' == s.(acked := |s.h.log|)
  }

  ghost predicate DoFlushLength(s: State, s': State) {
    && s.phase.Idle? && s.phase.mem.dirtySuper.Some? && |s.disk.volatile| < s.phase.mem.sb.high + 1
    && s' == s.(disk := Extend(s.disk, s.phase.mem.sb.high + 1))
  }

  ghost predicate DoFlushPage(s: State, x: PageId, s': State) {
    && s.phase.Idle? && s.phase.mem.dirtySuper.Some? && x in s.phase.mem.dirty && x < |s.disk.volatile|
    && s' == s.(disk := Write(s.disk, x, DataCell(s.phase.mem.dirty[x])))
  }

  ghost predicate DoFlushSuperblock(s: State, s': State) {
    && s.phase.Idle? && s.phase.mem.dirtySuper.Some? && SlotPage(s.phase.mem.slot) < |s.disk.volatile|
    && s' == s.(disk := Write(s.disk, SlotPage(s.phase.mem.slot), SuperCell(s.phase.mem.dirtySuper.value)))
  }

  /** Everything dirty has been written: the file is synced. */
  ghost predicate DoFlushSync(s: State, s': State) {
    && s.phase.Idle? && s.phase.mem.dirtySuper.Some?
    && var mem := s.phase.mem;
       && |s.disk.volatile| >= mem.sb.high + 1
       && (forall x :: x in mem.dirty ==> x < |s.disk.volatile| && s.disk.volatile[x] == DataCell(mem.dirty[x]))
       && SlotPage(mem.slot) < |s.disk.volatile| && s.disk.volatile[SlotPage(mem.slot)] == SuperCell(mem.dirtySuper.value)
       && s' == s.(disk := Sync(s.disk), phase := Idle(mem.(dirty := map[], dirtySuper := None)))
  }

  /** The checkpoint superblock goes to the other slot. */
  ghost predicate DoMarkWrite(s: State, s': State) {
    && s.phase.Idle? && s.phase.mem.dirtySuper.None? && s.h.events != [] && s.wal.volatile.Log? && s.wal.volatile.batches != []
    && var lsn := s.wal.volatile.batches[|s.wal.volatile.batches| - 1].commitLsn;
       var sb := s.phase.mem.sb.(generation := s.phase.mem.sb.generation + 1, checkpointLsn := lsn);
       && lsn > s.phase.mem.sb.checkpointLsn
       && SlotPage(OtherSlot(s.phase.mem.slot)) < |s.disk.volatile|
       && s' == s.(h := Checkpointed(s.h), disk := Write(s.disk, SlotPage(OtherSlot(s.phase.mem.slot)), SuperCell(sb)),
                   phase := Marking(s.phase.mem.(sb := sb, slot := OtherSlot(s.phase.mem.slot))))
  }

  ghost predicate DoMarkSync(s: State, s': State) {
    s.phase.Marking? && s' == s.(disk := Sync(s.disk), phase := Idle(s.phase.mem))
  }

  /** The log is reset once the checkpoint covers all of it. */
  ghost predicate DoResetCut(s: State, s': State) {
    && s.phase.Idle? && s.phase.mem.dirtySuper.None? && s.wal.volatile.Log?
    && (s.wal.volatile.batches != [] ==> s.wal.volatile.batches[|s.wal.volatile.batches| - 1].commitLsn <= s.phase.mem.sb.checkpointLsn)
    && s' == s.(wal := s.wal.(volatile := Empty), phase := Resetting(s.phase.mem))
  }

  ghost predicate DoResetCutSync(s: State, s': State) {
    && s.phase.Resetting? && s.wal.volatile == Empty
    && s' == s.(wal := Wal(Empty, Empty), c := |s.h.log|)
  }

  ghost predicate DoResetInit(s: State, s': State) {
    && s.phase.Resetting? && s.wal == Wal(Empty, Empty)
    && s' == s.(wal := s.wal.(volatile := Log(s.phase.mem.sb.checkpointLsn, [], 0, 0)))
  }

  /** The log begins anew, and the store takes over its counters. */
  ghost predicate DoResetSync(s: State, s': State) {
    && s.phase.Resetting? && s.wal.volatile.Log?
    && var log := Writer(s.wal.volatile.start + 1, 1);
       s' == s.(wal := Wal(s.wal.volatile, s.wal.volatile),
                phase := Idle(s.phase.mem.(nextLsn := log.nextLsn, nextBatchId := log.nextBatchId, log := log)))
  }

  /** What a crash may leave of the log file, with the number of batches kept
      from an unsynced group; page images of the next batch may be left too. */
  ghost predicate LogCrashesTo(s: State, file: WalFile, kept: nat) {
    || (file == s.wal.durable && kept == 0)
    || (s.phase.Appended? && kept <= |s.phase.tail| && s.wal.durable.Log? && s.wal.volatile.Log?
        && |s.wal.durable.batches| + kept <= |s.wal.volatile.batches|
        && file.Log? && file.start == s.wal.durable.start && file.batches == s.wal.volatile.batches[..|s.wal.durable.batches| + kept]
        && NumberedFile(file) && file.last <= s.wal.volatile.last && file.highest <= s.wal.volatile.highest)
    || (!s.phase.Appended? && file == s.wal.volatile && kept == 0)
    || (s.wal.durable == Empty && s.wal.volatile.Log? && file == TornInit(s.wal.volatile.start) && kept == 0)
  }

  ghost predicate DoCrash(s: State, cells: Cells, file: WalFile, kept: nat, s': State) {
    && s.h.events != [] && CrashesTo(s.disk, cells) && LogCrashesTo(s, file, kept)
    && var h' := if s.phase.Appended? && kept <= |s.phase.tail| then Grow(s.h, s.phase.tail[..kept]) else s.h;
       s' == State(h', s.acked, Fresh(cells), Wal(file, file),
                   if file == s.wal.durable || s.phase.Appended? then s.c else |s.h.log|, Down)
  }

  /** The newest superblock tells where the replay has to start. */
  ghost predicate DoOpen(s: State, s': State) {
    && s.phase.Down? && |s.disk.volatile| >= FIRST_DATA_PAGE
    && s' == s.(phase := Opening(HintOf(s.disk.volatile)))
  }

  /** A torn first frame is recognised by its history start. */
  ghost predicate DoTornCut(s: State, s': State) {
    && s.phase.Opening? && s.wal.volatile == TornInit(s.phase.hint)
    && s' == s.(wal := s.wal.(volatile := Empty))
  }

  ghost predicate DoTornCutSync(s: State, s': State) {
    && s.phase.Opening? && s.wal.volatile == Empty
    && s' == s.(wal := Wal(Empty, Empty))
  }

  ghost predicate DoInitWrite(s: State, s': State) {
    && s.phase.Opening? && s.wal == Wal(Empty, Empty)
    && s' == s.(wal := s.wal.(volatile := Log(s.phase.hint, [], 0, 0)))
  }

  ghost predicate DoInitSync(s: State, s': State) {
    && s.phase.Opening? && s.wal.volatile.Log?
    && s' == s.(wal := Wal(s.wal.volatile, s.wal.volatile))
  }

  ghost predicate DoStartReplay(s: State, s': State) {
    && s.phase.Opening? && s.wal.volatile.Log? && s.wal.durable == s.wal.volatile
    && s' == s.(phase := Replaying(s.disk.volatile, s.phase.hint))
  }

  ghost function Needed(s: State): seq<WalBatch> {
    if s.phase.Replaying? && s.wal.durable.Log? then Since(s.wal.durable.batches, s.phase.hint) else []
  }

  ghost predicate DoRedoLength(s: State, s': State) {
    && s.phase.Replaying? && Needed(s) != [] && |s.disk.volatile| < HighestPage(Needed(s)) + 1
    && s' == s.(disk := Extend(s.disk, HighestPage(Needed(s)) + 1))
  }

  /** Any image of the log that the replay still has to write may reach the
      file. */
  ghost predicate DoRedoImage(s: State, b: nat, i: nat, s': State) {
    && s.phase.Replaying? && b < |Needed(s)| && i < |Needed(s)[b].images|
    && var (x, cell) := Needed(s)[b].images[i];
       && x < |s.disk.volatile| && MustWrite(s.disk.volatile, x, Needed(s)[b].commitLsn)
       && s' == s.(disk := Write(s.disk, x, cell))
  }

  /** Superblocks newer than the one taken up never reached the file. */
  ghost function Forget(h: History, sb: Superblock): History {
    if h.events != [] && h.events[0].sb.generation <= sb.generation < h.events[0].sb.generation + |h.events|
    then h.(events := h.events[..sb.generation - h.events[0].sb.generation + 1])
    else h
  }

  /** The largest revision of a leaf entry in the file, 0 if there is none. */
  ghost predicate HighestRevision(cells: Cells, m: nat) {
    && (forall x: nat, y: nat :: FIRST_DATA_PAGE <= x < |cells| && y < EntryCount(cells[x]) ==> RevisionIn(cells[x], y) <= m)
    && (m > 0 ==> exists x: nat, y: nat :: FIRST_DATA_PAGE <= x < |cells| && y < EntryCount(cells[x]) && RevisionIn(cells[x], y) == m)
  }

  ghost function EntryCount(c: Cell): nat {
    if c.DataCell? && c.page.Leaf? then |c.page.entries| else 0
  }

  ghost function RevisionIn(c: Cell, y: nat): nat
    requires y < EntryCount(c)
  {
    c.page.entries[y].revision
  }

  /** The commit LSN of the last batch in the log, 0 if there is none. */
  ghost function LastLogged(batches: seq<WalBatch>): nat {
    if batches == [] then 0 else batches[|batches| - 1].commitLsn
  }

  ghost function Larger(a: nat, b: nat): nat {
    if a < b then b else a
  }

  /** The replay is complete and synced, the newest superblock is taken up.  The
      log goes on after the last record and the highest batch number that its
      scan found, beyond the checkpoint, and the store takes over its counters;
      the next revision follows the largest revision in the tree and the last
      commit in the log. */
  ghost predicate DoServe(s: State, maxRevision: nat, s': State) {
    && s.phase.Replaying? && s.wal.durable.Log?
    && s.disk.volatile == Recovered(s.phase.start, Needed(s)) && |s.disk.volatile| >= FIRST_DATA_PAGE
    && HighestRevision(s.disk.volatile, maxRevision)
    && var chosen := ChooseSuperblock(s.disk.volatile[0], s.disk.volatile[1]);
       && chosen.Some?
       && |s.disk.volatile| == chosen.value.1.high + 1
       && var log := Writer(Larger(s.wal.durable.last + 1, chosen.value.1.checkpointLsn + 1), s.wal.durable.highest + 1);
          s' == s.(h := Forget(s.h, chosen.value.1), disk := Sync(s.disk),
                   phase := Idle(Mem(map[], None, chosen.value.1, chosen.value.0, log.nextLsn, log.nextBatchId,
                                     Larger(maxRevision, LastLogged(s.wal.durable.batches)) + 1, log)))
  }

  ghost predicate Transition(s: State, step: Step, s': State) {
    match step
    case Append(group, records) => DoAppend(s, group, records, s')
    case SyncLog => DoSyncLog(s, s')
    case Acknowledge => DoAcknowledge(s, s')
    case FlushLength => DoFlushLength(s, s')
    case FlushPage(x) => DoFlushPage(s, x, s')
    case FlushSuperblock => DoFlushSuperblock(s, s')
    case FlushSync => DoFlushSync(s, s')
    case MarkWrite => DoMarkWrite(s, s')
    case MarkSync => DoMarkSync(s, s')
    case ResetCut => DoResetCut(s, s')
    case ResetCutSync => DoResetCutSync(s, s')
    case ResetInit => DoResetInit(s, s')
    case ResetSync => DoResetSync(s, s')
    case Crash(cells, file, kept) => DoCrash(s, cells, file, kept, s')
    case Open => DoOpen(s, s')
    case TornCut => DoTornCut(s, s')
    case TornCutSync => DoTornCutSync(s, s')
    case InitWrite => DoInitWrite(s, s')
    case InitSync => DoInitSync(s, s')
    case StartReplay => DoStartReplay(s, s')
    case RedoLength => DoRedoLength(s, s')
    case RedoImage(b, i) => DoRedoImage(s, b, i, s')
    case Serve(maxRevision) => DoServe(s, maxRevision, s')
  }
}
