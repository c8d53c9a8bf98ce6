/** The store over the bytes of its log: whatever was committed, reset or
    recovered before, the log accepts the next group (btree/mod.rs,
    publish_prepared_group; wal.rs, append_group). */
module Appending {
  import opened Lex
  import opened Seqs
  import opened Endian
  import opened Pages
  import opened Batches
  import opened Versions
  import opened Redo
  import opened Disk
  import opened Chronicle
  import opened Durability
  import opened DurabilityProof
  import opened Reference
  import opened Transactions
  import opened Database
  import opened Tales
  import opened EndToEnd
  import opened Resume
  import Group = GroupCommit
  import CrashSafety
  import Frames = WalFrames
  import Records = WalLogs
  import Scan = WalScan
  import File = WalFile
  import Log = WalLog
  import Opening = WalOpen
  import opened LogFiles

  // ---------------------------------------------------------------- from batches to commits

  /** The image of a page encodes, with the LSN of its batch in it. */
  ghost predicate Encodes(m: Medium, x: PageId, c: Cell, lsn: nat) {
    var p := m.encode(x, c);
    && p.page == x && m.decode(p) == c && m.codecs.valid(p)
    && lsn <= Records.U64_MAX && Records.StampedAt(p, lsn)
  }

  /** The numbers of a batch are machine words and its pages encode. */
  ghost predicate Loggable(m: Medium, b: Prepared) {
    && b.commitLsn < Records.U64_MAX && b.batchId < Records.U64_MAX && |b.pages.Keys| + 1 < Records.U32_RANGE
    && (forall x :: x in b.pages ==> Encodes(m, x, DataCell(b.pages[x]), b.commitLsn))
    && Encodes(m, SlotPage(b.slot), SuperCell(SuperOf(b)), b.commitLsn)
  }

  ghost predicate PagesWithin(b: Prepared) {
    b.high >= FIRST_DATA_PAGE && forall x :: x in b.pages ==> FIRST_DATA_PAGE <= x <= b.high
  }

  /** A commit record that stands for the batch. */
  ghost predicate StandsFor(m: Medium, c: Log.WalCommit, b: Prepared) {
    && c.batch == b.batchId && c.commitLsn == b.commitLsn && |c.pages| == |b.pages.Keys| + 1 && |c.pages| < Records.U32_RANGE
    && (forall i :: 0 <= i < |c.pages| ==> Records.StampedAt(c.pages[i], c.commitLsn) && m.codecs.valid(c.pages[i]))
    && Logs(BatchRead(m, Log.BatchFor(c)), b)
  }

  /** The images of the first pages, in page order. */
  ghost predicate ImagesUpTo(m: Medium, b: Prepared, pages: seq<Records.PageImage>, x: PageId) {
    && (forall i :: 0 <= i < |pages| ==> pages[i].page in b.pages && pages[i].page < x && pages[i] == m.encode(pages[i].page, DataCell(b.pages[pages[i].page])))
    && (forall i, j :: 0 <= i < j < |pages| ==> pages[i].page < pages[j].page)
    && (forall y :: y in b.pages && y < x ==> exists i :: 0 <= i < |pages| && pages[i].page == y)
  }

  /** The images of the changed pages, then the superblock. */
  method CommitOf(m: Medium, b: Prepared) returns (c: Log.WalCommit)
    requires Loggable(m, b) && PagesWithin(b)
    ensures StandsFor(m, c, b)
  {
    hide Encodes;
    var pages: seq<Records.PageImage> := [];
    for x := FIRST_DATA_PAGE to b.high + 1
      invariant ImagesUpTo(m, b, pages, x)
    {
      if x in b.pages {
        EncodedPage(m, x, DataCell(b.pages[x]), b.commitLsn);
        ImagesMore(m, b, pages, x);
        pages := pages + [m.encode(x, DataCell(b.pages[x]))];
      }
    }
    var slot := m.encode(SlotPage(b.slot), SuperCell(SuperOf(b)));
    c := Log.WalCommit(b.batchId, b.commitLsn, pages + [slot]);
    AllImages(m, b, pages, c);
  }

  lemma EncodedPage(m: Medium, x: PageId, c: Cell, lsn: nat)
    requires Encodes(m, x, c, lsn)
    ensures m.encode(x, c).page == x
  {
  }

  lemma ImagesMore(m: Medium, b: Prepared, pages: seq<Records.PageImage>, x: PageId)
    requires ImagesUpTo(m, b, pages, x) && x in b.pages && m.encode(x, DataCell(b.pages[x])).page == x
    ensures ImagesUpTo(m, b, pages + [m.encode(x, DataCell(b.pages[x]))], x + 1)
  {
    var more := pages + [m.encode(x, DataCell(b.pages[x]))];
    forall y | y in b.pages && y < x + 1 ensures exists i :: 0 <= i < |more| && more[i].page == y {
      if y == x {
        assert more[|pages|].page == y;
      } else {
        var i :| 0 <= i < |pages| && pages[i].page == y;
        assert more[i].page == y;
      }
    }
  }

  lemma AllImages(m: Medium, b: Prepared, pages: seq<Records.PageImage>, c: Log.WalCommit)
    requires Loggable(m, b) && PagesWithin(b) && ImagesUpTo(m, b, pages, b.high + 1)
    requires c == Log.WalCommit(b.batchId, b.commitLsn, pages + [m.encode(SlotPage(b.slot), SuperCell(SuperOf(b)))])
    ensures StandsFor(m, c, b)
  {
    ImageCount(m, b, pages);
    var slot := m.encode(SlotPage(b.slot), SuperCell(SuperOf(b)));
    assert Encodes(m, SlotPage(b.slot), SuperCell(SuperOf(b)), b.commitLsn);
    forall i | 0 <= i < |c.pages| ensures Encoded(m, b, c.pages[i]) {
      if i < |pages| {
        assert Encodes(m, pages[i].page, DataCell(b.pages[pages[i].page]), b.commitLsn);
      }
    }
    hide Loggable, Encodes;
    assert c.pages[|pages|] == slot;
    ImagesLog(m, b, pages, c);
  }

  /** An image of the batch, as it is logged. */
  ghost predicate Encoded(m: Medium, b: Prepared, p: Records.PageImage) {
    && b.commitLsn <= Records.U64_MAX && Records.StampedAt(p, b.commitLsn) && m.codecs.valid(p)
    && if p.page == SlotPage(b.slot) then m.decode(p) == SuperCell(SuperOf(b)) else p.page in b.pages && m.decode(p) == DataCell(b.pages[p.page])
  }

  lemma ImageCount(m: Medium, b: Prepared, pages: seq<Records.PageImage>)
    requires PagesWithin(b) && ImagesUpTo(m, b, pages, b.high + 1)
    ensures |pages| == |b.pages.Keys|
  {
    var ids := seq(|pages|, i requires 0 <= i < |pages| => pages[i].page);
    forall x ensures x in ids <==> x in b.pages.Keys {
      if x in b.pages.Keys {
        var i :| 0 <= i < |pages| && pages[i].page == x;
        assert ids[i] == x;
      }
    }
    CountDistinct(ids, b.pages.Keys);
  }

  lemma ImagesLog(m: Medium, b: Prepared, pages: seq<Records.PageImage>, c: Log.WalCommit)
    requires PagesWithin(b) && ImagesUpTo(m, b, pages, b.high + 1)
    requires c.batch == b.batchId && c.commitLsn == b.commitLsn && |c.pages| == |pages| + 1 && c.pages[..|pages|] == pages
    requires c.pages[|pages|].page == SlotPage(b.slot) && forall i :: 0 <= i < |c.pages| ==> Encoded(m, b, c.pages[i])
    ensures Logs(BatchRead(m, Log.BatchFor(c)), b)
  {
    hide Encoded, Imaged, ImageOf;
    var w := BatchRead(m, Log.BatchFor(c));
    assert forall i :: 0 <= i < |pages| ==> c.pages[i] == pages[i];
    ImagesCover(m, b, pages, c, w);
    forall i | 0 <= i < |w.images| ensures ImageOf(w.images[i], b) {
      EncodedIs(m, b, c.pages[i]);
    }
  }

  lemma EncodedIs(m: Medium, b: Prepared, p: Records.PageImage)
    requires Encoded(m, b, p)
    ensures ImageOf(ImageRead(m, p), b)
  {
  }

  lemma ImagesCover(m: Medium, b: Prepared, pages: seq<Records.PageImage>, c: Log.WalCommit, w: WalBatch)
    requires PagesWithin(b) && ImagesUpTo(m, b, pages, b.high + 1) && w == BatchRead(m, Log.BatchFor(c))
    requires |c.pages| == |pages| + 1 && c.pages[|pages|].page == SlotPage(b.slot) && forall i :: 0 <= i < |pages| ==> c.pages[i] == pages[i]
    ensures forall x :: x in b.pages || x == SlotPage(b.slot) ==> Imaged(w.images, x)
    ensures forall i, j :: 0 <= i < j < |w.images| ==> w.images[i].0 != w.images[j].0
  {
    forall x | x in b.pages || x == SlotPage(b.slot) ensures Imaged(w.images, x) {
      if x == SlotPage(b.slot) {
        assert w.images[|pages|].0 == x;
      } else {
        var i :| 0 <= i < |pages| && pages[i].page == x;
        assert w.images[i].0 == x;
      }
    }
    forall i, j | 0 <= i < j < |w.images| ensures w.images[i].0 != w.images[j].0 {
      assert w.images[i].0 == c.pages[i].page && w.images[j].0 == c.pages[j].page;
    }
  }

  // ---------------------------------------------------------------- the log accepts what was staged

  ghost predicate AllStandFor(m: Medium, commits: seq<Log.WalCommit>, batches: seq<Prepared>) {
    |commits| == |batches| && forall i :: 0 <= i < |batches| ==> StandsFor(m, commits[i], batches[i])
  }

  method CommitsOf(m: Medium, batches: seq<Prepared>) returns (commits: seq<Log.WalCommit>)
    requires forall i :: 0 <= i < |batches| ==> Loggable(m, batches[i]) && PagesWithin(batches[i])
    ensures AllStandFor(m, commits, batches)
  {
    hide Loggable, PagesWithin, StandsFor;
    commits := [];
    for i := 0 to |batches|
      invariant |commits| == i && forall j :: 0 <= j < i ==> StandsFor(m, commits[j], batches[j])
    {
      var c := CommitOf(m, batches[i]);
      commits := commits + [c];
    }
  }

  /** Batches numbered from where the log goes on pass all its checks. */
  lemma {:induction false} OrderedAccepted(m: Medium, commits: seq<Log.WalCommit>, batches: seq<Prepared>, first: Counters, k: nat)
    requires AllStandFor(m, commits, batches) && Ordered(batches, first) && k <= |batches|
    requires forall i :: 0 <= i < |batches| ==> batches[i].commitLsn < Records.U64_MAX && batches[i].batchId < Records.U64_MAX
    requires Next(batches, k, first).nextLsn <= Records.U64_MAX && Next(batches, k, first).nextBatchId <= Records.U64_MAX
    ensures Log.GroupOk(m.codecs, commits[k..], Next(batches, k, first).nextLsn, Next(batches, k, first).nextBatchId)
    decreases |batches| - k
  {
    hide Logs, BatchRead, Records.StampedAt;
    if k < |batches| {
      assert InOrder(batches, k, first) && StandsFor(m, commits[k], batches[k]);
      OrderedAccepted(m, commits, batches, first, k + 1);
      assert commits[k..][0] == commits[k] && commits[k..][1..] == commits[k + 1..];
    }
  }

  // ---------------------------------------------------------------- the log object and the machine

  /** The log object of a serving store: its file reads as the machine's log,
      and both go on with the same numbers. */
  ghost predicate OnLog(m: Medium, w: Log.WalLog, s: State)
    reads w
  {
    && s.phase.Idle? && w.Ready() && w.codecs == m.codecs && w.identity == m.identity
    && s.wal.volatile == s.wal.durable == LogRead(m, w.log)
    && w.nextLsn == s.phase.mem.log.nextLsn && w.nextBatchId == s.phase.mem.log.nextBatchId
  }

  lemma IdleLog(s: State)
    requires Inv(s) && s.phase.Idle?
    ensures s.wal.durable.Log? && s.wal.durable.start < s.phase.mem.nextLsn && s.phase.mem.log == Writer(s.phase.mem.nextLsn, s.phase.mem.nextBatchId)
    ensures s.wal.durable.start <= LsnOf(s.h.lsn0, s.h.log, |s.h.log|)
  {
    hide FilesOk, Settled, ResetAt, View, Unflushed, Flushed, WalHolds, NumberedFile;
    FilesHistory(s.h, s.disk);
    HistoryLog(s.h);
    LsnAscends(s.h.base, s.h.lsn0, s.h.log, s.c, |s.h.log|);
  }

  lemma ReadsLog(m: Medium, w: Log.WalLog, s: State)
    requires OnLog(m, w, s)
    ensures Records.SegmentsOk(m.codecs, w.log.segments) && w.historyStart == w.log.start == s.wal.durable.start
  {
  }

  lemma GroupPages(h: History, mem: Mem, batches: seq<Prepared>, i: nat)
    requires GroupFrom(h, mem, batches) && i < |batches|
    ensures PagesWithin(batches[i])
  {
    hide Ordered;
    var img := ImageAfter(Committed(h), batches[..i + 1]);
    assert Whole(img) && batches[..i + 1][..i] == batches[..i] && batches[..i + 1][i] == batches[i];
    assert forall x :: x in batches[i].pages ==> x in img.pages;
  }

  /** In a serving store the log accepts every group that was staged for it: the
      append succeeds, and both go on together. */
  method LogGroup(m: Medium, w: Log.WalLog, batches: seq<Prepared>, ghost s: State)
    returns (failure: Option<Log.WalError>, ghost records: seq<WalBatch>, ghost appended: State, ghost synced: State)
    requires Inv(s) && OnLog(m, w, s) && GroupFrom(s.h, s.phase.mem, batches)
    requires forall i :: 0 <= i < |batches| ==> Loggable(m, batches[i])
    modifies w
    ensures failure.None?
    ensures DoAppend(s, batches, records, appended) && DoSyncLog(appended, synced) && OnLog(m, w, synced)
  {
    hide Inv, Ordered, Loggable, PagesWithin, StandsFor, Log.GroupOk, Scan.LastLsn, Scan.Committed, Scan.LogOk, Whole, DoAppend,
         DoSyncLog, LogRead, Records.SegmentsOk, Records.Highest, Log.SegmentsFor, Scan.LogBytes;
    IdleLog(s);
    ReadsLog(m, w, s);
    forall i | 0 <= i < |batches| ensures PagesWithin(batches[i]) {
      GroupPages(s.h, s.phase.mem, batches, i);
    }
    var commits := CommitsOf(m, batches);
    GroupAccepted(m, commits, batches, CountersOf(s.phase.mem), w.nextLsn, w.nextBatchId);
    ghost var log, lsn, batch := w.log, w.nextLsn, w.nextBatchId;
    failure := w.AppendGroup(commits);
    w.LogThere();
    records, appended, synced := LoggedStates(m, log, commits, batches, s, lsn, batch, w.log);
  }

  lemma GroupAccepted(m: Medium, commits: seq<Log.WalCommit>, batches: seq<Prepared>, first: Counters, lsn: u64, batch: u64)
    requires AllStandFor(m, commits, batches) && Ordered(batches, first) && first.nextLsn == lsn && first.nextBatchId == batch
    requires forall i :: 0 <= i < |batches| ==> Loggable(m, batches[i])
    ensures Log.GroupOk(m.codecs, commits, lsn, batch)
  {
    hide Log.GroupOk, AllStandFor, Ordered;
    OrderedAccepted(m, commits, batches, first, 0);
    assert commits[0..] == commits;
  }

  /** The machine's steps for an append that succeeded. */
  lemma LoggedStates(m: Medium, log: Records.Log, commits: seq<Log.WalCommit>, batches: seq<Prepared>, s: State, lsn: u64, batch: u64, log': Records.Log)
    returns (records: seq<WalBatch>, appended: State, synced: State)
    requires Inv(s) && s.phase.Idle? && GroupFrom(s.h, s.phase.mem, batches) && AllStandFor(m, commits, batches)
    requires Log.GroupOk(m.codecs, commits, lsn, batch)
    requires Records.SegmentsOk(m.codecs, log.segments) && Records.SegmentsOk(m.codecs, log'.segments)
    requires log' == log.(segments := log.segments + Log.SegmentsFor(m.codecs, commits, lsn, batch))
    requires s.wal.volatile == s.wal.durable == LogRead(m, log)
    ensures DoAppend(s, batches, records, appended) && DoSyncLog(appended, synced) && synced.phase.Idle?
    ensures synced.wal.volatile == synced.wal.durable == LogRead(m, log')
    ensures var last := commits[|commits| - 1]; synced.phase.mem.log == Writer(last.commitLsn + 1, last.batch + 1)
  {
    hide Inv, Ordered, Log.GroupOk, Log.SegmentsFor, Scan.LastLsn, Scan.Committed, Whole, Logs, BatchRead, Records.SegmentsOk, Records.Highest, Chronicle.Grow,
         AllPages, Records.StampedAt, Accepts;
    IdleLog(s);
    DurabilityProofInv(s);
    var found := seq(|commits|, i requires 0 <= i < |commits| => Log.BatchFor(commits[i]));
    records := BatchesRead(m, found);
    forall i | 0 <= i < |batches| ensures Logs(records[i], batches[i]) {
      assert StandsFor(m, commits[i], batches[i]);
    }
    RecordsExpected(s.phase.mem, batches, records);
    AppendReads(m, log, commits, lsn, batch);
    var last := records[|records| - 1];
    ReadNumbers(m, found[|found| - 1]);
    appended := s.(wal := s.wal.(volatile := Durability.WalFile.Log(s.wal.volatile.start, s.wal.volatile.batches + records, last.commitLsn, last.batchId)),
                   phase := Appended(s.phase.mem, batches));
    var group, mem := batches, s.phase.mem;
    var end := group[|group| - 1];
    synced := appended.(h := Chronicle.Grow(s.h, group), wal := Wal(appended.wal.volatile, appended.wal.volatile),
                        phase := Idle(Mem(mem.dirty + AllPages(group), Some(SuperOf(end)), SuperOf(end), end.slot,
                                          end.commitLsn + 1, end.batchId + 1, end.commitLsn + 1,
                                          Writer(appended.wal.volatile.last + 1, appended.wal.volatile.highest + 1))));
  }

  lemma ReadNumbers(m: Medium, b: Records.CommittedBatch)
    ensures BatchRead(m, b).batchId == b.batch && BatchRead(m, b).commitLsn == b.commitLsn
  {
  }

  // ---------------------------------------------------------------- resets and recoveries

  /** The log object of a new store. */
  method NewLog(m: Medium) returns (w: Log.WalLog)
    ensures fresh(w) && OnLog(m, w, CrashSafety.InitialState())
  {
    hide Scan.LogOk, Scan.LogBytes, Records.SegmentsOk, Frames.EncodeFrame, Records.IdentityPayload, Scan.LastLsn, Records.Highest, Scan.Committed;
    var found := Opening.Open(m.codecs, m.identity, [], 0);
    w := found.value;
    NewReads(m, 0);
  }

  lemma NewReads(m: Medium, start: u64)
    ensures var log := Records.Log(Frames.WAL_FORMAT_VERSION, start, []);
            Records.SegmentsOk(m.codecs, log.segments) && LogRead(m, log) == Durability.WalFile.Log(start, [], 0, 0)
  {
    hide Frames.EncodeFrame, Records.IdentityPayload;
    Log.NewLogOk(m.codecs, m.identity, start);
  }

  /** Steps that neither write the log nor restart the store leave both as they
      are. */
  lemma QuietStep(m: Medium, w: Log.WalLog, s: State, step: Step, s': State)
    requires OnLog(m, w, s) && Transition(s, step, s') && s'.phase.Idle?
    ensures OnLog(m, w, s')
  {
    hide Inv, LogRead, Recovered, Chronicle.Grow, Checkpointed, CrashesTo, Write, Extend, HighestRevision, GroupFrom;
  }

  lemma QuietCheckpoint(m: Medium, w: Log.WalLog, s: State, s1: State, s2: State)
    requires OnLog(m, w, s) && DoMarkWrite(s, s1) && DoMarkSync(s1, s2)
    ensures OnLog(m, w, s2)
  {
    hide LogRead, Checkpointed, Write;
  }

  /** After a checkpoint the log begins anew, and both go on together. */
  method ResetLog(m: Medium, w: Log.WalLog, checkpointLsn: u64, ghost s: State)
    returns (failure: Option<Log.WalError>, ghost via: seq<State>)
    requires Inv(s) && OnLog(m, w, s) && checkpointLsn == s.phase.mem.sb.checkpointLsn < Records.U64_MAX
    requires s.phase.mem.dirtySuper.None? && LastLogged(s.wal.volatile.batches) <= checkpointLsn
    modifies w
    ensures failure.None? && |via| == 4
    ensures DoResetCut(s, via[0]) && DoResetCutSync(via[0], via[1]) && DoResetInit(via[1], via[2]) && DoResetSync(via[2], via[3])
    ensures OnLog(m, w, via[3])
  {
    hide Inv, LogRead, Scan.LogOk, Scan.LogBytes, Records.SegmentsOk, Scan.LastLsn, Records.Highest, Scan.Committed;
    ReadsLog(m, w, s);
    IdleLog(s);
    CheckpointCovers(s);
    failure := w.Reset(checkpointLsn);
    NewReads(m, checkpointLsn);
    ghost var mem, file, log := s.phase.mem, Durability.WalFile.Log(checkpointLsn, [], 0, 0), Writer(checkpointLsn + 1, 1);
    ghost var s1 := s.(wal := s.wal.(volatile := Empty), phase := Resetting(mem));
    ghost var s2 := s1.(wal := Wal(Empty, Empty), c := |s.h.log|);
    ghost var s3 := s2.(wal := s2.wal.(volatile := file));
    ghost var s4 := s3.(wal := Wal(file, file), phase := Idle(mem.(nextLsn := log.nextLsn, nextBatchId := log.nextBatchId, log := log)));
    via := [s1, s2, s3, s4];
  }

  lemma CheckpointCovers(s: State)
    requires Inv(s) && s.phase.Idle?
    ensures s.wal.durable.start <= s.phase.mem.sb.checkpointLsn
  {
    hide FilesOk, Settled, ResetAt, View, Unflushed, Flushed, WalHolds, NumberedFile;
    FilesHistory(s.h, s.disk);
    HistoryLog(s.h);
    LastDescribes(s.h);
    LsnAscends(s.h.base, s.h.lsn0, s.h.log, s.c, Mark(s.h));
  }

  /** The file that a recovery opens. */
  ghost predicate AtOpening(m: Medium, bytes: bytes, s: State)
    requires s.phase.Replaying?
  {
    && s.phase.hint < Records.U64_MAX && s.wal.durable.Log? && s.wal.durable.last < Records.U64_MAX && s.wal.durable.highest < Records.U64_MAX
    && if Opening.TornInit(m.codecs, m.identity, bytes, s.phase.hint) then s.wal.durable == Durability.WalFile.Log(s.phase.hint, [], 0, 0)
       else LogFiles.Reads(m, bytes, s.wal.durable)
  }

  /** A recovered store goes on where the scan of its log and the checkpoint say,
      and its log object with it. */
  method OpenLog(m: Medium, bytes: bytes, hint: u64, checkpointLsn: u64, ghost s: State, ghost maxRevision: nat, ghost s': State)
    returns (w: Log.WalLog)
    requires Inv(s) && DoServe(s, maxRevision, s') && hint == s.phase.hint && checkpointLsn == s'.phase.mem.sb.checkpointLsn < Records.U64_MAX
    requires AtOpening(m, bytes, s)
    ensures fresh(w) && OnLog(m, w, s')
  {
    hide Inv, Scan.LogOk, Scan.LogBytes, Scan.Scanned, Records.SegmentsOk, Scan.LastLsn, Records.Highest, Scan.Committed, Recovered, HighestRevision, Forget;
    HintServed(s, maxRevision, s');
    NewReads(m, hint);
    var found := Opening.Open(m.codecs, m.identity, bytes, hint);
    w := found.value;
    var failure := w.ResumeAfter(checkpointLsn);
  }

  /** Without batches to replay the checkpoint is the one that was read first. */
  lemma HintServed(s: State, maxRevision: nat, s': State)
    requires Inv(s) && DoServe(s, maxRevision, s')
    ensures s.wal.durable.batches == [] ==> s'.phase.mem.sb.checkpointLsn == s.phase.hint
    ensures s'.wal.volatile == s'.wal.durable == s.wal.durable
  {
    hide Safe, StartOk, HighestRevision, Forget;
  }
}
