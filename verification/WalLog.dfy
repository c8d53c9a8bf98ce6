/** The write-ahead log as an object that appends groups, is reset, and is
    opened again after a crash (wal.rs). */
module WalLog {
  import opened Lex
  import opened Endian
  import opened Pages
  import opened WalFrames
  import opened WalLogs
  import opened WalScan
  import opened WalFile

  datatype WalError = InvalidInput | Invariant | Corruption | Checkpoint

  datatype WalCommit = WalCommit(batch: u64, commitLsn: u64, pages: seq<PageImage>)

  // ---------------------------------------------------------------- appending one record

  lemma {:induction false} EncodeAllAppend(crc: Crc, frames: seq<Frame>, f: Frame)
    requires AllEncodable(frames) && Encodable(f)
    ensures EncodeAll(crc, frames + [f]) == EncodeAll(crc, frames) + EncodeFrame(crc, f)
  {
    hide EncodeFrame;
    if frames == [] {
      assert EncodeAll(crc, [f]) == EncodeFrame(crc, f) + EncodeAll(crc, [f][1..]);
      assert frames + [f] == [f];
    } else {
      assert (frames + [f])[1..] == frames[1..] + [f];
      EncodeAllAppend(crc, frames[1..], f);
    }
  }

  /** The record may be written next. */
  ghost predicate MayFollow(codecs: Codecs, identity: WalIdentity, log: Log, f: Frame)
    requires SegmentsOk(codecs, log.segments)
  {
    && f.version == log.version && f.lsn > log.start && f.lsn > LastLsn(codecs, identity, log)
    && AddFrame(codecs, log.segments, f).Some?
  }

  ghost function Added(codecs: Codecs, log: Log, f: Frame): Log
    requires AddFrame(codecs, log.segments, f).Some?
  {
    log.(segments := AddFrame(codecs, log.segments, f).value)
  }

  /** Writing a record that may follow extends the log by that record. */
  lemma GrowLog(codecs: Codecs, identity: WalIdentity, log: Log, f: Frame)
    requires LogOk(codecs, identity, log) && MayFollow(codecs, identity, log, f)
    ensures LogOk(codecs, identity, Added(codecs, log, f)) && Encodable(f)
    ensures LogBytes(codecs, identity, Added(codecs, log, f)) == LogBytes(codecs, identity, log) + EncodeFrame(codecs.crc, f)
    ensures LastLsn(codecs, identity, Added(codecs, log, f)) == f.lsn
  {
    hide SegmentsOk, Frames, AddFrame, EncodeFrame, InitFrame;
    var log' := Added(codecs, log, f);
    AddSound(codecs, log.version, log.segments, f);
    var before, after := LogFrames(codecs, identity, log), LogFrames(codecs, identity, log');
    assert after == before + [f];
    LogEncodable(codecs, identity, log);
    AddedOk(codecs, identity, log, f);
    LogEncodable(codecs, identity, log');
    assert after[|before|] == f;
    EncodeAllAppend(codecs.crc, before, f);
  }

  lemma AddedOk(codecs: Codecs, identity: WalIdentity, log: Log, f: Frame)
    requires LogOk(codecs, identity, log) && MayFollow(codecs, identity, log, f)
    ensures LogOk(codecs, identity, Added(codecs, log, f))
  {
    hide SegmentsOk, Frames, AddFrame, IdentityPayload;
    AddSound(codecs, log.version, log.segments, f);
    var before := LogFrames(codecs, identity, log);
    assert LogFrames(codecs, identity, Added(codecs, log, f)) == before + [f];
    assert before[0].version == log.version;
    forall i | 0 <= i < |before| ensures before[i].lsn < f.lsn && before[i].version == f.version {
      if i < |before| - 1 {
        assert before[i].lsn < before[|before| - 1].lsn;
      }
      assert i == 0 || before[0].version == before[i].version;
    }
    FollowsAppend(before, f);
  }

  lemma FollowsAppend(frames: seq<Frame>, f: Frame)
    requires Follows(frames, None) && forall i :: 0 <= i < |frames| ==> frames[i].lsn < f.lsn && frames[i].version == f.version
    ensures Follows(frames + [f], None)
  {
  }

  // ---------------------------------------------------------------- what a commit writes

  ghost function Consecutive(first: nat, n: nat): seq<u64>
    requires first + n <= U64_MAX
  {
    seq(n, i requires 0 <= i < n => first + i)
  }

  /** The batch of a commit whose first record has the given LSN. */
  ghost function SegmentFor(c: WalCommit, first: nat): Segment
    requires first + |c.pages| <= U64_MAX
  {
    Segment(c.batch, Consecutive(first, |c.pages|), c.pages, Some(c.commitLsn))
  }

  /** The first n pages of it, not yet committed. */
  ghost function OpenSegment(c: WalCommit, first: nat, n: nat): Segment
    requires n <= |c.pages| && first + n <= U64_MAX
  {
    Segment(c.batch, Consecutive(first, n), c.pages[..n], None)
  }

  ghost function OpenAt(c: WalCommit, first: nat, n: nat): seq<Segment>
    requires n <= |c.pages| && first + n <= U64_MAX
  {
    if n == 0 then [] else [OpenSegment(c, first, n)]
  }

  /** What the log demands of a commit. */
  predicate CommitOk(codecs: Codecs, c: WalCommit, nextLsn: u64, nextBatchId: u64) {
    && c.pages != [] && c.batch == nextBatchId && c.commitLsn == nextLsn + |c.pages| && |c.pages| < U32_RANGE
    && forall i :: 0 <= i < |c.pages| ==> StampedAt(c.pages[i], c.commitLsn) && codecs.valid(c.pages[i])
  }

  predicate GroupOk(codecs: Codecs, commits: seq<WalCommit>, nextLsn: u64, nextBatchId: u64) {
    commits == []
    || (CommitOk(codecs, commits[0], nextLsn, nextBatchId) && commits[0].commitLsn < U64_MAX && nextBatchId < U64_MAX
        && GroupOk(codecs, commits[1..], commits[0].commitLsn + 1, nextBatchId + 1))
  }

  ghost function SegmentsFor(codecs: Codecs, commits: seq<WalCommit>, nextLsn: u64, nextBatchId: u64): seq<Segment>
    requires GroupOk(codecs, commits, nextLsn, nextBatchId)
  {
    if commits == [] then []
    else [SegmentFor(commits[0], nextLsn)] + SegmentsFor(codecs, commits[1..], commits[0].commitLsn + 1, nextBatchId + 1)
  }

  lemma FirstPage(version: u16, base: seq<Segment>, c: WalCommit, first: u64)
    requires c.pages != [] && first < U64_MAX && c.batch > Highest(base)
    ensures AddPage(base, PageFrame(version, c.batch, first, 0, c.pages[0]), c.pages[0]) == Some(base + OpenAt(c, first, 1))
  {
    assert c.pages[..1] == [c.pages[0]];
    assert Consecutive(first, 1) == [first];
  }

  lemma LaterPage(version: u16, base: seq<Segment>, c: WalCommit, first: u64, n: nat)
    requires 0 < n < |c.pages| && first + n < U64_MAX && n < U32_RANGE
    ensures AddPage(base + OpenAt(c, first, n), PageFrame(version, c.batch, first + n, n, c.pages[n]), c.pages[n]) == Some(base + OpenAt(c, first, n + 1))
  {
    assert c.pages[..n + 1] == c.pages[..n] + [c.pages[n]];
    assert Consecutive(first, n + 1) == Consecutive(first, n) + [first + n];
    var segments := base + OpenAt(c, first, n);
    assert segments[|base|] == OpenSegment(c, first, n);
    assert segments[|base| := OpenSegment(c, first, n + 1)] == base + OpenAt(c, first, n + 1);
  }

  lemma NextPage(codecs: Codecs, identity: WalIdentity, log: Log, base: seq<Segment>, c: WalCommit, first: u64, n: nat)
    requires LogOk(codecs, identity, log) && n < |c.pages| && first + n < U64_MAX && n < U32_RANGE
    requires log.segments == base + OpenAt(c, first, n)
    requires c.batch > Highest(base) && codecs.valid(c.pages[n]) && first + n > LastLsn(codecs, identity, log) && first > log.start
    ensures var f := PageFrame(log.version, c.batch, first + n, n, c.pages[n]);
            MayFollow(codecs, identity, log, f) && Added(codecs, log, f).segments == base + OpenAt(c, first, n + 1)
  {
    hide SegmentsOk, Frames, AddPage, Follows, After, LogFrames, Consecutive, OpenSegment;
    PagePayload(c.pages[n]);
    if n == 0 {
      assert base + [] == base;
      FirstPage(log.version, base, c, first);
    } else {
      LaterPage(log.version, base, c, first, n);
    }
  }

  lemma NextCommit(codecs: Codecs, identity: WalIdentity, log: Log, base: seq<Segment>, c: WalCommit, first: u64)
    requires LogOk(codecs, identity, log) && CommitOk(codecs, c, first, c.batch)
    requires log.segments == base + OpenAt(c, first, |c.pages|)
    requires c.commitLsn > LastLsn(codecs, identity, log) && first > log.start
    ensures var f := CommitFrame(codecs.crc, log.version, c.batch, first, c.pages, c.commitLsn);
            MayFollow(codecs, identity, log, f) && Added(codecs, log, f).segments == base + [SegmentFor(c, first)]
  {
    hide SegmentsOk, Frames, CommitFits, Follows, After, LogFrames;
    var g := OpenSegment(c, first, |c.pages|);
    assert log.segments[|log.segments| - 1] == g && c.pages[..|c.pages|] == c.pages;
    LastOk(codecs, log.segments);
    CommitPayloadFits(codecs, g, log.version, c.commitLsn);
    assert log.segments[|log.segments| - 1 := SegmentFor(c, first)] == base + [SegmentFor(c, first)];
  }

  lemma LastOk(codecs: Codecs, segments: seq<Segment>)
    requires SegmentsOk(codecs, segments) && segments != []
    ensures SegmentOk(codecs, segments[|segments| - 1])
  {
  }

  function BatchFor(c: WalCommit): CommittedBatch {
    CommittedBatch(c.batch, c.commitLsn, c.pages)
  }

  lemma CommittedMore(segments: seq<Segment>, g: Segment)
    requires g.commit.Some?
    ensures Committed(segments + [g]) == Committed(segments) + [BatchOf(g)] && Highest(segments + [g]) == g.batch
  {
    assert (segments + [g])[..|segments|] == segments;
  }

  /** The first i commits of the group are in the log, the rest is still due. */
  ghost predicate GroupDone(codecs: Codecs, commits: seq<WalCommit>, lsn0: u64, batch0: u64, i: nat, lsn: u64, batch: u64, done: seq<Segment>)
    requires i <= |commits|
  {
    && (GroupOk(codecs, commits, lsn0, batch0) <==> GroupOk(codecs, commits[i..], lsn, batch))
    && (GroupOk(codecs, commits, lsn0, batch0) ==>
          SegmentsFor(codecs, commits, lsn0, batch0) == done + SegmentsFor(codecs, commits[i..], lsn, batch))
  }

  lemma GroupBegins(codecs: Codecs, commits: seq<WalCommit>, lsn: u64, batch: u64)
    ensures GroupDone(codecs, commits, lsn, batch, 0, lsn, batch, [])
  {
    assert commits[0..] == commits;
  }

  lemma GroupEnds(codecs: Codecs, commits: seq<WalCommit>, lsn0: u64, batch0: u64, lsn: u64, batch: u64, done: seq<Segment>)
    requires GroupDone(codecs, commits, lsn0, batch0, |commits|, lsn, batch, done)
    ensures GroupOk(codecs, commits, lsn0, batch0) && SegmentsFor(codecs, commits, lsn0, batch0) == done
  {
    assert commits[|commits|..] == [];
  }

  lemma GroupStops(codecs: Codecs, commits: seq<WalCommit>, lsn0: u64, batch0: u64, i: nat, lsn: u64, batch: u64, done: seq<Segment>)
    requires i < |commits| && GroupDone(codecs, commits, lsn0, batch0, i, lsn, batch, done)
    ensures GroupOk(codecs, commits, lsn0, batch0) ==>
              CommitOk(codecs, commits[i], lsn, batch) && commits[i].commitLsn < U64_MAX && batch < U64_MAX
  {
  }

  lemma GroupGoesOn(codecs: Codecs, commits: seq<WalCommit>, lsn0: u64, batch0: u64, i: nat, lsn: u64, batch: u64, done: seq<Segment>)
    requires i < |commits| && GroupDone(codecs, commits, lsn0, batch0, i, lsn, batch, done)
    requires CommitOk(codecs, commits[i], lsn, batch) && commits[i].commitLsn < U64_MAX && batch < U64_MAX
    ensures GroupDone(codecs, commits, lsn0, batch0, i + 1, commits[i].commitLsn + 1, batch + 1, done + [SegmentFor(commits[i], lsn)])
  {
    assert commits[i..][1..] == commits[i + 1..];
    if GroupOk(codecs, commits, lsn0, batch0) {
      var rest := SegmentsFor(codecs, commits[i + 1..], commits[i].commitLsn + 1, batch + 1);
      assert done + ([SegmentFor(commits[i], lsn)] + rest) == done + [SegmentFor(commits[i], lsn)] + rest;
    }
  }

  // ---------------------------------------------------------------- the log object

  class WalLog {
    const codecs: Codecs
    const identity: WalIdentity
    var file: bytes
    var version: u16
    var nextLsn: u64
    var nextBatchId: u64
    var historyStart: u64
    var committed: seq<CommittedBatch>
    /** The log in the file, and how much of the file the last sync covers. */
    ghost var log: Log
    ghost var synced: nat

    ghost predicate OnDisk()
      reads this`file, this`synced, this`version, this`log
    {
      LogOk(codecs, identity, log) && file == LogBytes(codecs, identity, log) && synced <= |file| && version == log.version
    }

    /** The counters lie beyond everything in the file. */
    ghost predicate Ready()
      reads this
    {
      && OnDisk() && synced == |file|
      && historyStart == log.start && committed == Committed(log.segments)
      && nextLsn > LastLsn(codecs, identity, log) && nextBatchId > Highest(log.segments)
    }

    constructor (codecs: Codecs, identity: WalIdentity, file: bytes, version: u16, nextLsn: u64, nextBatchId: u64, historyStart: u64, committed: seq<CommittedBatch>, ghost log: Log)
      ensures this.codecs == codecs && this.identity == identity && this.file == file && this.version == version && this.nextLsn == nextLsn
      ensures this.nextBatchId == nextBatchId && this.historyStart == historyStart && this.committed == committed
      ensures this.log == log && this.synced == |file|
    {
      this.codecs, this.identity, this.file, this.version, this.nextLsn := codecs, identity, file, version, nextLsn;
      this.nextBatchId, this.historyStart, this.committed := nextBatchId, historyStart, committed;
      this.log, this.synced := log, |file|;
    }

    /** Writes header, payload and trailer one after the other. */
    method AppendFrame(f: Frame)
      requires OnDisk() && MayFollow(codecs, identity, log, f)
      modifies this`file, this`log
      ensures OnDisk() && log == Added(codecs, old(log), f) && LastLsn(codecs, identity, log) == f.lsn
      ensures old(file) <= file
    {
      hide SegmentsOk, Frames, AddFrame, LogOk, LogBytes, LastLsn, EncodeFrame;
      GrowLog(codecs, identity, log, f);
      var frame := EncodeFrame(codecs.crc, f);
      ghost var was := file;
      file := file + frame[..WAL_HEADER_SIZE];
      file := file + frame[WAL_HEADER_SIZE..WAL_HEADER_SIZE + |f.payload|];
      file := file + frame[WAL_HEADER_SIZE + |f.payload|..];
      assert file == was + frame;
      log := Added(codecs, log, f);
    }

    /** Page images, then the commit record.  A refused commit may leave page
        images behind, which no scan will report. */
    method AppendCommit(c: WalCommit, first: u64, expectedBatch: u64) returns (failure: Option<WalError>)
      requires OnDisk() && first > LastLsn(codecs, identity, log) && first > log.start && expectedBatch > Highest(log.segments)
      modifies this`file, this`log
      ensures OnDisk() && old(file) <= file
      ensures old(log.segments) <= log.segments && log == old(log).(segments := log.segments)
      ensures failure.None? <==> CommitOk(codecs, c, first, expectedBatch)
      ensures failure.None? ==> log.segments == old(log.segments) + [SegmentFor(c, first)] && LastLsn(codecs, identity, log) == c.commitLsn
    {
      hide OnDisk, SegmentsOk, AddFrame, LogOk, LastLsn, MayFollow;
      if c.pages == [] {
        return Some(InvalidInput);
      }
      if c.batch != expectedBatch || c.commitLsn != first + |c.pages| {
        return Some(Invariant);
      }
      LogThere();
      ghost var base := log.segments;
      assert base + [] == base;
      for i := 0 to |c.pages|
        invariant OnDisk() && LogOk(codecs, identity, log) && SegmentsOk(codecs, log.segments) && old(file) <= file && version == log.version
        invariant i <= U32_RANGE && log == old(log).(segments := base + OpenAt(c, first, i))
        invariant first + i > LastLsn(codecs, identity, log)
        invariant forall j :: 0 <= j < i ==> StampedAt(c.pages[j], c.commitLsn) && codecs.valid(c.pages[j])
      {
        if !StampedAt(c.pages[i], c.commitLsn) || !codecs.valid(c.pages[i]) {
          return Some(Corruption);
        }
        if i >= U32_RANGE {
          return Some(InvalidInput);
        }
        NextPage(codecs, identity, log, base, c, first, i);
        AppendFrame(PageFrame(version, c.batch, first + i, i, c.pages[i]));
        LogThere();
      }
      if |c.pages| >= U32_RANGE {
        return Some(InvalidInput);
      }
      NextCommit(codecs, identity, log, base, c, first);
      AppendFrame(CommitFrame(codecs.crc, version, c.batch, first, c.pages, c.commitLsn));
      return None;
    }

    method Sync()
      requires OnDisk()
      modifies this`synced
      ensures OnDisk() && synced == |file|
    {
      synced := |file|;
    }

    lemma LogThere()
      requires OnDisk()
      ensures LogOk(codecs, identity, log) && version == log.version && SegmentsOk(codecs, log.segments)
    {
    }

    /** Commits in their order, and one sync for all of them. */
    method AppendGroup(commits: seq<WalCommit>) returns (failure: Option<WalError>)
      requires Ready() && nextLsn > historyStart
      modifies this
      ensures OnDisk() && old(file) <= file && old(log.segments) <= log.segments && log == old(log).(segments := log.segments)
      ensures failure.None? <==> commits != [] && GroupOk(codecs, commits, old(nextLsn), old(nextBatchId))
      ensures failure.None? ==> Ready() && nextLsn > historyStart
      ensures failure.None? ==> log.segments == old(log.segments) + SegmentsFor(codecs, commits, old(nextLsn), old(nextBatchId))
      ensures failure.None? ==> committed == old(committed) + seq(|commits|, i requires 0 <= i < |commits| => BatchFor(commits[i]))
      ensures failure.None? ==> var last := commits[|commits| - 1]; nextLsn == last.commitLsn + 1 && nextBatchId == last.batch + 1
      ensures failure.Some? ==> synced == old(synced)
    {
      hide OnDisk, LogOk, LastLsn, SegmentsOk, Committed, Highest, CommitOk, GroupDone, GroupOk, SegmentsFor;
      if commits == [] {
        return Some(InvalidInput);
      }
      LogThere();
      var lsn: u64, batch: u64 := nextLsn, nextBatchId;
      var batches: seq<CommittedBatch> := [];
      ghost var base, done: seq<Segment> := log.segments, [];
      assert base + done == base && committed + batches == committed;
      GroupBegins(codecs, commits, lsn, batch);
      for i := 0 to |commits|
        invariant OnDisk() && LogOk(codecs, identity, log) && SegmentsOk(codecs, log.segments) && old(file) <= file && log == old(log).(segments := base + done)
        invariant GroupDone(codecs, commits, old(nextLsn), old(nextBatchId), i, lsn, batch, done)
        invariant lsn > LastLsn(codecs, identity, log) && lsn > log.start && batch > Highest(log.segments)
        invariant i > 0 ==> lsn == commits[i - 1].commitLsn + 1 && batch == commits[i - 1].batch + 1
        invariant committed + batches == Committed(log.segments) && batches == seq(i, j requires 0 <= j < i => BatchFor(commits[j]))
        invariant unchanged(this`committed, this`nextLsn, this`nextBatchId, this`historyStart, this`synced, this`version)
      {
        var c := commits[i];
        ghost var before := log;
        GroupStops(codecs, commits, old(nextLsn), old(nextBatchId), i, lsn, batch, done);
        var failed := AppendCommit(c, lsn, batch);
        LogThere();
        if failed.Some? {
          return failed;
        }
        if c.commitLsn == U64_MAX || batch == U64_MAX {
          return Some(Invariant);
        }
        CommitTotal(codecs, c, lsn, batch);
        GroupGoesOn(codecs, commits, old(nextLsn), old(nextBatchId), i, lsn, batch, done);
        CommittedMore(before.segments, SegmentFor(c, lsn));
        assert base + done + [SegmentFor(c, lsn)] == base + (done + [SegmentFor(c, lsn)]);
        done, batches := done + [SegmentFor(c, lsn)], batches + [BatchFor(c)];
        lsn, batch := c.commitLsn + 1, batch + 1;
      }
      GroupEnds(codecs, commits, old(nextLsn), old(nextBatchId), lsn, batch, done);
      Sync();
      committed, nextLsn, nextBatchId := committed + batches, lsn, batch;
      return None;
    }

    /** Lifts the next LSN beyond a checkpoint; never lowers it. */
    method ResumeAfter(checkpointLsn: u64) returns (failure: Option<WalError>)
      requires Ready()
      modifies this`nextLsn
      ensures Ready() && nextLsn >= old(nextLsn)
      ensures failure.None? <==> checkpointLsn < U64_MAX
      ensures failure.None? ==> nextLsn > checkpointLsn && (nextLsn == old(nextLsn) || nextLsn == checkpointLsn + 1)
      ensures failure.Some? ==> nextLsn == old(nextLsn)
    {
      if checkpointLsn == U64_MAX {
        return Some(Invariant);
      }
      if nextLsn < checkpointLsn + 1 {
        nextLsn := checkpointLsn + 1;
      }
      return None;
    }

    /** Starts an empty log after a checkpoint. */
    method Reset(checkpointLsn: u64) returns (failure: Option<WalError>)
      requires Ready()
      modifies this
      ensures failure.None? <==> old(historyStart) <= checkpointLsn < U64_MAX
      ensures failure.None? ==> Ready() && log == Log(WAL_FORMAT_VERSION, checkpointLsn, []) && committed == [] && nextLsn == checkpointLsn + 1 && nextBatchId == 1
      ensures checkpointLsn < old(historyStart) ==> Ready() && log == old(log) && unchanged(this)
    {
      hide SegmentsOk, LogOk, LogBytes, LastLsn, Committed, EncodeFrame, IdentityPayload;
      if checkpointLsn < historyStart {
        return Some(Checkpoint);
      }
      file, synced := [], 0;
      historyStart, version := checkpointLsn, WAL_FORMAT_VERSION;
      if checkpointLsn == U64_MAX {
        return Some(Invariant);
      }
      nextLsn, nextBatchId, committed := checkpointLsn + 1, 1, [];
      file := file + EncodeFrame(codecs.crc, InitFrame(version, identity, checkpointLsn));
      log := Log(WAL_FORMAT_VERSION, checkpointLsn, []);
      NewLogOk(codecs, identity, checkpointLsn);
      synced := |file|;
      return None;
    }
  }

  // ---------------------------------------------------------------- beginning a log

  lemma NewLogOk(codecs: Codecs, identity: WalIdentity, start: u64)
    ensures var log := Log(WAL_FORMAT_VERSION, start, []);
            && LogOk(codecs, identity, log) && LastLsn(codecs, identity, log) == 0
            && LogBytes(codecs, identity, log) == EncodeFrame(codecs.crc, InitFrame(WAL_FORMAT_VERSION, identity, start))
            && Committed(log.segments) == [] && Highest(log.segments) == 0
  {
    hide EncodeFrame, IdentityPayload;
    var log, init := Log(WAL_FORMAT_VERSION, start, []), InitFrame(WAL_FORMAT_VERSION, identity, start);
    NoSegments(codecs, WAL_FORMAT_VERSION);
    assert LogFrames(codecs, identity, log) == [init];
    LogEncodable(codecs, identity, log);
    assert EncodeAll(codecs.crc, [init]) == EncodeFrame(codecs.crc, init) + EncodeAll(codecs.crc, [init][1..]);
  }

  lemma CommitTotal(codecs: Codecs, c: WalCommit, first: u64, batch: u64)
    requires CommitOk(codecs, c, first, batch)
    ensures c.commitLsn == first + |c.pages| <= U64_MAX && c.batch == batch
  {
  }
}
