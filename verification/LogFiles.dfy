/** The log file of the durability machine, read off the bytes of the log: what
    the machine takes for granted of appends, resets, crashes and scans is what
    the bytes do. */
module LogFiles {
  import opened Lex
  import opened Endian
  import opened Pages
  import opened Redo
  import Machine = Durability
  import opened WalFrames
  import opened WalLogs
  import opened WalScan
  import opened WalFile
  import opened WalLog
  import opened WalOpen

  /** How bytes become records: checksums, the identity of the store and the
      pages that images are made of and decode to. */
  datatype Medium = Medium(codecs: Codecs, identity: WalIdentity, encode: (PageId, Cell) -> PageImage, decode: PageImage -> Cell)

  function ImageRead(m: Medium, p: PageImage): (PageId, Cell) {
    var x: PageId := p.page;
    (x, m.decode(p))
  }

  function BatchRead(m: Medium, b: CommittedBatch): WalBatch {
    WalBatch(b.batch, b.commitLsn, seq(|b.pages|, i requires 0 <= i < |b.pages| => ImageRead(m, b.pages[i])))
  }

  function BatchesRead(m: Medium, bs: seq<CommittedBatch>): (r: seq<WalBatch>)
    ensures |r| == |bs| && forall i :: 0 <= i < |bs| ==> r[i] == BatchRead(m, bs[i])
  {
    seq(|bs|, i requires 0 <= i < |bs| => BatchRead(m, bs[i]))
  }

  ghost function LogRead(m: Medium, log: Log): Machine.WalFile
    requires SegmentsOk(m.codecs, log.segments)
  {
    Machine.WalFile.Log(log.start, BatchesRead(m, Committed(log.segments)), LastLsn(m.codecs, m.identity, log), Highest(log.segments))
  }

  /** What opening finds in a file. */
  ghost predicate Reads(m: Medium, file: bytes, f: Machine.WalFile) {
    match f
    case Empty => file == []
    case TornInit(start) => file != [] && start <= U64_MAX && TornInit(m.codecs, m.identity, file, start)
    case Log(_, _, _, _) =>
      var log := Scanned(m.codecs, m.identity, file);
      log.Some? && SegmentsOk(m.codecs, log.value.segments) && f == LogRead(m, log.value)
  }

  lemma BatchesJoin(m: Medium, a: seq<CommittedBatch>, b: seq<CommittedBatch>)
    ensures BatchesRead(m, a + b) == BatchesRead(m, a) + BatchesRead(m, b)
  {
    hide BatchRead;
    assert |BatchesRead(m, a + b)| == |BatchesRead(m, a) + BatchesRead(m, b)|;
    forall i | 0 <= i < |a + b| ensures BatchesRead(m, a + b)[i] == (BatchesRead(m, a) + BatchesRead(m, b))[i] {
    }
  }

  // ---------------------------------------------------------------- appending

  lemma {:induction false} CommittedFor(codecs: Codecs, commits: seq<WalCommit>, lsn: u64, batch: u64)
    requires GroupOk(codecs, commits, lsn, batch)
    ensures Committed(SegmentsFor(codecs, commits, lsn, batch)) == seq(|commits|, i requires 0 <= i < |commits| => BatchFor(commits[i]))
  {
    if commits != [] {
      CommittedFor(codecs, commits[1..], commits[0].commitLsn + 1, batch + 1);
      var first := SegmentFor(commits[0], lsn);
      CommittedConcat([first], SegmentsFor(codecs, commits[1..], commits[0].commitLsn + 1, batch + 1));
      CommittedMore([], first);
      assert [] + [first] == [first];
    }
  }

  lemma {:induction false} LastSegmentFor(codecs: Codecs, commits: seq<WalCommit>, lsn: u64, batch: u64)
    requires GroupOk(codecs, commits, lsn, batch) && commits != []
    ensures var segments, last := SegmentsFor(codecs, commits, lsn, batch), commits[|commits| - 1];
            segments != [] && segments[|segments| - 1].commit == Some(last.commitLsn) && segments[|segments| - 1].batch == last.batch
  {
    if |commits| > 1 {
      LastSegmentFor(codecs, commits[1..], commits[0].commitLsn + 1, batch + 1);
    }
  }

  /** The last record of a log that ends with a commit. */
  lemma CommitIsLast(codecs: Codecs, identity: WalIdentity, log: Log)
    requires SegmentsOk(codecs, log.segments) && log.segments != [] && log.segments[|log.segments| - 1].commit.Some?
    ensures LastLsn(codecs, identity, log) == log.segments[|log.segments| - 1].commit.value
  {
    hide PageFrames;
    var frames := Frames(codecs, log.version, log.segments);
    assert LogFrames(codecs, identity, log)[|frames|] == frames[|frames| - 1];
  }

  /** Appending a group of commits adds the batches they read as, in order, and
      the log then ends with its last one. */
  lemma AppendReads(m: Medium, log: Log, commits: seq<WalCommit>, lsn: u64, batch: u64)
    requires GroupOk(m.codecs, commits, lsn, batch) && commits != []
    requires SegmentsOk(m.codecs, log.segments) && SegmentsOk(m.codecs, log.segments + SegmentsFor(m.codecs, commits, lsn, batch))
    ensures var last := commits[|commits| - 1];
            LogRead(m, log.(segments := log.segments + SegmentsFor(m.codecs, commits, lsn, batch)))
            == Machine.WalFile.Log(log.start, LogRead(m, log).batches + BatchesRead(m, seq(|commits|, i requires 0 <= i < |commits| => BatchFor(commits[i]))),
                                   last.commitLsn, last.batch)
  {
    hide GroupOk, SegmentsFor, Committed, BatchesRead, SegmentsOk, LastLsn;
    LastSegmentFor(m.codecs, commits, lsn, batch);
    CommitIsLast(m.codecs, m.identity, log.(segments := log.segments + SegmentsFor(m.codecs, commits, lsn, batch)));
    var group := SegmentsFor(m.codecs, commits, lsn, batch);
    CommittedFor(m.codecs, commits, lsn, batch);
    CommittedConcat(log.segments, group);
    BatchesJoin(m, Committed(log.segments), Committed(group));
  }

  /** A crash before the group is synced, whatever part of its bytes survives,
      is one the machine allows. */
  lemma AppendCrash(m: Medium, s: Machine.State, log: Log, group: seq<Segment>, n: nat) returns (file: Machine.WalFile, kept: nat)
    requires var log' := log.(segments := log.segments + group);
             && LogOk(m.codecs, m.identity, log) && LogOk(m.codecs, m.identity, log')
             && |LogBytes(m.codecs, m.identity, log)| <= n <= |LogBytes(m.codecs, m.identity, log')|
             && s.wal == Machine.Wal(LogRead(m, log'), LogRead(m, log))
    requires s.phase.Appended? && |Committed(group)| == |s.phase.tail|
    ensures Reads(m, LogBytes(m.codecs, m.identity, log.(segments := log.segments + group))[..n], file)
    ensures Machine.LogCrashesTo(s, file, kept)
  {
    hide LogBytes, SegmentsOk, Committed, CommittedWithin, Scanned, Frames, BatchesRead, CutSegments, LastLsn, Highest, Machine.NumberedFile;
    var log' := log.(segments := log.segments + group);
    EndIsLength(m.codecs, m.identity, log);
    EndIsLength(m.codecs, m.identity, log');
    ScanCut(m.codecs, m.identity, log', n);
    CutCommitted(m.codecs, log', n);
    kept := CrashKeepsBatchPrefix(m.codecs, log, group, n);
    CommittedConcat(log.segments, group);
    CutNotExhausted(m.codecs, m.identity, log', n);
    file := LogRead(m, Cut(m.codecs, log', n));
    FileNumbered(m, Cut(m.codecs, log', n));
    KeptReads(m, Committed(log.segments), Committed(group), kept);
  }

  /** What a log reads as is numbered in order. */
  lemma FileNumbered(m: Medium, log: Log)
    requires LogOk(m.codecs, m.identity, log)
    ensures Machine.NumberedFile(LogRead(m, log))
  {
    hide SegmentsOk, Committed, LastLsn, Highest;
    CommitsBelowNext(m, log);
    forall i | 0 <= i < |Committed(log.segments)| ensures Committed(log.segments)[i].batch <= Highest(log.segments) {
      BatchesBelow(m.codecs, log.segments, i);
    }
  }

  lemma {:induction false} BatchesBelow(codecs: Codecs, segments: seq<Segment>, i: nat)
    requires SegmentsOk(codecs, segments) && i < |Committed(segments)|
    ensures Committed(segments)[i].batch <= Highest(segments)
  {
    hide SegmentsOk;
    var n := |segments| - 1;
    DropLast(codecs, segments);
    if i < |Committed(segments[..n])| {
      BatchesBelow(codecs, segments[..n], i);
    }
  }

  lemma KeptReads(m: Medium, a: seq<CommittedBatch>, b: seq<CommittedBatch>, kept: nat)
    requires kept <= |b|
    ensures |BatchesRead(m, a)| == |a| && |BatchesRead(m, a + b)| == |a| + |b|
    ensures BatchesRead(m, a + b[..kept]) == BatchesRead(m, a + b)[..|a| + kept]
  {
    hide BatchRead;
    assert a + b == (a + b[..kept]) + b[kept..];
    BatchesJoin(m, a + b[..kept], b[kept..]);
  }

  // ---------------------------------------------------------------- resetting

  /** A crash while a log is begun anew, whatever part of its first record
      survives, is one the machine allows. */
  lemma ResetCrash(m: Medium, s: Machine.State, start: u64, n: nat) returns (file: Machine.WalFile)
    requires n <= |InitBytes(m.codecs, m.identity, start)| && !s.phase.Appended?
    requires s.wal == Machine.Wal(LogRead(m, Log(WAL_FORMAT_VERSION, start, [])), Machine.Empty)
    ensures Reads(m, InitBytes(m.codecs, m.identity, start)[..n], file)
    ensures Machine.LogCrashesTo(s, file, 0)
  {
    hide EncodeFrame, IdentityPayload, LogOk, LogBytes, Scanned, SegmentOk;
    var log, bytes := Log(WAL_FORMAT_VERSION, start, []), InitBytes(m.codecs, m.identity, start);
    if n == 0 {
      file := Machine.Empty;
    } else if n < |bytes| {
      file := Machine.TornInit(start);
    } else {
      NewLogOk(m.codecs, m.identity, start);
      assert bytes[..n] == bytes;
      WholeScans(m, log);
      file := LogRead(m, log);
    }
  }

  lemma WholeScans(m: Medium, log: Log)
    requires LogOk(m.codecs, m.identity, log)
    ensures Scanned(m.codecs, m.identity, LogBytes(m.codecs, m.identity, log)) == Some(log)
  {
    hide LogBytes, Scanned, Frames, CutSegments;
    var bytes := LogBytes(m.codecs, m.identity, log);
    EndIsLength(m.codecs, m.identity, log);
    ScanCut(m.codecs, m.identity, log, |bytes|);
    assert bytes[..|bytes|] == bytes;
    CutNothing(m, log);
  }

  lemma CutNothing(m: Medium, log: Log)
    requires SegmentsOk(m.codecs, log.segments)
    ensures Cut(m.codecs, log, End(m.codecs, log)) == log
  {
    hide SegmentsOk, Frames;
  }

  // ---------------------------------------------------------------- scanning

  lemma {:induction false} CommitHasFrame(codecs: Codecs, version: u16, segments: seq<Segment>, i: nat) returns (k: nat)
    requires SegmentsOk(codecs, segments) && i < |Committed(segments)|
    ensures k < |Frames(codecs, version, segments)| && Frames(codecs, version, segments)[k].lsn == Committed(segments)[i].commitLsn
  {
    hide PageFrames;
    var n, g := |segments| - 1, segments[|segments| - 1];
    if i < |Committed(segments[..n])| {
      k := CommitHasFrame(codecs, version, segments[..n], i);
    } else {
      k := |Frames(codecs, version, segments)| - 1;
    }
  }

  /** The LSN with which an opened log goes on lies beyond every commit in it. */
  lemma CommitsBelowNext(m: Medium, log: Log)
    requires LogOk(m.codecs, m.identity, log)
    ensures forall i :: 0 <= i < |LogRead(m, log).batches| ==> LogRead(m, log).batches[i].commitLsn <= LastLsn(m.codecs, m.identity, log)
  {
    hide Frames, SegmentsOk, Committed, InitFrame;
    var frames := LogFrames(m.codecs, m.identity, log);
    forall i | 0 <= i < |Committed(log.segments)| ensures Committed(log.segments)[i].commitLsn <= LastLsn(m.codecs, m.identity, log) {
      var k := CommitHasFrame(m.codecs, log.version, log.segments, i);
      assert frames[k + 1] == Frames(m.codecs, log.version, log.segments)[k];
    }
  }
}
