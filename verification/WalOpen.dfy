/** Opening a log file, whole or cut by a crash (wal.rs). */
module WalOpen {
  import opened Lex
  import opened Endian
  import opened Pages
  import opened WalFrames
  import opened WalLogs
  import opened WalScan
  import opened WalFile
  import opened WalLog

  function InitBytes(codecs: Codecs, identity: WalIdentity, start: u64): (r: bytes)
    ensures |r| == InitFrameSize(WAL_FORMAT_VERSION)
  {
    EncodeFrame(codecs.crc, InitFrame(WAL_FORMAT_VERSION, identity, start))
  }

  /** The file was cut while its expected initialization record was written. */
  predicate TornInit(codecs: Codecs, identity: WalIdentity, file: bytes, start: u64) {
    |file| < InitFrameSize(WAL_FORMAT_VERSION) && file == InitBytes(codecs, identity, start)[..|file|]
  }

  /** An empty or torn new log is built anew; any other file is scanned, and
      what follows its last whole record is cut off. */
  method Open(codecs: Codecs, identity: WalIdentity, bytes: bytes, startAfter: u64) returns (r: Option<WalLog>)
    ensures TornInit(codecs, identity, bytes, startAfter) ==>
              && (r.Some? <==> startAfter < U64_MAX)
              && (r.Some? ==> r.value.Ready() && r.value.log == Log(WAL_FORMAT_VERSION, startAfter, []) && r.value.nextLsn == startAfter + 1
                               && r.value.nextBatchId == 1)
    ensures !TornInit(codecs, identity, bytes, startAfter) ==>
              var log := Scanned(codecs, identity, bytes);
              && (log.None? ==> r.None?)
              && (log.Some? ==>
                    && Holds(codecs, identity, bytes, log.value)
                    && (r.None? <==> Exhausted(codecs, identity, log.value))
                    && (r.Some? ==> r.value.Ready() && r.value.log == log.value && r.value.nextLsn == LastLsn(codecs, identity, log.value) + 1
                                    && r.value.nextBatchId == Highest(log.value.segments) + 1 && r.value.file <= bytes))
    ensures r.Some? ==> fresh(r.value) && r.value.codecs == codecs && r.value.identity == identity
  {
    hide SegmentsOk, LogOk, LogBytes, Scanned, LastLsn, Committed, Highest, EncodeFrame, IdentityPayload, NextFrame;
    if TornInit(codecs, identity, bytes, startAfter) {
      if startAfter == U64_MAX {
        return None;
      }
      NewLogOk(codecs, identity, startAfter);
      var w := new WalLog(codecs, identity, InitBytes(codecs, identity, startAfter), WAL_FORMAT_VERSION, startAfter + 1, 1, startAfter, [],
                          Log(WAL_FORMAT_VERSION, startAfter, []));
      return Some(w);
    }
    var scan := ScanWal(codecs, identity, bytes);
    if scan.None? {
      return None;
    }
    var s := scan.value;
    var w := new WalLog(codecs, identity, bytes[..s.validLength], s.version, s.nextLsn, s.nextBatchId, s.start, s.committed,
                        Scanned(codecs, identity, bytes).value);
    return Some(w);
  }

  // ---------------------------------------------------------------- reopening after a crash

  lemma CutNotExhausted(codecs: Codecs, identity: WalIdentity, log: Log, n: nat)
    requires LogOk(codecs, identity, log) && InitFrameSize(log.version) <= n <= End(codecs, log)
    ensures LogOk(codecs, identity, Cut(codecs, log, n))
    ensures LastLsn(codecs, identity, Cut(codecs, log, n)) <= LastLsn(codecs, identity, log)
    ensures Highest(Cut(codecs, log, n).segments) <= Highest(log.segments)
  {
    hide SegmentsOk, Frames, CutSegments, InitFrame;
    CutLength(codecs, identity, log, n);
    var all, kept := LogFrames(codecs, identity, log), LogFrames(codecs, identity, Cut(codecs, log, n));
    if |kept| < |all| {
      assert all[|kept| - 1].lsn < all[|all| - 1].lsn;
    }
    CutHighest(codecs, log.version, log.segments, n - InitFrameSize(log.version));
  }

  lemma {:induction false} CutHighest(codecs: Codecs, version: u16, segments: seq<Segment>, n: nat)
    requires SegmentsOk(codecs, segments)
    ensures Highest(CutSegments(codecs, version, segments, n)) <= Highest(segments)
    decreases |Frames(codecs, version, segments)|
  {
    hide Frames;
    if segments != [] && TotalLength(Frames(codecs, version, segments)) > n {
      LastFrameLast(codecs, version, segments);
      CutHighest(codecs, version, Shrink(segments), n);
    }
  }

  lemma NotTorn(codecs: Codecs, identity: WalIdentity, log: Log, n: nat, start: u64)
    requires LogOk(codecs, identity, log) && log.version == WAL_FORMAT_VERSION
    requires InitFrameSize(log.version) <= n <= |LogBytes(codecs, identity, log)|
    ensures !TornInit(codecs, identity, LogBytes(codecs, identity, log)[..n], start)
  {
  }

  /** A crash leaves the synced part of the file and any bytes of the rest.
      Opening what is left always succeeds and finds the batches whose commit
      records are inside, among them all that were synced. */
  method Reopen(w: WalLog, n: nat, startAfter: u64) returns (r: Option<WalLog>)
    requires w.OnDisk() && w.version == WAL_FORMAT_VERSION && !Exhausted(w.codecs, w.identity, w.log)
    requires w.synced <= n <= |w.file| && InitFrameSize(WAL_FORMAT_VERSION) <= n
    ensures r.Some? && fresh(r.value) && r.value.Ready() && r.value.codecs == w.codecs && r.value.identity == w.identity
    ensures r.value.log == Cut(w.codecs, w.log, n) && r.value.file <= w.file[..n]
    ensures r.value.committed == CommittedWithin(w.codecs, w.log, n)
    ensures CommittedWithin(w.codecs, w.log, w.synced) <= r.value.committed <= Committed(w.log.segments)
  {
    hide SegmentsOk, LogOk, LogBytes, Scanned, LastLsn, Committed, CommittedWithin, Highest, TornInit, Cut, End, Holds;
    Opened(w);
    ScanCut(w.codecs, w.identity, w.log, n);
    NotTorn(w.codecs, w.identity, w.log, n, startAfter);
    EndIsLength(w.codecs, w.identity, w.log);
    CutNotExhausted(w.codecs, w.identity, w.log, n);
    CutCommitted(w.codecs, w.log, n);
    WithinGrows(w.codecs, w.log, w.synced, n);
    WithinGrows(w.codecs, w.log, n, |w.file|);
    WithinAll(w.codecs, w.log, |w.file|);
    r := Open(w.codecs, w.identity, w.file[..n], startAfter);
  }

  lemma Opened(w: WalLog)
    requires w.OnDisk()
    ensures LogOk(w.codecs, w.identity, w.log) && SegmentsOk(w.codecs, w.log.segments)
    ensures w.file == LogBytes(w.codecs, w.identity, w.log)
  {
  }

  // ---------------------------------------------------------------- a crash while a group is appended

  lemma {:induction false} WithinExtended(codecs: Codecs, log: Log, more: seq<Segment>, n: nat)
    requires SegmentsOk(codecs, log.segments + more) && SegmentsOk(codecs, log.segments)
    ensures CommittedWithin(codecs, log, n) <= CommittedWithin(codecs, log.(segments := log.segments + more), n)
    decreases |more|
  {
    hide SegmentsOk, Frames;
    if more == [] {
      assert log.segments + more == log.segments;
    } else {
      var all := log.segments + more;
      assert all[..|all| - 1] == log.segments + more[..|more| - 1];
      DropLast(codecs, all);
      WithinExtended(codecs, log, more[..|more| - 1], n);
    }
  }

  lemma {:induction false} CommittedConcat(a: seq<Segment>, b: seq<Segment>)
    ensures Committed(a + b) == Committed(a) + Committed(b)
  {
    if b == [] {
      assert a + b == a;
    } else {
      assert (a + b)[..|a + b| - 1] == a + b[..|b| - 1];
      CommittedConcat(a, b[..|b| - 1]);
    }
  }

  /** Whatever part of an unsynced group survives, the batches found are those
      before the group and the first few of the group. */
  lemma CrashKeepsBatchPrefix(codecs: Codecs, log: Log, group: seq<Segment>, n: nat) returns (kept: nat)
    requires SegmentsOk(codecs, log.segments + group) && SegmentsOk(codecs, log.segments)
    requires End(codecs, log) <= n <= End(codecs, log.(segments := log.segments + group))
    ensures kept <= |Committed(group)|
    ensures CommittedWithin(codecs, log.(segments := log.segments + group), n) == Committed(log.segments) + Committed(group)[..kept]
  {
    hide SegmentsOk, End, Committed, CommittedWithin;
    var log' := log.(segments := log.segments + group);
    WithinAll(codecs, log, n);
    WithinExtended(codecs, log, group, n);
    WithinGrows(codecs, log', n, End(codecs, log'));
    WithinAll(codecs, log', End(codecs, log'));
    CommittedConcat(log.segments, group);
    var found := CommittedWithin(codecs, log', n);
    kept := |found| - |Committed(log.segments)|;
    assert found == found[..|Committed(log.segments)|] + found[|Committed(log.segments)|..];
  }
}
