/** Scanning a log file: exact on every file, robust to every cut (wal.rs). */
module WalScan {
  import opened Lex
  import opened Endian
  import opened Pages
  import opened WalFrames
  import opened WalLogs

  // ---------------------------------------------------------------- the initialization record

  /** The LSN after which the log begins, if it belongs to this database shard. */
  function VerifyIdentity(version: u16, payload: bytes, identity: WalIdentity): Option<u64> {
    if |payload| != (if version == LEGACY_WAL_FORMAT_VERSION then LEGACY_INIT_PAYLOAD_SIZE else INIT_PAYLOAD_SIZE) then None
    else if ReadU32(payload[40..44]) != PAGE_BYTES then None
    else if WalIdentity(payload[0..16], ReadU64(payload[16..24]), ReadU64(payload[24..32]), ReadU64(payload[32..40])) != identity then None
    else Some(if version == LEGACY_WAL_FORMAT_VERSION then 0 else ReadU64(payload[44..52]))
  }

  lemma IdentityVerifies(version: u16, identity: WalIdentity, start: u64)
    requires version == LEGACY_WAL_FORMAT_VERSION ==> start == 0
    ensures VerifyIdentity(version, IdentityPayload(version, identity, start), identity) == Some(start)
  {
    hide U32, U64, FromLe;
    var p := IdentityPayload(version, identity, start);
    assert p[0..16] == identity.uuid && p[16..24] == U64(identity.tenant) && p[24..32] == U64(identity.shard)
           && p[32..40] == U64(identity.epoch) && p[40..44] == U32(PAGE_BYTES);
    assert version != LEGACY_WAL_FORMAT_VERSION ==> p[44..52] == U64(start);
  }

  lemma VerifiedIsIdentity(version: u16, payload: bytes, identity: WalIdentity)
    requires VerifyIdentity(version, payload, identity).Some?
    ensures payload == IdentityPayload(version, identity, VerifyIdentity(version, payload, identity).value)
  {
    assert payload == payload[0..16] + payload[16..24] + payload[24..32] + payload[32..40] + payload[40..44] + payload[44..];
  }

  predicate BeginsWithInit(f: Frame) {
    f.kind == InitRecord && f.lsn == 0 && f.batch == 0 && f.index == 0
  }

  // ---------------------------------------------------------------- logs and their files

  ghost function LogFrames(codecs: Codecs, identity: WalIdentity, log: Log): (r: seq<Frame>)
    requires SegmentsOk(codecs, log.segments)
    ensures r != []
  {
    [InitFrame(log.version, identity, log.start)] + Frames(codecs, log.version, log.segments)
  }

  ghost predicate LogOk(codecs: Codecs, identity: WalIdentity, log: Log) {
    && SegmentsOk(codecs, log.segments)
    && (log.version == WAL_FORMAT_VERSION || (log.version == LEGACY_WAL_FORMAT_VERSION && log.start == 0))
    && After(Frames(codecs, log.version, log.segments), log.start)
    && Follows(LogFrames(codecs, identity, log), None)
  }

  lemma {:induction false} FramesEncodable(codecs: Codecs, version: u16, segments: seq<Segment>)
    requires SegmentsOk(codecs, segments) && (version == WAL_FORMAT_VERSION || version == LEGACY_WAL_FORMAT_VERSION)
    ensures AllEncodable(Frames(codecs, version, segments)) && OneVersion(Frames(codecs, version, segments), version)
    decreases |Frames(codecs, version, segments)|
  {
    hide Frames, Shrink;
    if segments == [] {
      NoSegments(codecs, version);
    } else {
      LastFrameLast(codecs, version, segments);
      FramesEncodable(codecs, version, Shrink(segments));
    }
  }

  lemma LogEncodable(codecs: Codecs, identity: WalIdentity, log: Log)
    requires LogOk(codecs, identity, log)
    ensures AllEncodable(LogFrames(codecs, identity, log))
    ensures OneVersion(Frames(codecs, log.version, log.segments), log.version)
  {
    FramesEncodable(codecs, log.version, log.segments);
  }

  ghost function LogBytes(codecs: Codecs, identity: WalIdentity, log: Log): bytes
    requires LogOk(codecs, identity, log)
  {
    LogEncodable(codecs, identity, log);
    EncodeAll(codecs.crc, LogFrames(codecs, identity, log))
  }

  function InitFrameSize(version: u16): nat {
    WAL_HEADER_SIZE + (if version == LEGACY_WAL_FORMAT_VERSION then LEGACY_INIT_PAYLOAD_SIZE else INIT_PAYLOAD_SIZE) + WAL_TRAILER_SIZE
  }

  // ---------------------------------------------------------------- scanning

  /** The log that the scan finds in a file. */
  ghost function Scanned(codecs: Codecs, identity: WalIdentity, file: bytes): Option<Log> {
    match ReadAll(codecs.crc, file, None)
    case None => None
    case Some(frames) =>
      if frames == [] || !BeginsWithInit(frames[0]) then None
      else match VerifyIdentity(frames[0].version, frames[0].payload, identity)
        case None => None
        case Some(start) =>
          match Parse(codecs, start, frames[1..])
          case None => None
          case Some(segments) => Some(Log(frames[0].version, start, segments))
  }

  /** The file holds exactly the log, and then bytes that are too few for
      another frame. */
  ghost predicate Holds(codecs: Codecs, identity: WalIdentity, file: bytes, log: Log) {
    && LogOk(codecs, identity, log)
    && LogBytes(codecs, identity, log) <= file
    && NextFrame(codecs.crc, file[|LogBytes(codecs, identity, log)|..], Some(log.version)) == Tail
  }

  ghost function LastLsn(codecs: Codecs, identity: WalIdentity, log: Log): u64
    requires SegmentsOk(codecs, log.segments)
  {
    var frames := LogFrames(codecs, identity, log);
    frames[|frames| - 1].lsn
  }

  lemma ScannedFrames(codecs: Codecs, identity: WalIdentity, file: bytes)
    requires Scanned(codecs, identity, file).Some?
    ensures SegmentsOk(codecs, Scanned(codecs, identity, file).value.segments)
    ensures LogFrames(codecs, identity, Scanned(codecs, identity, file).value) == ReadAll(codecs.crc, file, None).value
  {
    hide Frames, SegmentsOk, Parse, ReadAll, VerifyIdentity, IdentityPayload, NextFrame, EncodeFrame;
    var frames := ReadAll(codecs.crc, file, None).value;
    var log := Scanned(codecs, identity, file).value;
    ReadAllSound(codecs.crc, file, None);
    VerifiedIsIdentity(frames[0].version, frames[0].payload, identity);
    VersionsKnown(frames);
    ParseSound(codecs, log.version, log.start, frames[1..]);
    assert LogFrames(codecs, identity, log) == frames;
  }

  /** Whatever the scan accepts, from any file, is what the file holds: no page
      image is reported unless its batch is complete and committed in the file. */
  lemma ScanSound(codecs: Codecs, identity: WalIdentity, file: bytes)
    requires Scanned(codecs, identity, file).Some?
    ensures Holds(codecs, identity, file, Scanned(codecs, identity, file).value)
  {
    hide Frames, SegmentsOk, Parse, ReadAll, VerifyIdentity, IdentityPayload, NextFrame, EncodeFrame;
    var frames := ReadAll(codecs.crc, file, None).value;
    var log := Scanned(codecs, identity, file).value;
    ReadAllSound(codecs.crc, file, None);
    VerifiedIsIdentity(frames[0].version, frames[0].payload, identity);
    VersionsKnown(frames);
    LegacyStart(frames[0].version, frames[0].payload, identity);
    ParseSound(codecs, log.version, log.start, frames[1..]);
    assert LogFrames(codecs, identity, log) == frames;
  }

  lemma VersionsKnown(frames: seq<Frame>)
    requires AllEncodable(frames) && frames != [] && Follows(frames, None)
    ensures frames[0].version == WAL_FORMAT_VERSION || frames[0].version == LEGACY_WAL_FORMAT_VERSION
    ensures OneVersion(frames[1..], frames[0].version)
    ensures Latest(frames, None).Some? && VersionOf(Latest(frames, None)) == Some(frames[0].version)
  {
    assert Encodable(frames[0]);
  }

  lemma LegacyStart(version: u16, payload: bytes, identity: WalIdentity)
    requires VerifyIdentity(version, payload, identity).Some?
    ensures version == LEGACY_WAL_FORMAT_VERSION ==> VerifyIdentity(version, payload, identity).value == 0
  {
  }

  // ---------------------------------------------------------------- cuts

  /** The log up to the last frame that ends within the first n bytes. */
  ghost function CutSegments(codecs: Codecs, version: u16, segments: seq<Segment>, n: nat): (r: seq<Segment>)
    requires SegmentsOk(codecs, segments)
    ensures SegmentsOk(codecs, r)
    decreases |Frames(codecs, version, segments)|
  {
    if segments == [] || TotalLength(Frames(codecs, version, segments)) <= n then segments
    else
      LastFrameLast(codecs, version, segments);
      CutSegments(codecs, version, Shrink(segments), n)
  }

  lemma {:induction false} WholeInsideAll(frames: seq<Frame>, n: nat)
    requires TotalLength(frames) <= n
    ensures WholeInside(frames, n) == |frames|
  {
    if frames != [] {
      WholeInsideAll(frames[1..], n - FrameLength(frames[0]));
    }
  }

  lemma {:induction false} WholeInsideDrop(frames: seq<Frame>, f: Frame, n: nat)
    requires TotalLength(frames + [f]) > n
    ensures WholeInside(frames + [f], n) == WholeInside(frames, n)
  {
    if frames == [] {
      assert ([f])[1..] == [] && frames + [f] == [f];
    } else {
      assert (frames + [f])[1..] == frames[1..] + [f];
      if FrameLength(frames[0]) <= n {
        WholeInsideDrop(frames[1..], f, n - FrameLength(frames[0]));
      }
    }
  }

  lemma {:induction false} CutFrames(codecs: Codecs, version: u16, segments: seq<Segment>, n: nat)
    requires SegmentsOk(codecs, segments)
    ensures var all := Frames(codecs, version, segments);
            Frames(codecs, version, CutSegments(codecs, version, segments, n)) == all[..WholeInside(all, n)]
    decreases |Frames(codecs, version, segments)|
  {
    hide Frames, Shrink, SegmentsOk, LastFrame;
    var all := Frames(codecs, version, segments);
    if segments == [] {
      NoSegments(codecs, version);
    } else if TotalLength(all) <= n {
      WholeInsideAll(all, n);
      assert all[..|all|] == all;
    } else {
      LastOne(codecs, version, segments);
      LastFrameLast(codecs, version, segments);
      var before := Frames(codecs, version, Shrink(segments));
      WholeInsideDrop(before, LastFrame(codecs, version, segments), n);
      CutFrames(codecs, version, Shrink(segments), n);
      assert all[..WholeInside(all, n)] == before[..WholeInside(all, n)];
    }
  }

  lemma LastOne(codecs: Codecs, version: u16, segments: seq<Segment>)
    requires SegmentsOk(codecs, segments) && segments != []
    ensures var g := segments[|segments| - 1]; |g.lsns| == |g.pages| > 0
  {
    assert SegmentOk(codecs, segments[|segments| - 1]);
  }

  ghost function Cut(codecs: Codecs, log: Log, n: nat): Log
    requires SegmentsOk(codecs, log.segments) && n >= InitFrameSize(log.version)
  {
    log.(segments := CutSegments(codecs, log.version, log.segments, n - InitFrameSize(log.version)))
  }

  lemma InitSize(version: u16, identity: WalIdentity, start: u64)
    ensures FrameLength(InitFrame(version, identity, start)) == InitFrameSize(version)
  {
  }

  /** The frames of a cut log are the frames of the log that are whole inside. */
  lemma CutLogFrames(codecs: Codecs, identity: WalIdentity, log: Log, n: nat)
    requires SegmentsOk(codecs, log.segments) && n >= InitFrameSize(log.version)
    ensures var all := LogFrames(codecs, identity, log);
            LogFrames(codecs, identity, Cut(codecs, log, n)) == all[..WholeInside(all, n)] && WholeInside(all, n) > 0
  {
    hide Frames, SegmentsOk, InitFrame, CutSegments;
    var all, tail := LogFrames(codecs, identity, log), Frames(codecs, log.version, log.segments);
    InitSize(log.version, identity, log.start);
    CutFrames(codecs, log.version, log.segments, n - InitFrameSize(log.version));
    assert all[1..] == tail;
    var k := WholeInside(tail, n - InitFrameSize(log.version));
    assert all[..k + 1] == [all[0]] + tail[..k];
  }

  lemma CutOk(codecs: Codecs, identity: WalIdentity, log: Log, n: nat)
    requires LogOk(codecs, identity, log) && n >= InitFrameSize(log.version)
    ensures LogOk(codecs, identity, Cut(codecs, log, n))
  {
    hide Frames, SegmentsOk, InitFrame, CutSegments;
    CutLogFrames(codecs, identity, log, n);
    var all, tail := LogFrames(codecs, identity, log), Frames(codecs, log.version, log.segments);
    var some := LogFrames(codecs, identity, Cut(codecs, log, n));
    var tail' := Frames(codecs, log.version, Cut(codecs, log, n).segments);
    assert all[1..] == tail && some[1..] == tail';
    forall i | 0 <= i < |tail'| ensures tail'[i] == tail[i] {
      assert tail'[i] == some[i + 1] == all[i + 1] == tail[i];
    }
  }

  /** A file that was cut anywhere after its first frame scans to the log up to
      the last frame boundary inside the cut. */
  lemma ScanCut(codecs: Codecs, identity: WalIdentity, log: Log, n: nat)
    requires LogOk(codecs, identity, log) && InitFrameSize(log.version) <= n <= |LogBytes(codecs, identity, log)|
    ensures Scanned(codecs, identity, LogBytes(codecs, identity, log)[..n]) == Some(Cut(codecs, log, n))
  {
    hide Frames, SegmentsOk, CutSegments, Parse, ReadAll, VerifyIdentity, IdentityPayload, After, Follows;
    var all, cut := LogFrames(codecs, identity, log), Cut(codecs, log, n);
    LogEncodable(codecs, identity, log);
    ReadAllCut(codecs.crc, all, n, None);
    CutLogFrames(codecs, identity, log, n);
    CutOk(codecs, identity, log, n);
    IdentityVerifies(log.version, identity, log.start);
    ParseComplete(codecs, log.version, log.start, cut.segments);
    assert LogFrames(codecs, identity, cut)[1..] == Frames(codecs, log.version, cut.segments);
  }

  // ---------------------------------------------------------------- what a cut keeps

  function BatchOf(g: Segment): CommittedBatch
    requires g.commit.Some?
  {
    CommittedBatch(g.batch, g.commit.value, g.pages)
  }

  function Committed(segments: seq<Segment>): seq<CommittedBatch> {
    if segments == [] then []
    else
      var g := segments[|segments| - 1];
      Committed(segments[..|segments| - 1]) + if g.commit.Some? then [BatchOf(g)] else []
  }

  /** The batches whose commit record ends within the first n bytes of the file. */
  ghost function CommittedWithin(codecs: Codecs, log: Log, n: nat): seq<CommittedBatch>
    requires SegmentsOk(codecs, log.segments)
    decreases |log.segments|
  {
    if log.segments == [] then []
    else
      var g := log.segments[|log.segments| - 1];
      CommittedWithin(codecs, log.(segments := log.segments[..|log.segments| - 1]), n)
      + if g.commit.Some? && End(codecs, log) <= n then [BatchOf(g)] else []
  }

  /** The length of the log's file. */
  ghost function End(codecs: Codecs, log: Log): nat
    requires SegmentsOk(codecs, log.segments)
  {
    InitFrameSize(log.version) + TotalLength(Frames(codecs, log.version, log.segments))
  }

  lemma EndIsLength(codecs: Codecs, identity: WalIdentity, log: Log)
    requires LogOk(codecs, identity, log)
    ensures |LogBytes(codecs, identity, log)| == End(codecs, log)
  {
    hide Frames, SegmentsOk, InitFrame, EncodeFrame;
    LogEncodable(codecs, identity, log);
    EncodeAllLength(codecs.crc, LogFrames(codecs, identity, log));
    InitSize(log.version, identity, log.start);
    assert LogFrames(codecs, identity, log)[1..] == Frames(codecs, log.version, log.segments);
  }

  lemma {:induction false} TotalConcat(a: seq<Frame>, b: seq<Frame>)
    ensures TotalLength(a + b) == TotalLength(a) + TotalLength(b)
  {
    if a == [] {
      assert a + b == b;
    } else {
      assert (a + b)[1..] == a[1..] + b;
      TotalConcat(a[1..], b);
    }
  }

  lemma EndDrop(codecs: Codecs, log: Log)
    requires SegmentsOk(codecs, log.segments) && log.segments != []
    ensures End(codecs, log.(segments := log.segments[..|log.segments| - 1])) <= End(codecs, log)
  {
    var n := |log.segments| - 1;
    TotalConcat(Frames(codecs, log.version, log.segments[..n]), SegmentFrames(codecs, log.version, log.segments[n]));
  }

  /** Nothing is lost while the cut is beyond the end. */
  lemma {:induction false} WithinAll(codecs: Codecs, log: Log, n: nat)
    requires SegmentsOk(codecs, log.segments) && End(codecs, log) <= n
    ensures CommittedWithin(codecs, log, n) == Committed(log.segments)
    decreases |log.segments|
  {
    if log.segments != [] {
      EndDrop(codecs, log);
      WithinAll(codecs, log.(segments := log.segments[..|log.segments| - 1]), n);
    }
  }

  /** Losing the last frame loses no batch that ends inside the cut. */
  lemma WithinShrink(codecs: Codecs, log: Log, n: nat)
    requires SegmentsOk(codecs, log.segments) && log.segments != [] && End(codecs, log) > n
    ensures |log.segments[|log.segments| - 1].lsns| == |log.segments[|log.segments| - 1].pages| > 0
    ensures SegmentsOk(codecs, Shrink(log.segments))
    ensures CommittedWithin(codecs, log.(segments := Shrink(log.segments)), n) == CommittedWithin(codecs, log, n)
  {
    hide End, SegmentsOk;
    var last := |log.segments| - 1;
    LastOne(codecs, log.version, log.segments);
    LastFrameLast(codecs, log.version, log.segments);
    var log' := log.(segments := Shrink(log.segments));
    if |log'.segments| == |log.segments| {
      assert log'.segments[..last] == log.segments[..last];
    } else {
      assert log'.segments == log.segments[..last];
    }
  }

  /** The batches of a cut log are exactly those committed inside the cut. */
  lemma {:induction false} CutCommitted(codecs: Codecs, log: Log, n: nat)
    requires SegmentsOk(codecs, log.segments) && n >= InitFrameSize(log.version)
    ensures Committed(Cut(codecs, log, n).segments) == CommittedWithin(codecs, log, n)
    decreases |Frames(codecs, log.version, log.segments)|
  {
    hide Frames, SegmentsOk, Shrink, Committed, CommittedWithin;
    if log.segments == [] || End(codecs, log) <= n {
      WithinNone(codecs, log, n);
      if log.segments != [] {
        WithinAll(codecs, log, n);
      }
    } else {
      WithinShrink(codecs, log, n);
      LastFrameLast(codecs, log.version, log.segments);
      CutCommitted(codecs, log.(segments := Shrink(log.segments)), n);
    }
  }

  lemma WithinNone(codecs: Codecs, log: Log, n: nat)
    requires SegmentsOk(codecs, log.segments)
    ensures log.segments == [] ==> Committed(log.segments) == CommittedWithin(codecs, log, n) == []
  {
  }

  /** A longer cut keeps what a shorter one keeps, in order. */
  lemma {:induction false} WithinGrows(codecs: Codecs, log: Log, n: nat, m: nat)
    requires SegmentsOk(codecs, log.segments) && n <= m
    ensures CommittedWithin(codecs, log, n) <= CommittedWithin(codecs, log, m)
    decreases |log.segments|
  {
    if log.segments != [] {
      var before := log.(segments := log.segments[..|log.segments| - 1]);
      WithinGrows(codecs, before, n, m);
      if End(codecs, log) <= n {
        EndDrop(codecs, log);
        WithinAll(codecs, before, n);
        WithinAll(codecs, before, m);
      }
    }
  }

  /** The truncated file ends on a frame boundary, and the next frame of the log
      was not whole inside the cut. */
  lemma CutLength(codecs: Codecs, identity: WalIdentity, log: Log, n: nat)
    requires LogOk(codecs, identity, log) && InitFrameSize(log.version) <= n <= End(codecs, log)
    ensures LogOk(codecs, identity, Cut(codecs, log, n))
    ensures var all, kept := LogFrames(codecs, identity, log), LogFrames(codecs, identity, Cut(codecs, log, n));
            && kept <= all && LogBytes(codecs, identity, Cut(codecs, log, n)) <= LogBytes(codecs, identity, log)
            && End(codecs, Cut(codecs, log, n)) <= n
            && (|kept| < |all| ==> n < End(codecs, Cut(codecs, log, n)) + FrameLength(all[|kept|]))
  {
    hide Frames, SegmentsOk, CutSegments, InitFrame, EncodeFrame;
    CutOk(codecs, identity, log, n);
    CutLogFrames(codecs, identity, log, n);
    var all, cut := LogFrames(codecs, identity, log), Cut(codecs, log, n);
    var kept := LogFrames(codecs, identity, cut);
    WholeInsideLength(all, n);
    LogEncodable(codecs, identity, log);
    LogEncodable(codecs, identity, cut);
    EncodeAllPrefix(codecs.crc, all, |kept|);
    EndIsLength(codecs, identity, cut);
    EncodeAllLength(codecs.crc, kept);
  }

  lemma {:induction false} WholeInsideLength(frames: seq<Frame>, n: nat)
    ensures var k := WholeInside(frames, n);
            TotalLength(frames[..k]) <= n && (k < |frames| ==> n < TotalLength(frames[..k]) + FrameLength(frames[k]))
  {
    if frames != [] && FrameLength(frames[0]) <= n {
      var k := WholeInside(frames[1..], n - FrameLength(frames[0]));
      WholeInsideLength(frames[1..], n - FrameLength(frames[0]));
      assert frames[..k + 1][1..] == frames[1..][..k];
    }
  }

  lemma {:induction false} EncodeAllPrefix(crc: Crc, frames: seq<Frame>, k: nat)
    requires AllEncodable(frames) && k <= |frames|
    ensures EncodeAll(crc, frames[..k]) <= EncodeAll(crc, frames)
  {
    hide EncodeFrame;
    if k > 0 {
      EncodeAllPrefix(crc, frames[1..], k - 1);
      assert frames[..k][1..] == frames[1..][..k - 1];
    }
  }
}
