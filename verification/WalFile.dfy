/** The write-ahead log as an object: scanning, appending groups, resetting and
    reopening after a crash (wal.rs). */
module WalFile {
  import opened Lex
  import opened Endian
  import opened Pages
  import opened WalFrames
  import opened WalLogs
  import opened WalScan

  // ---------------------------------------------------------------- collecting batches

  datatype PendingBatch = PendingBatch(batch: u64, first: u64, pages: seq<PageImage>, digestInput: bytes)

  /** The batch being collected is the open batch of the log. */
  ghost predicate Collecting(pending: Option<PendingBatch>, segments: seq<Segment>) {
    match Pending(segments)
    case None => pending.None?
    case Some(g) => |g.lsns| > 0 && pending == Some(PendingBatch(g.batch, g.lsns[0], g.pages, DigestInput(g.pages)))
  }

  lemma {:induction false} ParseStops(codecs: Codecs, start: u64, frames: seq<Frame>, k: nat)
    requires k <= |frames| && Parse(codecs, start, frames[..k]).None?
    ensures Parse(codecs, start, frames).None?
  {
    hide AddFrame;
    if k == |frames| {
      assert frames[..k] == frames;
    } else {
      assert frames[..|frames| - 1][..k] == frames[..k];
      ParseStops(codecs, start, frames[..|frames| - 1], k);
    }
  }

  lemma ParseStep(codecs: Codecs, start: u64, frames: seq<Frame>, k: nat)
    requires k < |frames| && Parse(codecs, start, frames[..k]).Some?
    ensures Parse(codecs, start, frames[..k + 1])
            == if frames[k].lsn <= start then None else AddFrame(codecs, Parse(codecs, start, frames[..k]).value, frames[k])
  {
    assert frames[..k + 1][..k] == frames[..k];
  }

  lemma DigestGrows(pages: seq<PageImage>, p: PageImage)
    ensures DigestInput(pages + [p]) == DigestInput(pages) + ImagePayload(p)
  {
    assert (pages + [p])[..|pages|] == pages;
  }

  /** A page image joins the open batch or opens the next one. */
  method TakePage(pending: Option<PendingBatch>, highest: u64, f: Frame, p: PageImage, ghost segments: seq<Segment>)
    returns (r: Option<(PendingBatch, u64)>)
    requires Collecting(pending, segments) && highest == Highest(segments)
    requires f.payload == ImagePayload(p)
    ensures r.Some? <==> AddPage(segments, f, p).Some?
    ensures r.Some? ==> var after := AddPage(segments, f, p).value;
                        Collecting(Some(r.value.0), after) && r.value.1 == Highest(after) && Committed(after) == Committed(segments)
                        && Highest(after) >= Highest(segments) && Highest(after) == f.batch
  {
    var current, high := pending, highest;
    if pending.None? || pending.value.batch != f.batch {
      if f.batch <= highest {
        return None;
      }
      high := f.batch;
      current := Some(PendingBatch(f.batch, f.lsn, [], []));
    }
    if f.index != |current.value.pages| % U32_RANGE {
      return None;
    }
    DigestGrows(current.value.pages, p);
    r := Some((current.value.(pages := current.value.pages + [p], digestInput := current.value.digestInput + f.payload), high));
    ghost var after := AddPage(segments, f, p).value;
    if |after| == |segments| {
      assert after[..|segments| - 1] == segments[..|segments| - 1];
    } else {
      assert after[..|segments|] == segments;
      assert [] + [p] == [p];
    }
  }

  /** A commit record must fit the open batch. */
  method TakeCommit(codecs: Codecs, pending: Option<PendingBatch>, f: Frame, ghost segments: seq<Segment>)
    returns (r: Option<CommittedBatch>)
    requires Collecting(pending, segments)
    ensures r.Some? <==> AddCommit(codecs, segments, f).Some?
    ensures r.Some? ==> var after := AddCommit(codecs, segments, f).value;
                        Collecting(None, after) && Highest(after) == Highest(segments) == f.batch
                        && Committed(after) == Committed(segments) + [r.value]
  {
    if pending.None? {
      return None;
    }
    var current := pending.value;
    if current.batch != f.batch || f.index != |current.pages| % U32_RANGE || |f.payload| != COMMIT_PAYLOAD_SIZE {
      return None;
    }
    if ReadU64(f.payload[..8]) != current.first || ReadU32(f.payload[8..12]) != |current.pages|
       || codecs.crc(current.digestInput) != ReadU32(f.payload[12..16]) {
      return None;
    }
    for i := 0 to |current.pages|
      invariant forall j :: 0 <= j < i ==> StampedAt(current.pages[j], f.lsn)
    {
      if !StampedAt(current.pages[i], f.lsn) {
        return None;
      }
    }
    r := Some(CommittedBatch(f.batch, f.lsn, current.pages));
    ghost var after := AddCommit(codecs, segments, f).value;
    assert after[..|segments| - 1] == segments[..|segments| - 1];
  }

  /** The batches of the records after the initialization record, and the
      highest batch number in them. */
  method CollectBatches(codecs: Codecs, start: u64, frames: seq<Frame>) returns (r: Option<(seq<CommittedBatch>, u64)>)
    ensures r.Some? <==> Parse(codecs, start, frames).Some?
    ensures r.Some? ==> var segments := Parse(codecs, start, frames).value; r.value == (Committed(segments), Highest(segments))
  {
    hide AddPage, AddCommit, Parse, Committed;
    var committed: seq<CommittedBatch> := [];
    var pending: Option<PendingBatch> := None;
    var highest: u64, maxBatch: u64 := 0, 0;
    ghost var segments: seq<Segment> := [];
    ParseNothing(codecs, start, frames);
    for i := 0 to |frames|
      invariant Parse(codecs, start, frames[..i]) == Some(segments)
      invariant committed == Committed(segments) && Collecting(pending, segments)
      invariant highest == maxBatch == Highest(segments)
    {
      var f := frames[i];
      ParseStep(codecs, start, frames, i);
      if f.lsn <= start {
        ParseStops(codecs, start, frames, i + 1);
        return None;
      }
      maxBatch := if f.batch > maxBatch then f.batch else maxBatch;
      match f.kind {
        case InitRecord =>
          ParseStops(codecs, start, frames, i + 1);
          return None;
        case PageImageRecord =>
          var p := DecodePageImage(f.payload);
          if p.None? || !codecs.valid(p.value) {
            ParseStops(codecs, start, frames, i + 1);
            return None;
          }
          PagePayloadBack(f.payload);
          var taken := TakePage(pending, highest, f, p.value, segments);
          if taken.None? {
            ParseStops(codecs, start, frames, i + 1);
            return None;
          }
          segments := AddPage(segments, f, p.value).value;
          pending, highest := Some(taken.value.0), taken.value.1;
        case CommitRecord =>
          var batch := TakeCommit(codecs, pending, f, segments);
          if batch.None? {
            ParseStops(codecs, start, frames, i + 1);
            return None;
          }
          segments := AddCommit(codecs, segments, f).value;
          pending, committed := None, committed + [batch.value];
      }
    }
    assert frames[..|frames|] == frames;
    return Some((committed, maxBatch));
  }

  lemma ParseNothing(codecs: Codecs, start: u64, frames: seq<Frame>)
    ensures Parse(codecs, start, frames[..0]) == Some([]) && Committed([]) == []
  {
  }

  // ---------------------------------------------------------------- the scan

  datatype ScanResult = ScanResult(nextLsn: u64, nextBatchId: u64, version: u16, start: u64, committed: seq<CommittedBatch>, validLength: nat)

  ghost predicate Exhausted(codecs: Codecs, identity: WalIdentity, log: Log)
    requires SegmentsOk(codecs, log.segments)
  {
    LastLsn(codecs, identity, log) == U64_MAX || Highest(log.segments) == U64_MAX
  }

  /** Succeeds on exactly the files that hold a log, and reports that log. */
  method ScanWal(codecs: Codecs, identity: WalIdentity, file: bytes) returns (r: Option<ScanResult>)
    ensures var log := Scanned(codecs, identity, file);
            && (log.None? ==> r.None?)
            && (log.Some? ==>
                  && Holds(codecs, identity, file, log.value)
                  && (r.None? <==> Exhausted(codecs, identity, log.value))
                  && (r.Some? ==> r.value == ScanResult(LastLsn(codecs, identity, log.value) + 1, Highest(log.value.segments) + 1, log.value.version,
                                                        log.value.start, Committed(log.value.segments), |LogBytes(codecs, identity, log.value)|)))
  {
    hide ReadAll, Parse, Committed, VerifyIdentity, SegmentsOk, Frames, NextFrame;
    var all := ReadFrames(codecs.crc, file);
    if all.None? {
      return None;
    }
    var frames := all.value.0;
    if frames == [] || !BeginsWithInit(frames[0]) {
      return None;
    }
    var start := VerifyIdentity(frames[0].version, frames[0].payload, identity);
    if start.None? {
      return None;
    }
    var batches := CollectBatches(codecs, start.value, frames[1..]);
    if batches.None? {
      return None;
    }
    ghost var log := Scanned(codecs, identity, file).value;
    ScanSound(codecs, identity, file);
    ScannedFrames(codecs, identity, file);
    ReadAllSound(codecs.crc, file, None);
    EncodeAllLength(codecs.crc, frames);
    if frames[|frames| - 1].lsn == U64_MAX || batches.value.1 == U64_MAX {
      return None;
    }
    r := Some(ScanResult(frames[|frames| - 1].lsn + 1, batches.value.1 + 1, frames[0].version, start.value, batches.value.0, all.value.1));
  }
}
