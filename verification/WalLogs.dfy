/** What a log means: batches of page images, each closed by a commit record or
    left open by a crash, and the scan that recovers them (wal.rs). */
module WalLogs {
  import opened Lex
  import opened Endian
  import opened Pages
  import opened WalFrames

  const INIT_PAYLOAD_SIZE: nat := 52
  const LEGACY_INIT_PAYLOAD_SIZE: nat := 44
  const PAGE_BYTES: nat := 4096
  const PAGE_IMAGE_PAYLOAD_SIZE: nat := 8 + PAGE_BYTES
  const COMMIT_PAYLOAD_SIZE: nat := 16
  const U32_RANGE: nat := 0x1_0000_0000
  const U64_MAX: nat := 0xFFFF_FFFF_FFFF_FFFF

  type Uuid = b: bytes | |b| == 16 witness seq(16, i => 0)

  datatype WalIdentity = WalIdentity(uuid: Uuid, tenant: u64, shard: u64, epoch: u64)

  type PageBytes = b: bytes | |b| == PAGE_BYTES witness seq(PAGE_BYTES, i => 0)

  datatype PageImage = PageImage(page: u64, image: PageBytes)

  /** The checksum, and whether the bytes of a page decode as that page. */
  datatype Codecs = Codecs(crc: Crc, valid: PageImage -> bool)

  /** A batch in the log; `lsns` are those of its page images. */
  datatype Segment = Segment(batch: u64, lsns: seq<u64>, pages: seq<PageImage>, commit: Option<u64>)

  datatype Log = Log(version: u16, start: u64, segments: seq<Segment>)

  datatype CommittedBatch = CommittedBatch(batch: u64, commitLsn: u64, pages: seq<PageImage>)

  // ---------------------------------------------------------------- a log as frames

  function IdentityPayload(version: u16, identity: WalIdentity, start: u64): (r: bytes)
    ensures |r| == if version == LEGACY_WAL_FORMAT_VERSION then LEGACY_INIT_PAYLOAD_SIZE else INIT_PAYLOAD_SIZE
  {
    identity.uuid + U64(identity.tenant) + U64(identity.shard) + U64(identity.epoch) + U32(PAGE_BYTES)
    + if version == LEGACY_WAL_FORMAT_VERSION then [] else U64(start)
  }

  function InitFrame(version: u16, identity: WalIdentity, start: u64): Frame {
    Frame(version, InitRecord, 0, 0, 0, IdentityPayload(version, identity, start))
  }

  function ImagePayload(p: PageImage): (r: bytes)
    ensures |r| == PAGE_IMAGE_PAYLOAD_SIZE
  {
    U64(p.page) + p.image
  }

  function DigestInput(pages: seq<PageImage>): bytes {
    if pages == [] then [] else DigestInput(pages[..|pages| - 1]) + ImagePayload(pages[|pages| - 1])
  }

  function CommitPayload(crc: Crc, first: u64, pages: seq<PageImage>): (r: bytes)
    requires |pages| < U32_RANGE
    ensures |r| == COMMIT_PAYLOAD_SIZE
  {
    U64(first) + U32(|pages|) + U32(crc(DigestInput(pages)))
  }

  function PageFrame(version: u16, batch: u64, lsn: u64, index: nat, p: PageImage): Frame {
    Frame(version, PageImageRecord, lsn, batch, index % U32_RANGE, ImagePayload(p))
  }

  function CommitFrame(crc: Crc, version: u16, batch: u64, first: u64, pages: seq<PageImage>, lsn: u64): Frame
    requires |pages| < U32_RANGE
  {
    Frame(version, CommitRecord, lsn, batch, |pages|, CommitPayload(crc, first, pages))
  }

  /** The LSN in the header of a page. */
  function ImageLsn(p: PageImage): u64 {
    ReadU64(p.image[16..24])
  }

  /** Superblocks carry no commit LSN. */
  predicate StampedAt(p: PageImage, lsn: u64) {
    p.page < FIRST_DATA_PAGE || ImageLsn(p) == lsn
  }

  ghost predicate SegmentOk(codecs: Codecs, g: Segment) {
    && |g.lsns| == |g.pages| > 0 && g.batch > 0
    && (forall i :: 0 <= i < |g.pages| ==> codecs.valid(g.pages[i]))
    && (g.commit.Some? ==> |g.pages| < U32_RANGE && forall i :: 0 <= i < |g.pages| ==> StampedAt(g.pages[i], g.commit.value))
  }

  ghost predicate SegmentsOk(codecs: Codecs, segments: seq<Segment>) {
    && (forall i :: 0 <= i < |segments| ==> SegmentOk(codecs, segments[i]))
    && (forall i, j :: 0 <= i < j < |segments| ==> segments[i].batch < segments[j].batch)
  }

  /** Frames of the first n pages of a batch. */
  ghost function PageFrames(version: u16, g: Segment, n: nat): (r: seq<Frame>)
    requires n <= |g.lsns| == |g.pages|
    ensures |r| == n
  {
    if n == 0 then [] else PageFrames(version, g, n - 1) + [PageFrame(version, g.batch, g.lsns[n - 1], n - 1, g.pages[n - 1])]
  }

  ghost function SegmentFrames(codecs: Codecs, version: u16, g: Segment): seq<Frame>
    requires SegmentOk(codecs, g)
  {
    PageFrames(version, g, |g.pages|)
    + if g.commit.Some? then [CommitFrame(codecs.crc, version, g.batch, g.lsns[0], g.pages, g.commit.value)] else []
  }

  ghost function Frames(codecs: Codecs, version: u16, segments: seq<Segment>): seq<Frame>
    requires SegmentsOk(codecs, segments)
  {
    if segments == [] then []
    else Frames(codecs, version, segments[..|segments| - 1]) + SegmentFrames(codecs, version, segments[|segments| - 1])
  }

  // ---------------------------------------------------------------- adding and removing the last frame

  function Highest(segments: seq<Segment>): u64 {
    if segments == [] then 0 else segments[|segments| - 1].batch
  }

  function DecodePageImage(payload: bytes): Option<PageImage> {
    if |payload| != PAGE_IMAGE_PAYLOAD_SIZE then None else Some(PageImage(ReadU64(payload[..8]), payload[8..]))
  }

  /** The open batch at the end, if there is one. */
  function Pending(segments: seq<Segment>): Option<Segment> {
    if segments == [] || segments[|segments| - 1].commit.Some? then None else Some(segments[|segments| - 1])
  }

  function AddPage(segments: seq<Segment>, f: Frame, p: PageImage): Option<seq<Segment>> {
    var pending := Pending(segments);
    if pending.Some? && pending.value.batch == f.batch then
      var g := pending.value;
      if f.index != |g.pages| % U32_RANGE then None
      else Some(segments[|segments| - 1 := g.(lsns := g.lsns + [f.lsn], pages := g.pages + [p])])
    else if f.batch <= Highest(segments) || f.index != 0 then None
    else Some(segments + [Segment(f.batch, [f.lsn], [p], None)])
  }

  predicate CommitFits(codecs: Codecs, g: Segment, f: Frame) {
    && g.batch == f.batch && f.index == |g.pages| % U32_RANGE && |f.payload| == COMMIT_PAYLOAD_SIZE
    && |g.lsns| > 0 && ReadU64(f.payload[..8]) == g.lsns[0] && ReadU32(f.payload[8..12]) == |g.pages|
    && ReadU32(f.payload[12..16]) == codecs.crc(DigestInput(g.pages))
    && forall i :: 0 <= i < |g.pages| ==> StampedAt(g.pages[i], f.lsn)
  }

  function AddCommit(codecs: Codecs, segments: seq<Segment>, f: Frame): Option<seq<Segment>> {
    var pending := Pending(segments);
    if pending.None? || !CommitFits(codecs, pending.value, f) then None
    else Some(segments[|segments| - 1 := pending.value.(commit := Some(f.lsn))])
  }

  /** The log with one more frame; None if the frame cannot stand there. */
  function AddFrame(codecs: Codecs, segments: seq<Segment>, f: Frame): Option<seq<Segment>> {
    match f.kind
    case InitRecord => None
    case CommitRecord => AddCommit(codecs, segments, f)
    case PageImageRecord =>
      var p := DecodePageImage(f.payload);
      if p.None? || !codecs.valid(p.value) then None else AddPage(segments, f, p.value)
  }

  ghost function Parse(codecs: Codecs, start: u64, frames: seq<Frame>): Option<seq<Segment>> {
    if frames == [] then Some([])
    else match Parse(codecs, start, frames[..|frames| - 1])
      case None => None
      case Some(segments) =>
        var f := frames[|frames| - 1];
        if f.lsn <= start then None else AddFrame(codecs, segments, f)
  }

  /** The log without its last frame. */
  ghost function Shrink(segments: seq<Segment>): seq<Segment>
    requires segments != [] && |segments[|segments| - 1].lsns| == |segments[|segments| - 1].pages| > 0
  {
    var n, g := |segments| - 1, segments[|segments| - 1];
    if g.commit.Some? then segments[n := g.(commit := None)]
    else if |g.pages| == 1 then segments[..n]
    else segments[n := g.(lsns := g.lsns[..|g.lsns| - 1], pages := g.pages[..|g.pages| - 1])]
  }

  // ---------------------------------------------------------------- payload round trips

  lemma PagePayload(p: PageImage)
    ensures DecodePageImage(ImagePayload(p)) == Some(p)
  {
    assert ImagePayload(p)[..8] == U64(p.page) && ImagePayload(p)[8..] == p.image;
  }

  lemma PagePayloadBack(payload: bytes)
    requires |payload| == PAGE_IMAGE_PAYLOAD_SIZE
    ensures ImagePayload(DecodePageImage(payload).value) == payload
  {
    assert payload == payload[..8] + payload[8..];
  }

  lemma CommitPayloadFits(codecs: Codecs, g: Segment, version: u16, lsn: u64)
    requires SegmentOk(codecs, g) && |g.pages| < U32_RANGE && forall i :: 0 <= i < |g.pages| ==> StampedAt(g.pages[i], lsn)
    ensures CommitFits(codecs, g, CommitFrame(codecs.crc, version, g.batch, g.lsns[0], g.pages, lsn))
  {
    var payload := CommitPayload(codecs.crc, g.lsns[0], g.pages);
    assert payload[..8] == U64(g.lsns[0]) && payload[8..12] == U32(|g.pages|) && payload[12..16] == U32(codecs.crc(DigestInput(g.pages)));
  }

  lemma CommitPayloadBack(codecs: Codecs, g: Segment, f: Frame)
    requires CommitFits(codecs, g, f) && f.kind.CommitRecord?
    ensures |g.pages| < U32_RANGE && f == CommitFrame(codecs.crc, f.version, g.batch, g.lsns[0], g.pages, f.lsn)
  {
    assert f.payload == f.payload[..8] + f.payload[8..12] + f.payload[12..16];
  }

  // ---------------------------------------------------------------- parsing inverts encoding

  lemma {:induction false} PageFramesSame(version: u16, g: Segment, g': Segment, n: nat)
    requires n <= |g.lsns| == |g.pages| && n <= |g'.lsns| == |g'.pages| && g.batch == g'.batch
    requires g.lsns[..n] == g'.lsns[..n] && g.pages[..n] == g'.pages[..n]
    ensures PageFrames(version, g, n) == PageFrames(version, g', n)
  {
    if n > 0 {
      assert g.lsns[..n - 1] == g.lsns[..n][..n - 1] && g'.lsns[..n - 1] == g'.lsns[..n][..n - 1];
      assert g.pages[..n - 1] == g.pages[..n][..n - 1] && g'.pages[..n - 1] == g'.pages[..n][..n - 1];
      assert g.lsns[n - 1] == g.lsns[..n][n - 1] == g'.lsns[n - 1] && g.pages[n - 1] == g.pages[..n][n - 1] == g'.pages[n - 1];
      PageFramesSame(version, g, g', n - 1);
    }
  }

  ghost function Grown(g: Segment, lsn: u64, p: PageImage): Segment {
    g.(lsns := g.lsns + [lsn], pages := g.pages + [p])
  }

  lemma GrownFrames(codecs: Codecs, version: u16, g: Segment, lsn: u64, p: PageImage)
    requires SegmentOk(codecs, g) && g.commit.None? && codecs.valid(p)
    ensures SegmentOk(codecs, Grown(g, lsn, p))
    ensures SegmentFrames(codecs, version, Grown(g, lsn, p)) == SegmentFrames(codecs, version, g) + [PageFrame(version, g.batch, lsn, |g.pages|, p)]
  {
    PageFramesSame(version, g, Grown(g, lsn, p), |g.pages|);
  }

  lemma ClosedFrames(codecs: Codecs, version: u16, g: Segment, lsn: u64)
    requires SegmentOk(codecs, g) && g.commit.None? && |g.pages| < U32_RANGE && forall i :: 0 <= i < |g.pages| ==> StampedAt(g.pages[i], lsn)
    ensures SegmentOk(codecs, g.(commit := Some(lsn)))
    ensures SegmentFrames(codecs, version, g.(commit := Some(lsn)))
            == SegmentFrames(codecs, version, g) + [CommitFrame(codecs.crc, version, g.batch, g.lsns[0], g.pages, lsn)]
  {
    PageFramesSame(version, g, g.(commit := Some(lsn)), |g.pages|);
  }

  lemma OpenedFrames(codecs: Codecs, version: u16, batch: u64, lsn: u64, p: PageImage)
    requires batch > 0 && codecs.valid(p)
    ensures var g := Segment(batch, [lsn], [p], None);
            SegmentOk(codecs, g) && SegmentFrames(codecs, version, g) == [PageFrame(version, batch, lsn, 0, p)]
  {
    var g := Segment(batch, [lsn], [p], None);
    assert PageFrames(version, g, 1) == PageFrames(version, g, 0) + [PageFrame(version, batch, lsn, 0, p)];
  }

  /** Replacing the last batch by one that has a frame more. */
  lemma ReplaceLast(codecs: Codecs, version: u16, segments: seq<Segment>, g: Segment, f: Frame)
    requires SegmentsOk(codecs, segments) && segments != [] && SegmentOk(codecs, g) && g.batch == segments[|segments| - 1].batch
    requires SegmentFrames(codecs, version, g) == SegmentFrames(codecs, version, segments[|segments| - 1]) + [f]
    ensures SegmentsOk(codecs, segments[|segments| - 1 := g])
    ensures Frames(codecs, version, segments[|segments| - 1 := g]) == Frames(codecs, version, segments) + [f]
  {
    hide SegmentOk, SegmentFrames;
    var n := |segments| - 1;
    assert segments[n := g][..n] == segments[..n];
  }

  lemma AppendLast(codecs: Codecs, version: u16, segments: seq<Segment>, g: Segment)
    requires SegmentsOk(codecs, segments) && SegmentOk(codecs, g) && g.batch > Highest(segments)
    ensures SegmentsOk(codecs, segments + [g])
    ensures Frames(codecs, version, segments + [g]) == Frames(codecs, version, segments) + SegmentFrames(codecs, version, g)
  {
    hide SegmentOk, SegmentFrames;
    assert (segments + [g])[..|segments|] == segments;
  }

  /** A frame that is accepted is the next frame of the log it leads to. */
  lemma AddSound(codecs: Codecs, version: u16, segments: seq<Segment>, f: Frame)
    requires SegmentsOk(codecs, segments) && AddFrame(codecs, segments, f).Some? && f.version == version
    ensures var after := AddFrame(codecs, segments, f).value;
            SegmentsOk(codecs, after) && Frames(codecs, version, after) == Frames(codecs, version, segments) + [f]
  {
    hide Frames, SegmentFrames, CommitFits;
    var pending := Pending(segments);
    if f.kind.CommitRecord? {
      CommitPayloadBack(codecs, pending.value, f);
      CommitStamps(codecs, pending.value, f);
      ClosedFrames(codecs, version, pending.value, f.lsn);
      ReplaceLast(codecs, version, segments, pending.value.(commit := Some(f.lsn)), f);
    } else {
      var p := DecodePageImage(f.payload).value;
      PagePayloadBack(f.payload);
      if pending.Some? && pending.value.batch == f.batch {
        GrownFrames(codecs, version, pending.value, f.lsn, p);
        ReplaceLast(codecs, version, segments, Grown(pending.value, f.lsn, p), f);
      } else {
        OpenedFrames(codecs, version, f.batch, f.lsn, p);
        AppendLast(codecs, version, segments, Segment(f.batch, [f.lsn], [p], None));
      }
    }
  }

  lemma CommitStamps(codecs: Codecs, g: Segment, f: Frame)
    requires CommitFits(codecs, g, f)
    ensures forall i :: 0 <= i < |g.pages| ==> StampedAt(g.pages[i], f.lsn)
  {
  }

  ghost function LastFrame(codecs: Codecs, version: u16, segments: seq<Segment>): Frame
    requires SegmentsOk(codecs, segments) && segments != []
  {
    var g := segments[|segments| - 1];
    if g.commit.Some? then CommitFrame(codecs.crc, version, g.batch, g.lsns[0], g.pages, g.commit.value)
    else PageFrame(version, g.batch, g.lsns[|g.pages| - 1], |g.pages| - 1, g.pages[|g.pages| - 1])
  }

  lemma SwapLast(codecs: Codecs, segments: seq<Segment>, g: Segment)
    requires SegmentsOk(codecs, segments) && segments != [] && SegmentOk(codecs, g) && g.batch == segments[|segments| - 1].batch
    ensures SegmentsOk(codecs, segments[|segments| - 1 := g])
  {
    hide SegmentOk;
  }

  lemma ReopenCommit(codecs: Codecs, version: u16, segments: seq<Segment>, g: Segment)
    requires segments != [] && g == segments[|segments| - 1] && SegmentsOk(codecs, segments) && g.commit.Some? && SegmentOk(codecs, g)
    ensures var before := segments[|segments| - 1 := g.(commit := None)];
            && SegmentsOk(codecs, before)
            && AddCommit(codecs, before, CommitFrame(codecs.crc, version, g.batch, g.lsns[0], g.pages, g.commit.value)) == Some(segments)
  {
    hide CommitFits, SegmentsOk, DigestInput;
    var open := g.(commit := None);
    SwapLast(codecs, segments, open);
    CommitPayloadFits(codecs, open, version, g.commit.value);
    assert segments[|segments| - 1 := open][|segments| - 1 := g] == segments;
  }

  lemma RemovePage(codecs: Codecs, version: u16, segments: seq<Segment>, g: Segment)
    requires segments != [] && g == segments[|segments| - 1] && SegmentsOk(codecs, segments) && g.commit.None? && SegmentOk(codecs, g)
    ensures SegmentsOk(codecs, Shrink(segments))
    ensures var n := |g.pages| - 1; AddPage(Shrink(segments), PageFrame(version, g.batch, g.lsns[n], n, g.pages[n]), g.pages[n]) == Some(segments)
  {
    hide SegmentsOk;
    var n := |segments| - 1;
    if |g.pages| == 1 {
      assert g == Segment(g.batch, [g.lsns[0]], [g.pages[0]], None);
      assert segments == segments[..n] + [g];
      DropLast(codecs, segments);
    } else {
      var shorter := g.(lsns := g.lsns[..|g.lsns| - 1], pages := g.pages[..|g.pages| - 1]);
      assert Grown(shorter, g.lsns[|g.lsns| - 1], g.pages[|g.pages| - 1]) == g;
      SwapLast(codecs, segments, shorter);
      assert segments[n := shorter][n := g] == segments;
    }
  }

  lemma DropLast(codecs: Codecs, segments: seq<Segment>)
    requires SegmentsOk(codecs, segments) && segments != []
    ensures SegmentsOk(codecs, segments[..|segments| - 1]) && Highest(segments[..|segments| - 1]) < Highest(segments)
  {
  }

  /** The last frame can be taken away, and is accepted again. */
  lemma ShrinkOk(codecs: Codecs, version: u16, segments: seq<Segment>)
    requires SegmentsOk(codecs, segments) && segments != []
    ensures SegmentsOk(codecs, Shrink(segments))
    ensures AddFrame(codecs, Shrink(segments), LastFrame(codecs, version, segments)) == Some(segments)
  {
    hide AddPage, AddCommit;
    var g := segments[|segments| - 1];
    assert SegmentOk(codecs, g);
    if g.commit.Some? {
      ReopenCommit(codecs, version, segments, g);
    } else {
      PagePayload(g.pages[|g.pages| - 1]);
      RemovePage(codecs, version, segments, g);
    }
  }

  /** Every frame of the log is after the start of its history. */
  ghost predicate After(frames: seq<Frame>, start: u64) {
    forall i :: 0 <= i < |frames| ==> frames[i].lsn > start
  }

  ghost predicate OneVersion(frames: seq<Frame>, version: u16) {
    forall i :: 0 <= i < |frames| ==> frames[i].version == version
  }

  lemma LastFrameLast(codecs: Codecs, version: u16, segments: seq<Segment>)
    requires SegmentsOk(codecs, segments) && segments != []
    ensures SegmentsOk(codecs, Shrink(segments))
    ensures Frames(codecs, version, segments) == Frames(codecs, version, Shrink(segments)) + [LastFrame(codecs, version, segments)]
  {
    hide AddFrame, Frames;
    ShrinkOk(codecs, version, segments);
    AddSound(codecs, version, Shrink(segments), LastFrame(codecs, version, segments));
  }

  /** What parses is the log it parses to. */
  lemma {:induction false} ParseSound(codecs: Codecs, version: u16, start: u64, frames: seq<Frame>)
    requires Parse(codecs, start, frames).Some? && OneVersion(frames, version)
    ensures var segments := Parse(codecs, start, frames).value;
            SegmentsOk(codecs, segments) && Frames(codecs, version, segments) == frames && After(frames, start)
  {
    hide AddFrame, SegmentsOk, Frames;
    if frames == [] {
      NoSegments(codecs, version);
    } else {
      var n := |frames| - 1;
      ParseSound(codecs, version, start, frames[..n]);
      AddSound(codecs, version, Parse(codecs, start, frames[..n]).value, frames[n]);
      assert frames == frames[..n] + [frames[n]];
    }
  }

  lemma NoSegments(codecs: Codecs, version: u16)
    ensures SegmentsOk(codecs, []) && Frames(codecs, version, []) == []
  {
  }

  /** Every log parses to itself. */
  lemma {:induction false} ParseComplete(codecs: Codecs, version: u16, start: u64, segments: seq<Segment>)
    requires SegmentsOk(codecs, segments) && After(Frames(codecs, version, segments), start)
    ensures Parse(codecs, start, Frames(codecs, version, segments)) == Some(segments)
    decreases |Frames(codecs, version, segments)|
  {
    hide AddFrame, Frames, Shrink, LastFrame;
    if segments == [] {
      NoSegments(codecs, version);
    } else {
      var all, before, last := Frames(codecs, version, segments), Shrink(segments), LastFrame(codecs, version, segments);
      LastFrameLast(codecs, version, segments);
      ShrinkOk(codecs, version, segments);
      assert all[..|all| - 1] == Frames(codecs, version, before) && all[|all| - 1] == last;
      ParseComplete(codecs, version, start, before);
    }
  }
}
