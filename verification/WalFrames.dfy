/** The frames of the write-ahead log as bytes (wal.rs). */
module WalFrames {
  import opened Lex
  import opened Endian
  import opened Pages

  const WAL_FORMAT_VERSION: u16 := 2
  const LEGACY_WAL_FORMAT_VERSION: u16 := 1
  const WAL_MAGIC: bytes := [0x44, 0x57, 0x41, 0x4c]
  const WAL_HEADER_SIZE: nat := 48
  const WAL_TRAILER_SIZE: nat := 4
  const WAL_MAX_PAYLOAD_SIZE: nat := 64 * 1024 * 1024

  /** The checksum CRC32C is any function from bytes to 32-bit words. */
  type Crc = bytes -> u32

  datatype Kind = InitRecord | PageImageRecord | CommitRecord {
    function Code(): byte {
      match this case InitRecord => 1 case PageImageRecord => 2 case CommitRecord => 3
    }
  }

  datatype Frame = Frame(version: u16, kind: Kind, lsn: u64, batch: u64, index: u32, payload: bytes)

  /** What the encoder accepts; it is only called with the versions the decoder
      knows. */
  predicate Encodable(f: Frame) {
    |f.payload| <= WAL_MAX_PAYLOAD_SIZE && (f.version == WAL_FORMAT_VERSION || f.version == LEGACY_WAL_FORMAT_VERSION)
  }

  function FrameLength(f: Frame): nat {
    WAL_HEADER_SIZE + |f.payload| + WAL_TRAILER_SIZE
  }

  // ---------------------------------------------------------------- encoding

  /** The header with a given checksum in its checksum field. */
  function HeaderWith(f: Frame, payloadCrc: u32, headerCrc: u32): (r: bytes)
    requires Encodable(f)
    ensures |r| == WAL_HEADER_SIZE
  {
    WAL_MAGIC + U16(f.version) + [f.kind.Code()] + [0] + U32(FrameLength(f)) + U32(|f.payload|) + U64(f.lsn) + U64(f.batch)
    + U32(f.index) + [0, 0, 0, 0] + U32(headerCrc) + U32(payloadCrc)
  }

  function HeaderChecksum(crc: Crc, header: bytes): u32
    requires |header| == WAL_HEADER_SIZE
  {
    crc(header[..40] + [0, 0, 0, 0] + header[44..])
  }

  function EncodeHeader(crc: Crc, f: Frame): (r: bytes)
    requires Encodable(f)
    ensures |r| == WAL_HEADER_SIZE
  {
    var payloadCrc := crc(f.payload);
    HeaderWith(f, payloadCrc, HeaderChecksum(crc, HeaderWith(f, payloadCrc, 0)))
  }

  function EncodeFrame(crc: Crc, f: Frame): (r: bytes)
    requires Encodable(f)
    ensures |r| == FrameLength(f)
  {
    EncodeHeader(crc, f) + f.payload + U32(FrameLength(f))
  }

  // ---------------------------------------------------------------- decoding

  datatype Header = Header(version: u16, kind: Kind, frameLength: u32, payloadLength: u32, lsn: u64, batch: u64, index: u32)

  function DecodeKind(b: byte): Option<Kind> {
    if b == 1 then Some(InitRecord) else if b == 2 then Some(PageImageRecord) else if b == 3 then Some(CommitRecord) else None
  }

  function DecodeHeader(crc: Crc, h: bytes): Option<Header>
    requires |h| == WAL_HEADER_SIZE
  {
    if h[0..4] != WAL_MAGIC then None
    else if ReadU16(h[4..6]) != WAL_FORMAT_VERSION && ReadU16(h[4..6]) != LEGACY_WAL_FORMAT_VERSION then None
    else if h[7] != 0 || h[36..40] != [0, 0, 0, 0] then None
    else if ReadU32(h[40..44]) != HeaderChecksum(crc, h) then None
    else match DecodeKind(h[6])
      case None => None
      case Some(kind) =>
        Some(Header(ReadU16(h[4..6]), kind, ReadU32(h[8..12]), ReadU32(h[12..16]), ReadU64(h[16..24]), ReadU64(h[24..32]), ReadU32(h[32..36])))
  }

  /** What the reader finds at an offset: too few bytes for a frame, something
      that is not a frame, or a frame. */
  datatype Next = Tail | Damaged | Whole(frame: Frame)

  predicate LengthsOk(h: Header) {
    h.frameLength == WAL_HEADER_SIZE + h.payloadLength + WAL_TRAILER_SIZE && h.payloadLength <= WAL_MAX_PAYLOAD_SIZE
  }

  /** All frames of a log have the version of its first frame. */
  function NextFrame(crc: Crc, s: bytes, version: Option<u16>): Next {
    if |s| < WAL_HEADER_SIZE then Tail
    else match DecodeHeader(crc, s[..WAL_HEADER_SIZE])
      case None => Damaged
      case Some(h) =>
        if version.Some? && version.value != h.version then Damaged
        else if !LengthsOk(h) then Damaged
        else if h.frameLength > |s| then Tail
        else
          var payload := s[WAL_HEADER_SIZE..WAL_HEADER_SIZE + h.payloadLength];
          if ReadU32(s[WAL_HEADER_SIZE + h.payloadLength..h.frameLength]) != h.frameLength then Damaged
          else if ReadU32(s[44..48]) != crc(payload) then Damaged
          else Whole(Frame(h.version, h.kind, h.lsn, h.batch, h.index, payload))
  }

  // ---------------------------------------------------------------- the header round trip

  /** The fields of a header lie where the decoder looks for them. */
  lemma HeaderFields(f: Frame, payloadCrc: u32, headerCrc: u32)
    requires Encodable(f)
    ensures var h := HeaderWith(f, payloadCrc, headerCrc);
            && h[0..4] == WAL_MAGIC && h[4..6] == U16(f.version) && h[6] == f.kind.Code() && h[7] == 0
            && h[8..12] == U32(FrameLength(f)) && h[12..16] == U32(|f.payload|)
            && h[16..24] == U64(f.lsn) && h[24..32] == U64(f.batch)
            && h[32..36] == U32(f.index) && h[36..40] == [0, 0, 0, 0] && h[40..44] == U32(headerCrc) && h[44..48] == U32(payloadCrc)
  {
  }

  /** The checksum does not depend on what is in its own field. */
  lemma ChecksumIgnoresItself(crc: Crc, f: Frame, payloadCrc: u32, headerCrc: u32)
    requires Encodable(f)
    ensures HeaderChecksum(crc, HeaderWith(f, payloadCrc, headerCrc)) == HeaderChecksum(crc, HeaderWith(f, payloadCrc, 0))
  {
    var a, b := HeaderWith(f, payloadCrc, headerCrc), HeaderWith(f, payloadCrc, 0);
    assert a[..40] == b[..40] && a[44..] == b[44..];
  }

  lemma DecodeEncodeHeader(crc: Crc, f: Frame)
    requires Encodable(f)
    ensures DecodeHeader(crc, EncodeHeader(crc, f)) == Some(Header(f.version, f.kind, FrameLength(f), |f.payload|, f.lsn, f.batch, f.index))
  {
    hide U16, U32, U64, FromLe, HeaderWith, HeaderChecksum;
    var payloadCrc := crc(f.payload);
    var headerCrc := HeaderChecksum(crc, HeaderWith(f, payloadCrc, 0));
    HeaderFields(f, payloadCrc, headerCrc);
    ChecksumIgnoresItself(crc, f, payloadCrc, headerCrc);
  }

  lemma HeaderSlices(h: bytes)
    requires |h| == WAL_HEADER_SIZE
    ensures h == h[0..4] + h[4..6] + [h[6]] + [h[7]] + h[8..12] + h[12..16] + h[16..24] + h[24..32] + h[32..36] + h[36..40] + h[40..44] + h[44..48]
  {
  }

  /** A header that decodes is the encoding of what it decodes to. */
  lemma EncodeDecodeHeader(crc: Crc, h: bytes, payload: bytes)
    requires |h| == WAL_HEADER_SIZE && DecodeHeader(crc, h).Some?
    requires var d := DecodeHeader(crc, h).value; LengthsOk(d) && |payload| == d.payloadLength && ReadU32(h[44..48]) == crc(payload)
    ensures var d := DecodeHeader(crc, h).value; EncodeHeader(crc, Frame(d.version, d.kind, d.lsn, d.batch, d.index, payload)) == h
  {
    hide FromLe;
    var d := DecodeHeader(crc, h).value;
    var f := Frame(d.version, d.kind, d.lsn, d.batch, d.index, payload);
    var headerCrc := ReadU32(h[40..44]);
    HeaderSlices(h);
    assert f.kind.Code() == h[6];
    assert h == HeaderWith(f, crc(payload), headerCrc);
    ChecksumIgnoresItself(crc, f, crc(payload), headerCrc);
  }

  // ---------------------------------------------------------------- the frame round trip

  lemma FrameParts(crc: Crc, f: Frame)
    requires Encodable(f)
    ensures var e := EncodeFrame(crc, f);
            && e[..WAL_HEADER_SIZE] == EncodeHeader(crc, f)
            && e[WAL_HEADER_SIZE..WAL_HEADER_SIZE + |f.payload|] == f.payload
            && e[WAL_HEADER_SIZE + |f.payload|..] == U32(FrameLength(f))
            && e[44..48] == U32(crc(f.payload))
  {
    var payloadCrc := crc(f.payload);
    HeaderFields(f, payloadCrc, HeaderChecksum(crc, HeaderWith(f, payloadCrc, 0)));
    assert EncodeFrame(crc, f)[44..48] == EncodeHeader(crc, f)[44..48];
  }

  /** A whole frame is read back, whatever follows it. */
  lemma ReadsWhole(crc: Crc, f: Frame, rest: bytes, version: Option<u16>)
    requires Encodable(f) && (version.Some? ==> version.value == f.version)
    ensures NextFrame(crc, EncodeFrame(crc, f) + rest, version) == Whole(f)
  {
    hide U16, U32, U64, FromLe, HeaderWith, EncodeHeader, EncodeFrame, DecodeHeader;
    var e := EncodeFrame(crc, f);
    var s := e + rest;
    FrameParts(crc, f);
    DecodeEncodeHeader(crc, f);
    assert s[..WAL_HEADER_SIZE] == e[..WAL_HEADER_SIZE] && s[44..48] == e[44..48];
    assert s[WAL_HEADER_SIZE..WAL_HEADER_SIZE + |f.payload|] == e[WAL_HEADER_SIZE..WAL_HEADER_SIZE + |f.payload|];
    assert s[WAL_HEADER_SIZE + |f.payload|..FrameLength(f)] == e[WAL_HEADER_SIZE + |f.payload|..];
  }

  /** A frame that was cut short is a tail, wherever it was cut. */
  lemma ReadsTail(crc: Crc, f: Frame, n: nat, version: Option<u16>)
    requires Encodable(f) && (version.Some? ==> version.value == f.version) && n < FrameLength(f)
    ensures NextFrame(crc, EncodeFrame(crc, f)[..n], version) == Tail
  {
    hide U16, U32, U64, FromLe, HeaderWith, EncodeHeader, EncodeFrame, DecodeHeader;
    FrameParts(crc, f);
    DecodeEncodeHeader(crc, f);
    if n >= WAL_HEADER_SIZE {
      assert EncodeFrame(crc, f)[..n][..WAL_HEADER_SIZE] == EncodeHeader(crc, f);
    }
  }

  /** What is read as a frame is the encoding of that frame. */
  lemma ReadIsEncoding(crc: Crc, s: bytes, version: Option<u16>)
    requires NextFrame(crc, s, version).Whole?
    ensures var f := NextFrame(crc, s, version).frame;
            Encodable(f) && FrameLength(f) <= |s| && s[..FrameLength(f)] == EncodeFrame(crc, f) && (version.Some? ==> version.value == f.version)
  {
    hide U16, U32, U64, FromLe, HeaderWith, EncodeHeader;
    var f := NextFrame(crc, s, version).frame;
    var h := s[..WAL_HEADER_SIZE];
    assert h[44..48] == s[44..48];
    EncodeDecodeHeader(crc, h, f.payload);
    DecodedVersion(crc, h);
    assert s[..FrameLength(f)] == h + f.payload + s[WAL_HEADER_SIZE + |f.payload|..FrameLength(f)];
  }

  lemma DecodedVersion(crc: Crc, h: bytes)
    requires |h| == WAL_HEADER_SIZE && DecodeHeader(crc, h).Some?
    ensures DecodeHeader(crc, h).value.version == WAL_FORMAT_VERSION || DecodeHeader(crc, h).value.version == LEGACY_WAL_FORMAT_VERSION
  {
  }

  // ---------------------------------------------------------------- a file of frames

  ghost predicate AllEncodable(frames: seq<Frame>) {
    forall i :: 0 <= i < |frames| ==> Encodable(frames[i])
  }

  ghost function EncodeAll(crc: Crc, frames: seq<Frame>): bytes
    requires AllEncodable(frames)
  {
    if frames == [] then [] else EncodeFrame(crc, frames[0]) + EncodeAll(crc, frames[1..])
  }

  ghost function TotalLength(frames: seq<Frame>): nat {
    if frames == [] then 0 else FrameLength(frames[0]) + TotalLength(frames[1..])
  }

  lemma {:induction false} EncodeAllLength(crc: Crc, frames: seq<Frame>)
    requires AllEncodable(frames)
    ensures |EncodeAll(crc, frames)| == TotalLength(frames)
  {
    if frames != [] {
      EncodeAllLength(crc, frames[1..]);
    }
  }

  /** One version, ascending LSNs, both continuing what came before. */
  ghost predicate Follows(frames: seq<Frame>, previous: Option<Frame>) {
    && (forall i, j :: 0 <= i < j < |frames| ==> frames[i].lsn < frames[j].lsn && frames[i].version == frames[j].version)
    && (previous.Some? ==> forall i :: 0 <= i < |frames| ==> previous.value.lsn < frames[i].lsn && previous.value.version == frames[i].version)
  }

  function VersionOf(previous: Option<Frame>): Option<u16> {
    if previous.Some? then Some(previous.value.version) else None
  }

  /** The frames of a file, up to the first bytes that are too few for a frame. */
  ghost function ReadAll(crc: Crc, s: bytes, previous: Option<Frame>): Option<seq<Frame>>
    decreases |s|
  {
    match NextFrame(crc, s, VersionOf(previous))
    case Tail => Some([])
    case Damaged => None
    case Whole(f) =>
      ReadIsEncoding(crc, s, VersionOf(previous));
      if previous.Some? && f.lsn <= previous.value.lsn then None
      else match ReadAll(crc, s[FrameLength(f)..], Some(f))
        case None => None
        case Some(rest) => Some([f] + rest)
  }

  /** How many frames lie whole inside the first n bytes. */
  ghost function WholeInside(frames: seq<Frame>, n: nat): (k: nat)
    ensures k <= |frames|
  {
    if frames == [] || FrameLength(frames[0]) > n then 0
    else 1 + WholeInside(frames[1..], n - FrameLength(frames[0]))
  }

  /** Reading any cut of a file gives the frames that are whole inside it. */
  lemma {:induction false} ReadAllCut(crc: Crc, frames: seq<Frame>, n: nat, previous: Option<Frame>)
    requires AllEncodable(frames) && Follows(frames, previous) && n <= |EncodeAll(crc, frames)|
    ensures ReadAll(crc, EncodeAll(crc, frames)[..n], previous) == Some(frames[..WholeInside(frames, n)])
  {
    hide EncodeFrame, NextFrame;
    var s := EncodeAll(crc, frames)[..n];
    if frames == [] {
      assert s == [];
      EmptyIsTail(crc, VersionOf(previous));
    } else {
      var f, e := frames[0], EncodeFrame(crc, frames[0]);
      if n < |e| {
        assert s == e[..n];
        ReadsTail(crc, f, n, VersionOf(previous));
      } else {
        var rest := EncodeAll(crc, frames[1..])[..n - |e|];
        assert s == e + rest;
        ReadsWhole(crc, f, rest, VersionOf(previous));
        assert s[|e|..] == rest;
        ReadAllCut(crc, frames[1..], n - |e|, Some(f));
        assert [f] + frames[1..][..WholeInside(frames[1..], n - |e|)] == frames[..WholeInside(frames, n)];
      }
    }
  }

  lemma EmptyIsTail(crc: Crc, version: Option<u16>)
    ensures NextFrame(crc, [], version) == Tail
  {
  }

  function Latest(frames: seq<Frame>, previous: Option<Frame>): Option<Frame> {
    if frames == [] then previous else Some(frames[|frames| - 1])
  }

  /** The frames, encoded, are a prefix of s, and what follows is a tail. */
  ghost predicate AllRead(crc: Crc, s: bytes, previous: Option<Frame>, frames: seq<Frame>) {
    && AllEncodable(frames) && Follows(frames, previous)
    && EncodeAll(crc, frames) <= s
    && NextFrame(crc, s[|EncodeAll(crc, frames)|..], VersionOf(Latest(frames, previous))) == Tail
  }

  lemma AllReadStep(crc: Crc, rest: bytes, previous: Option<Frame>, f: Frame, frames: seq<Frame>)
    requires Encodable(f) && AllRead(crc, rest, Some(f), frames)
    requires previous.Some? ==> previous.value.lsn < f.lsn && previous.value.version == f.version
    ensures AllRead(crc, EncodeFrame(crc, f) + rest, previous, [f] + frames)
  {
    hide EncodeFrame, NextFrame;
    var all, s := [f] + frames, EncodeFrame(crc, f) + rest;
    assert all[1..] == frames;
    assert s[|EncodeAll(crc, all)|..] == rest[|EncodeAll(crc, frames)|..];
    assert Latest(all, previous) == Latest(frames, Some(f));
  }

  /** Conversely, whatever is read from any bytes is what they hold. */
  lemma {:induction false} ReadAllSound(crc: Crc, s: bytes, previous: Option<Frame>)
    requires ReadAll(crc, s, previous).Some?
    ensures AllRead(crc, s, previous, ReadAll(crc, s, previous).value)
    decreases |s|
  {
    hide EncodeFrame, NextFrame;
    match NextFrame(crc, s, VersionOf(previous))
    case Tail =>
      assert s[0..] == s;
    case Whole(f) =>
      hide AllRead;
      ReadIsEncoding(crc, s, VersionOf(previous));
      var rest := s[FrameLength(f)..];
      ReadAllSound(crc, rest, Some(f));
      assert s == EncodeFrame(crc, f) + rest;
      AllReadStep(crc, rest, previous, f, ReadAll(crc, rest, Some(f)).value);
  }

  /** The frames read so far, with those of the rest, are all. */
  ghost predicate ReadSoFar(crc: Crc, file: bytes, offset: nat, frames: seq<Frame>)
    requires offset <= |file|
  {
    && offset == TotalLength(frames)
    && var rest := ReadAll(crc, file[offset..], Latest(frames, None));
       ReadAll(crc, file, None) == if rest.None? then None else Some(frames + rest.value)
  }

  lemma ReadNothing(crc: Crc, file: bytes)
    ensures ReadSoFar(crc, file, 0, [])
  {
    hide NextFrame, ReadAll;
    assert file[0..] == file;
    var all := ReadAll(crc, file, None);
    assert all.Some? ==> [] + all.value == all.value;
  }

  lemma ReadAllStep(crc: Crc, s: bytes, previous: Option<Frame>, f: Frame)
    requires NextFrame(crc, s, VersionOf(previous)) == Whole(f) && (previous.Some? ==> previous.value.lsn < f.lsn)
    ensures FrameLength(f) <= |s|
    ensures var rest := ReadAll(crc, s[FrameLength(f)..], Some(f));
            ReadAll(crc, s, previous) == if rest.None? then None else Some([f] + rest.value)
  {
    hide NextFrame;
    ReadIsEncoding(crc, s, VersionOf(previous));
  }

  lemma ReadAnother(crc: Crc, file: bytes, offset: nat, frames: seq<Frame>, f: Frame)
    requires offset <= |file| && ReadSoFar(crc, file, offset, frames)
    requires NextFrame(crc, file[offset..], VersionOf(Latest(frames, None))) == Whole(f)
    requires frames != [] ==> frames[|frames| - 1].lsn < f.lsn
    ensures offset + FrameLength(f) <= |file| && ReadSoFar(crc, file, offset + FrameLength(f), frames + [f])
  {
    hide NextFrame, ReadAll, EncodeFrame;
    ReadIsEncoding(crc, file[offset..], VersionOf(Latest(frames, None)));
    TotalAppend(frames, f);
    ReadAllStep(crc, file[offset..], Latest(frames, None), f);
    assert file[offset..][FrameLength(f)..] == file[offset + FrameLength(f)..];
    var rest := ReadAll(crc, file[offset + FrameLength(f)..], Some(f));
    assert rest.Some? ==> frames + ([f] + rest.value) == frames + [f] + rest.value;
  }

  /** The reading loop. */
  method ReadFrames(crc: Crc, file: bytes) returns (r: Option<(seq<Frame>, nat)>)
    ensures r.Some? <==> ReadAll(crc, file, None).Some?
    ensures r.Some? ==> r.value.0 == ReadAll(crc, file, None).value && r.value.1 == TotalLength(r.value.0) <= |file|
  {
    hide NextFrame;
    var offset, frames: seq<Frame> := 0, [];
    ReadNothing(crc, file);
    while offset < |file|
      invariant 0 <= offset <= |file| && ReadSoFar(crc, file, offset, frames)
      decreases |file| - offset
    {
      var next := NextFrame(crc, file[offset..], VersionOf(Latest(frames, None)));
      if next.Tail? {
        break;
      }
      if next.Damaged? || (frames != [] && next.frame.lsn <= frames[|frames| - 1].lsn) {
        return None;
      }
      ReadAnother(crc, file, offset, frames, next.frame);
      frames, offset := frames + [next.frame], offset + FrameLength(next.frame);
    }
    EmptyIsTail(crc, VersionOf(Latest(frames, None)));
    assert offset == |file| ==> file[offset..] == [];
    assert frames + [] == frames;
    return Some((frames, offset));
  }

  lemma {:induction false} TotalAppend(frames: seq<Frame>, f: Frame)
    ensures TotalLength(frames + [f]) == TotalLength(frames) + FrameLength(f)
  {
    if frames == [] {
      assert TotalLength([f]) == FrameLength(f) + TotalLength([f][1..]);
    } else {
      assert (frames + [f])[1..] == frames[1..] + [f];
      TotalAppend(frames[1..], f);
    }
  }
}
