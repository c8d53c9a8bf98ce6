/** Frames of the wire protocol (dodb-protocol/src/lib.rs): round trips,
    canonical form, and the exact length of a response. */
module Protocol {
  import opened Lex
  import opened Pages
  import opened KeyCodec
  import opened Reference
  import opened Budget
  import opened Wire
  import opened Messages
  import opened Requests
  import opened Responses

  const FRAME_MAGIC: bytes := [0x44, 0x4f, 0x44, 0x42]
  const PROTOCOL_VERSION: nat := 1
  const HEADER_SIZE: nat := 11
  const REQUEST_MESSAGE_TYPE: byte := 1
  const RESPONSE_MESSAGE_TYPE: byte := 2
  const MAX_STORAGE_KEY_COMPONENT_SIZE: nat := 3990
  const MAX_STORAGE_ENCODED_KEY_SIZE: nat := 3992

  predicate ValidLimits(l: Limits) {
    && l.requestFrame >= HEADER_SIZE && l.responseFrame >= HEADER_SIZE
    && 0 < l.keyComponent <= MAX_STORAGE_KEY_COMPONENT_SIZE && 0 < l.encodedKey <= MAX_STORAGE_ENCODED_KEY_SIZE
    && 0 < l.value <= MAX_VALUE_SIZE && l.keys > 0 && l.conditions > 0 && l.mutations > 0
    && l.queryLimit > 0 && l.scanLimit > 0 && l.errorDetail > 0
  }

  // ---------------------------------------------------------------- frames

  function Header(kind: byte, length: nat): (r: bytes)
    ensures |r| == HEADER_SIZE
  {
    FRAME_MAGIC + Be(2, PROTOCOL_VERSION) + [kind] + Be(4, length)
  }

  function WriteFrame(kind: byte, payload: bytes, maximum: nat): Written {
    if HEADER_SIZE + |payload| > maximum || |payload| >= U32_RANGE then None else Some(Header(kind, |payload|) + payload)
  }

  /** The payload of a whole frame of the given kind. */
  function ReadFrame(frame: bytes, kind: byte, maximum: nat): Option<bytes> {
    if |frame| < HEADER_SIZE || frame[..4] != FRAME_MAGIC || FromBe(frame[4..6]) != PROTOCOL_VERSION then None
    else if frame[6] != REQUEST_MESSAGE_TYPE && frame[6] != RESPONSE_MESSAGE_TYPE then None
    else if |frame| != HEADER_SIZE + FromBe(frame[7..11]) then None
    else if |frame| > maximum || frame[6] != kind then None
    else Some(frame[HEADER_SIZE..])
  }

  lemma HeaderParts(kind: byte, length: nat)
    ensures var h := Header(kind, length); h[..4] == FRAME_MAGIC && h[4..6] == Be(2, PROTOCOL_VERSION) && h[6] == kind && h[7..11] == Be(4, length)
  {
    hide Be;
  }

  lemma FrameReadsBack(kind: byte, payload: bytes, maximum: nat)
    requires WriteFrame(kind, payload, maximum).Some? && (kind == REQUEST_MESSAGE_TYPE || kind == RESPONSE_MESSAGE_TYPE)
    ensures ReadFrame(WriteFrame(kind, payload, maximum).value, kind, maximum) == Some(payload)
  {
    hide Be, FromBe, Header;
    var h, f := Header(kind, |payload|), WriteFrame(kind, payload, maximum).value;
    HeaderParts(kind, |payload|);
    assert f[..4] == h[..4] && f[4..6] == h[4..6] && f[6] == h[6] && f[7..11] == h[7..11] && f[HEADER_SIZE..] == payload;
    NumberRanges();
    BeFromBe(2, PROTOCOL_VERSION);
    BeFromBe(4, |payload|);
  }

  lemma FrameCanonical(frame: bytes, kind: byte, maximum: nat)
    requires ReadFrame(frame, kind, maximum).Some?
    ensures WriteFrame(kind, ReadFrame(frame, kind, maximum).value, maximum) == Some(frame)
  {
    hide Be, FromBe;
    NumberRanges();
    FromBeBe(frame[4..6]);
    FromBeBe(frame[7..11]);
    assert frame == frame[..4] + frame[4..6] + [frame[6]] + frame[7..11] + frame[HEADER_SIZE..];
  }

  /** The header fixes the length: no accepted frame begins another. */
  lemma FramesPrefixFree(f: bytes, g: bytes, kind: byte, kind': byte, maximum: nat, maximum': nat)
    requires ReadFrame(f, kind, maximum).Some? && ReadFrame(g, kind', maximum').Some? && f <= g
    ensures f == g
  {
    assert f[7..11] == g[7..11];
  }

  // ---------------------------------------------------------------- requests

  function EncodeRequest(tenant: nat, m: Message, l: Limits): Written {
    if !ValidLimits(l) then None
    else match Then(WriteNumber(8, tenant), WriteRequest(m, l))
      case None => None
      case Some(payload) => WriteFrame(REQUEST_MESSAGE_TYPE, payload, l.requestFrame)
  }

  function DecodeRequest(frame: bytes, l: Limits): Option<(nat, Message)> {
    if !ValidLimits(l) then None
    else match ReadFrame(frame, REQUEST_MESSAGE_TYPE, l.requestFrame)
      case None => None
      case Some(payload) =>
        match ReadPair(payload, r => ReadNumber(8, r), r => ReadRequest(r, l))
        case None => None
        case Some((pair, n)) => if n == |payload| then Some(pair) else None
  }

  /** Every request that encodes decodes to itself. */
  lemma RequestRoundTrip(tenant: nat, m: Message, l: Limits)
    requires EncodeRequest(tenant, m, l).Some?
    ensures DecodeRequest(EncodeRequest(tenant, m, l).value, l) == Some((tenant, m))
  {
    hide WriteRequest, ReadRequest, ReadNumber, WriteFrame, ReadFrame;
    var a, b := Be(8, tenant), WriteRequest(m, l).value;
    FrameReadsBack(REQUEST_MESSAGE_TYPE, a + b, l.requestFrame);
    NumberReadsBack(8, tenant, b + []);
    RequestReadsBack(m, l, []);
    assert a + b + [] == a + b;
    PairReadsBack(a, b, [], r => ReadNumber(8, r), r => ReadRequest(r, l), tenant, m);
  }

  /** Every accepted frame is the encoding of the request it decodes to. */
  lemma RequestFrameCanonical(frame: bytes, l: Limits)
    requires DecodeRequest(frame, l).Some?
    ensures var (tenant, m) := DecodeRequest(frame, l).value; EncodeRequest(tenant, m, l) == Some(frame)
  {
    hide WriteRequest, ReadRequest, WriteNumber, WriteFrame, ReadFrame;
    var payload := ReadFrame(frame, REQUEST_MESSAGE_TYPE, l.requestFrame).value;
    FrameCanonical(frame, REQUEST_MESSAGE_TYPE, l.requestFrame);
    PairParts(payload, r => ReadNumber(8, r), r => ReadRequest(r, l));
    NumberCanonical(8, payload);
    RequestCanonical(payload[8..], l);
    assert payload[..8] + payload[8..] == payload && payload[..|payload|] == payload;
    assert payload[8..][..|payload| - 8] == payload[8..];
  }

  /** No strict prefix and no strict extension of an accepted frame is accepted. */
  lemma RequestPrefixFree(f: bytes, g: bytes, l: Limits)
    requires DecodeRequest(f, l).Some? && DecodeRequest(g, l).Some? && f <= g
    ensures f == g
  {
    FramesPrefixFree(f, g, REQUEST_MESSAGE_TYPE, REQUEST_MESSAGE_TYPE, l.requestFrame, l.requestFrame);
  }

  // ---------------------------------------------------------------- responses

  function EncodeResponse(text: Text, e: Envelope, l: Limits): Written {
    if !ValidLimits(l) then None
    else match WriteEnvelope(text, e, l)
      case None => None
      case Some(payload) => WriteFrame(RESPONSE_MESSAGE_TYPE, payload, l.responseFrame)
  }

  function DecodeResponse(text: Text, frame: bytes, expected: Option<byte>, l: Limits): Option<Envelope> {
    if !ValidLimits(l) then None
    else match ReadFrame(frame, RESPONSE_MESSAGE_TYPE, l.responseFrame)
      case None => None
      case Some(payload) =>
        match ReadEnvelope(text, payload, expected, l)
        case None => None
        case Some((e, n)) => if n == |payload| then Some(e) else None
  }

  /** Every response that encodes decodes to itself, with the detail of an error
      as it was sent, when the client expects this kind of response. */
  lemma ResponseRoundTrip(text: Text, e: Envelope, expected: Option<byte>, l: Limits)
    requires TextOk(text) && EncodeResponse(text, e, l).Some? && Expected(e, expected)
    ensures DecodeResponse(text, EncodeResponse(text, e, l).value, expected, l) == Some(Received(e, l))
  {
    hide WriteEnvelope, ReadEnvelope, WriteFrame, ReadFrame, TextOk, Received, Expected;
    FrameReadsBack(RESPONSE_MESSAGE_TYPE, WriteEnvelope(text, e, l).value, l.responseFrame);
    EnvelopeReadsBack(text, e, expected, l);
  }

  lemma ResponseFrameCanonical(text: Text, frame: bytes, expected: Option<byte>, l: Limits)
    requires TextOk(text) && DecodeResponse(text, frame, expected, l).Some?
    ensures var e := DecodeResponse(text, frame, expected, l).value;
            EncodeResponse(text, e, l) == Some(frame) && Received(e, l) == e && Expected(e, expected)
  {
    hide WriteEnvelope, ReadEnvelope, WriteFrame, ReadFrame, TextOk, Received, Expected;
    var payload := ReadFrame(frame, RESPONSE_MESSAGE_TYPE, l.responseFrame).value;
    FrameCanonical(frame, RESPONSE_MESSAGE_TYPE, l.responseFrame);
    EnvelopeCanonical(text, payload, expected, l);
    assert payload[..|payload|] == payload;
  }

  lemma ResponsePrefixFree(text: Text, f: bytes, g: bytes, expected: Option<byte>, l: Limits)
    requires DecodeResponse(text, f, expected, l).Some? && DecodeResponse(text, g, expected, l).Some? && f <= g
    ensures f == g
  {
    FramesPrefixFree(f, g, RESPONSE_MESSAGE_TYPE, RESPONSE_MESSAGE_TYPE, l.responseFrame, l.responseFrame);
  }

  // ---------------------------------------------------------------- lengths

  ghost predicate RowOk(d: Document, l: Limits) {
    && EncodedLen(d.key) <= l.encodedKey && |d.key.pk| <= l.keyComponent && |d.key.sk| <= l.keyComponent
    && |d.value| <= l.value && d.revision < U64_RANGE
  }

  ghost predicate RowsOk(ds: seq<Document>, l: Limits) {
    forall i :: 0 <= i < |ds| ==> RowOk(ds[i], l)
  }

  lemma RowLength(d: Document, l: Limits)
    requires ValidLimits(l)
    ensures WriteDocument(d, l).Some? <==> RowOk(d, l)
    ensures RowOk(d, l) ==> |WriteDocument(d, l).value| == RowWire(d.key, |d.value|)
  {
    hide EncodedLen, Be;
    NumberRanges();
    if WriteDocument(d, l).Some? {
      DocumentReadsBack(d, l, []);
    }
  }

  lemma {:induction false} RowsLength(ds: seq<Document>, l: Limits)
    requires ValidLimits(l)
    ensures WriteAll(ds, d => WriteDocument(d, l)).Some? <==> RowsOk(ds, l)
    ensures RowsOk(ds, l) ==> |WriteAll(ds, d => WriteDocument(d, l)).value| == RowsWire(ds)
  {
    hide WriteDocument, RowOk, RowWire;
    if ds != [] {
      RowLength(ds[0], l);
      RowsLength(ds[1..], l);
      RowsFromFront(ds);
      assert RowsOk(ds, l) <==> RowOk(ds[0], l) && RowsOk(ds[1..], l);
    }
  }

  lemma {:induction false} RowsFromFront(ds: seq<Document>)
    requires ds != []
    ensures RowsWire(ds) == RowWire(ds[0].key, |ds[0].value|) + RowsWire(ds[1..])
  {
    hide RowWire;
    if |ds| > 1 {
      var n := |ds| - 1;
      RowsFromFront(ds[..n]);
      assert ds[..n][1..] == ds[1..][..n - 1];
    } else {
      assert ds[..0] == [];
    }
  }

  /** A query or scan response encodes exactly when its rows are within the
      limits and the budget's count of its bytes is within the frame; that
      count is the length of the frame. */
  lemma RowsFrameLength(text: Text, e: Envelope, l: Limits)
    requires ValidLimits(l) && e.Success? && (e.response.QueryResponse? || e.response.ScanResponse?)
    ensures var ds := e.response.documents;
            EncodeResponse(text, e, l).Some? <==>
            && |ds| <= l.scanLimit && RowsOk(ds, l)
            && RESPONSE_WIRE_OVERHEAD + RowsWire(ds) <= l.responseFrame && RESPONSE_WIRE_OVERHEAD + RowsWire(ds) < HEADER_SIZE + U32_RANGE
    ensures EncodeResponse(text, e, l).Some? ==> |EncodeResponse(text, e, l).value| == RESPONSE_WIRE_OVERHEAD + RowsWire(e.response.documents)
  {
    hide RowsOk, RowsWire, WriteDocument, Be, Header;
    var ds := e.response.documents;
    NumberRanges();
    RowsLength(ds, l);
    RowsCount(ds);
  }

  /** Rows that a budget of at most the frame size admits make a frame within
      that budget. */
  lemma AdmittedRowsFit(text: Text, e: Envelope, l: Limits, budget: Account)
    requires ValidLimits(l) && e.Success? && (e.response.QueryResponse? || e.response.ScanResponse?)
    requires |e.response.documents| <= l.scanLimit && RowsOk(e.response.documents, l)
    requires budget.usedWire == RESPONSE_WIRE_OVERHEAD && budget.maximumWire <= l.responseFrame && budget.maximumWire < HEADER_SIZE + U32_RANGE
    requires budget.Admits(RowsWire(e.response.documents), RowsMemory(e.response.documents))
    ensures EncodeResponse(text, e, l).Some? && |EncodeResponse(text, e, l).value| <= budget.maximumWire
    ensures |EncodeResponse(text, e, l).value| == budget.Charge(RowsWire(e.response.documents), RowsMemory(e.response.documents)).usedWire
  {
    hide EncodeResponse, RowsOk, RowsWire;
    RowsFrameLength(text, e, l);
  }

  /** Rows take room, so a count that fits the frame fits its field. */
  lemma {:induction false} RowsCount(ds: seq<Document>)
    ensures RowsWire(ds) >= |ds|
  {
    if ds != [] {
      RowsCount(ds[..|ds| - 1]);
    }
  }

  ghost predicate StateOk(state: RevisionState, l: Limits) {
    state.revision < U64_RANGE && (state.Present? ==> |state.value| <= l.value)
  }

  /** A Get response within the limits that a budget of at most the frame size
      admits makes a frame within that budget. */
  lemma AdmittedStateFits(text: Text, state: RevisionState, l: Limits, budget: Account)
    requires ValidLimits(l) && StateOk(state, l)
    requires budget.usedWire == RESPONSE_WIRE_OVERHEAD && budget.maximumWire <= l.responseFrame
    requires var n := if state.Present? then |state.value| else 0; budget.Admits(n + 13, Saturating(n + 32))
    ensures EncodeResponse(text, Success(GetResponse(state)), l).Some?
    ensures |EncodeResponse(text, Success(GetResponse(state)), l).value| <= budget.maximumWire
  {
    hide Be, Header;
    NumberRanges();
    assert WriteState(state, l).Some?;
    StateReadsBack(state, l, []);
  }

  /** A Get response is no longer than what the budget reserves for it. */
  lemma StateFrameLength(text: Text, state: RevisionState, l: Limits)
    requires EncodeResponse(text, Success(GetResponse(state)), l).Some?
    ensures |EncodeResponse(text, Success(GetResponse(state)), l).value|
            <= RESPONSE_WIRE_OVERHEAD + 13 + if state.Present? then |state.value| else 0
  {
    hide WriteState, Header;
    StateReadsBack(state, l, []);
  }
}
