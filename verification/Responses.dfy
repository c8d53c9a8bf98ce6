/** Responses and application errors on the wire (dodb-protocol/src/lib.rs). */
module Responses {
  import opened Lex
  import opened Pages
  import opened KeyCodec
  import opened Reference
  import opened Errors
  import opened Wire
  import opened Messages
  import opened Requests

  /** The text codec of the language's strings. */
  datatype Text = Text(encode: string -> bytes, decode: bytes -> Option<string>)

  /** UTF-8: both ways inverse, no character takes less than one byte. */
  ghost predicate TextOk(text: Text) {
    && (forall t :: text.decode(text.encode(t)) == Some(t) && |t| <= |text.encode(t)|)
    && (forall b :: text.decode(b).Some? ==> text.encode(text.decode(b).value) == b)
  }

  datatype ErrorKind =
    InvalidRequestKind | OverloadedKind | ConflictKind | StorageFailureKind | CorruptionKind
    | DurabilityFailureKind | InternalKind | UnsupportedProtocolKind | ResponseTooLargeKind

  datatype MutationOutcome = NotApplicable | NotApplied | Unknown

  datatype ConflictDetails = ConflictDetails(key: DocumentKey, expected: Expectation, actual: ObservedState)

  datatype ApplicationError = ApplicationError(kind: ErrorKind, detail: string, outcome: MutationOutcome, conflict: Option<ConflictDetails>)

  datatype Response =
    | GetResponse(state: RevisionState)
    | PutResponse(revision: nat)
    | DeleteResponse(revision: nat)
    | QueryResponse(documents: seq<Document>)
    | ScanResponse(documents: seq<Document>)
    | TransactResponse(commitLsn: Option<nat>)

  datatype Envelope = Success(response: Response) | Failure(error: ApplicationError)

  // ---------------------------------------------------------------- codes

  function KindCode(kind: ErrorKind): byte {
    match kind
    case InvalidRequestKind => 0 case OverloadedKind => 1 case ConflictKind => 2 case StorageFailureKind => 3 case CorruptionKind => 4
    case DurabilityFailureKind => 5 case InternalKind => 6 case UnsupportedProtocolKind => 7 case ResponseTooLargeKind => 8
  }

  function KindOf(code: byte): Option<ErrorKind> {
    match code
    case 0 => Some(InvalidRequestKind) case 1 => Some(OverloadedKind) case 2 => Some(ConflictKind) case 3 => Some(StorageFailureKind)
    case 4 => Some(CorruptionKind) case 5 => Some(DurabilityFailureKind) case 6 => Some(InternalKind) case 7 => Some(UnsupportedProtocolKind)
    case 8 => Some(ResponseTooLargeKind) case _ => None
  }

  function OutcomeCode(outcome: MutationOutcome): byte {
    match outcome case NotApplicable => 0 case NotApplied => 1 case Unknown => 2
  }

  function OutcomeOf(code: byte): Option<MutationOutcome> {
    match code case 0 => Some(NotApplicable) case 1 => Some(NotApplied) case 2 => Some(Unknown) case _ => None
  }

  // ---------------------------------------------------------------- conflicts

  function WriteExpectation(e: Expectation): Written {
    match e
    case RevisionEqualsExpected(revision) => Tagged(0, WriteNumber(8, revision))
    case ExistsExpected => Some([1])
    case NotExistsExpected => Some([2])
  }

  function ReadExpectation(s: bytes): (r: Taken<Expectation>)
    ensures r.Some? ==> r.value.1 <= |s|
  {
    if s == [] then None
    else if s[0] == 0 then match ReadNumber(8, s[1..]) case None => None case Some((x, n)) => Some((RevisionEqualsExpected(x), n + 1))
    else if s[0] == 1 then Some((ExistsExpected, 1))
    else if s[0] == 2 then Some((NotExistsExpected, 1))
    else None
  }

  lemma ExpectationReadsBack(e: Expectation, rest: bytes)
    requires WriteExpectation(e).Some?
    ensures ReadExpectation(WriteExpectation(e).value + rest) == Some((e, |WriteExpectation(e).value|))
  {
    hide ReadNumber;
    if e.RevisionEqualsExpected? {
      TaggedReads(0, Be(8, e.revision), rest);
      NumberReadsBack(8, e.revision, rest);
    }
  }

  lemma ExpectationCanonical(s: bytes)
    requires ReadExpectation(s).Some?
    ensures var (e, n) := ReadExpectation(s).value; WriteExpectation(e) == Some(s[..n])
  {
    hide WriteNumber;
    if s[0] == 0 {
      NumberCanonical(8, s[1..]);
      TaggedCanonical(s, 8);
    } else {
      assert s[..1] == [s[0]];
    }
  }

  function WriteObserved(o: ObservedState): Written {
    match o
    case SeenPresent(revision) => Tagged(0, WriteNumber(8, revision))
    case SeenMissing(revision) => Tagged(1, WriteNumber(8, revision))
  }

  function ReadObserved(s: bytes): (r: Taken<ObservedState>)
    ensures r.Some? ==> r.value.1 <= |s|
  {
    if s == [] || s[0] > 1 then None
    else match ReadNumber(8, s[1..])
      case None => None
      case Some((x, n)) => Some((if s[0] == 0 then SeenPresent(x) else SeenMissing(x), n + 1))
  }

  lemma ObservedReadsBack(o: ObservedState, rest: bytes)
    requires WriteObserved(o).Some?
    ensures ReadObserved(WriteObserved(o).value + rest) == Some((o, |WriteObserved(o).value|))
  {
    hide ReadNumber;
    TaggedReads(if o.SeenPresent? then 0 else 1, Be(8, o.revision), rest);
    NumberReadsBack(8, o.revision, rest);
  }

  lemma ObservedCanonical(s: bytes)
    requires ReadObserved(s).Some?
    ensures var (o, n) := ReadObserved(s).value; WriteObserved(o) == Some(s[..n])
  {
    hide WriteNumber;
    NumberCanonical(8, s[1..]);
    TaggedCanonical(s, 8);
  }

  function WriteExpectedActual(e: Expectation, o: ObservedState): Written {
    Then(WriteExpectation(e), WriteObserved(o))
  }

  function ReadExpectedActual(s: bytes): (r: Taken<(Expectation, ObservedState)>)
    ensures r.Some? ==> r.value.1 <= |s|
  {
    ReadPair(s, ReadExpectation, ReadObserved)
  }

  lemma ExpectedActualReadsBack(e: Expectation, o: ObservedState, rest: bytes)
    requires WriteExpectedActual(e, o).Some?
    ensures ReadExpectedActual(WriteExpectedActual(e, o).value + rest) == Some(((e, o), |WriteExpectedActual(e, o).value|))
  {
    hide WriteExpectation, ReadExpectation, WriteObserved, ReadObserved;
    var a, b := WriteExpectation(e).value, WriteObserved(o).value;
    ExpectationReadsBack(e, b + rest);
    ObservedReadsBack(o, rest);
    PairReadsBack(a, b, rest, ReadExpectation, ReadObserved, e, o);
  }

  lemma ExpectedActualCanonical(s: bytes)
    requires ReadExpectedActual(s).Some?
    ensures var ((e, o), n) := ReadExpectedActual(s).value; WriteExpectedActual(e, o) == Some(s[..n])
  {
    hide WriteExpectation, ReadExpectation, WriteObserved, ReadObserved;
    PairParts(s, ReadExpectation, ReadObserved);
    ExpectationCanonical(s);
    ObservedCanonical(s[ReadExpectation(s).value.1..]);
  }

  function WriteConflict(c: Option<ConflictDetails>, l: Limits): Written {
    if c.None? then Some([0]) else Tagged(1, Then(WriteKey(c.value.key, l), WriteExpectedActual(c.value.expected, c.value.actual)))
  }

  function ReadConflict(s: bytes, l: Limits): (r: Taken<Option<ConflictDetails>>)
    ensures r.Some? ==> r.value.1 <= |s|
  {
    if s == [] then None
    else if s[0] == 0 then Some((None, 1))
    else if s[0] == 1 then
      match ReadPair(s[1..], r => ReadKey(r, l), ReadExpectedActual)
      case None => None
      case Some(((key, ea), n)) => Some((Some(ConflictDetails(key, ea.0, ea.1)), n + 1))
    else None
  }

  lemma ConflictReadsBack(c: Option<ConflictDetails>, l: Limits, rest: bytes)
    requires WriteConflict(c, l).Some?
    ensures ReadConflict(WriteConflict(c, l).value + rest, l) == Some((c, |WriteConflict(c, l).value|))
  {
    hide WriteKey, ReadKey, WriteExpectedActual, ReadExpectedActual;
    if c.Some? {
      var a, b := WriteKey(c.value.key, l).value, WriteExpectedActual(c.value.expected, c.value.actual).value;
      TaggedReads(1, a + b, rest);
      KeyReadsBack(c.value.key, l, b + rest);
      ExpectedActualReadsBack(c.value.expected, c.value.actual, rest);
      PairReadsBack(a, b, rest, r => ReadKey(r, l), ReadExpectedActual, c.value.key, (c.value.expected, c.value.actual));
    }
  }

  lemma ConflictCanonical(s: bytes, l: Limits)
    requires ReadConflict(s, l).Some?
    ensures var (c, n) := ReadConflict(s, l).value; WriteConflict(c, l) == Some(s[..n])
  {
    hide WriteKey, ReadKey, WriteExpectedActual, ReadExpectedActual;
    if s[0] == 1 {
      var first := r => ReadKey(r, l);
      PairParts(s[1..], first, ReadExpectedActual);
      KeyCanonical(s[1..], l);
      ExpectedActualCanonical(s[1..][first(s[1..]).value.1..]);
      TaggedCanonical(s, ReadConflict(s, l).value.1 - 1);
    } else {
      assert s[..1] == [0];
    }
  }

  // ---------------------------------------------------------------- application errors

  /** Only so many characters of the detail are sent. */
  function Truncated(detail: string, l: Limits): string {
    if |detail| <= l.errorDetail then detail else detail[..l.errorDetail]
  }

  function WriteDetail(text: Text, detail: string, l: Limits): Written {
    WriteBytes(text.encode(Truncated(detail, l)), l.errorDetail)
  }

  /** A detail is written exactly when its first characters are few enough bytes. */
  lemma DetailWritten(text: Text, detail: string, l: Limits)
    ensures WriteDetail(text, detail, l).Some? <==>
            |text.encode(Truncated(detail, l))| <= l.errorDetail && |text.encode(Truncated(detail, l))| < U32_RANGE
  {
  }

  /** The limit counts characters when it cuts and bytes when it writes: where it
      is one, a single character of several bytes is not written. */
  lemma WideDetailFails(text: Text, c: char, l: Limits)
    requires l.errorDetail == 1 && |text.encode([c])| > 1
    ensures Truncated([c], l) == [c] && WriteDetail(text, [c], l).None?
  {
    DetailWritten(text, [c], l);
  }

  function ReadDetail(text: Text, s: bytes, l: Limits): (r: Taken<string>)
    ensures r.Some? ==> r.value.1 <= |s|
  {
    match ReadBytes(s, l.errorDetail)
    case None => None
    case Some((b, n)) => match text.decode(b) case None => None case Some(t) => Some((t, n))
  }

  lemma DetailReadsBack(text: Text, detail: string, l: Limits, rest: bytes)
    requires TextOk(text) && WriteDetail(text, detail, l).Some?
    ensures ReadDetail(text, WriteDetail(text, detail, l).value + rest, l) == Some((Truncated(detail, l), |WriteDetail(text, detail, l).value|))
  {
    hide WriteBytes, ReadBytes;
    BytesReadBack(text.encode(Truncated(detail, l)), l.errorDetail, rest);
  }

  /** A detail that was received is not truncated again. */
  lemma DetailCanonical(text: Text, s: bytes, l: Limits)
    requires TextOk(text) && ReadDetail(text, s, l).Some?
    ensures var (detail, n) := ReadDetail(text, s, l).value; Truncated(detail, l) == detail && WriteDetail(text, detail, l) == Some(s[..n])
  {
    BytesCanonical(s, l.errorDetail);
    var (b, n) := ReadBytes(s, l.errorDetail).value;
    var detail := text.decode(b).value;
    assert |detail| <= |text.encode(detail)| == |b| <= l.errorDetail;
  }

  function WriteOutcome(outcome: MutationOutcome, c: Option<ConflictDetails>, l: Limits): Written {
    Tagged(OutcomeCode(outcome), WriteConflict(c, l))
  }

  function ReadOutcome(s: bytes, l: Limits): (r: Taken<(MutationOutcome, Option<ConflictDetails>)>)
    ensures r.Some? ==> r.value.1 <= |s|
  {
    if s == [] || OutcomeOf(s[0]).None? then None
    else match ReadConflict(s[1..], l)
      case None => None
      case Some((c, n)) => Some(((OutcomeOf(s[0]).value, c), n + 1))
  }

  lemma OutcomeReadsBack(outcome: MutationOutcome, c: Option<ConflictDetails>, l: Limits, rest: bytes)
    requires WriteOutcome(outcome, c, l).Some?
    ensures ReadOutcome(WriteOutcome(outcome, c, l).value + rest, l) == Some(((outcome, c), |WriteOutcome(outcome, c, l).value|))
  {
    hide WriteConflict, ReadConflict;
    TaggedReads(OutcomeCode(outcome), WriteConflict(c, l).value, rest);
    ConflictReadsBack(c, l, rest);
  }

  lemma OutcomeCanonical(s: bytes, l: Limits)
    requires ReadOutcome(s, l).Some?
    ensures var ((outcome, c), n) := ReadOutcome(s, l).value; WriteOutcome(outcome, c, l) == Some(s[..n])
  {
    hide WriteConflict, ReadConflict;
    ConflictCanonical(s[1..], l);
    TaggedCanonical(s, ReadConflict(s[1..], l).value.1);
  }

  function WriteError(text: Text, e: ApplicationError, l: Limits): Written {
    Tagged(KindCode(e.kind), Then(WriteDetail(text, e.detail, l), WriteOutcome(e.outcome, e.conflict, l)))
  }

  function ReadError(text: Text, s: bytes, l: Limits): (r: Taken<ApplicationError>)
    ensures r.Some? ==> r.value.1 <= |s|
  {
    if s == [] || KindOf(s[0]).None? then None
    else match ReadPair(s[1..], r => ReadDetail(text, r, l), r => ReadOutcome(r, l))
      case None => None
      case Some(((detail, oc), n)) => Some((ApplicationError(KindOf(s[0]).value, detail, oc.0, oc.1), n + 1))
  }

  lemma ErrorReadsBack(text: Text, e: ApplicationError, l: Limits, rest: bytes)
    requires TextOk(text) && WriteError(text, e, l).Some?
    ensures ReadError(text, WriteError(text, e, l).value + rest, l) == Some((e.(detail := Truncated(e.detail, l)), |WriteError(text, e, l).value|))
  {
    hide WriteDetail, ReadDetail, WriteOutcome, ReadOutcome, TextOk, Truncated;
    var a, b := WriteDetail(text, e.detail, l).value, WriteOutcome(e.outcome, e.conflict, l).value;
    TaggedReads(KindCode(e.kind), a + b, rest);
    DetailReadsBack(text, e.detail, l, b + rest);
    OutcomeReadsBack(e.outcome, e.conflict, l, rest);
    PairReadsBack(a, b, rest, r => ReadDetail(text, r, l), r => ReadOutcome(r, l), Truncated(e.detail, l), (e.outcome, e.conflict));
  }

  lemma ErrorCanonical(text: Text, s: bytes, l: Limits)
    requires TextOk(text) && ReadError(text, s, l).Some?
    ensures var (e, n) := ReadError(text, s, l).value; Truncated(e.detail, l) == e.detail && WriteError(text, e, l) == Some(s[..n])
  {
    hide WriteDetail, ReadDetail, WriteOutcome, ReadOutcome, TextOk, Truncated;
    var first, second := r => ReadDetail(text, r, l), r => ReadOutcome(r, l);
    PairParts(s[1..], first, second);
    DetailCanonical(text, s[1..], l);
    OutcomeCanonical(s[1..][first(s[1..]).value.1..], l);
    TaggedCanonical(s, ReadError(text, s, l).value.1 - 1);
  }

  // ---------------------------------------------------------------- responses

  function WriteTransactionOutcome(lsn: Option<nat>): Written {
    if lsn.Some? then Tagged(1, WriteNumber(8, lsn.value)) else Some([0])
  }

  function ReadTransactionOutcome(s: bytes): (r: Taken<Option<nat>>)
    ensures r.Some? ==> r.value.1 <= |s|
  {
    if s == [] then None
    else if s[0] == 0 then Some((None, 1))
    else if s[0] == 1 then match ReadNumber(8, s[1..]) case None => None case Some((x, n)) => Some((Some(x), n + 1))
    else None
  }

  lemma TransactionOutcomeReadsBack(lsn: Option<nat>, rest: bytes)
    requires WriteTransactionOutcome(lsn).Some?
    ensures ReadTransactionOutcome(WriteTransactionOutcome(lsn).value + rest) == Some((lsn, |WriteTransactionOutcome(lsn).value|))
  {
    hide ReadNumber;
    if lsn.Some? {
      TaggedReads(1, Be(8, lsn.value), rest);
      NumberReadsBack(8, lsn.value, rest);
    }
  }

  lemma TransactionOutcomeCanonical(s: bytes)
    requires ReadTransactionOutcome(s).Some?
    ensures var (lsn, n) := ReadTransactionOutcome(s).value; WriteTransactionOutcome(lsn) == Some(s[..n])
  {
    hide WriteNumber;
    if s[0] == 1 {
      NumberCanonical(8, s[1..]);
      TaggedCanonical(s, 8);
    } else {
      assert s[..1] == [0];
    }
  }

  function ResponseOpcode(response: Response): byte {
    match response
    case GetResponse(_) => 1 case PutResponse(_) => 2 case DeleteResponse(_) => 3
    case QueryResponse(_) => 4 case ScanResponse(_) => 5 case TransactResponse(_) => 8
  }

  function WriteBody(response: Response, l: Limits): Written {
    match response
    case GetResponse(state) => WriteState(state, l)
    case PutResponse(revision) => WriteNumber(8, revision)
    case DeleteResponse(revision) => WriteNumber(8, revision)
    case QueryResponse(documents) => WriteDocuments(documents, l)
    case ScanResponse(documents) => WriteDocuments(documents, l)
    case TransactResponse(lsn) => WriteTransactionOutcome(lsn)
  }

  function ReadBody(opcode: byte, s: bytes, l: Limits): Taken<Response> {
    if opcode == 1 then match ReadState(s, l) case None => None case Some((state, n)) => Some((GetResponse(state), n))
    else if opcode == 2 then match ReadNumber(8, s) case None => None case Some((x, n)) => Some((PutResponse(x), n))
    else if opcode == 3 then match ReadNumber(8, s) case None => None case Some((x, n)) => Some((DeleteResponse(x), n))
    else if opcode == 4 then match ReadDocuments(s, l) case None => None case Some((ds, n)) => Some((QueryResponse(ds), n))
    else if opcode == 5 then match ReadDocuments(s, l) case None => None case Some((ds, n)) => Some((ScanResponse(ds), n))
    else if opcode == 8 then match ReadTransactionOutcome(s) case None => None case Some((lsn, n)) => Some((TransactResponse(lsn), n))
    else None
  }

  lemma BodyReadsBack(response: Response, l: Limits, rest: bytes)
    requires WriteBody(response, l).Some?
    ensures ReadBody(ResponseOpcode(response), WriteBody(response, l).value + rest, l) == Some((response, |WriteBody(response, l).value|))
  {
    hide WriteState, ReadState, ReadNumber, WriteDocuments, ReadDocuments, WriteTransactionOutcome, ReadTransactionOutcome;
    match response
    case GetResponse(state) => StateReadsBack(state, l, rest);
    case PutResponse(revision) => NumberReadsBack(8, revision, rest);
    case DeleteResponse(revision) => NumberReadsBack(8, revision, rest);
    case QueryResponse(documents) => DocumentsReadBack(documents, l, rest);
    case ScanResponse(documents) => DocumentsReadBack(documents, l, rest);
    case TransactResponse(lsn) => TransactionOutcomeReadsBack(lsn, rest);
  }

  lemma BodyCanonical(opcode: byte, s: bytes, l: Limits)
    requires ReadBody(opcode, s, l).Some?
    ensures var (response, n) := ReadBody(opcode, s, l).value;
            n <= |s| && ResponseOpcode(response) == opcode && WriteBody(response, l) == Some(s[..n])
  {
    hide WriteState, ReadState, WriteNumber, WriteDocuments, ReadDocuments, WriteTransactionOutcome, ReadTransactionOutcome;
    if opcode == 1 {
      StateCanonical(s, l);
    } else if opcode == 2 || opcode == 3 {
      NumberCanonical(8, s);
    } else if opcode == 4 || opcode == 5 {
      DocumentsCanonical(s, l);
    } else {
      TransactionOutcomeCanonical(s);
    }
  }

  function WriteEnvelope(text: Text, e: Envelope, l: Limits): Written {
    match e
    case Success(response) => Tagged(0, Tagged(ResponseOpcode(response), WriteBody(response, l)))
    case Failure(error) => Tagged(1, WriteError(text, error, l))
  }

  /** A client may insist on the kind of response that answers its request. */
  function ReadEnvelope(text: Text, s: bytes, expected: Option<byte>, l: Limits): Taken<Envelope> {
    if s == [] then None
    else if s[0] == 0 then
      if |s| < 2 || (expected.Some? && expected.value != s[1]) then None
      else match ReadBody(s[1], s[2..], l) case None => None case Some((response, n)) => Some((Success(response), n + 2))
    else if s[0] == 1 then
      match ReadError(text, s[1..], l) case None => None case Some((error, n)) => Some((Failure(error), n + 1))
    else None
  }

  /** What the receiver of an envelope sees. */
  function Received(e: Envelope, l: Limits): Envelope {
    match e
    case Success(_) => e
    case Failure(error) => Failure(error.(detail := Truncated(error.detail, l)))
  }

  predicate Expected(e: Envelope, expected: Option<byte>) {
    e.Success? && expected.Some? ==> expected.value == ResponseOpcode(e.response)
  }

  lemma EnvelopeReadsBack(text: Text, e: Envelope, expected: Option<byte>, l: Limits)
    requires TextOk(text) && WriteEnvelope(text, e, l).Some? && Expected(e, expected)
    ensures ReadEnvelope(text, WriteEnvelope(text, e, l).value, expected, l) == Some((Received(e, l), |WriteEnvelope(text, e, l).value|))
  {
    hide WriteBody, ReadBody, WriteError, ReadError, TextOk, Truncated;
    var s := WriteEnvelope(text, e, l).value;
    match e
    case Success(response) =>
      var body := WriteBody(response, l).value;
      BodyReadsBack(response, l, []);
      assert body + [] == body;
      assert s == [0] + ([ResponseOpcode(response)] + body);
      assert s[2..] == body;
    case Failure(error) =>
      var body := WriteError(text, error, l).value;
      ErrorReadsBack(text, error, l, []);
      assert body + [] == body && s[1..] == body;
  }

  lemma EnvelopeCanonical(text: Text, s: bytes, expected: Option<byte>, l: Limits)
    requires TextOk(text) && ReadEnvelope(text, s, expected, l).Some?
    ensures var (e, n) := ReadEnvelope(text, s, expected, l).value;
            n <= |s| && Expected(e, expected) && Received(e, l) == e && WriteEnvelope(text, e, l) == Some(s[..n])
  {
    hide WriteBody, ReadBody, WriteError, ReadError, TextOk, Truncated;
    if s[0] == 0 {
      BodyCanonical(s[1], s[2..], l);
      var n := ReadBody(s[1], s[2..], l).value.1;
      assert s[..n + 2] == [0] + ([s[1]] + s[2..][..n]);
    } else {
      ErrorCanonical(text, s[1..], l);
      TaggedCanonical(s, ReadError(text, s[1..], l).value.1);
    }
  }
}
