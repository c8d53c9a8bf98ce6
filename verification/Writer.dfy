/** The encoders of the wire protocol, appending to a buffer
    (dodb-protocol/src/lib.rs). */
module Writer {
  import opened Lex
  import opened Pages
  import opened KeyCodec
  import opened Reference
  import opened Errors
  import opened Transactions
  import opened Wire
  import opened Messages
  import opened Requests
  import opened Responses
  import opened Protocol

  /** The buffer grew by what is written for a field. */
  ghost predicate Appended(before: bytes, w: Written, after: bytes) {
    w.Some? && after == before + w.value
  }

  /** Every method appends what its field is written as, or reports that the
      field cannot be written; then the message is given up. */
  class Writer {
    var out: bytes

    constructor ()
      ensures out == []
    {
      out := [];
    }

    method Byte(b: byte)
      modifies this
      ensures out == old(out) + [b]
    {
      out := out + [b];
    }

    /** The numbers of the source have the width of their field. */
    method Number(n: nat, x: nat) returns (ok: bool)
      modifies this
      ensures ok <==> WriteNumber(n, x).Some?
      ensures ok ==> Appended(old(out), WriteNumber(n, x), out)
    {
      if x >= NumberRange(n) {
        return false;
      }
      out := out + Be(n, x);
      return true;
    }

    method Count(x: nat, maximum: nat) returns (ok: bool)
      modifies this
      ensures ok <==> WriteCount(x, maximum).Some?
      ensures ok ==> Appended(old(out), WriteCount(x, maximum), out)
    {
      NumberRanges();
      if x > maximum || x >= U32_RANGE {
        return false;
      }
      ok := Number(4, x);
    }

    method Bytes(b: bytes, maximum: nat) returns (ok: bool)
      modifies this
      ensures ok <==> WriteBytes(b, maximum).Some?
      ensures ok ==> Appended(old(out), WriteBytes(b, maximum), out)
    {
      ok := Count(|b|, maximum);
      if ok {
        out := out + b;
      }
    }

    method Key(key: DocumentKey, l: Limits) returns (ok: bool)
      modifies this
      ensures ok <==> WriteKey(key, l).Some?
      ensures ok ==> Appended(old(out), WriteKey(key, l), out)
    {
      hide WriteBytes;
      if EncodedLen(key) > l.encodedKey {
        return false;
      }
      ok := Bytes(key.pk, l.keyComponent);
      if ok {
        ok := Bytes(key.sk, l.keyComponent);
      }
    }

    method OptionalKey(key: Option<DocumentKey>, l: Limits) returns (ok: bool)
      modifies this
      ensures ok <==> WriteOptionalKey(key, l).Some?
      ensures ok ==> Appended(old(out), WriteOptionalKey(key, l), out)
    {
      hide WriteKey;
      if key.None? {
        Byte(0);
        return true;
      }
      Byte(1);
      ok := Key(key.value, l);
    }

    method OptionalBytes(b: Option<bytes>, maximum: nat) returns (ok: bool)
      modifies this
      ensures ok <==> WriteOptionalBytes(b, maximum).Some?
      ensures ok ==> Appended(old(out), WriteOptionalBytes(b, maximum), out)
    {
      hide WriteBytes;
      if b.None? {
        Byte(0);
        return true;
      }
      Byte(1);
      ok := Bytes(b.value, maximum);
    }

    method ValueAt(value: bytes, revision: nat, l: Limits) returns (ok: bool)
      modifies this
      ensures ok <==> WriteValueAt(value, revision, l).Some?
      ensures ok ==> Appended(old(out), WriteValueAt(value, revision, l), out)
    {
      hide WriteBytes, WriteNumber;
      ok := Bytes(value, l.value);
      if ok {
        ok := Number(8, revision);
      }
    }

    method State(state: RevisionState, l: Limits) returns (ok: bool)
      modifies this
      ensures ok <==> WriteState(state, l).Some?
      ensures ok ==> Appended(old(out), WriteState(state, l), out)
    {
      hide WriteValueAt, WriteNumber;
      match state {
        case Present(value, revision) =>
          Byte(0);
          ok := ValueAt(value, revision, l);
        case Missing(revision) =>
          Byte(1);
          ok := Number(8, revision);
      }
    }

    method KeyAt(key: DocumentKey, revision: nat, l: Limits) returns (ok: bool)
      modifies this
      ensures ok <==> WriteKeyAt(key, revision, l).Some?
      ensures ok ==> Appended(old(out), WriteKeyAt(key, revision, l), out)
    {
      hide WriteKey, WriteNumber;
      ok := Key(key, l);
      if ok {
        ok := Number(8, revision);
      }
    }

    method KeyValue(key: DocumentKey, value: bytes, l: Limits) returns (ok: bool)
      modifies this
      ensures ok <==> WriteKeyValue(key, value, l).Some?
      ensures ok ==> Appended(old(out), WriteKeyValue(key, value, l), out)
    {
      hide WriteKey, WriteBytes;
      ok := Key(key, l);
      if ok {
        ok := Bytes(value, l.value);
      }
    }

    method Documents(documents: seq<Document>, l: Limits) returns (ok: bool)
      modifies this
      ensures ok <==> WriteDocuments(documents, l).Some?
      ensures ok ==> Appended(old(out), WriteDocuments(documents, l), out)
    {
      hide WriteCount, WriteKey, WriteValueAt, WriteAll;
      ok := Count(|documents|, l.scanLimit);
      if !ok {
        return;
      }
      ghost var before, write := out, (d: Document) => WriteDocument(d, l);
      AllBegins(documents, write);
      for i := 0 to |documents|
        invariant SoFar(before, out, documents, write, i)
      {
        AllStep(before, out, documents, write, i);
        ok := Key(documents[i].key, l);
        if !ok {
          return;
        }
        ok := ValueAt(documents[i].value, documents[i].revision, l);
        if !ok {
          return;
        }
      }
      AllEnds(before, out, documents, write);
      ok := true;
    }

    method Conditions(conditions: seq<Condition>, l: Limits) returns (ok: bool)
      modifies this
      ensures ok <==> WriteConditions(conditions, l).Some?
      ensures ok ==> Appended(old(out), WriteConditions(conditions, l), out)
    {
      hide WriteCount, WriteKey, WriteKeyAt, WriteAll;
      ok := Count(|conditions|, l.conditions);
      if !ok {
        return;
      }
      ghost var before, write := out, (c: Condition) => WriteCondition(c, l);
      AllBegins(conditions, write);
      for i := 0 to |conditions|
        invariant SoFar(before, out, conditions, write, i)
      {
        AllStep(before, out, conditions, write, i);
        match conditions[i] {
          case RevisionEquals(key, revision) =>
            Byte(0);
            ok := KeyAt(key, revision, l);
          case Exists(key) =>
            Byte(1);
            ok := Key(key, l);
          case NotExists(key) =>
            Byte(2);
            ok := Key(key, l);
        }
        if !ok {
          return;
        }
      }
      AllEnds(before, out, conditions, write);
      ok := true;
    }

    method Mutations(mutations: seq<Mutation>, l: Limits) returns (ok: bool)
      modifies this
      ensures ok <==> WriteMutations(mutations, l).Some?
      ensures ok ==> Appended(old(out), WriteMutations(mutations, l), out)
    {
      hide WriteCount, WriteKey, WriteKeyValue, WriteAll;
      ok := Count(|mutations|, l.mutations);
      if !ok {
        return;
      }
      ghost var before, write := out, (m: Mutation) => WriteMutation(m, l);
      AllBegins(mutations, write);
      for i := 0 to |mutations|
        invariant SoFar(before, out, mutations, write, i)
      {
        AllStep(before, out, mutations, write, i);
        match mutations[i] {
          case PutMutation(key, value) =>
            Byte(0);
            ok := KeyValue(key, value, l);
          case DeleteMutation(key) =>
            Byte(1);
            ok := Key(key, l);
        }
        if !ok {
          return;
        }
      }
      AllEnds(before, out, mutations, write);
      ok := true;
    }

    method Expectation(e: Expectation) returns (ok: bool)
      modifies this
      ensures ok <==> WriteExpectation(e).Some?
      ensures ok ==> Appended(old(out), WriteExpectation(e), out)
    {
      hide WriteNumber;
      match e {
        case RevisionEqualsExpected(revision) =>
          Byte(0);
          ok := Number(8, revision);
        case ExistsExpected =>
          Byte(1);
          ok := true;
        case NotExistsExpected =>
          Byte(2);
          ok := true;
      }
    }

    method Observed(o: ObservedState) returns (ok: bool)
      modifies this
      ensures ok <==> WriteObserved(o).Some?
      ensures ok ==> Appended(old(out), WriteObserved(o), out)
    {
      hide WriteNumber;
      match o {
        case SeenPresent(revision) =>
          Byte(0);
          ok := Number(8, revision);
        case SeenMissing(revision) =>
          Byte(1);
          ok := Number(8, revision);
      }
    }

    method Conflict(c: Option<ConflictDetails>, l: Limits) returns (ok: bool)
      modifies this
      ensures ok <==> WriteConflict(c, l).Some?
      ensures ok ==> Appended(old(out), WriteConflict(c, l), out)
    {
      hide WriteKey, WriteExpectation, WriteObserved;
      if c.None? {
        Byte(0);
        return true;
      }
      Byte(1);
      ok := Key(c.value.key, l);
      if ok {
        ok := Expectation(c.value.expected);
      }
      if ok {
        ok := Observed(c.value.actual);
      }
    }

    method Failure(text: Text, e: ApplicationError, l: Limits) returns (ok: bool)
      modifies this
      ensures ok <==> WriteError(text, e, l).Some?
      ensures ok ==> Appended(old(out), WriteError(text, e, l), out)
    {
      hide WriteBytes, WriteConflict, KindCode, OutcomeCode;
      Byte(KindCode(e.kind));
      ok := Bytes(text.encode(Truncated(e.detail, l)), l.errorDetail);
      if ok {
        Byte(OutcomeCode(e.outcome));
        ok := Conflict(e.conflict, l);
      }
    }

    method Request(m: Message, l: Limits) returns (ok: bool)
      modifies this
      ensures ok <==> WriteRequest(m, l).Some?
      ensures ok ==> Appended(old(out), WriteRequest(m, l), out)
    {
      hide WriteKey, WriteKeyValue, WriteQuery, WriteScan, WriteTransaction;
      match m {
        case GetRequest(key) =>
          Byte(1);
          ok := Key(key, l);
        case PutRequest(key, value) =>
          Byte(2);
          ok := KeyValue(key, value, l);
        case DeleteRequest(key) =>
          Byte(3);
          ok := Key(key, l);
        case QueryRequest(pk, afterSk, limit) =>
          Byte(4);
          ok := Query(pk, afterSk, limit, l);
        case ScanRequest(afterKey, limit) =>
          Byte(5);
          ok := Scan(afterKey, limit, l);
        case TransactRequest(conditions, mutations) =>
          Byte(8);
          ok := Transaction(conditions, mutations, l);
      }
    }

    method Query(pk: bytes, afterSk: Option<bytes>, limit: nat, l: Limits) returns (ok: bool)
      modifies this
      ensures ok <==> WriteQuery(pk, afterSk, limit, l).Some?
      ensures ok ==> Appended(old(out), WriteQuery(pk, afterSk, limit, l), out)
    {
      hide WriteBytes, WriteOptionalBytes, WriteCount;
      if EncodedLen(QueryKey(pk, afterSk)) > l.encodedKey {
        return false;
      }
      ok := Bytes(pk, l.keyComponent);
      if ok {
        ok := OptionalBytes(afterSk, l.keyComponent);
      }
      if ok {
        ok := Count(limit, l.queryLimit);
      }
    }

    method Scan(afterKey: Option<DocumentKey>, limit: nat, l: Limits) returns (ok: bool)
      modifies this
      ensures ok <==> WriteScan(afterKey, limit, l).Some?
      ensures ok ==> Appended(old(out), WriteScan(afterKey, limit, l), out)
    {
      hide WriteOptionalKey, WriteCount;
      ok := OptionalKey(afterKey, l);
      if ok {
        ok := Count(limit, l.scanLimit);
      }
    }

    method Transaction(conditions: seq<Condition>, mutations: seq<Mutation>, l: Limits) returns (ok: bool)
      modifies this
      ensures ok <==> WriteTransaction(conditions, mutations, l).Some?
      ensures ok ==> Appended(old(out), WriteTransaction(conditions, mutations, l), out)
    {
      hide WriteConditions, WriteMutations;
      ok := Conditions(conditions, l);
      if ok {
        ok := Mutations(mutations, l);
      }
    }

    method Body(response: Response, l: Limits) returns (ok: bool)
      modifies this
      ensures ok <==> WriteBody(response, l).Some?
      ensures ok ==> Appended(old(out), WriteBody(response, l), out)
    {
      hide WriteState, WriteNumber, WriteDocuments;
      match response {
        case GetResponse(state) => ok := State(state, l);
        case PutResponse(revision) => ok := Number(8, revision);
        case DeleteResponse(revision) => ok := Number(8, revision);
        case QueryResponse(documents) => ok := Documents(documents, l);
        case ScanResponse(documents) => ok := Documents(documents, l);
        case TransactResponse(lsn) =>
          if lsn.Some? {
            Byte(1);
            ok := Number(8, lsn.value);
          } else {
            Byte(0);
            ok := true;
          }
      }
    }
  }

  // ---------------------------------------------------------------- counted loops

  /** The first i elements are in the buffer; the list can be written exactly
      if the others can. */
  ghost predicate SoFar<T>(before: bytes, out: bytes, xs: seq<T>, write: T -> Written, i: nat)
    requires i <= |xs|
  {
    var all, rest := WriteAll(xs, write), WriteAll(xs[i..], write);
    && (all.Some? <==> rest.Some?)
    && (all.Some? ==> before + all.value == out + rest.value)
  }

  lemma AllBegins<T>(xs: seq<T>, write: T -> Written)
    ensures forall before :: SoFar(before, before, xs, write, 0)
  {
    assert xs[0..] == xs;
  }

  /** Writing element i, or failing to. */
  lemma AllStep<T>(before: bytes, out: bytes, xs: seq<T>, write: T -> Written, i: nat)
    requires i < |xs| && SoFar(before, out, xs, write, i)
    ensures write(xs[i]).None? ==> WriteAll(xs, write).None?
    ensures write(xs[i]).Some? ==> SoFar(before, out + write(xs[i]).value, xs, write, i + 1)
  {
    assert xs[i..][1..] == xs[i + 1..];
    if write(xs[i]).Some? && WriteAll(xs[i + 1..], write).Some? {
      var a, b := write(xs[i]).value, WriteAll(xs[i + 1..], write).value;
      assert out + (a + b) == out + a + b;
    }
  }

  lemma AllEnds<T>(before: bytes, out: bytes, xs: seq<T>, write: T -> Written)
    requires SoFar(before, out, xs, write, |xs|)
    ensures WriteAll(xs, write).Some? && out == before + WriteAll(xs, write).value
  {
    assert xs[|xs|..] == [];
    assert WriteAll(xs[|xs|..], write) == Some([]);
  }

  // ---------------------------------------------------------------- frames

  method FrameOf(kind: byte, payload: bytes, maximum: nat) returns (r: Option<bytes>)
    ensures r == WriteFrame(kind, payload, maximum)
  {
    if HEADER_SIZE + |payload| > maximum || |payload| >= U32_RANGE {
      return None;
    }
    var frame := FRAME_MAGIC;
    frame := frame + Be(2, PROTOCOL_VERSION);
    frame := frame + [kind];
    frame := frame + Be(4, |payload|);
    frame := frame + payload;
    return Some(frame);
  }

  /** A frame that the receiver decodes to this request, if there is one. */
  method EncodeRequestFrame(tenant: nat, m: Message, l: Limits) returns (r: Option<bytes>)
    ensures r == EncodeRequest(tenant, m, l)
    ensures r.Some? ==> DecodeRequest(r.value, l) == Some((tenant, m))
  {
    hide WriteRequest, WriteNumber, WriteFrame, DecodeRequest;
    if EncodeRequest(tenant, m, l).Some? {
      RequestRoundTrip(tenant, m, l);
    }
    if !ValidLimits(l) {
      return None;
    }
    var w := new Writer();
    var ok := w.Number(8, tenant);
    if ok {
      ok := w.Request(m, l);
    }
    if !ok {
      return None;
    }
    assert w.out == WriteNumber(8, tenant).value + WriteRequest(m, l).value;
    r := FrameOf(REQUEST_MESSAGE_TYPE, w.out, l.requestFrame);
  }

  method EncodeResponseFrame(text: Text, e: Envelope, l: Limits) returns (r: Option<bytes>)
    requires TextOk(text)
    ensures r == EncodeResponse(text, e, l)
    ensures r.Some? ==> DecodeResponse(text, r.value, None, l) == Some(Received(e, l))
  {
    hide WriteBody, WriteError, WriteFrame, DecodeResponse, TextOk, Received;
    if EncodeResponse(text, e, l).Some? {
      ResponseRoundTrip(text, e, None, l);
    }
    if !ValidLimits(l) {
      return None;
    }
    var w := new Writer();
    var ok;
    match e {
      case Success(response) =>
        w.Byte(0);
        w.Byte(ResponseOpcode(response));
        ok := w.Body(response, l);
      case Failure(error) =>
        w.Byte(1);
        ok := w.Failure(text, error, l);
    }
    if !ok {
      return None;
    }
    assert w.out == WriteEnvelope(text, e, l).value;
    r := FrameOf(RESPONSE_MESSAGE_TYPE, w.out, l.responseFrame);
  }
}
