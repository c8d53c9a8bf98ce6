/** The decoders of the wire protocol, advancing through a buffer
    (dodb-protocol/src/lib.rs). */
module Reader {
  import opened Lex
  import opened Pages
  import opened KeyCodec
  import opened Reference
  import opened Errors
  import opened Transactions
  import opened Wire
  import opened Messages
  import opened Requests
  import opened Responses
  import opened Protocol

  /** The outcome is that of the field's reader on the rest of the input, and
      the reader has moved behind the field. */
  ghost predicate Took<T>(v: Option<T>, taken: Taken<T>, before: bytes, after: bytes) {
    match taken
    case None => v.None?
    case Some((x, n)) => v == Some(x) && n <= |before| && after == before[n..]
  }

  /** Every method reads its field at the offset and moves behind it. */
  class Reader {
    const input: bytes
    var offset: nat

    ghost predicate Valid()
      reads this
    {
      offset <= |input|
    }

    ghost function Rest(): bytes
      requires Valid()
      reads this
    {
      input[offset..]
    }

    constructor (input: bytes)
      ensures this.input == input && offset == 0
    {
      this.input, offset := input, 0;
    }

    method Byte() returns (v: Option<byte>)
      requires Valid()
      modifies this
      ensures Valid()
      ensures Took(v, if old(Rest()) == [] then None else Some((old(Rest())[0], 1)), old(Rest()), Rest())
    {
      if offset == |input| {
        return None;
      }
      v := Some(input[offset]);
      offset := offset + 1;
    }

    method Take(length: nat) returns (v: Option<bytes>)
      requires Valid()
      modifies this
      ensures Valid()
      ensures Took(v, if length <= |old(Rest())| then Some((old(Rest())[..length], length)) else None, old(Rest()), Rest())
    {
      if offset + length > |input| {
        return None;
      }
      v := Some(input[offset..offset + length]);
      assert input[offset..][..length] == input[offset..offset + length];
      assert input[offset..][length..] == input[offset + length..];
      offset := offset + length;
    }

    method Number(n: nat) returns (v: Option<nat>)
      requires Valid()
      modifies this
      ensures Valid() && Took(v, ReadNumber(n, old(Rest())), old(Rest()), Rest())
    {
      hide Rest;
      var b := Take(n);
      return if b.Some? then Some(FromBe(b.value)) else None;
    }

    method Count(maximum: nat) returns (v: Option<nat>)
      requires Valid()
      modifies this
      ensures Valid() && Took(v, ReadCount(old(Rest()), maximum), old(Rest()), Rest())
    {
      hide Rest, ReadNumber;
      v := Number(4);
      if v.Some? && v.value > maximum {
        return None;
      }
    }

    method Bytes(maximum: nat) returns (v: Option<bytes>)
      requires Valid()
      modifies this
      ensures Valid() && Took(v, ReadBytes(old(Rest()), maximum), old(Rest()), Rest())
    {
      hide Rest, ReadCount;
      ghost var s := Rest();
      var length := Count(maximum);
      if length.None? {
        return None;
      }
      ghost var n := ReadCount(s, maximum).value.1;
      if n + length.value <= |s| {
        assert s[n..][..length.value] == s[n..n + length.value] && s[n..][length.value..] == s[n + length.value..];
      }
      v := Take(length.value);
    }

    method Components(maximum: nat) returns (v: Option<(bytes, bytes)>)
      requires Valid()
      modifies this
      ensures Valid() && Took(v, ReadPair(old(Rest()), r => ReadBytes(r, maximum), r => ReadBytes(r, maximum)), old(Rest()), Rest())
    {
      hide Rest, ReadPair, ReadBytes;
      ghost var s := Rest();
      var pk := Bytes(maximum);
      if pk.None? {
        TookNone(s, Rest(), r => ReadBytes(r, maximum), r => ReadBytes(r, maximum));
        return None;
      }
      ghost var t := Rest();
      var sk := Bytes(maximum);
      TookPair(s, t, Rest(), r => ReadBytes(r, maximum), r => ReadBytes(r, maximum), pk.value, sk);
      return if sk.Some? then Some((pk.value, sk.value)) else None;
    }

    method Key(l: Limits) returns (v: Option<DocumentKey>)
      requires Valid()
      modifies this
      ensures Valid() && Took(v, ReadKey(old(Rest()), l), old(Rest()), Rest())
    {
      hide Rest, ReadPair, ReadBytes, EncodedLen;
      var parts := Components(l.keyComponent);
      if parts.None? || EncodedLen(DocumentKey(parts.value.0, parts.value.1)) > l.encodedKey {
        return None;
      }
      return Some(DocumentKey(parts.value.0, parts.value.1));
    }

    method Flag() returns (v: Option<bool>)
      requires Valid()
      modifies this
      ensures Valid()
      ensures Took(v, var s := old(Rest()); if s == [] || s[0] > 1 then None else Some((s[0] == 1, 1)), old(Rest()), Rest())
    {
      hide Rest;
      var b := Byte();
      if b.None? || b.value > 1 {
        return None;
      }
      return Some(b.value == 1);
    }

    method OptionalKey(l: Limits) returns (v: Option<Option<DocumentKey>>)
      requires Valid()
      modifies this
      ensures Valid() && Took(v, ReadOptionalKey(old(Rest()), l), old(Rest()), Rest())
    {
      hide Rest, ReadKey;
      var there := Flag();
      if there.None? {
        return None;
      }
      if !there.value {
        return Some(None);
      }
      var key := Key(l);
      return if key.Some? then Some(key) else None;
    }

    method OptionalBytes(maximum: nat) returns (v: Option<Option<bytes>>)
      requires Valid()
      modifies this
      ensures Valid() && Took(v, ReadOptionalBytes(old(Rest()), maximum), old(Rest()), Rest())
    {
      hide Rest, ReadBytes;
      var there := Flag();
      if there.None? {
        return None;
      }
      if !there.value {
        return Some(None);
      }
      var b := Bytes(maximum);
      return if b.Some? then Some(b) else None;
    }

    method ValueAt(l: Limits) returns (v: Option<(bytes, nat)>)
      requires Valid()
      modifies this
      ensures Valid() && Took(v, ReadValueAt(old(Rest()), l), old(Rest()), Rest())
    {
      hide Rest, ReadPair, ReadBytes, ReadNumber;
      ghost var s := Rest();
      var a := Bytes(l.value);
      if a.None? {
        TookNone(s, Rest(), r => ReadBytes(r, l.value), r => ReadNumber(8, r));
        return None;
      }
      ghost var t := Rest();
      var b := Number(8);
      TookPair(s, t, Rest(), r => ReadBytes(r, l.value), r => ReadNumber(8, r), a.value, b);
      return if b.Some? then Some((a.value, b.value)) else None;
    }

    method State(l: Limits) returns (v: Option<RevisionState>)
      requires Valid()
      modifies this
      ensures Valid() && Took(v, ReadState(old(Rest()), l), old(Rest()), Rest())
    {
      hide Rest, ReadValueAt, ReadNumber;
      var tag := Byte();
      if tag == Some(0) {
        var present := ValueAt(l);
        return if present.Some? then Some(Present(present.value.0, present.value.1)) else None;
      } else if tag == Some(1) {
        var revision := Number(8);
        return if revision.Some? then Some(Missing(revision.value)) else None;
      }
      return None;
    }

    method Document(l: Limits) returns (v: Option<Document>)
      requires Valid()
      modifies this
      ensures Valid() && Took(v, ReadDocument(old(Rest()), l), old(Rest()), Rest())
    {
      hide Rest, ReadPair, ReadKey, ReadValueAt;
      ghost var s := Rest();
      var key := Key(l);
      if key.None? {
        TookNone(s, Rest(), r => ReadKey(r, l), r => ReadValueAt(r, l));
        return None;
      }
      ghost var t := Rest();
      var value := ValueAt(l);
      TookPair(s, t, Rest(), r => ReadKey(r, l), r => ReadValueAt(r, l), key.value, value);
      return if value.Some? then Some(Reference.Document.Document(key.value, value.value.0, value.value.1)) else None;
    }

    method Documents(l: Limits) returns (v: Option<seq<Document>>)
      requires Valid()
      modifies this
      ensures Valid() && Took(v, ReadDocuments(old(Rest()), l), old(Rest()), Rest())
    {
      hide Rest, ReadCount, ReadDocument, ReadAll, ReadSoFar;
      ghost var s := Rest();
      var count := Count(l.scanLimit);
      if count.None? {
        return None;
      }
      var documents: seq<Document> := [];
      ghost var start, read := Rest(), r => ReadDocument(r, l);
      AllBegins(start, count.value, read);
      for i := 0 to count.value
        invariant Valid() && |documents| == i && ReadSoFar(start, count.value, read, documents, Rest())
      {
        AllStep(start, count.value, read, documents, Rest());
        var next := Document(l);
        if next.None? {
          return None;
        }
        documents := documents + [next.value];
      }
      AllEnds(s, start, count.value, read, documents, Rest());
      return Some(documents);
    }

    method KeyAt(l: Limits) returns (v: Option<(DocumentKey, nat)>)
      requires Valid()
      modifies this
      ensures Valid() && Took(v, ReadKeyAt(old(Rest()), l), old(Rest()), Rest())
    {
      hide Rest, ReadPair, ReadKey, ReadNumber;
      ghost var s := Rest();
      var a := Key(l);
      if a.None? {
        TookNone(s, Rest(), r => ReadKey(r, l), r => ReadNumber(8, r));
        return None;
      }
      ghost var t := Rest();
      var b := Number(8);
      TookPair(s, t, Rest(), r => ReadKey(r, l), r => ReadNumber(8, r), a.value, b);
      return if b.Some? then Some((a.value, b.value)) else None;
    }

    method KeyValue(l: Limits) returns (v: Option<(DocumentKey, bytes)>)
      requires Valid()
      modifies this
      ensures Valid() && Took(v, ReadKeyValue(old(Rest()), l), old(Rest()), Rest())
    {
      hide Rest, ReadPair, ReadKey, ReadBytes;
      ghost var s := Rest();
      var a := Key(l);
      if a.None? {
        TookNone(s, Rest(), r => ReadKey(r, l), r => ReadBytes(r, l.value));
        return None;
      }
      ghost var t := Rest();
      var b := Bytes(l.value);
      TookPair(s, t, Rest(), r => ReadKey(r, l), r => ReadBytes(r, l.value), a.value, b);
      return if b.Some? then Some((a.value, b.value)) else None;
    }

    method Condition(l: Limits) returns (v: Option<Condition>)
      requires Valid()
      modifies this
      ensures Valid() && Took(v, ReadCondition(old(Rest()), l), old(Rest()), Rest())
    {
      hide Rest, ReadKey, ReadKeyAt;
      var kind := Byte();
      if kind == Some(0) {
        var equals := KeyAt(l);
        return if equals.Some? then Some(RevisionEquals(equals.value.0, equals.value.1)) else None;
      } else if kind == Some(1) || kind == Some(2) {
        var key := Key(l);
        return if key.None? then None else if kind == Some(1) then Some(Exists(key.value)) else Some(NotExists(key.value));
      }
      return None;
    }

    method Conditions(l: Limits) returns (v: Option<seq<Condition>>)
      requires Valid()
      modifies this
      ensures Valid() && Took(v, ReadConditions(old(Rest()), l), old(Rest()), Rest())
    {
      hide Rest, ReadCount, ReadCondition, ReadAll, ReadSoFar;
      ghost var s := Rest();
      var count := Count(l.conditions);
      if count.None? {
        return None;
      }
      var conditions: seq<Condition> := [];
      ghost var start, read := Rest(), r => ReadCondition(r, l);
      AllBegins(start, count.value, read);
      for i := 0 to count.value
        invariant Valid() && |conditions| == i && ReadSoFar(start, count.value, read, conditions, Rest())
      {
        AllStep(start, count.value, read, conditions, Rest());
        var next := Condition(l);
        if next.None? {
          return None;
        }
        conditions := conditions + [next.value];
      }
      AllEnds(s, start, count.value, read, conditions, Rest());
      return Some(conditions);
    }

    method Mutation(l: Limits) returns (v: Option<Mutation>)
      requires Valid()
      modifies this
      ensures Valid() && Took(v, ReadMutation(old(Rest()), l), old(Rest()), Rest())
    {
      hide Rest, ReadKey, ReadKeyValue;
      var kind := Byte();
      if kind == Some(0) {
        var put := KeyValue(l);
        return if put.Some? then Some(PutMutation(put.value.0, put.value.1)) else None;
      } else if kind == Some(1) {
        var key := Key(l);
        return if key.Some? then Some(DeleteMutation(key.value)) else None;
      }
      return None;
    }

    method Mutations(l: Limits) returns (v: Option<seq<Mutation>>)
      requires Valid()
      modifies this
      ensures Valid() && Took(v, ReadMutations(old(Rest()), l), old(Rest()), Rest())
    {
      hide Rest, ReadCount, ReadMutation, ReadAll, ReadSoFar;
      ghost var s := Rest();
      var count := Count(l.mutations);
      if count.None? {
        return None;
      }
      var mutations: seq<Mutation> := [];
      ghost var start, read := Rest(), r => ReadMutation(r, l);
      AllBegins(start, count.value, read);
      for i := 0 to count.value
        invariant Valid() && |mutations| == i && ReadSoFar(start, count.value, read, mutations, Rest())
      {
        AllStep(start, count.value, read, mutations, Rest());
        var next := Mutation(l);
        if next.None? {
          return None;
        }
        mutations := mutations + [next.value];
      }
      AllEnds(s, start, count.value, read, mutations, Rest());
      return Some(mutations);
    }

    method Query(l: Limits) returns (v: Option<(bytes, (Option<bytes>, nat))>)
      requires Valid()
      modifies this
      ensures Valid() && Took(v, ReadQuery(old(Rest()), l), old(Rest()), Rest())
    {
      hide Rest, ReadBytes, ReadOptionalBytes, ReadCount, EncodedLen, ReadCursor, ReadQuery;
      ghost var s := Rest();
      var pk := Bytes(l.keyComponent);
      ghost var t := Rest();
      if pk.None? {
        NoQuery(s, l);
        return None;
      }
      var afterSk := OptionalBytes(l.keyComponent);
      ghost var u := Rest();
      if afterSk.None? || EncodedLen(QueryKey(pk.value, afterSk.value)) > l.encodedKey {
        QueryRefused(s, t, u, l, pk.value, afterSk);
        return None;
      }
      var limit := Count(l.queryLimit);
      QueryTaken(s, t, u, Rest(), l, pk.value, afterSk.value, limit);
      return if limit.Some? then Some((pk.value, (afterSk.value, limit.value))) else None;
    }

    method Scan(l: Limits) returns (v: Option<(Option<DocumentKey>, nat)>)
      requires Valid()
      modifies this
      ensures Valid() && Took(v, ReadScan(old(Rest()), l), old(Rest()), Rest())
    {
      hide Rest, ReadPair, ReadOptionalKey, ReadCount;
      ghost var s := Rest();
      var a := OptionalKey(l);
      if a.None? {
        TookNone(s, Rest(), r => ReadOptionalKey(r, l), r => ReadCount(r, l.scanLimit));
        return None;
      }
      ghost var t := Rest();
      var b := Count(l.scanLimit);
      TookPair(s, t, Rest(), r => ReadOptionalKey(r, l), r => ReadCount(r, l.scanLimit), a.value, b);
      return if b.Some? then Some((a.value, b.value)) else None;
    }

    method Transaction(l: Limits) returns (v: Option<(seq<Condition>, seq<Mutation>)>)
      requires Valid()
      modifies this
      ensures Valid() && Took(v, ReadTransaction(old(Rest()), l), old(Rest()), Rest())
    {
      hide Rest, ReadPair, ReadConditions, ReadMutations;
      ghost var s := Rest();
      var a := Conditions(l);
      if a.None? {
        TookNone(s, Rest(), r => ReadConditions(r, l), r => ReadMutations(r, l));
        return None;
      }
      ghost var t := Rest();
      var b := Mutations(l);
      TookPair(s, t, Rest(), r => ReadConditions(r, l), r => ReadMutations(r, l), a.value, b);
      return if b.Some? then Some((a.value, b.value)) else None;
    }

    method Request(l: Limits) returns (v: Option<Message>)
      requires Valid()
      modifies this
      ensures Valid() && Took(v, ReadRequest(old(Rest()), l), old(Rest()), Rest())
    {
      hide Rest, ReadKey, ReadKeyValue, ReadQuery, ReadScan, ReadTransaction;
      ghost var s := Rest();
      var opcode := Byte();
      if opcode == Some(1) || opcode == Some(3) {
        var key := Key(l);
        v := if key.None? then None else if opcode == Some(1) then Some(GetRequest(key.value)) else Some(DeleteRequest(key.value));
        TookTagged(s, Rest(), key, ReadKey(s[1..], l), v, ReadRequest(s, l));
      } else if opcode == Some(2) {
        var put := KeyValue(l);
        v := if put.Some? then Some(PutRequest(put.value.0, put.value.1)) else None;
        TookTagged(s, Rest(), put, ReadKeyValue(s[1..], l), v, ReadRequest(s, l));
      } else if opcode == Some(4) {
        var query := Query(l);
        v := if query.Some? then Some(QueryRequest(query.value.0, query.value.1.0, query.value.1.1)) else None;
        TookTagged(s, Rest(), query, ReadQuery(s[1..], l), v, ReadRequest(s, l));
      } else if opcode == Some(5) {
        var scan := Scan(l);
        v := if scan.Some? then Some(ScanRequest(scan.value.0, scan.value.1)) else None;
        TookTagged(s, Rest(), scan, ReadScan(s[1..], l), v, ReadRequest(s, l));
      } else if opcode == Some(8) {
        var transaction := Transaction(l);
        v := if transaction.Some? then Some(TransactRequest(transaction.value.0, transaction.value.1)) else None;
        TookTagged(s, Rest(), transaction, ReadTransaction(s[1..], l), v, ReadRequest(s, l));
      } else {
        v := None;
      }
    }

    method Expected() returns (v: Option<(Expectation, ObservedState)>)
      requires Valid()
      modifies this
      ensures Valid() && Took(v, ReadExpectedActual(old(Rest())), old(Rest()), Rest())
    {
      hide Rest, ReadPair, ReadExpectation, ReadObserved;
      ghost var s := Rest();
      var a := Expectation();
      if a.None? {
        TookNone(s, Rest(), ReadExpectation, ReadObserved);
        return None;
      }
      ghost var t := Rest();
      var b := Observed();
      TookPair(s, t, Rest(), ReadExpectation, ReadObserved, a.value, b);
      return if b.Some? then Some((a.value, b.value)) else None;
    }

    method Expectation() returns (v: Option<Expectation>)
      requires Valid()
      modifies this
      ensures Valid() && Took(v, ReadExpectation(old(Rest())), old(Rest()), Rest())
    {
      hide Rest, ReadNumber;
      var tag := Byte();
      if tag == Some(0) {
        var revision := Number(8);
        return if revision.Some? then Some(RevisionEqualsExpected(revision.value)) else None;
      } else if tag == Some(1) {
        return Some(ExistsExpected);
      } else if tag == Some(2) {
        return Some(NotExistsExpected);
      }
      return None;
    }

    method Observed() returns (v: Option<ObservedState>)
      requires Valid()
      modifies this
      ensures Valid() && Took(v, ReadObserved(old(Rest())), old(Rest()), Rest())
    {
      hide Rest, ReadNumber;
      var tag := Byte();
      if tag.None? || tag.value > 1 {
        return None;
      }
      var revision := Number(8);
      return if revision.None? then None else if tag.value == 0 then Some(SeenPresent(revision.value)) else Some(SeenMissing(revision.value));
    }

    method Conflict(l: Limits) returns (v: Option<Option<ConflictDetails>>)
      requires Valid()
      modifies this
      ensures Valid() && Took(v, ReadConflict(old(Rest()), l), old(Rest()), Rest())
    {
      hide Rest, ReadPair, ReadKey, ReadExpectedActual;
      ghost var s := Rest();
      var there := Flag();
      if there.None? {
        return None;
      }
      if !there.value {
        return Some(None);
      }
      ghost var t := Rest();
      var key := Key(l);
      if key.None? {
        TookNone(t, Rest(), r => ReadKey(r, l), ReadExpectedActual);
        return None;
      }
      ghost var u := Rest();
      var states := Expected();
      TookPair(t, u, Rest(), r => ReadKey(r, l), ReadExpectedActual, key.value, states);
      v := if states.Some? then Some(Some(ConflictDetails(key.value, states.value.0, states.value.1))) else None;
      TookTagged(s, Rest(), if states.Some? then Some((key.value, states.value)) else None,
                 ReadPair(s[1..], r => ReadKey(r, l), ReadExpectedActual), v, ReadConflict(s, l));
    }

    method Detail(text: Text, l: Limits) returns (v: Option<string>)
      requires Valid()
      modifies this
      ensures Valid() && Took(v, ReadDetail(text, old(Rest()), l), old(Rest()), Rest())
    {
      hide Rest, ReadBytes;
      var b := Bytes(l.errorDetail);
      return if b.None? then None else text.decode(b.value);
    }

    method Outcome(l: Limits) returns (v: Option<(MutationOutcome, Option<ConflictDetails>)>)
      requires Valid()
      modifies this
      ensures Valid() && Took(v, ReadOutcome(old(Rest()), l), old(Rest()), Rest())
    {
      hide Rest, ReadConflict, OutcomeOf;
      var code := Byte();
      if code.None? || OutcomeOf(code.value).None? {
        return None;
      }
      var conflict := Conflict(l);
      return if conflict.Some? then Some((OutcomeOf(code.value).value, conflict.value)) else None;
    }

    method Failure(text: Text, l: Limits) returns (v: Option<ApplicationError>)
      requires Valid()
      modifies this
      ensures Valid() && Took(v, ReadError(text, old(Rest()), l), old(Rest()), Rest())
    {
      hide Rest, ReadDetail, ReadOutcome, KindOf, ReadPair;
      ghost var s := Rest();
      var code := Byte();
      if code.None? || KindOf(code.value).None? {
        return None;
      }
      ghost var t := Rest();
      var detail := Detail(text, l);
      if detail.None? {
        TookNone(t, Rest(), r => ReadDetail(text, r, l), r => ReadOutcome(r, l));
        return None;
      }
      ghost var u := Rest();
      var outcome := Outcome(l);
      TookPair(t, u, Rest(), r => ReadDetail(text, r, l), r => ReadOutcome(r, l), detail.value, outcome);
      v := if outcome.None? then None else Some(ApplicationError(KindOf(code.value).value, detail.value, outcome.value.0, outcome.value.1));
      TookTagged(s, Rest(), if outcome.Some? then Some((detail.value, outcome.value)) else None,
                 ReadPair(s[1..], r => ReadDetail(text, r, l), r => ReadOutcome(r, l)), v, ReadError(text, s, l));
    }

    method TransactionOutcome() returns (v: Option<Option<nat>>)
      requires Valid()
      modifies this
      ensures Valid() && Took(v, ReadTransactionOutcome(old(Rest())), old(Rest()), Rest())
    {
      hide Rest, ReadNumber;
      ghost var s := Rest();
      var there := Flag();
      if there.None? {
        return None;
      }
      if !there.value {
        return Some(None);
      }
      assert Rest() == s[1..];
      var lsn := Number(8);
      v := if lsn.Some? then Some(lsn) else None;
      hide Took;
      TookBehind(s, Rest(), lsn, ReadNumber(8, s[1..]), x => Some(x), v, ReadTransactionOutcome(s));
    }

    method Body(opcode: byte, l: Limits) returns (v: Option<Response>)
      requires Valid()
      modifies this
      ensures Valid() && Took(v, ReadBody(opcode, old(Rest()), l), old(Rest()), Rest())
    {
      hide Rest, Took, ReadState, ReadNumber, ReadDocuments, ReadTransactionOutcome;
      ghost var s := Rest();
      if opcode == 1 {
        var state := State(l);
        v := if state.Some? then Some(GetResponse(state.value)) else None;
        TookMapped(s, Rest(), state, ReadState(s, l), x => GetResponse(x), v, ReadBody(opcode, s, l));
      } else if opcode == 2 || opcode == 3 {
        var revision := Number(8);
        v := if revision.None? then None else if opcode == 2 then Some(PutResponse(revision.value)) else Some(DeleteResponse(revision.value));
        TookMapped(s, Rest(), revision, ReadNumber(8, s), x => if opcode == 2 then PutResponse(x) else DeleteResponse(x), v,
                   ReadBody(opcode, s, l));
      } else if opcode == 4 || opcode == 5 {
        var documents := Documents(l);
        v := if documents.None? then None else if opcode == 4 then Some(QueryResponse(documents.value)) else Some(ScanResponse(documents.value));
        TookMapped(s, Rest(), documents, ReadDocuments(s, l), x => if opcode == 4 then QueryResponse(x) else ScanResponse(x), v,
                   ReadBody(opcode, s, l));
      } else if opcode == 8 {
        var lsn := TransactionOutcome();
        v := if lsn.Some? then Some(TransactResponse(lsn.value)) else None;
        TookMapped(s, Rest(), lsn, ReadTransactionOutcome(s), x => TransactResponse(x), v, ReadBody(opcode, s, l));
      } else {
        v := None;
        TookNothing<Response>(s, Rest());
      }
    }

    /** A response behind its opcode. */
    method Success(expected: Option<byte>, l: Limits) returns (v: Option<Response>)
      requires Valid()
      modifies this
      ensures Valid() && Took(v, ReadSuccess(old(Rest()), expected, l), old(Rest()), Rest())
    {
      hide Rest, ReadBody;
      ghost var s := Rest();
      var actual := Byte();
      if actual.None? || (expected.Some? && actual.value != expected.value) {
        return None;
      }
      hide Took;
      v := Body(actual.value, l);
      TookBehind(s, Rest(), v, ReadBody(s[0], s[1..], l), x => x, v, ReadSuccess(s, expected, l));
    }

    method Envelope(text: Text, expected: Option<byte>, l: Limits) returns (v: Option<Envelope>)
      requires Valid()
      modifies this
      ensures Valid() && Took(v, ReadEnvelope(text, old(Rest()), expected, l), old(Rest()), Rest())
    {
      hide Rest, ReadBody, ReadError, ReadSuccess;
      ghost var s := Rest();
      var status := Byte();
      hide Took;
      if status == Some(0) {
        var response := Success(expected, l);
        v := if response.Some? then Some(Responses.Envelope.Success(response.value)) else None;
        EnvelopeSuccess(text, s, expected, l);
        TookBehind(s, Rest(), response, ReadSuccess(s[1..], expected, l), x => Responses.Envelope.Success(x), v, ReadEnvelope(text, s, expected, l));
      } else if status == Some(1) {
        var error := Failure(text, l);
        v := if error.Some? then Some(Responses.Envelope.Failure(error.value)) else None;
        TookBehind(s, Rest(), error, ReadError(text, s[1..], l), x => Responses.Envelope.Failure(x), v, ReadEnvelope(text, s, expected, l));
      } else {
        v := None;
        TookNothing<Envelope>(s, Rest());
      }
    }
  }

  /** A response behind its opcode. */
  function ReadSuccess(s: bytes, expected: Option<byte>, l: Limits): Taken<Response> {
    if s == [] || (expected.Some? && expected.value != s[0]) then None
    else match ReadBody(s[0], s[1..], l) case None => None case Some((response, n)) => Some((response, n + 1))
  }

  // ---------------------------------------------------------------- one field after the other

  lemma TookNone<A, B>(s: bytes, t: bytes, a: bytes -> Taken<A>, b: bytes -> Taken<B>)
    requires Took(None, a(s), s, t)
    ensures ReadPair(s, a, b).None?
  {
  }

  lemma TookPair<A, B>(s: bytes, t: bytes, u: bytes, a: bytes -> Taken<A>, b: bytes -> Taken<B>, x: A, y: Option<B>)
    requires Took(Some(x), a(s), s, t) && Took(y, b(t), t, u)
    ensures Took(if y.Some? then Some((x, y.value)) else None, ReadPair(s, a, b), s, u)
  {
    if y.Some? {
      var n, m := a(s).value.1, b(t).value.1;
      assert s[n..][m..] == s[n + m..];
    }
  }

  /** Behind a tag, what is read is as for the body, one byte further. */
  lemma TookTagged<A, B>(s: bytes, u: bytes, v: Option<A>, body: Taken<A>, w: Option<B>, whole: Taken<B>)
    requires s != [] && Took(v, body, s[1..], u) && (body.Some? <==> whole.Some?) && (v.Some? <==> w.Some?)
    requires w.Some? && whole.Some? ==> whole == Some((w.value, body.value.1 + 1))
    ensures Took(w, whole, s, u)
  {
    if body.Some? {
      assert s[1..][body.value.1..] == s[body.value.1 + 1..];
    }
  }

  lemma TookBehind<A, B>(s: bytes, u: bytes, v: Option<A>, body: Taken<A>, f: A -> B, w: Option<B>, whole: Taken<B>)
    requires s != [] && Took(v, body, s[1..], u)
    requires w == if v.Some? then Some(f(v.value)) else None
    requires whole == if body.Some? then Some((f(body.value.0), body.value.1 + 1)) else None
    ensures Took(w, whole, s, u)
  {
    TookTagged(s, u, v, body, w, whole);
  }

  lemma TookMapped<A, B>(s: bytes, u: bytes, v: Option<A>, part: Taken<A>, f: A -> B, w: Option<B>, whole: Taken<B>)
    requires Took(v, part, s, u)
    requires w == if v.Some? then Some(f(v.value)) else None
    requires whole == if part.Some? then Some((f(part.value.0), part.value.1)) else None
    ensures Took(w, whole, s, u)
  {
  }

  lemma EnvelopeSuccess(text: Text, s: bytes, expected: Option<byte>, l: Limits)
    requires s != [] && s[0] == 0
    ensures var body := ReadSuccess(s[1..], expected, l);
            ReadEnvelope(text, s, expected, l)
            == if body.Some? then Some((Responses.Envelope.Success(body.value.0), body.value.1 + 1)) else None
  {
    hide ReadBody;
    assert |s| >= 2 ==> s[1..][0] == s[1] && s[1..][1..] == s[2..];
  }

  lemma TookNothing<T>(s: bytes, u: bytes)
    ensures Took<T>(None, None, s, u)
  {
  }

  lemma NoQuery(s: bytes, l: Limits)
    requires ReadBytes(s, l.keyComponent).None?
    ensures ReadQuery(s, l).None?
  {
  }

  lemma QueryRefused(s: bytes, t: bytes, u: bytes, l: Limits, pk: bytes, afterSk: Option<Option<bytes>>)
    requires Took(Some(pk), ReadBytes(s, l.keyComponent), s, t) && ReadBytes(s, l.keyComponent).Some?
    requires Took(afterSk, ReadOptionalBytes(t, l.keyComponent), t, u) && ReadOptionalBytes(t, l.keyComponent).Some? == afterSk.Some?
    requires afterSk.Some? ==> EncodedLen(QueryKey(pk, afterSk.value)) > l.encodedKey
    ensures ReadQuery(s, l).None?
  {
    hide ReadBytes, ReadOptionalBytes, ReadCount, EncodedLen;
  }

  lemma QueryTaken(s: bytes, t: bytes, u: bytes, v: bytes, l: Limits, pk: bytes, afterSk: Option<bytes>, limit: Option<nat>)
    requires Took(Some(pk), ReadBytes(s, l.keyComponent), s, t) && ReadBytes(s, l.keyComponent).Some?
    requires Took(Some(afterSk), ReadOptionalBytes(t, l.keyComponent), t, u) && ReadOptionalBytes(t, l.keyComponent).Some?
    requires Took(limit, ReadCount(u, l.queryLimit), u, v) && EncodedLen(QueryKey(pk, afterSk)) <= l.encodedKey
    ensures Took(if limit.Some? then Some((pk, (afterSk, limit.value))) else None, ReadQuery(s, l), s, v)
  {
    hide ReadBytes, ReadOptionalBytes, ReadCount, EncodedLen, ReadPair;
    TookPair(t, u, v, r => ReadOptionalBytes(r, l.keyComponent), r => ReadCount(r, l.queryLimit), afterSk, limit);
    var cursor := if limit.Some? then Some((afterSk, limit.value)) else None;
    TookPair(s, t, v, r => ReadBytes(r, l.keyComponent), r => ReadCursor(r, l), pk, cursor);
  }

  // ---------------------------------------------------------------- counted loops

  /** The elements read so far, with those that the rest gives, are all; `rest`
      is where reading has come to. */
  ghost predicate ReadSoFar<T>(start: bytes, count: nat, read: bytes -> Taken<T>, done: seq<T>, rest: bytes) {
    && |done| <= count && |rest| <= |start|
    && rest == start[|start| - |rest|..]
    && var all, more := ReadAll(start, count, read), ReadAll(rest, count - |done|, read);
       all == if more.None? then None else Some((done + more.value.0, |start| - |rest| + more.value.1))
  }

  lemma AllBegins<T>(start: bytes, count: nat, read: bytes -> Taken<T>)
    ensures ReadSoFar(start, count, read, [], start)
  {
    var all := ReadAll(start, count, read);
    assert all.Some? ==> [] + all.value.0 == all.value.0;
  }

  /** Reading one more element, or failing to. */
  lemma AllStep<T>(start: bytes, count: nat, read: bytes -> Taken<T>, done: seq<T>, rest: bytes)
    requires ReadSoFar(start, count, read, done, rest) && |done| < count
    ensures read(rest).None? ==> ReadAll(start, count, read).None?
    ensures read(rest).Some? && read(rest).value.1 <= |rest| ==>
              ReadSoFar(start, count, read, done + [read(rest).value.0], rest[read(rest).value.1..])
  {
    if read(rest).Some? && read(rest).value.1 <= |rest| {
      var (x, n) := read(rest).value;
      var more := ReadAll(rest[n..], count - |done| - 1, read);
      assert more.Some? ==> done + ([x] + more.value.0) == done + [x] + more.value.0;
    }
  }

  /** `s` is where the count was read. */
  lemma AllEnds<T>(s: bytes, start: bytes, count: nat, read: bytes -> Taken<T>, done: seq<T>, rest: bytes)
    requires ReadSoFar(start, count, read, done, rest) && |done| == count
    ensures |rest| <= |start| && ReadAll(start, count, read) == Some((done, |start| - |rest|)) && rest == start[|start| - |rest|..]
    ensures |start| <= |s| && start == s[|s| - |start|..] ==> rest == s[|s| - |rest|..]
  {
    assert done + [] == done;
  }

  // ---------------------------------------------------------------- frames

  method PayloadOf(frame: bytes, kind: byte, maximum: nat) returns (r: Option<bytes>)
    ensures r == ReadFrame(frame, kind, maximum)
  {
    if |frame| < HEADER_SIZE || frame[..4] != FRAME_MAGIC || FromBe(frame[4..6]) != PROTOCOL_VERSION {
      return None;
    }
    if frame[6] != REQUEST_MESSAGE_TYPE && frame[6] != RESPONSE_MESSAGE_TYPE {
      return None;
    }
    var length := FromBe(frame[7..11]);
    if |frame| != HEADER_SIZE + length || HEADER_SIZE + length > maximum || frame[6] != kind {
      return None;
    }
    return Some(frame[HEADER_SIZE..]);
  }

  /** A payload must be read to its end. */
  method DecodeTenantRequest(payload: bytes, l: Limits) returns (r: Option<(nat, Message)>)
    ensures r == var pair := ReadPair(payload, r => ReadNumber(8, r), r => ReadRequest(r, l));
                 if pair.Some? && pair.value.1 == |payload| then Some(pair.value.0) else None
  {
    hide ReadRequest, ReadNumber, ReadPair;
    var reader := new Reader(payload);
    ghost var s := reader.Rest();
    assert s == payload;
    var tenant := reader.Number(8);
    if tenant.None? {
      TookNone(s, reader.Rest(), r => ReadNumber(8, r), r => ReadRequest(r, l));
      return None;
    }
    ghost var t := reader.Rest();
    var m := reader.Request(l);
    TookPair(s, t, reader.Rest(), r => ReadNumber(8, r), r => ReadRequest(r, l), tenant.value, m);
    if m.None? || reader.offset != |payload| {
      return None;
    }
    return Some((tenant.value, m.value));
  }

  /** Accepts a frame exactly when it is the encoding of a request, and then
      returns that request. */
  method DecodeRequestFrame(frame: bytes, l: Limits) returns (r: Option<(nat, Message)>)
    ensures r == DecodeRequest(frame, l)
    ensures r.Some? ==> EncodeRequest(r.value.0, r.value.1, l) == Some(frame)
  {
    hide ReadRequest, ReadNumber, ReadFrame, EncodeRequest, ReadPair;
    if DecodeRequest(frame, l).Some? {
      RequestFrameCanonical(frame, l);
    }
    if !ValidLimits(l) {
      return None;
    }
    var payload := PayloadOf(frame, REQUEST_MESSAGE_TYPE, l.requestFrame);
    if payload.None? {
      return None;
    }
    r := DecodeTenantRequest(payload.value, l);
  }

  /** A payload must be read to its end. */
  method DecodeEnvelope(text: Text, payload: bytes, expected: Option<byte>, l: Limits) returns (r: Option<Envelope>)
    ensures r == var e := ReadEnvelope(text, payload, expected, l); if e.Some? && e.value.1 == |payload| then Some(e.value.0) else None
  {
    hide ReadEnvelope;
    var reader := new Reader(payload);
    assert reader.Rest() == payload;
    var e := reader.Envelope(text, expected, l);
    if e.None? || reader.offset != |payload| {
      return None;
    }
    return e;
  }

  method DecodeResponseFrame(text: Text, frame: bytes, expected: Option<byte>, l: Limits) returns (r: Option<Envelope>)
    requires TextOk(text)
    ensures r == DecodeResponse(text, frame, expected, l)
    ensures r.Some? ==> EncodeResponse(text, r.value, l) == Some(frame)
  {
    hide ReadEnvelope, ReadFrame, EncodeResponse, TextOk, Received, Expected;
    if DecodeResponse(text, frame, expected, l).Some? {
      ResponseFrameCanonical(text, frame, expected, l);
    }
    if !ValidLimits(l) {
      return None;
    }
    var payload := PayloadOf(frame, RESPONSE_MESSAGE_TYPE, l.responseFrame);
    if payload.None? {
      return None;
    }
    r := DecodeEnvelope(text, payload.value, expected, l);
  }
}
