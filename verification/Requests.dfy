/** Requests, responses and errors on the wire (dodb-protocol/src/lib.rs). */
module Requests {
  import opened Lex
  import opened Pages
  import opened KeyCodec
  import opened Reference
  import opened Errors
  import opened Transactions
  import opened Wire
  import opened Messages

  datatype Message =
    | GetRequest(key: DocumentKey)
    | PutRequest(key: DocumentKey, value: bytes)
    | DeleteRequest(key: DocumentKey)
    | QueryRequest(pk: bytes, afterSk: Option<bytes>, limit: nat)
    | ScanRequest(afterKey: Option<DocumentKey>, limit: nat)
    | TransactRequest(conditions: seq<Condition>, mutations: seq<Mutation>)

  // ---------------------------------------------------------------- requests

  function QueryKey(pk: bytes, afterSk: Option<bytes>): DocumentKey {
    DocumentKey(pk, if afterSk.Some? then afterSk.value else [])
  }

  function WriteCursor(afterSk: Option<bytes>, limit: nat, l: Limits): Written {
    Then(WriteOptionalBytes(afterSk, l.keyComponent), WriteCount(limit, l.queryLimit))
  }

  function ReadCursor(s: bytes, l: Limits): (r: Taken<(Option<bytes>, nat)>)
    ensures r.Some? ==> r.value.1 <= |s|
  {
    ReadPair(s, r => ReadOptionalBytes(r, l.keyComponent), r => ReadCount(r, l.queryLimit))
  }

  function WriteQuery(pk: bytes, afterSk: Option<bytes>, limit: nat, l: Limits): Written {
    if EncodedLen(QueryKey(pk, afterSk)) > l.encodedKey then None
    else Then(WriteBytes(pk, l.keyComponent), WriteCursor(afterSk, limit, l))
  }

  function ReadQuery(s: bytes, l: Limits): (r: Taken<(bytes, (Option<bytes>, nat))>)
    ensures r.Some? ==> r.value.1 <= |s|
  {
    match ReadPair(s, r => ReadBytes(r, l.keyComponent), r => ReadCursor(r, l))
    case None => None
    case Some(((pk, cursor), n)) => if EncodedLen(QueryKey(pk, cursor.0)) > l.encodedKey then None else Some(((pk, cursor), n))
  }

  lemma CursorReadsBack(afterSk: Option<bytes>, limit: nat, l: Limits, rest: bytes)
    requires WriteCursor(afterSk, limit, l).Some?
    ensures ReadCursor(WriteCursor(afterSk, limit, l).value + rest, l) == Some(((afterSk, limit), |WriteCursor(afterSk, limit, l).value|))
  {
    hide WriteOptionalBytes, ReadOptionalBytes, WriteCount, ReadCount;
    var a, b := WriteOptionalBytes(afterSk, l.keyComponent).value, WriteCount(limit, l.queryLimit).value;
    OptionalBytesReadBack(afterSk, l.keyComponent, b + rest);
    CountReadsBack(limit, l.queryLimit, rest);
    PairReadsBack(a, b, rest, r => ReadOptionalBytes(r, l.keyComponent), r => ReadCount(r, l.queryLimit), afterSk, limit);
  }

  lemma CursorCanonical(s: bytes, l: Limits)
    requires ReadCursor(s, l).Some?
    ensures var ((afterSk, limit), n) := ReadCursor(s, l).value; WriteCursor(afterSk, limit, l) == Some(s[..n])
  {
    hide WriteOptionalBytes, ReadOptionalBytes, WriteCount, ReadCount;
    var first, second := r => ReadOptionalBytes(r, l.keyComponent), r => ReadCount(r, l.queryLimit);
    PairParts(s, first, second);
    OptionalBytesCanonical(s, l.keyComponent);
    CountCanonical(s[first(s).value.1..], l.queryLimit);
  }

  lemma QueryReadsBack(pk: bytes, afterSk: Option<bytes>, limit: nat, l: Limits, rest: bytes)
    requires WriteQuery(pk, afterSk, limit, l).Some?
    ensures ReadQuery(WriteQuery(pk, afterSk, limit, l).value + rest, l) == Some(((pk, (afterSk, limit)), |WriteQuery(pk, afterSk, limit, l).value|))
  {
    hide WriteBytes, ReadBytes, WriteCursor, ReadCursor, EncodedLen;
    var a, b := WriteBytes(pk, l.keyComponent).value, WriteCursor(afterSk, limit, l).value;
    BytesReadBack(pk, l.keyComponent, b + rest);
    CursorReadsBack(afterSk, limit, l, rest);
    PairReadsBack(a, b, rest, r => ReadBytes(r, l.keyComponent), r => ReadCursor(r, l), pk, (afterSk, limit));
  }

  lemma QueryCanonical(s: bytes, l: Limits)
    requires ReadQuery(s, l).Some?
    ensures var ((pk, cursor), n) := ReadQuery(s, l).value; WriteQuery(pk, cursor.0, cursor.1, l) == Some(s[..n])
  {
    hide WriteBytes, ReadBytes, WriteCursor, ReadCursor, EncodedLen;
    var first, second := r => ReadBytes(r, l.keyComponent), r => ReadCursor(r, l);
    PairParts(s, first, second);
    BytesCanonical(s, l.keyComponent);
    CursorCanonical(s[first(s).value.1..], l);
  }

  function WriteScan(afterKey: Option<DocumentKey>, limit: nat, l: Limits): Written {
    Then(WriteOptionalKey(afterKey, l), WriteCount(limit, l.scanLimit))
  }

  function ReadScan(s: bytes, l: Limits): (r: Taken<(Option<DocumentKey>, nat)>)
    ensures r.Some? ==> r.value.1 <= |s|
  {
    ReadPair(s, r => ReadOptionalKey(r, l), r => ReadCount(r, l.scanLimit))
  }

  lemma ScanReadsBack(afterKey: Option<DocumentKey>, limit: nat, l: Limits, rest: bytes)
    requires WriteScan(afterKey, limit, l).Some?
    ensures ReadScan(WriteScan(afterKey, limit, l).value + rest, l) == Some(((afterKey, limit), |WriteScan(afterKey, limit, l).value|))
  {
    hide WriteOptionalKey, ReadOptionalKey, WriteCount, ReadCount;
    var a, b := WriteOptionalKey(afterKey, l).value, WriteCount(limit, l.scanLimit).value;
    OptionalKeyReadsBack(afterKey, l, b + rest);
    CountReadsBack(limit, l.scanLimit, rest);
    PairReadsBack(a, b, rest, r => ReadOptionalKey(r, l), r => ReadCount(r, l.scanLimit), afterKey, limit);
  }

  lemma ScanCanonical(s: bytes, l: Limits)
    requires ReadScan(s, l).Some?
    ensures var ((afterKey, limit), n) := ReadScan(s, l).value; WriteScan(afterKey, limit, l) == Some(s[..n])
  {
    hide WriteOptionalKey, ReadOptionalKey, WriteCount, ReadCount;
    var first, second := r => ReadOptionalKey(r, l), r => ReadCount(r, l.scanLimit);
    PairParts(s, first, second);
    OptionalKeyCanonical(s, l);
    CountCanonical(s[first(s).value.1..], l.scanLimit);
  }

  // ---------------------------------------------------------------- lists of parts

  function WriteConditions(cs: seq<Condition>, l: Limits): Written {
    WriteList(cs, l.conditions, c => WriteCondition(c, l))
  }

  function ReadConditions(s: bytes, l: Limits): Taken<seq<Condition>> {
    ReadList(s, l.conditions, r => ReadCondition(r, l))
  }

  function WriteMutations(ms: seq<Mutation>, l: Limits): Written {
    WriteList(ms, l.mutations, m => WriteMutation(m, l))
  }

  function ReadMutations(s: bytes, l: Limits): Taken<seq<Mutation>> {
    ReadList(s, l.mutations, r => ReadMutation(r, l))
  }

  function WriteDocuments(ds: seq<Document>, l: Limits): Written {
    WriteList(ds, l.scanLimit, d => WriteDocument(d, l))
  }

  function ReadDocuments(s: bytes, l: Limits): Taken<seq<Document>> {
    ReadList(s, l.scanLimit, r => ReadDocument(r, l))
  }

  lemma ConditionLaws(l: Limits)
    ensures ReadsBack((c: Condition) => WriteCondition(c, l), r => ReadCondition(r, l))
    ensures Canonical((c: Condition) => WriteCondition(c, l), r => ReadCondition(r, l))
  {
    hide WriteCondition, ReadCondition;
    forall c, rest | WriteCondition(c, l).Some?
      ensures ReadCondition(WriteCondition(c, l).value + rest, l) == Some((c, |WriteCondition(c, l).value|))
    {
      ConditionReadsBack(c, l, rest);
    }
    forall s | ReadCondition(s, l).Some? ensures WriteCondition(ReadCondition(s, l).value.0, l) == Some(s[..ReadCondition(s, l).value.1]) {
      ConditionCanonical(s, l);
    }
  }

  lemma MutationLaws(l: Limits)
    ensures ReadsBack((m: Mutation) => WriteMutation(m, l), r => ReadMutation(r, l))
    ensures Canonical((m: Mutation) => WriteMutation(m, l), r => ReadMutation(r, l))
  {
    hide WriteMutation, ReadMutation;
    forall m, rest | WriteMutation(m, l).Some?
      ensures ReadMutation(WriteMutation(m, l).value + rest, l) == Some((m, |WriteMutation(m, l).value|))
    {
      MutationReadsBack(m, l, rest);
    }
    forall s | ReadMutation(s, l).Some? ensures WriteMutation(ReadMutation(s, l).value.0, l) == Some(s[..ReadMutation(s, l).value.1]) {
      MutationCanonical(s, l);
    }
  }

  lemma DocumentLaws(l: Limits)
    ensures ReadsBack((d: Document) => WriteDocument(d, l), r => ReadDocument(r, l))
    ensures Canonical((d: Document) => WriteDocument(d, l), r => ReadDocument(r, l))
  {
    hide WriteDocument, ReadDocument;
    forall d, rest | WriteDocument(d, l).Some?
      ensures ReadDocument(WriteDocument(d, l).value + rest, l) == Some((d, |WriteDocument(d, l).value|))
    {
      DocumentReadsBack(d, l, rest);
    }
    forall s | ReadDocument(s, l).Some? ensures WriteDocument(ReadDocument(s, l).value.0, l) == Some(s[..ReadDocument(s, l).value.1]) {
      DocumentCanonical(s, l);
    }
  }

  lemma DocumentsReadBack(ds: seq<Document>, l: Limits, rest: bytes)
    requires WriteDocuments(ds, l).Some?
    ensures ReadDocuments(WriteDocuments(ds, l).value + rest, l) == Some((ds, |WriteDocuments(ds, l).value|))
  {
    DocumentLaws(l);
    ListReadsBack(ds, l.scanLimit, d => WriteDocument(d, l), r => ReadDocument(r, l), rest);
  }

  lemma DocumentsCanonical(s: bytes, l: Limits)
    requires ReadDocuments(s, l).Some?
    ensures var (ds, n) := ReadDocuments(s, l).value; n <= |s| && WriteDocuments(ds, l) == Some(s[..n])
  {
    DocumentLaws(l);
    ListCanonical(s, l.scanLimit, (d: Document) => WriteDocument(d, l), r => ReadDocument(r, l));
  }

  function WriteTransaction(cs: seq<Condition>, ms: seq<Mutation>, l: Limits): Written {
    Then(WriteConditions(cs, l), WriteMutations(ms, l))
  }

  function ReadTransaction(s: bytes, l: Limits): (r: Taken<(seq<Condition>, seq<Mutation>)>)
    ensures r.Some? ==> r.value.1 <= |s|
  {
    ReadPair(s, r => ReadConditions(r, l), r => ReadMutations(r, l))
  }

  lemma TransactionReadsBack(cs: seq<Condition>, ms: seq<Mutation>, l: Limits, rest: bytes)
    requires WriteTransaction(cs, ms, l).Some?
    ensures ReadTransaction(WriteTransaction(cs, ms, l).value + rest, l) == Some(((cs, ms), |WriteTransaction(cs, ms, l).value|))
  {
    ConditionLaws(l);
    MutationLaws(l);
    var a, b := WriteConditions(cs, l).value, WriteMutations(ms, l).value;
    ListReadsBack(cs, l.conditions, c => WriteCondition(c, l), r => ReadCondition(r, l), b + rest);
    ListReadsBack(ms, l.mutations, m => WriteMutation(m, l), r => ReadMutation(r, l), rest);
    PairReadsBack(a, b, rest, r => ReadConditions(r, l), r => ReadMutations(r, l), cs, ms);
  }

  lemma TransactionCanonical(s: bytes, l: Limits)
    requires ReadTransaction(s, l).Some?
    ensures var ((cs, ms), n) := ReadTransaction(s, l).value; WriteTransaction(cs, ms, l) == Some(s[..n])
  {
    var first, second := r => ReadConditions(r, l), r => ReadMutations(r, l);
    PairParts(s, first, second);
    ConditionLaws(l);
    MutationLaws(l);
    ListCanonical(s, l.conditions, (c: Condition) => WriteCondition(c, l), r => ReadCondition(r, l));
    ListCanonical(s[first(s).value.1..], l.mutations, (m: Mutation) => WriteMutation(m, l), r => ReadMutation(r, l));
  }

  // ---------------------------------------------------------------- the request payload

  function WriteRequest(m: Message, l: Limits): Written {
    match m
    case GetRequest(key) => Tagged(1, WriteKey(key, l))
    case PutRequest(key, value) => Tagged(2, WriteKeyValue(key, value, l))
    case DeleteRequest(key) => Tagged(3, WriteKey(key, l))
    case QueryRequest(pk, afterSk, limit) => Tagged(4, WriteQuery(pk, afterSk, limit, l))
    case ScanRequest(afterKey, limit) => Tagged(5, WriteScan(afterKey, limit, l))
    case TransactRequest(cs, ms) => Tagged(8, WriteTransaction(cs, ms, l))
  }

  function ReadRequest(s: bytes, l: Limits): (r: Taken<Message>)
    ensures r.Some? ==> r.value.1 <= |s|
  {
    if s == [] then None
    else if s[0] == 1 then
      match ReadKey(s[1..], l) case None => None case Some((key, n)) => Some((GetRequest(key), n + 1))
    else if s[0] == 2 then
      match ReadKeyValue(s[1..], l) case None => None case Some(((key, value), n)) => Some((PutRequest(key, value), n + 1))
    else if s[0] == 3 then
      match ReadKey(s[1..], l) case None => None case Some((key, n)) => Some((DeleteRequest(key), n + 1))
    else if s[0] == 4 then
      match ReadQuery(s[1..], l) case None => None case Some(((pk, cursor), n)) => Some((QueryRequest(pk, cursor.0, cursor.1), n + 1))
    else if s[0] == 5 then
      match ReadScan(s[1..], l) case None => None case Some(((afterKey, limit), n)) => Some((ScanRequest(afterKey, limit), n + 1))
    else if s[0] == 8 then
      match ReadTransaction(s[1..], l) case None => None case Some(((cs, ms), n)) => Some((TransactRequest(cs, ms), n + 1))
    else None
  }

  lemma RequestReadsBack(m: Message, l: Limits, rest: bytes)
    requires WriteRequest(m, l).Some?
    ensures ReadRequest(WriteRequest(m, l).value + rest, l) == Some((m, |WriteRequest(m, l).value|))
  {
    hide WriteKey, ReadKey, WriteKeyValue, ReadKeyValue, WriteQuery, ReadQuery, WriteScan, ReadScan, WriteTransaction, ReadTransaction;
    match m
    case GetRequest(key) =>
      TaggedReads(1, WriteKey(key, l).value, rest);
      KeyReadsBack(key, l, rest);
    case PutRequest(key, value) =>
      TaggedReads(2, WriteKeyValue(key, value, l).value, rest);
      KeyValueReadsBack(key, value, l, rest);
    case DeleteRequest(key) =>
      TaggedReads(3, WriteKey(key, l).value, rest);
      KeyReadsBack(key, l, rest);
    case QueryRequest(pk, afterSk, limit) =>
      TaggedReads(4, WriteQuery(pk, afterSk, limit, l).value, rest);
      QueryReadsBack(pk, afterSk, limit, l, rest);
    case ScanRequest(afterKey, limit) =>
      TaggedReads(5, WriteScan(afterKey, limit, l).value, rest);
      ScanReadsBack(afterKey, limit, l, rest);
    case TransactRequest(cs, ms) =>
      TaggedReads(8, WriteTransaction(cs, ms, l).value, rest);
      TransactionReadsBack(cs, ms, l, rest);
  }

  lemma RequestCanonical(s: bytes, l: Limits)
    requires ReadRequest(s, l).Some?
    ensures var (m, n) := ReadRequest(s, l).value; WriteRequest(m, l) == Some(s[..n])
  {
    hide WriteKey, ReadKey, WriteKeyValue, ReadKeyValue, WriteQuery, ReadQuery, WriteScan, ReadScan, WriteTransaction, ReadTransaction;
    TaggedCanonical(s, ReadRequest(s, l).value.1 - 1);
    if s[0] == 1 || s[0] == 3 {
      KeyCanonical(s[1..], l);
    } else if s[0] == 2 {
      KeyValueCanonical(s[1..], l);
    } else if s[0] == 4 {
      QueryCanonical(s[1..], l);
    } else if s[0] == 5 {
      ScanCanonical(s[1..], l);
    } else {
      TransactionCanonical(s[1..], l);
    }
  }
}
