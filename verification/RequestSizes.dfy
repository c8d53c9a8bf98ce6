/** Which requests can be sent, and how long their frames are
    (dodb-protocol/src/lib.rs). */
module RequestSizes {
  import opened Lex
  import opened Pages
  import opened KeyCodec
  import opened Transactions
  import opened Wire
  import opened Messages
  import opened Requests
  import opened Protocol

  /** What is written is written exactly when it is allowed, in so many bytes. */
  ghost predicate Takes(w: Written, allowed: bool, size: nat) {
    (w.Some? <==> allowed) && (w.Some? ==> |w.value| == size)
  }

  // ---------------------------------------------------------------- fields

  ghost function KeySize(key: DocumentKey): nat {
    8 + |key.pk| + |key.sk|
  }

  ghost predicate KeyAllowed(key: DocumentKey, l: Limits) {
    |key.pk| <= l.keyComponent && |key.sk| <= l.keyComponent && |Encoded(key)| <= l.encodedKey
  }

  lemma BytesTake(b: bytes, maximum: nat)
    ensures Takes(WriteBytes(b, maximum), |b| <= maximum && |b| < U32_RANGE, 4 + |b|)
  {
    hide Be;
    NumberRanges();
  }

  lemma KeyTakes(key: DocumentKey, l: Limits)
    requires ValidLimits(l)
    ensures Takes(WriteKey(key, l), KeyAllowed(key, l), KeySize(key))
  {
    hide WriteBytes, EncodedLen;
    EncodedLenExact(key);
    BytesTake(key.pk, l.keyComponent);
    BytesTake(key.sk, l.keyComponent);
  }

  lemma KeyValueTakes(key: DocumentKey, value: bytes, l: Limits)
    requires ValidLimits(l)
    ensures Takes(WriteKeyValue(key, value, l), KeyAllowed(key, l) && |value| <= l.value, KeySize(key) + 4 + |value|)
  {
    hide WriteBytes, WriteKey, KeyAllowed;
    KeyTakes(key, l);
    BytesTake(value, l.value);
  }

  lemma NumberTakes(x: nat)
    ensures Takes(WriteNumber(8, x), x < U64_RANGE, 8) && Takes(WriteNumber(4, x), x < U32_RANGE, 4)
  {
    hide Be;
    NumberRanges();
  }

  // ---------------------------------------------------------------- conditions and mutations

  ghost function ConditionSize(c: Condition): nat {
    1 + KeySize(c.key) + if c.RevisionEquals? then 8 else 0
  }

  ghost predicate ConditionAllowed(c: Condition, l: Limits) {
    KeyAllowed(c.key, l) && (c.RevisionEquals? ==> c.revision < U64_RANGE)
  }

  ghost function MutationSize(m: Mutation): nat {
    1 + KeySize(m.key) + if m.PutMutation? then 4 + |m.value| else 0
  }

  ghost predicate MutationAllowed(m: Mutation, l: Limits) {
    KeyAllowed(m.key, l) && (m.PutMutation? ==> |m.value| <= l.value)
  }

  lemma ConditionTakes(c: Condition, l: Limits)
    requires ValidLimits(l)
    ensures Takes(WriteCondition(c, l), ConditionAllowed(c, l), ConditionSize(c))
  {
    hide WriteKey, KeyAllowed, WriteNumber;
    KeyTakes(c.key, l);
    if c.RevisionEquals? {
      NumberTakes(c.revision);
    }
  }

  lemma MutationTakes(m: Mutation, l: Limits)
    requires ValidLimits(l)
    ensures Takes(WriteMutation(m, l), MutationAllowed(m, l), MutationSize(m))
  {
    hide WriteKey, KeyAllowed, WriteKeyValue;
    KeyTakes(m.key, l);
    if m.PutMutation? {
      KeyValueTakes(m.key, m.value, l);
    }
  }

  ghost function ConditionSizes(cs: seq<Condition>): (r: nat)
    ensures |cs| <= r
  {
    if cs == [] then 0 else ConditionSize(cs[0]) + ConditionSizes(cs[1..])
  }

  ghost function MutationSizes(ms: seq<Mutation>): (r: nat)
    ensures |ms| <= r
  {
    if ms == [] then 0 else MutationSize(ms[0]) + MutationSizes(ms[1..])
  }

  ghost predicate AllConditions(cs: seq<Condition>, l: Limits) {
    forall i :: 0 <= i < |cs| ==> ConditionAllowed(cs[i], l)
  }

  ghost predicate AllMutations(ms: seq<Mutation>, l: Limits) {
    forall i :: 0 <= i < |ms| ==> MutationAllowed(ms[i], l)
  }

  lemma {:induction false} ConditionsTake(cs: seq<Condition>, l: Limits)
    requires ValidLimits(l)
    ensures Takes(WriteAll(cs, c => WriteCondition(c, l)), AllConditions(cs, l), ConditionSizes(cs))
  {
    hide WriteCondition, ConditionAllowed, ConditionSize;
    if cs != [] {
      ConditionTakes(cs[0], l);
      ConditionsTake(cs[1..], l);
      assert AllConditions(cs, l) <==> ConditionAllowed(cs[0], l) && AllConditions(cs[1..], l);
    }
  }

  lemma {:induction false} MutationsTake(ms: seq<Mutation>, l: Limits)
    requires ValidLimits(l)
    ensures Takes(WriteAll(ms, m => WriteMutation(m, l)), AllMutations(ms, l), MutationSizes(ms))
  {
    hide WriteMutation, MutationAllowed, MutationSize;
    if ms != [] {
      MutationTakes(ms[0], l);
      MutationsTake(ms[1..], l);
      assert AllMutations(ms, l) <==> MutationAllowed(ms[0], l) && AllMutations(ms[1..], l);
    }
  }

  // ---------------------------------------------------------------- requests

  /** The bytes of a request behind the tenant. */
  ghost function RequestSize(m: Message): nat {
    match m
    case GetRequest(key) => 1 + KeySize(key)
    case PutRequest(key, value) => 1 + KeySize(key) + 4 + |value|
    case DeleteRequest(key) => 1 + KeySize(key)
    case QueryRequest(pk, afterSk, _) => 1 + 4 + |pk| + (if afterSk.Some? then 1 + 4 + |afterSk.value| else 1) + 4
    case ScanRequest(afterKey, _) => 1 + (if afterKey.Some? then 1 + KeySize(afterKey.value) else 1) + 4
    case TransactRequest(cs, ms) => 1 + 4 + ConditionSizes(cs) + 4 + MutationSizes(ms)
  }

  /** Keys, values, counts and limits are within what the protocol admits. */
  ghost predicate RequestAllowed(m: Message, l: Limits) {
    match m
    case GetRequest(key) => KeyAllowed(key, l)
    case PutRequest(key, value) => KeyAllowed(key, l) && |value| <= l.value
    case DeleteRequest(key) => KeyAllowed(key, l)
    case QueryRequest(pk, afterSk, limit) =>
      && KeyAllowed(DocumentKey(pk, if afterSk.Some? then afterSk.value else []), l)
      && limit <= l.queryLimit && limit < U32_RANGE
    case ScanRequest(afterKey, limit) => (afterKey.Some? ==> KeyAllowed(afterKey.value, l)) && limit <= l.scanLimit && limit < U32_RANGE
    case TransactRequest(cs, ms) =>
      && |cs| <= l.conditions && |cs| < U32_RANGE && AllConditions(cs, l)
      && |ms| <= l.mutations && |ms| < U32_RANGE && AllMutations(ms, l)
  }

  lemma QueryTakes(pk: bytes, afterSk: Option<bytes>, limit: nat, l: Limits)
    requires ValidLimits(l)
    ensures var m := QueryRequest(pk, afterSk, limit); Takes(Tagged(4, WriteQuery(pk, afterSk, limit, l)), RequestAllowed(m, l), RequestSize(m))
  {
    hide WriteBytes, EncodedLen, WriteNumber;
    EncodedLenExact(QueryKey(pk, afterSk));
    BytesTake(pk, l.keyComponent);
    if afterSk.Some? {
      BytesTake(afterSk.value, l.keyComponent);
    }
    NumberTakes(limit);
  }

  lemma ScanTakes(afterKey: Option<DocumentKey>, limit: nat, l: Limits)
    requires ValidLimits(l)
    ensures var m := ScanRequest(afterKey, limit); Takes(Tagged(5, WriteScan(afterKey, limit, l)), RequestAllowed(m, l), RequestSize(m))
  {
    hide WriteKey, WriteNumber, KeyAllowed;
    if afterKey.Some? {
      KeyTakes(afterKey.value, l);
    }
    NumberTakes(limit);
  }

  lemma TransactionTakes(cs: seq<Condition>, ms: seq<Mutation>, l: Limits)
    requires ValidLimits(l)
    ensures var m := TransactRequest(cs, ms); Takes(Tagged(8, WriteTransaction(cs, ms, l)), RequestAllowed(m, l), RequestSize(m))
  {
    hide WriteCondition, WriteMutation, WriteAll, WriteNumber, AllConditions, AllMutations, ConditionSizes, MutationSizes;
    ConditionsTake(cs, l);
    MutationsTake(ms, l);
    NumberTakes(|cs|);
    NumberTakes(|ms|);
  }

  lemma RequestTakes(m: Message, l: Limits)
    requires ValidLimits(l)
    ensures Takes(WriteRequest(m, l), RequestAllowed(m, l), RequestSize(m))
  {
    hide WriteKey, WriteKeyValue, WriteQuery, WriteScan, WriteTransaction, KeyAllowed;
    match m
    case GetRequest(key) => KeyTakes(key, l);
    case PutRequest(key, value) => KeyValueTakes(key, value, l);
    case DeleteRequest(key) => KeyTakes(key, l);
    case QueryRequest(pk, afterSk, limit) => QueryTakes(pk, afterSk, limit, l);
    case ScanRequest(afterKey, limit) => ScanTakes(afterKey, limit, l);
    case TransactRequest(cs, ms) => TransactionTakes(cs, ms, l);
  }

  /** A request encodes exactly when its fields are within the limits and its
      frame is no longer than the limits and the length field admit. */
  lemma RequestEncodes(tenant: nat, m: Message, l: Limits)
    requires ValidLimits(l)
    ensures EncodeRequest(tenant, m, l).Some? <==>
              && tenant < U64_RANGE && RequestAllowed(m, l)
              && HEADER_SIZE + 8 + RequestSize(m) <= l.requestFrame && 8 + RequestSize(m) < U32_RANGE
    ensures EncodeRequest(tenant, m, l).Some? ==> |EncodeRequest(tenant, m, l).value| == HEADER_SIZE + 8 + RequestSize(m)
  {
    hide WriteRequest, WriteNumber, RequestAllowed, RequestSize, Header;
    NumberTakes(tenant);
    RequestTakes(m, l);
  }
}
