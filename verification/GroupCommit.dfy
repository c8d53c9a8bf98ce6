/** Group commit: several transactions staged in one overlay, each validated
    against the ones accepted before it (btree/mod.rs). */
module GroupCommit {
  import opened Lex
  import opened KeyCodec
  import opened Pages
  import opened Splits
  import opened Database
  import opened Reference
  import opened Errors
  import opened Reads
  import opened Transactions
  import opened Stamps
  import opened Batches
  import opened Overlay

  type Outcome = Result<Option<nat>>

  // ---------------------------------------------------------------- serial execution

  /** The documents after running the requests one at a time, each accepted one
      at the commit LSN of its outcome. */
  ghost function SerialState(s: States, requests: seq<Request>, outcomes: seq<Outcome>): States
    requires |outcomes| == |requests|
  {
    if requests == [] then s
    else
      var n := |requests| - 1;
      var before := SerialState(s, requests[..n], outcomes[..n]);
      if outcomes[n].Ok? && outcomes[n].value.Some?
      then ApplyMutations(before, requests[n].mutations, outcomes[n].value.value)
      else before
  }

  /** The outcome a request must have when it runs on the documents s. */
  ghost predicate OutcomeOk(s: States, request: Request, outcome: Outcome, maxValueSize: nat) {
    match Refusal(s, request, maxValueSize)
    case Some(error) => outcome == Err(error)
    case None => outcome.Ok? && (outcome.value.Some? <==> request.mutations != [])
  }

  ghost predicate Serial(s: States, requests: seq<Request>, outcomes: seq<Outcome>, maxValueSize: nat) {
    && |outcomes| == |requests|
    && forall i :: 0 <= i < |requests| ==>
         OutcomeOk(SerialState(s, requests[..i], outcomes[..i]), requests[i], outcomes[i], maxValueSize)
  }

  lemma SerialStep(s: States, requests: seq<Request>, outcomes: seq<Outcome>, i: nat, outcome: Outcome, maxValueSize: nat)
    requires i < |requests| && |outcomes| == i && Serial(s, requests[..i], outcomes, maxValueSize)
    requires OutcomeOk(SerialState(s, requests[..i], outcomes), requests[i], outcome, maxValueSize)
    ensures Serial(s, requests[..i + 1], outcomes + [outcome], maxValueSize)
    ensures SerialState(s, requests[..i + 1], outcomes + [outcome]) ==
            var before := SerialState(s, requests[..i], outcomes);
            if outcome.Ok? && outcome.value.Some? then ApplyMutations(before, requests[i].mutations, outcome.value.value) else before
  {
    var rs, os := requests[..i + 1], outcomes + [outcome];
    assert rs[..i] == requests[..i] && os[..i] == outcomes;
    forall j | 0 <= j < |rs| ensures OutcomeOk(SerialState(s, rs[..j], os[..j]), rs[j], os[j], maxValueSize) {
      assert rs[..j] == requests[..i][..j];
      if j < i {
        assert os[..j] == outcomes[..j];
      }
    }
  }

  // ---------------------------------------------------------------- batches

  /** After every prefix of the batches the image is consistent and holds the
      documents of that point of the serial run. */
  ghost predicate History(img: Image, batches: seq<Prepared>, shapes: seq<Shape>, states: seq<States>) {
    && |shapes| == |states| == |batches| + 1
    && forall k :: 0 <= k <= |batches| ==> Holds(ImageAfter(img, batches[..k]), shapes[k], states[k])
  }

  ghost predicate Holds(img: Image, sh: Shape, s: States) {
    Consistent(img, sh) && |sh.levels| > 0 && Docs(img, sh) == s
  }

  lemma HistoryStep(img: Image, batches: seq<Prepared>, shapes: seq<Shape>, states: seq<States>, b: Prepared, sh: Shape, s: States)
    requires History(img, batches, shapes, states) && Holds(ApplyBatch(ImageAfter(img, batches), b), sh, s)
    ensures History(img, batches + [b], shapes + [sh], states + [s])
  {
    hide Holds;
    var bs := batches + [b];
    assert bs[..|batches|] == batches;
    forall k | 0 <= k <= |bs| ensures Holds(ImageAfter(img, bs[..k]), (shapes + [sh])[k], (states + [s])[k]) {
      if k <= |batches| {
        assert bs[..k] == batches[..k];
      } else {
        assert bs[..k] == bs;
      }
    }
  }

  /** The request is well formed and within the limits on keys and values. */
  ghost predicate Admissible(request: Request, maxValueSize: nat) {
    ValidRequest(request) && forall j :: 0 <= j < |request.mutations| ==> MutationOk(request.mutations[j], maxValueSize)
  }

  ghost predicate SmallRecords(request: Request, inlineLimit: nat) {
    forall j :: 0 <= j < |request.mutations| ==> 2 * MutationSize(request.mutations[j], inlineLimit) <= RECORD_SPACE
  }

  /** Every record of the requests that are not refused for their form or size
      takes at most half a page. */
  ghost predicate HalfPage(requests: seq<Request>, inlineLimit: nat, maxValueSize: nat) {
    forall i :: 0 <= i < |requests| && Admissible(requests[i], maxValueSize) ==> SmallRecords(requests[i], inlineLimit)
  }

  /** No tree holds a record of more than half a page. */
  ghost predicate Roomy(shapes: seq<Shape>) {
    forall k :: 0 <= k < |shapes| ==> 2 * shapes[k].cap <= RECORD_SPACE
  }

  lemma {:induction false} HalfPageCap(cap: nat, mutations: seq<Mutation>, inlineLimit: nat)
    requires 2 * cap <= RECORD_SPACE
    requires forall j :: 0 <= j < |mutations| ==> 2 * MutationSize(mutations[j], inlineLimit) <= RECORD_SPACE
    ensures 2 * CapAfter(cap, mutations, inlineLimit) <= RECORD_SPACE
  {
    if mutations != [] {
      HalfPageCap(cap, mutations[..|mutations| - 1], inlineLimit);
    }
  }

  // ---------------------------------------------------------------- the group

  /** The commit LSNs of the outcomes are those of the batches, in order. */
  ghost function Committed(outcomes: seq<Outcome>): seq<nat> {
    if outcomes == [] then []
    else
      var last := outcomes[|outcomes| - 1];
      Committed(outcomes[..|outcomes| - 1]) + (if last.Ok? && last.value.Some? then [last.value.value] else [])
  }

  ghost function CommitLsns(batches: seq<Prepared>): seq<nat> {
    seq(|batches|, i requires 0 <= i < |batches| => batches[i].commitLsn)
  }

  /** The state after each prefix of the requests is the state after the batches
      that prefix committed. */
  ghost predicate Along(s0: States, requests: seq<Request>, outcomes: seq<Outcome>, states: seq<States>) {
    && |outcomes| == |requests|
    && forall p :: 0 <= p <= |requests| ==> StateAt(s0, requests, outcomes, states, p)
  }

  ghost predicate StateAt(s0: States, requests: seq<Request>, outcomes: seq<Outcome>, states: seq<States>, p: nat)
    requires p <= |requests| == |outcomes|
  {
    && |Committed(outcomes[..p])| < |states|
    && states[|Committed(outcomes[..p])|] == SerialState(s0, requests[..p], outcomes[..p])
  }

  lemma AlongStep(s0: States, requests: seq<Request>, i: nat, outcomes: seq<Outcome>, states: seq<States>, outcome: Outcome, states': seq<States>)
    requires i < |requests| && Along(s0, requests[..i], outcomes, states) && states <= states'
    requires StateAt(s0, requests[..i + 1], outcomes + [outcome], states', i + 1)
    ensures Along(s0, requests[..i + 1], outcomes + [outcome], states')
  {
    hide SerialState, Committed;
    var rs, os := requests[..i + 1], outcomes + [outcome];
    forall p | 0 <= p <= |rs| ensures StateAt(s0, rs, os, states', p) {
      if p <= i {
        assert StateAt(s0, requests[..i], outcomes, states, p);
        assert rs[..p] == requests[..i][..p] && os[..p] == outcomes[..p];
      }
    }
  }

  /** Everything the group has achieved after some requests. */
  ghost predicate GroupOk(img0: Image, s0: States, first: Counters, requests: seq<Request>, outcomes: seq<Outcome>,
                          batches: seq<Prepared>, shapes: seq<Shape>, states: seq<States>, img: Image, now: Counters, maxValueSize: nat) {
    && Serial(s0, requests, outcomes, maxValueSize)
    && img == ImageAfter(img0, batches)
    && History(img0, batches, shapes, states)
    && states[0] == s0 && states[|batches|] == SerialState(s0, requests, outcomes)
    && Along(s0, requests, outcomes, states)
    && CommitLsns(batches) == Committed(outcomes)
    && Ordered(batches, first) && now == Next(batches, |batches|, first)
  }

  lemma GroupStart(img: Image, sh: Shape, first: Counters, maxValueSize: nat)
    requires Consistent(img, sh) && |sh.levels| > 0
    ensures GroupOk(img, Docs(img, sh), first, [], [], [], [sh], [Docs(img, sh)], img, first, maxValueSize)
  {
    hide Working;
    assert StateAt(Docs(img, sh), [], [], [Docs(img, sh)], 0);
  }

  /** A refused or condition-only request leaves no trace. */
  lemma GroupSkip(img0: Image, s0: States, first: Counters, requests: seq<Request>, i: nat, outcomes: seq<Outcome>,
                  batches: seq<Prepared>, shapes: seq<Shape>, states: seq<States>, img: Image, now: Counters, maxValueSize: nat,
                  outcome: Outcome)
    requires i < |requests| && GroupOk(img0, s0, first, requests[..i], outcomes, batches, shapes, states, img, now, maxValueSize)
    requires OutcomeOk(states[|batches|], requests[i], outcome, maxValueSize) && (outcome.Err? || outcome.value.None?)
    ensures GroupOk(img0, s0, first, requests[..i + 1], outcomes + [outcome], batches, shapes, states, img, now, maxValueSize)
  {
    hide History, Ordered, OutcomeOk, Serial;
    SerialCount(s0, requests[..i], outcomes, maxValueSize);
    SerialStep(s0, requests, outcomes, i, outcome, maxValueSize);
    assert (outcomes + [outcome])[..|outcomes|] == outcomes;
    var rs, os := requests[..i + 1], outcomes + [outcome];
    assert rs[..i + 1] == rs && os[..i + 1] == os && |CommitLsns(batches)| == |batches|;
    HistoryCount(img0, batches, shapes, states);
    AlongStep(s0, requests, i, outcomes, states, outcome, states);
  }

  lemma SerialCount(s: States, requests: seq<Request>, outcomes: seq<Outcome>, maxValueSize: nat)
    requires Serial(s, requests, outcomes, maxValueSize)
    ensures |outcomes| == |requests|
  {
  }

  lemma GroupAccept(img0: Image, s0: States, first: Counters, requests: seq<Request>, i: nat, outcomes: seq<Outcome>,
                    batches: seq<Prepared>, shapes: seq<Shape>, states: seq<States>, img: Image, now: Counters, maxValueSize: nat,
                    sh: Shape, b: Prepared, img': Image, sh': Shape)
    requires i < |requests| && GroupOk(img0, s0, first, requests[..i], outcomes, batches, shapes, states, img, now, maxValueSize)
    requires |sh.levels| > 0 && Docs(img, sh) == states[|batches|]
    requires Refusal(states[|batches|], requests[i], maxValueSize).None? && requests[i].mutations != []
    requires Accepted(img, sh, img', sh', requests[i].mutations, b) && Numbered(b, now) && Consistent(img', sh')
    ensures GroupOk(img0, s0, first, requests[..i + 1], outcomes + [Ok(Some(b.commitLsn))], batches + [b],
                    shapes + [sh'], states + [Docs(img', sh')], img', After(b), maxValueSize)
  {
    hide Working, Serial, History, Docs, Ordered, Refusal, BatchStamped, Numbered;
    var outcome := Ok(Some(b.commitLsn));
    SerialCount(s0, requests[..i], outcomes, maxValueSize);
    SerialStep(s0, requests, outcomes, i, outcome, maxValueSize);
    assert (outcomes + [outcome])[..|outcomes|] == outcomes;
    assert CommitLsns(batches + [b]) == CommitLsns(batches) + [b.commitLsn];
    assert (batches + [b])[..|batches|] == batches;
    HistoryStep(img0, batches, shapes, states, b, sh', Docs(img', sh'));
    OrderedStep(batches, b, first);
    HistoryCount(img0, batches, shapes, states);
    var rs, os := requests[..i + 1], outcomes + [outcome];
    assert rs[..i + 1] == rs && os[..i + 1] == os && |CommitLsns(batches)| == |batches|;
    AlongStep(s0, requests, i, outcomes, states, outcome, states + [Docs(img', sh')]);
  }

  /** An accepted transaction changes some page: its commit LSN is a new
      revision. */
  lemma AcceptedWrites(img: Image, sh: Shape, img': Image, sh': Shape, mutations: seq<Mutation>, b: Prepared, now: Counters, bound: nat)
    requires Accepted(img, sh, img', sh', mutations, b) && Numbered(b, now) && Sound(img', sh') && mutations != []
    requires StampedBelow(img.pages, bound) && bound <= now.nextLsn
    ensures b.pages != map[]
  {
    hide Working, Docs, ApplyMutations, BatchStamped;
    MutationRevisions(Docs(img, sh), mutations, b.commitLsn);
    var d :| d in Docs(img', sh') && d.1.revision == b.commitLsn;
    var i :| 0 <= i < |Docs(img', sh')| && Docs(img', sh')[i] == d;
    var x, y := DocEntry(img', sh', i);
  }

  lemma HistoryCount(img: Image, batches: seq<Prepared>, shapes: seq<Shape>, states: seq<States>)
    requires History(img, batches, shapes, states)
    ensures |shapes| == |states| == |batches| + 1
  {
  }

  /** Group commit is serial execution: outcomes, conflicts and documents are
      those of running the requests one at a time, and the batches to be logged
      lead through exactly the states of that run. */
  method StageGroup(overlay: Overlay, requests: seq<Request>)
    returns (outcomes: seq<Outcome>, batches: seq<Prepared>, ghost shapes: seq<Shape>, ghost states: seq<States>)
    requires overlay.Clean() && HalfPage(requests, overlay.inlineLimit, overlay.maxValueSize) && 2 * overlay.shape.cap <= RECORD_SPACE
    modifies overlay
    ensures overlay.Clean() && 2 * overlay.shape.cap <= RECORD_SPACE
    ensures GroupOk(old(overlay.img), old(Docs(overlay.img, overlay.shape)), old(overlay.Numbers()), requests, outcomes,
                    batches, shapes, states, overlay.img, overlay.Numbers(), overlay.maxValueSize)
    ensures Docs(overlay.img, overlay.shape) == SerialState(old(Docs(overlay.img, overlay.shape)), requests, outcomes)
    ensures Roomy(shapes) && forall i :: 0 <= i < |batches| ==> batches[i].pages != map[]
  {
    hide Working, GroupOk, StampedBelow, Refusal, CapAfter, Docs, Accepted, Numbered, SerialState;
    ghost var img0, s0, first := overlay.img, Docs(overlay.img, overlay.shape), overlay.Numbers();
    outcomes, batches, shapes, states := [], [], [overlay.shape], [s0];
    GroupStart(overlay.img, overlay.shape, first, overlay.maxValueSize);
    assert requests[..0] == [];
    for i := 0 to |requests|
      invariant overlay.Clean() && 2 * overlay.shape.cap <= RECORD_SPACE
      invariant GroupOk(img0, s0, first, requests[..i], outcomes, batches, shapes, states,
                        overlay.img, overlay.Numbers(), overlay.maxValueSize)
      invariant |states| == |batches| + 1 && states[|batches|] == Docs(overlay.img, overlay.shape) && Roomy(shapes)
      invariant forall k :: 0 <= k < |batches| ==> batches[k].pages != map[]
    {
      if Admissible(requests[i], overlay.maxValueSize) {
        HalfPageCap(overlay.shape.cap, requests[i].mutations, overlay.inlineLimit);
      } else {
        NotAdmissible(Docs(overlay.img, overlay.shape), requests[i], overlay.maxValueSize);
      }
      CleanPending(overlay);
      assert [] + requests[i].mutations == requests[i].mutations;
      ghost var img1, sh1, now, bound := overlay.img, overlay.shape, overlay.Numbers(), overlay.nextRevision;
      var r; ghost var n, via;
      r, n, via := overlay.PrepareTransaction(requests[i], overlay.img, overlay.shape, []);
      if r.Ok? && r.value.Some? {
        var b := r.value.value;
        AcceptedWrites(img1, sh1, overlay.img, overlay.shape, requests[i].mutations, b, now, bound);
        GroupAccept(img0, s0, first, requests, i, outcomes, batches, shapes, states, img1, now, overlay.maxValueSize,
                    sh1, b, overlay.img, overlay.shape);
        outcomes, batches := outcomes + [Ok(Some(b.commitLsn))], batches + [b];
        shapes, states := shapes + [overlay.shape], states + [Docs(overlay.img, overlay.shape)];
      } else {
        var outcome: Outcome := if r.Ok? then Ok(None) else Err(r.error);
        GroupSkip(img0, s0, first, requests, i, outcomes, batches, shapes, states, overlay.img, now, overlay.maxValueSize, outcome);
        outcomes := outcomes + [outcome];
      }
    }
    assert requests[..|requests|] == requests;
    GroupEnd(img0, s0, first, requests, outcomes, batches, shapes, states, overlay.img, overlay.Numbers(), overlay.maxValueSize);
  }

  lemma NotAdmissible(s: States, request: Request, maxValueSize: nat)
    requires !Admissible(request, maxValueSize)
    ensures Refusal(s, request, maxValueSize).Some?
  {
  }

  /** A clean overlay has nothing left over. */
  lemma CleanPending(overlay: Overlay)
    requires overlay.Settled()
    ensures overlay.Pending(overlay.img, overlay.shape, [])
  {
    hide Working, StampedBelow;
    StagedNothing(overlay.img, overlay.shape, overlay.nextRevision);
  }

  lemma GroupEnd(img0: Image, s0: States, first: Counters, requests: seq<Request>, outcomes: seq<Outcome>,
                 batches: seq<Prepared>, shapes: seq<Shape>, states: seq<States>, img: Image, now: Counters, maxValueSize: nat)
    requires GroupOk(img0, s0, first, requests, outcomes, batches, shapes, states, img, now, maxValueSize)
    ensures |outcomes| == |requests| && |states| == |batches| + 1 && states[|batches|] == SerialState(s0, requests, outcomes)
  {
    hide Holds;
  }

  // ---------------------------------------------------------------- the reference model agrees

  ghost predicate WithinLimits(request: Request, maxValueSize: nat) {
    && (forall i :: 0 <= i < |request.mutations| ==> MutationOk(request.mutations[i], maxValueSize))
    && (forall i :: 0 <= i < |request.conditions| ==> |Encoded(request.conditions[i].key)| <= MAX_ENCODED_KEY_SIZE)
  }

  lemma {:induction false} UnmetIsConflict(s: States, conditions: seq<Condition>)
    requires forall i :: 0 <= i < |conditions| ==> |Encoded(conditions[i].key)| <= MAX_ENCODED_KEY_SIZE
    ensures Unmet(s, conditions) == FirstConflict(s, conditions)
  {
    if conditions != [] {
      assert |Encoded(conditions[0].key)| <= MAX_ENCODED_KEY_SIZE;
      UnmetIsConflict(s, conditions[1..]);
    }
  }

  /** Within the storage limits the store refuses exactly what the reference
      model refuses. */
  lemma RefusalIsReference(s: States, request: Request, lsn: nat, maxValueSize: nat)
    requires WithinLimits(request, maxValueSize) && lsn > 0
    ensures match TransactAt(s, request, lsn)
            case Err(error) => Refusal(s, request, maxValueSize) == Some(error)
            case Ok(after) => Refusal(s, request, maxValueSize) == None
  {
    UnmetIsConflict(s, request.conditions);
  }

  /** The reference model run on the requests at given commit LSNs. */
  ghost function ReferenceState(s: States, requests: seq<Request>, lsns: seq<nat>): States
    requires |lsns| == |requests|
  {
    if requests == [] then s
    else
      var n := |requests| - 1;
      var before := ReferenceState(s, requests[..n], lsns[..n]);
      match TransactAt(before, requests[n], lsns[n])
      case Ok(after) => after
      case Err(_) => before
  }

  ghost predicate Replays(outcomes: seq<Outcome>, lsns: seq<nat>) {
    && |lsns| == |outcomes|
    && forall i :: 0 <= i < |outcomes| ==>
         lsns[i] > 0 && (outcomes[i].Ok? && outcomes[i].value.Some? ==> lsns[i] == outcomes[i].value.value)
  }

  /** The store's outcome is the answer of the reference model at that LSN. */
  ghost predicate Agrees(s: States, request: Request, lsn: nat, outcome: Outcome) {
    match TransactAt(s, request, lsn)
    case Err(error) => outcome == Err(error)
    case Ok(_) => outcome == if request.mutations == [] then Ok(None) else Ok(Some(lsn))
  }

  lemma OutcomeAgrees(s: States, request: Request, outcome: Outcome, lsn: nat, maxValueSize: nat)
    requires OutcomeOk(s, request, outcome, maxValueSize) && WithinLimits(request, maxValueSize) && lsn > 0
    requires outcome.Ok? && outcome.value.Some? ==> lsn == outcome.value.value
    ensures Agrees(s, request, lsn, outcome)
    ensures TransactAt(s, request, lsn).Ok? && outcome.value.None? ==> TransactAt(s, request, lsn).value == s
  {
    RefusalIsReference(s, request, lsn, maxValueSize);
  }

  lemma {:induction false} SerialIsReference(s: States, requests: seq<Request>, outcomes: seq<Outcome>, lsns: seq<nat>, maxValueSize: nat)
    requires Serial(s, requests, outcomes, maxValueSize) && Replays(outcomes, lsns)
    requires forall i :: 0 <= i < |requests| ==> WithinLimits(requests[i], maxValueSize)
    ensures SerialState(s, requests, outcomes) == ReferenceState(s, requests, lsns)
  {
    if requests != [] {
      var n := |requests| - 1;
      SerialPrefix(s, requests, outcomes, n, maxValueSize);
      assert OutcomeOk(SerialState(s, requests[..n], outcomes[..n]), requests[n], outcomes[n], maxValueSize);
      hide OutcomeOk, WithinLimits;
      SerialIsReference(s, requests[..n], outcomes[..n], lsns[..n], maxValueSize);
      OutcomeAgrees(SerialState(s, requests[..n], outcomes[..n]), requests[n], outcomes[n], lsns[n], maxValueSize);
    }
  }

  /** Replaying a group on the reference model with the returned commit LSNs
      gives the same answers and the same documents. */
  lemma GroupIsReference(s: States, requests: seq<Request>, outcomes: seq<Outcome>, lsns: seq<nat>, maxValueSize: nat)
    requires Serial(s, requests, outcomes, maxValueSize) && Replays(outcomes, lsns)
    requires forall i :: 0 <= i < |requests| ==> WithinLimits(requests[i], maxValueSize)
    ensures SerialState(s, requests, outcomes) == ReferenceState(s, requests, lsns)
    ensures forall i :: 0 <= i < |requests| ==>
              Agrees(ReferenceState(s, requests[..i], lsns[..i]), requests[i], lsns[i], outcomes[i])
  {
    hide OutcomeOk, WithinLimits, Agrees;
    SerialIsReference(s, requests, outcomes, lsns, maxValueSize);
    forall i | 0 <= i < |requests|
      ensures Agrees(ReferenceState(s, requests[..i], lsns[..i]), requests[i], lsns[i], outcomes[i])
    {
      SerialPrefix(s, requests, outcomes, i, maxValueSize);
      SerialIsReference(s, requests[..i], outcomes[..i], lsns[..i], maxValueSize);
      OutcomeAgrees(SerialState(s, requests[..i], outcomes[..i]), requests[i], outcomes[i], lsns[i], maxValueSize);
    }
  }

  lemma SerialPrefix(s: States, requests: seq<Request>, outcomes: seq<Outcome>, n: nat, maxValueSize: nat)
    requires Serial(s, requests, outcomes, maxValueSize) && n <= |requests|
    ensures Serial(s, requests[..n], outcomes[..n], maxValueSize)
  {
    forall i | 0 <= i < n
      ensures OutcomeOk(SerialState(s, requests[..n][..i], outcomes[..n][..i]), requests[..n][i], outcomes[..n][i], maxValueSize)
    {
      assert requests[..n][..i] == requests[..i] && outcomes[..n][..i] == outcomes[..i];
    }
  }
}
