/** The coordinator: runs of writes are committed as groups, the read view is
    brought up to date, and only then the callers are answered
    (btree/coordinator.rs). */
module Coordinator {
  import opened Lex
  import opened KeyCodec
  import opened Pages
  import opened Splits
  import opened Database
  import opened Reference
  import opened Errors
  import opened Reads
  import opened Budget
  import opened Queries
  import opened Transactions
  import opened Stamps
  import opened Batches
  import opened ReadView
  import Group = GroupCommit
  import Staging = Overlay

  datatype Operation = Write(request: Request) | Read(key: DocumentKey, maximum: nat)

  datatype Response = Wrote(outcome: Group.Outcome) | Got(state: Result<RevisionState>)

  // ---------------------------------------------------------------- what the answers must be

  /** The documents after some operations, given their answers. */
  ghost function StateAfter(s: States, ops: seq<Operation>, responses: seq<Response>): States
    requires |responses| == |ops|
  {
    if ops == [] then s
    else
      var n := |ops| - 1;
      var before := StateAfter(s, ops[..n], responses[..n]);
      if ops[n].Write? && responses[n].Wrote? && responses[n].outcome.Ok? && responses[n].outcome.value.Some?
      then ApplyMutations(before, ops[n].request.mutations, responses[n].outcome.value.value)
      else before
  }

  /** The answer to a read: exactly the state of the key if it fits the budget. */
  ghost predicate ReadOk(s: States, key: DocumentKey, maximum: nat, r: Result<RevisionState>) {
    if maximum < RESPONSE_WIRE_OVERHEAD then r == Err(ResponseTooLarge)
    else if |Encoded(key)| > MAX_ENCODED_KEY_SIZE then r == Err(InvalidInput)
    else
      var state := Get(s, key);
      var budget := Account(maximum, Saturating(maximum + RESPONSE_MEMORY_OVERHEAD), RESPONSE_WIRE_OVERHEAD, 0);
      r == if budget.Admits(StateLength(state) + 13, Saturating(StateLength(state) + 32)) then Ok(state) else Err(ResponseTooLarge)
  }

  ghost predicate ResponseOk(s: States, op: Operation, response: Response, maxValueSize: nat) {
    match op
    case Write(request) => response.Wrote? && Group.OutcomeOk(s, request, response.outcome, maxValueSize)
    case Read(key, maximum) => response.Got? && ReadOk(s, key, maximum, response.state)
  }

  /** Every answer is that of executing the operations one after the other. */
  ghost predicate Answered(s: States, ops: seq<Operation>, responses: seq<Response>, maxValueSize: nat) {
    && |responses| == |ops|
    && forall i :: 0 <= i < |ops| ==> AnsweredAt(s, ops, responses, maxValueSize, i)
  }

  ghost predicate AnsweredAt(s: States, ops: seq<Operation>, responses: seq<Response>, maxValueSize: nat, i: nat)
    requires i < |ops| == |responses|
  {
    ResponseOk(StateAfter(s, ops[..i], responses[..i]), ops[i], responses[i], maxValueSize)
  }

  lemma AnsweredMore(s: States, ops: seq<Operation>, responses: seq<Response>, op: Operation, response: Response, maxValueSize: nat)
    requires Answered(s, ops, responses, maxValueSize) && ResponseOk(StateAfter(s, ops, responses), op, response, maxValueSize)
    ensures Answered(s, ops + [op], responses + [response], maxValueSize)
  {
    hide ResponseOk, StateAfter;
    var ops', rs' := ops + [op], responses + [response];
    forall i | 0 <= i < |ops'| ensures AnsweredAt(s, ops', rs', maxValueSize, i) {
      if i < |ops| {
        assert AnsweredAt(s, ops, responses, maxValueSize, i);
        assert ops'[..i] == ops[..i] && rs'[..i] == responses[..i];
      } else {
        assert ops'[..i] == ops && rs'[..i] == responses;
      }
    }
  }

  lemma StateMore(s: States, ops: seq<Operation>, responses: seq<Response>, op: Operation, response: Response)
    requires |responses| == |ops|
    ensures StateAfter(s, ops + [op], responses + [response]) ==
            if op.Write? && response.Wrote? && response.outcome.Ok? && response.outcome.value.Some?
            then ApplyMutations(StateAfter(s, ops, responses), op.request.mutations, response.outcome.value.value)
            else StateAfter(s, ops, responses)
  {
    assert (ops + [op])[..|ops|] == ops && (responses + [response])[..|ops|] == responses;
  }

  function Writes(requests: seq<Request>): seq<Operation> {
    seq(|requests|, i requires 0 <= i < |requests| => Write(requests[i]))
  }

  function Wrotes(outcomes: seq<Group.Outcome>): seq<Response> {
    seq(|outcomes|, i requires 0 <= i < |outcomes| => Wrote(outcomes[i]))
  }

  /** A group that was executed serially answers its segment. */
  lemma {:induction false} GroupAnswers(s: States, ops: seq<Operation>, responses: seq<Response>, requests: seq<Request>,
                                        outcomes: seq<Group.Outcome>, maxValueSize: nat)
    requires Answered(s, ops, responses, maxValueSize)
    requires Group.Serial(StateAfter(s, ops, responses), requests, outcomes, maxValueSize)
    ensures |outcomes| == |requests|
    ensures Answered(s, ops + Writes(requests), responses + Wrotes(outcomes), maxValueSize)
    ensures StateAfter(s, ops + Writes(requests), responses + Wrotes(outcomes))
         == Group.SerialState(StateAfter(s, ops, responses), requests, outcomes)
  {
    hide Group.OutcomeOk, Group.Serial, Answered, StateAfter, ApplyMutations, Writes, Wrotes;
    AnsweredCount(s, ops, responses, maxValueSize);
    SerialLast(StateAfter(s, ops, responses), requests, outcomes, maxValueSize);
    if requests == [] {
      NoWrites(ops, responses);
    } else {
      var n, now := |requests| - 1, StateAfter(s, ops, responses);
      Group.SerialPrefix(now, requests, outcomes, n, maxValueSize);
      GroupAnswers(s, ops, responses, requests[..n], outcomes[..n], maxValueSize);
      WritesMore(ops, responses, requests, outcomes);
      var ops1, rs1 := ops + Writes(requests[..n]), responses + Wrotes(outcomes[..n]);
      AnsweredMore(s, ops1, rs1, Write(requests[n]), Wrote(outcomes[n]), maxValueSize);
      StateMore(s, ops1, rs1, Write(requests[n]), Wrote(outcomes[n]));
    }
  }

  lemma SerialLast(s: States, requests: seq<Request>, outcomes: seq<Group.Outcome>, maxValueSize: nat)
    requires Group.Serial(s, requests, outcomes, maxValueSize)
    ensures |outcomes| == |requests|
    ensures requests != [] ==>
              var n := |requests| - 1;
              Group.OutcomeOk(Group.SerialState(s, requests[..n], outcomes[..n]), requests[n], outcomes[n], maxValueSize)
  {
    hide Group.OutcomeOk, Group.SerialState;
  }

  lemma NoWrites(ops: seq<Operation>, responses: seq<Response>)
    ensures ops + Writes([]) == ops && responses + Wrotes([]) == responses
  {
  }

  lemma WritesMore(ops: seq<Operation>, responses: seq<Response>, requests: seq<Request>, outcomes: seq<Group.Outcome>)
    requires |outcomes| == |requests| > 0 && |responses| == |ops|
    ensures var n := |requests| - 1;
            && |ops + Writes(requests[..n])| == |responses + Wrotes(outcomes[..n])|
            && ops + Writes(requests) == ops + Writes(requests[..n]) + [Write(requests[n])]
            && responses + Wrotes(outcomes) == responses + Wrotes(outcomes[..n]) + [Wrote(outcomes[n])]
  {
  }

  lemma AnsweredCount(s: States, ops: seq<Operation>, responses: seq<Response>, maxValueSize: nat)
    requires Answered(s, ops, responses, maxValueSize)
    ensures |responses| == |ops|
  {
  }

  // ---------------------------------------------------------------- commit LSNs

  function CommitOf(r: Response): Option<nat> {
    if r.Wrote? && r.outcome.Ok? then r.outcome.value else None
  }

  /** The commit LSNs answered rise strictly, between the two bounds. */
  ghost predicate Rising(responses: seq<Response>, low: nat, high: nat) {
    && (forall i :: 0 <= i < |responses| && CommitOf(responses[i]).Some? ==> low <= CommitOf(responses[i]).value < high)
    && (forall i, j :: 0 <= i < j < |responses| && CommitOf(responses[i]).Some? && CommitOf(responses[j]).Some? ==>
          CommitOf(responses[i]).value < CommitOf(responses[j]).value)
  }

  lemma RisingJoin(a: seq<Response>, b: seq<Response>, low: nat, mid: nat, high: nat)
    requires Rising(a, low, mid) && Rising(b, mid, high) && low <= mid <= high
    ensures Rising(a + b, low, high)
  {
    hide CommitOf;
    var all := a + b;
    forall i | 0 <= i < |all| && CommitOf(all[i]).Some? ensures low <= CommitOf(all[i]).value < high {
      assert all[i] == if i < |a| then a[i] else b[i - |a|];
    }
    forall i, j | 0 <= i < j < |all| && CommitOf(all[i]).Some? && CommitOf(all[j]).Some?
      ensures CommitOf(all[i]).value < CommitOf(all[j]).value
    {
      assert all[i] == if i < |a| then a[i] else b[i - |a|];
      assert all[j] == if j < |a| then a[j] else b[j - |a|];
    }
  }

  lemma {:induction false} RisingFrom(outcomes: seq<Group.Outcome>, lsns: seq<nat>, low: nat, high: nat)
    requires Group.Committed(outcomes) == lsns && low <= high
    requires forall i :: 0 <= i < |lsns| ==> low <= lsns[i] < high
    requires forall i, j :: 0 <= i < j < |lsns| ==> lsns[i] < lsns[j]
    ensures Rising(Wrotes(outcomes), low, high)
  {
    if outcomes != [] {
      var n, last := |outcomes| - 1, outcomes[|outcomes| - 1];
      var lsn := CommitOf(Wrote(last));
      var before := Group.Committed(outcomes[..n]);
      assert lsns == before + if lsn.Some? then [lsn.value] else [];
      var mid := if lsn.Some? then lsn.value else high;
      assert forall i :: 0 <= i < |before| ==> before[i] == lsns[i];
      assert lsn.Some? ==> lsns[|before|] == lsn.value;
      RisingFrom(outcomes[..n], before, low, mid);
      assert Wrotes(outcomes) == Wrotes(outcomes[..n]) + [Wrote(last)];
      RisingJoin(Wrotes(outcomes[..n]), [Wrote(last)], low, mid, high);
    }
  }

  lemma GroupRising(batches: seq<Prepared>, first: Counters, outcomes: seq<Group.Outcome>)
    requires Ordered(batches, first) && Group.CommitLsns(batches) == Group.Committed(outcomes)
    ensures first.nextLsn <= Next(batches, |batches|, first).nextLsn
    ensures Rising(Wrotes(outcomes), first.nextLsn, Next(batches, |batches|, first).nextLsn)
  {
    hide Rising;
    var lsns := Group.CommitLsns(batches);
    CountersAscend(batches, first, 0, |batches|);
    forall i | 0 <= i < |lsns| ensures first.nextLsn <= lsns[i] < Next(batches, |batches|, first).nextLsn {
      CountersAscend(batches, first, 0, i);
      CountersAscend(batches, first, i + 1, |batches|);
      assert InOrder(batches, i, first);
    }
    forall i, j | 0 <= i < j < |lsns| ensures lsns[i] < lsns[j] {
      CommitLsnsAscend(batches, first, i, j);
    }
    RisingFrom(outcomes, lsns, first.nextLsn, Next(batches, |batches|, first).nextLsn);
  }

  // ---------------------------------------------------------------- what readers see

  function Repeat<T>(x: T, n: nat): (r: seq<T>)
    ensures |r| == n && forall i :: 0 <= i < n ==> r[i] == x
  {
    seq(n, _ => x)
  }

  /** Where the segment of an operation ends: a run of writes, or a single read. */
  function SegmentEnd(ops: seq<Operation>, i: nat): (e: nat)
    requires i < |ops|
    ensures i < e <= |ops|
    decreases |ops| - i
  {
    if ops[i].Write? && i + 1 < |ops| && ops[i + 1].Write? then SegmentEnd(ops, i + 1) else i + 1
  }

  lemma {:induction false} RunEnds(ops: seq<Operation>, i: nat, end: nat)
    requires i < end <= |ops| && (forall j :: i <= j < end ==> ops[j].Write?) && (end < |ops| ==> !ops[end].Write?)
    ensures SegmentEnd(ops, i) == end
    decreases end - i
  {
    if i + 1 < end {
      RunEnds(ops, i + 1, end);
    }
  }

  /** When operation i was answered, readers saw the documents after its segment. */
  ghost predicate ShownAt(s: States, ops: seq<Operation>, responses: seq<Response>, shown: seq<States>, i: nat)
    requires i < |ops|
  {
    var e := SegmentEnd(ops, i);
    e <= |responses| && i < |shown| && shown[i] == StateAfter(s, ops[..e], responses[..e])
  }

  lemma ShownStill(s: States, ops: seq<Operation>, responses: seq<Response>, more: seq<Response>, shown: seq<States>, news: seq<States>, n: nat)
    requires n <= |ops| && n <= |responses| && forall i :: 0 <= i < n ==> ShownAt(s, ops, responses, shown, i)
    ensures forall i :: 0 <= i < n ==> ShownAt(s, ops, responses + more, shown + news, i)
  {
    hide StateAfter;
    forall i | 0 <= i < n ensures ShownAt(s, ops, responses + more, shown + news, i) {
      var e := SegmentEnd(ops, i);
      assert ShownAt(s, ops, responses, shown, i);
      assert (responses + more)[..e] == responses[..e];
    }
  }

  lemma ShownNow(s: States, ops: seq<Operation>, responses: seq<Response>, shown: seq<States>, start: nat, end: nat, now: States)
    requires start < end <= |ops| && |responses| == end == |shown| && now == StateAfter(s, ops[..end], responses)
    requires forall i :: start <= i < end ==> SegmentEnd(ops, i) == end && shown[i] == now
    ensures forall i :: start <= i < end ==> ShownAt(s, ops, responses, shown, i)
  {
    hide StateAfter;
    assert responses[..end] == responses;
  }

  // ---------------------------------------------------------------- the coordinator

  /** The batches are numbered one after the other and lead from the image base
      to the image img. */
  ghost predicate Accounted(base: Image, first: Counters, batches: seq<Prepared>, img: Image, now: Counters) {
    Ordered(batches, first) && now == Next(batches, |batches|, first) && img == ImageAfter(base, batches)
  }

  lemma AccountedGrows(base: Image, first: Counters, logged: seq<Prepared>, img: Image, now: Counters, batches: seq<Prepared>)
    requires Accounted(base, first, logged, img, now) && Ordered(batches, now)
    ensures Accounted(base, first, logged + batches, ImageAfter(img, batches), Next(batches, |batches|, now))
    ensures Group.CommitLsns(logged + batches) == Group.CommitLsns(logged) + Group.CommitLsns(batches)
  {
    hide Ordered, ImageAfter;
    OrderedJoin(logged, batches, first);
    ImageJoin(base, logged, batches);
  }

  /** The published pages are what the view lacks. */
  ghost predicate Behind(seen: Image, published: PageMap, img: Image) {
    img.pages == seen.pages + published && (published == map[] ==> img == seen)
  }

  lemma BehindMore(seen: Image, published: PageMap, img: Image, b: Prepared)
    requires Behind(seen, published, img) && b.pages != map[]
    ensures Behind(seen, published + b.pages, ApplyBatch(img, b))
  {
    MergeAssoc(seen.pages, published, b.pages);
    assert published + b.pages != map[] by {
      var x :| x in b.pages;
      assert x in published + b.pages;
    }
  }

  class Coordinator {
    const inlineLimit: nat
    const maxValueSize: nat
    const checkpointLsn: nat
    const view: CommittedReadView
    /** What the store serves, and the pages published since the view was last
        brought up to date. */
    var img: Image
    var published: PageMap
    var nextRevision: nat
    var nextLsn: nat
    var nextBatchId: nat
    var generation: nat
    var slot: Slot
    var sent: seq<Response>
    /** For every response the documents the view showed when it was sent. */
    ghost var shown: seq<States>
    ghost var shape: Shape
    /** The committed image the view agrees with. */
    ghost var seen: Image
    ghost var seenShape: Shape
    /** Where the coordinator started, and all batches it has logged since. */
    ghost const base: Image
    ghost const first: Counters
    ghost var logged: seq<Prepared>

    ghost function Numbers(): Counters
      reads this
    {
      Counters(nextLsn, nextBatchId, generation, slot, checkpointLsn)
    }

    ghost predicate Stored()
      reads this
    {
      && Consistent(img, shape) && |shape.levels| > 0 && 2 * shape.cap <= RECORD_SPACE
      && 0 < nextRevision <= nextLsn && StampedBelow(img.pages, nextRevision)
    }

    ghost predicate Valid()
      reads this, view
    {
      && Stored() && Accounted(base, first, logged, img, Numbers()) && Consistent(seen, seenShape) && |seenShape.levels| > 0 && view.InStep(seen, seenShape) && |shown| == |sent|
      && Behind(seen, published, img)
    }

    /** What a reader of the view sees. */
    ghost function Shown(): States
      requires Valid()
      reads this, view
    {
      Docs(seen, seenShape)
    }

    /** The view answers from the committed image. */
    ghost predicate InStep()
      reads this, view
    {
      Valid() && seen == img && seenShape == shape
    }

    constructor (img: Image, view: CommittedReadView, nextRevision: nat, nextLsn: nat, nextBatchId: nat, generation: nat, slot: Slot,
                 checkpointLsn: nat, inlineLimit: nat, maxValueSize: nat, ghost shape: Shape)
      requires Consistent(img, shape) && |shape.levels| > 0 && 2 * shape.cap <= RECORD_SPACE && view.InStep(img, shape)
      requires 0 < nextRevision <= nextLsn && StampedBelow(img.pages, nextRevision)
      ensures InStep() && this.view == view && this.img == img && this.shape == shape && sent == [] && shown == [] && this.maxValueSize == maxValueSize
      ensures this.inlineLimit == inlineLimit && base == img && logged == []
      ensures first == Counters(nextLsn, nextBatchId, generation, slot, checkpointLsn)
    {
      hide Working, StampedBelow, ViewOk;
      this.inlineLimit, this.maxValueSize, this.checkpointLsn, this.view := inlineLimit, maxValueSize, checkpointLsn, view;
      this.img, published := img, map[];
      this.nextRevision, this.nextLsn, this.nextBatchId := nextRevision, nextLsn, nextBatchId;
      this.generation, this.slot, sent, shown := generation, slot, [], [];
      this.shape, seen, seenShape := shape, img, shape;
      base, first, logged := img, Counters(nextLsn, nextBatchId, generation, slot, checkpointLsn), [];
    }

    /** Stages the group in an overlay and, once it is logged, publishes its
        batches; the view is not touched. */
    method ApplyGroup(requests: seq<Request>) returns (outcomes: seq<Group.Outcome>)
      requires Valid() && Group.HalfPage(requests, inlineLimit, maxValueSize)
      modifies this
      ensures Valid() && sent == old(sent) && shown == old(shown) && seen == old(seen) && seenShape == old(seenShape)
      ensures old(nextLsn) <= nextLsn && Rising(Wrotes(outcomes), old(nextLsn), nextLsn)
      ensures Group.Serial(old(Docs(img, shape)), requests, outcomes, maxValueSize)
      ensures Docs(img, shape) == Group.SerialState(old(Docs(img, shape)), requests, outcomes)
      ensures Group.CommitLsns(logged) == old(Group.CommitLsns(logged)) + Group.Committed(outcomes)
    {
      hide Consistent, StampedBelow, ViewOk, Docs, Group.Serial, Group.SerialState, ImageAfter, Group.HalfPage, Rising, Wrotes, Ordered, Next,
           Group.CommitLsns, Group.Committed, Accounted;
      var batches, revision, counters; ghost var after;
      outcomes, batches, revision, counters, after := Stage(requests);
      AccountedGrows(base, first, logged, img, Numbers(), batches);
      Install(batches, revision, counters, after);
    }

    /** The group is logged: its batches are committed and its numbers used up. */
    method Install(batches: seq<Prepared>, revision: nat, counters: Counters, ghost after: Shape)
      requires Valid() && counters.checkpointLsn == checkpointLsn
      requires Accounted(base, first, logged + batches, ImageAfter(img, batches), counters)
      requires forall i :: 0 <= i < |batches| ==> batches[i].pages != map[]
      requires Consistent(ImageAfter(img, batches), after) && |after.levels| > 0 && 2 * after.cap <= RECORD_SPACE
      requires 0 < revision <= counters.nextLsn && StampedBelow(ImageAfter(img, batches).pages, revision)
      modifies this
      ensures Valid() && sent == old(sent) && shown == old(shown) && seen == old(seen) && seenShape == old(seenShape)
      ensures img == ImageAfter(old(img), batches) && shape == after && logged == old(logged) + batches && Numbers() == counters
    {
      hide Consistent, StampedBelow, ViewOk, ImageAfter, Accounted, Behind;
      Publish(batches);
      nextRevision, nextLsn, nextBatchId := revision, counters.nextLsn, counters.nextBatchId;
      generation, slot := counters.generation, counters.slot;
      logged, shape := logged + batches, after;
    }

    /** Prepares the group without changing what the store serves. */
    method Stage(requests: seq<Request>)
      returns (outcomes: seq<Group.Outcome>, batches: seq<Prepared>, revision: nat, counters: Counters, ghost after: Shape)
      requires Stored() && Group.HalfPage(requests, inlineLimit, maxValueSize)
      ensures Group.Serial(Docs(img, shape), requests, outcomes, maxValueSize)
      ensures nextLsn <= counters.nextLsn && Rising(Wrotes(outcomes), nextLsn, counters.nextLsn)
      ensures Ordered(batches, Numbers()) && counters == Next(batches, |batches|, Numbers()) && counters.checkpointLsn == checkpointLsn
      ensures Group.CommitLsns(batches) == Group.Committed(outcomes)
      ensures forall i :: 0 <= i < |batches| ==> batches[i].pages != map[]
      ensures Consistent(ImageAfter(img, batches), after) && |after.levels| > 0 && 2 * after.cap <= RECORD_SPACE
      ensures 0 < revision <= counters.nextLsn && StampedBelow(ImageAfter(img, batches).pages, revision)
      ensures Docs(ImageAfter(img, batches), after) == Group.SerialState(Docs(img, shape), requests, outcomes)
    {
      hide Working, StampedBelow, Docs, Group.GroupOk, Group.Serial, Group.SerialState, Group.Roomy, Group.HalfPage, Rising;
      var overlay := new Staging.Overlay(img, nextRevision, nextLsn, nextBatchId, generation, slot, checkpointLsn, inlineLimit, maxValueSize, shape);
      ghost var first := overlay.Numbers();
      ghost var shapes, states;
      outcomes, batches, shapes, states := Group.StageGroup(overlay, requests);
      GroupFacts(img, Docs(img, shape), first, requests, outcomes, batches, shapes, states, overlay.img, overlay.Numbers(), maxValueSize);
      revision, after := overlay.nextRevision, overlay.shape;
      counters := Counters(overlay.nextLsn, overlay.nextBatchId, overlay.generation, overlay.slot, checkpointLsn);
    }

    /** Every batch becomes committed and its pages are remembered for the view. */
    method Publish(batches: seq<Prepared>)
      requires Behind(seen, published, img)
      requires forall i :: 0 <= i < |batches| ==> batches[i].pages != map[]
      modifies `img, `published
      ensures img == ImageAfter(old(img), batches) && Behind(seen, published, img)
    {
      hide Behind;
      for i := 0 to |batches|
        invariant img == ImageAfter(old(img), batches[..i]) && Behind(seen, published, img)
      {
        assert batches[..i + 1][..i] == batches[..i];
        BehindMore(seen, published, img, batches[i]);
        img := ApplyBatch(img, batches[i]);
        published := published + batches[i].pages;
      }
      assert batches[..|batches|] == batches;
    }

    /** Hands the published pages to the view. */
    method PublishReadUpdates()
      requires Valid()
      modifies this`published, this`seen, this`seenShape, view
      ensures InStep()
    {
      hide Accounted, Working, StampedBelow, ViewOk;
      if published == map[] {
        SameImage();
        seenShape := shape;
        return;
      }
      var updates := published;
      view.ApplyUpdates(updates, img.root, img.high, seen, seenShape, img, shape);
      published := map[];
      seen, seenShape := img, shape;
    }

    /** An unchanged image has the live pages it had. */
    lemma SameImage()
      requires Valid() && published == map[]
      ensures view.InStep(img, shape)
    {
      hide Accounted, Working, StampedBelow;
      ViewUpdated(view.pages, seen, seenShape, map[], img, shape);
    }

    /** Sends responses; from now on their receivers may read from the view, so
        it is recorded what that shows. */
    method Respond(responses: seq<Response>)
      requires Valid()
      modifies `sent, `shown
      ensures Valid() && sent == old(sent) + responses
      ensures shown == old(shown) + Repeat(Shown(), |responses|)
    {
      hide Accounted, Working, StampedBelow, ViewOk, Docs;
      sent := sent + responses;
      shown := shown + Repeat(Docs(seen, seenShape), |responses|);
    }

    /** A run of writes: committed as one group, published, then answered.
        Whoever is answered can read the writes of the whole run. */
    method ProcessWrites(requests: seq<Request>) returns (ghost outcomes: seq<Group.Outcome>)
      requires InStep() && Group.HalfPage(requests, inlineLimit, maxValueSize)
      modifies this, view
      ensures InStep() && |outcomes| == |requests|
      ensures Group.Serial(old(Docs(img, shape)), requests, outcomes, maxValueSize)
      ensures Docs(img, shape) == Group.SerialState(old(Docs(img, shape)), requests, outcomes)
      ensures sent == old(sent) + Wrotes(outcomes) && shown == old(shown) + Repeat(Docs(img, shape), |outcomes|)
      ensures old(nextLsn) <= nextLsn && Rising(Wrotes(outcomes), old(nextLsn), nextLsn)
    {
      hide Accounted, Working, StampedBelow, ViewOk, Docs, Group.SerialState, Group.HalfPage, Group.OutcomeOk, Rising;
      var results := ApplyGroup(requests);
      outcomes := results;
      PublishReadUpdates();
      Respond(Wrotes(results));
    }

    method ProcessRead(key: DocumentKey, maximum: nat) returns (ghost r: Result<RevisionState>)
      requires InStep() && maximum <= USIZE_MAX
      modifies `sent, `shown
      ensures InStep() && ReadOk(Docs(img, shape), key, maximum, r)
      ensures sent == old(sent) + [Got(r)] && shown == old(shown) + [Docs(img, shape)]
    {
      hide Accounted, Working, StampedBelow, ViewOk, Docs, ReadOk;
      var state := ReadState(key, maximum);
      r := state;
      Respond([Got(state)]);
      assert Repeat(Docs(img, shape), 1) == [Docs(img, shape)];
    }

    /** Serves the operations in their order: maximal runs of writes as groups,
        reads one by one.  Every answer is that of the serial execution; when it
        is sent, the view shows all documents up to the end of its segment.
        Commit LSNs rise over all groups. */
    method Process(operations: seq<Operation>)
      requires InStep() && sent == [] && HalfPages(operations, inlineLimit, maxValueSize)
      modifies this, view
      ensures InStep() && Answered(old(Docs(img, shape)), operations, sent, maxValueSize)
      ensures |sent| == |operations| && Docs(img, shape) == StateAfter(old(Docs(img, shape)), operations, sent)
      ensures forall i :: 0 <= i < |operations| ==> ShownAt(old(Docs(img, shape)), operations, sent, shown, i)
      ensures Rising(sent, old(nextLsn), nextLsn)
    {
      hide Accounted, Working, StampedBelow, ViewOk, Docs, Group.SerialState, Group.HalfPage, Group.Serial, Answered, StateAfter, ReadOk, Rising, ShownAt, SegmentEnd,
           CommitOf;
      ghost var s0, lsn0 := Docs(img, shape), nextLsn;
      NothingAnswered(s0, maxValueSize, lsn0);
      var start := 0;
      assert operations[..0] == [];
      while start < |operations|
        invariant start <= |operations| && InStep() && |sent| == start && Answered(s0, operations[..start], sent, maxValueSize)
        invariant Docs(img, shape) == StateAfter(s0, operations[..start], sent)
        invariant forall i :: 0 <= i < start ==> ShownAt(s0, operations, sent, shown, i)
        invariant lsn0 <= nextLsn && Rising(sent, lsn0, nextLsn)
        decreases |operations| - start
      {
        ghost var was, shown0, mid := sent, shown, nextLsn;
        if operations[start].Write? {
          var end, requests := Segment(operations, start);
          HalfSegment(operations, start, end, requests, inlineLimit, maxValueSize);
          ghost var outcomes := ProcessWrites(requests);
          GroupAnswers(s0, operations[..start], was, requests, outcomes, maxValueSize);
          assert operations[..end] == operations[..start] + Writes(requests);
          RisingJoin(was, Wrotes(outcomes), lsn0, mid, nextLsn);
          WritesShown(s0, operations, start, end, requests, was, Wrotes(outcomes), shown0, Docs(img, shape));
          start := end;
        } else {
          ghost var r := ProcessRead(operations[start].key, operations[start].maximum);
          AnsweredMore(s0, operations[..start], was, operations[start], Got(r), maxValueSize);
          StateMore(s0, operations[..start], was, operations[start], Got(r));
          assert operations[..start + 1] == operations[..start] + [operations[start]];
          RisingRead(was, r, lsn0, nextLsn);
          ReadShown(s0, operations, start, was, [Got(r)], shown0, Docs(img, shape));
          start := start + 1;
        }
      }
      assert operations[..|operations|] == operations;
    }

    method ReadState(key: DocumentKey, maximum: nat) returns (r: Result<RevisionState>)
      requires Valid() && maximum <= USIZE_MAX
      ensures ReadOk(Docs(img, shape), key, maximum, r)
    {
      hide Accounted, Working, StampedBelow, ViewOk, Docs, Readable;
      if maximum < RESPONSE_WIRE_OVERHEAD {
        return Err(ResponseTooLarge);
      }
      ConsistentReadable(img, shape, {}, {});
      var budget := new ResponseBudget(maximum);
      r := GetState(img, key, budget, shape);
    }
  }

  lemma NothingAnswered(s: States, maxValueSize: nat, lsn: nat)
    ensures Answered(s, [], [], maxValueSize) && StateAfter(s, [], []) == s && Rising([], lsn, lsn)
  {
  }

  lemma RisingRead(was: seq<Response>, r: Result<RevisionState>, low: nat, high: nat)
    requires Rising(was, low, high) && low <= high
    ensures Rising(was + [Got(r)], low, high)
  {
    RisingJoin(was, [Got(r)], low, high, high);
  }

  lemma WritesShown(s: States, ops: seq<Operation>, start: nat, end: nat, requests: seq<Request>, was: seq<Response>, more: seq<Response>,
                    shown: seq<States>, now: States)
    requires start < end <= |ops| && ops[start..end] == Writes(requests) && (end < |ops| ==> !ops[end].Write?)
    requires |was| == start == |shown| && |more| == end - start && now == StateAfter(s, ops[..end], was + more)
    requires forall i :: 0 <= i < start ==> ShownAt(s, ops, was, shown, i)
    ensures forall i :: 0 <= i < end ==> ShownAt(s, ops, was + more, shown + Repeat(now, |more|), i)
  {
    hide StateAfter, ShownAt, SegmentEnd;
    ShownStill(s, ops, was, more, shown, Repeat(now, |more|), start);
    forall i | start <= i < end ensures SegmentEnd(ops, i) == end {
      assert forall j :: i <= j < end ==> ops[j] == ops[start..end][j - start];
      RunEnds(ops, i, end);
    }
    ShownNow(s, ops, was + more, shown + Repeat(now, |more|), start, end, now);
  }

  lemma ReadShown(s: States, ops: seq<Operation>, start: nat, was: seq<Response>, more: seq<Response>, shown: seq<States>, now: States)
    requires start < |ops| && !ops[start].Write? && |was| == start == |shown| && |more| == 1
    requires now == StateAfter(s, ops[..start + 1], was + more)
    requires forall i :: 0 <= i < start ==> ShownAt(s, ops, was, shown, i)
    ensures forall i :: 0 <= i < start + 1 ==> ShownAt(s, ops, was + more, shown + [now], i)
  {
    hide StateAfter, ShownAt;
    ShownStill(s, ops, was, more, shown, [now], start);
    ShownNow(s, ops, was + more, shown + [now], start, start + 1, now);
  }

  /** Every record the writes store takes at most half a page; budgets are
      machine words. */
  ghost predicate HalfPages(operations: seq<Operation>, inlineLimit: nat, maxValueSize: nat) {
    forall i :: 0 <= i < |operations| ==>
      match operations[i]
      case Write(request) => Group.HalfPage([request], inlineLimit, maxValueSize)
      case Read(_, maximum) => maximum <= USIZE_MAX
  }

  /** The run of writes that begins at start. */
  method Segment(operations: seq<Operation>, start: nat) returns (end: nat, requests: seq<Request>)
    requires start < |operations| && operations[start].Write?
    ensures start < end <= |operations| && operations[start..end] == Writes(requests)
    ensures end < |operations| ==> !operations[end].Write?
  {
    end, requests := start, [];
    while end < |operations| && operations[end].Write?
      invariant start <= end <= |operations| && |requests| == end - start && operations[start..end] == Writes(requests)
      invariant end == start ==> operations[end].Write?
    {
      assert operations[start..end + 1] == operations[start..end] + [operations[end]];
      requests := requests + [operations[end].request];
      end := end + 1;
    }
  }

  lemma HalfSegment(operations: seq<Operation>, start: nat, end: nat, requests: seq<Request>, inlineLimit: nat, maxValueSize: nat)
    requires HalfPages(operations, inlineLimit, maxValueSize) && start <= end <= |operations| && operations[start..end] == Writes(requests)
    ensures Group.HalfPage(requests, inlineLimit, maxValueSize) && |requests| == end - start
  {
    forall i | 0 <= i < |requests| && Group.Admissible(requests[i], maxValueSize) ensures Group.SmallRecords(requests[i], inlineLimit) {
      assert operations[start + i] == operations[start..end][i] == Write(requests[i]);
      assert Group.HalfPage([requests[i]], inlineLimit, maxValueSize);
      assert [requests[i]][0] == requests[i];
    }
  }

  lemma GroupFacts(img0: Image, s0: States, first: Counters, requests: seq<Request>, outcomes: seq<Group.Outcome>,
                   batches: seq<Prepared>, shapes: seq<Shape>, states: seq<States>, img: Image, now: Counters, maxValueSize: nat)
    requires Group.GroupOk(img0, s0, first, requests, outcomes, batches, shapes, states, img, now, maxValueSize)
    ensures Group.Serial(s0, requests, outcomes, maxValueSize) && img == ImageAfter(img0, batches)
    ensures first.nextLsn <= now.nextLsn && Rising(Wrotes(outcomes), first.nextLsn, now.nextLsn)
    ensures Ordered(batches, first) && now == Next(batches, |batches|, first) && Group.CommitLsns(batches) == Group.Committed(outcomes)
  {
    hide Group.Serial, Group.History, Group.Along, Ordered, Rising;
    GroupRising(batches, first, outcomes);
  }
}
