/** What was asked of the store and what it answered, over several groups and
    crashes: a serial execution from the empty database. */
module Tales {
  import opened Reference
  import opened Errors
  import opened Transactions
  import opened GroupCommit

  // ---------------------------------------------------------------- joining serial runs

  lemma {:induction false} SerialStateJoin(s: States, a: seq<Request>, oa: seq<Outcome>, b: seq<Request>, ob: seq<Outcome>)
    requires |oa| == |a| && |ob| == |b|
    ensures SerialState(s, a + b, oa + ob) == SerialState(SerialState(s, a, oa), b, ob)
  {
    if b == [] {
      assert a + b == a && oa + ob == oa;
    } else {
      var n := |b| - 1;
      SerialStateJoin(s, a, oa, b[..n], ob[..n]);
      assert (a + b)[..|a| + n] == a + b[..n] && (oa + ob)[..|a| + n] == oa + ob[..n];
    }
  }

  lemma SerialJoin(s: States, a: seq<Request>, oa: seq<Outcome>, b: seq<Request>, ob: seq<Outcome>, maxValueSize: nat)
    requires Serial(s, a, oa, maxValueSize) && Serial(SerialState(s, a, oa), b, ob, maxValueSize)
    ensures Serial(s, a + b, oa + ob, maxValueSize)
  {
    hide OutcomeOk, SerialState;
    forall i | 0 <= i < |a + b|
      ensures OutcomeOk(SerialState(s, (a + b)[..i], (oa + ob)[..i]), (a + b)[i], (oa + ob)[i], maxValueSize)
    {
      if i < |a| {
        assert (a + b)[..i] == a[..i] && (oa + ob)[..i] == oa[..i];
      } else {
        var j := i - |a|;
        assert (a + b)[..i] == a + b[..j] && (oa + ob)[..i] == oa + ob[..j];
        SerialStateJoin(s, a, oa, b[..j], ob[..j]);
        assert OutcomeOk(SerialState(SerialState(s, a, oa), b[..j], ob[..j]), b[j], ob[j], maxValueSize);
      }
    }
  }

  lemma {:induction false} CommittedJoin(a: seq<Outcome>, b: seq<Outcome>)
    ensures Committed(a + b) == Committed(a) + Committed(b)
  {
    if b == [] {
      assert a + b == a;
    } else {
      assert (a + b)[..|a + b| - 1] == a + b[..|b| - 1];
      CommittedJoin(a, b[..|b| - 1]);
    }
  }

  lemma {:induction false} CommittedPrefix(outcomes: seq<Outcome>, p: nat)
    requires p <= |outcomes|
    ensures Committed(outcomes[..p]) <= Committed(outcomes)
  {
    assert outcomes == outcomes[..p] + outcomes[p..];
    CommittedJoin(outcomes[..p], outcomes[p..]);
  }

  lemma AlongJoin(s: States, a: seq<Request>, oa: seq<Outcome>, docs: seq<States>, b: seq<Request>, ob: seq<Outcome>, more: seq<States>)
    requires Along(s, a, oa, docs) && |docs| == |Committed(oa)| + 1
    requires Along(docs[|docs| - 1], b, ob, more) && more != [] && more[0] == docs[|docs| - 1]
    ensures SerialState(s, a, oa) == docs[|docs| - 1]
    ensures Along(s, a + b, oa + ob, docs + more[1..])
  {
    hide SerialState, Committed;
    assert StateAt(s, a, oa, docs, |a|);
    assert a[..|a|] == a && oa[..|a|] == oa;
    var all := docs + more[1..];
    forall p | 0 <= p <= |a + b| ensures StateAt(s, a + b, oa + ob, all, p) {
      if p <= |a| {
        assert StateAt(s, a, oa, docs, p);
        assert (a + b)[..p] == a[..p] && (oa + ob)[..p] == oa[..p];
      } else {
        var q := p - |a|;
        assert StateAt(docs[|docs| - 1], b, ob, more, q);
        assert (a + b)[..p] == a + b[..q] && (oa + ob)[..p] == oa + ob[..q];
        SerialStateJoin(s, a, oa, b[..q], ob[..q]);
        CommittedJoin(oa, ob[..q]);
      }
    }
  }

  lemma AlongPrefix(s: States, requests: seq<Request>, outcomes: seq<Outcome>, docs: seq<States>, p: nat)
    requires Along(s, requests, outcomes, docs) && p <= |requests| && |Committed(outcomes[..p])| < |docs|
    ensures Along(s, requests[..p], outcomes[..p], docs[..|Committed(outcomes[..p])| + 1])
  {
    hide SerialState, Committed;
    var rs, os, ds := requests[..p], outcomes[..p], docs[..|Committed(outcomes[..p])| + 1];
    forall q | 0 <= q <= p ensures StateAt(s, rs, os, ds, q) {
      assert StateAt(s, requests, outcomes, docs, q);
      assert rs[..q] == requests[..q] && os[..q] == outcomes[..q];
      CommittedPrefix(os, q);
    }
  }

  // ---------------------------------------------------------------- cutting a serial run

  /** The shortest prefix with n commits. */
  ghost function CutAt(outcomes: seq<Outcome>, n: nat): (p: nat)
    ensures p <= |outcomes|
  {
    if outcomes == [] || |Committed(outcomes[..|outcomes| - 1])| < n then |outcomes|
    else CutAt(outcomes[..|outcomes| - 1], n)
  }

  lemma {:induction false} CutCommits(outcomes: seq<Outcome>, n: nat)
    requires n <= |Committed(outcomes)|
    ensures |Committed(outcomes[..CutAt(outcomes, n)])| == n
  {
    if outcomes != [] {
      var before := outcomes[..|outcomes| - 1];
      if |Committed(before)| >= n {
        CutCommits(before, n);
        assert before[..CutAt(before, n)] == outcomes[..CutAt(before, n)];
      } else {
        assert outcomes[..|outcomes|] == outcomes;
      }
    }
  }

  // ---------------------------------------------------------------- tales

  /** All requests whose effects are not lost, with their outcomes; the first
      `settled` of them belong to groups that were synced.  docs lists the
      documents after each commit. */
  datatype Tale = Tale(requests: seq<Request>, outcomes: seq<Outcome>, settled: nat, docs: seq<States>)

  ghost predicate TaleOk(t: Tale, maxValueSize: nat) {
    && Serial([], t.requests, t.outcomes, maxValueSize)
    && Along([], t.requests, t.outcomes, t.docs)
    && |t.docs| == |Committed(t.outcomes)| + 1
    && t.settled <= |t.requests|
  }

  /** The documents after the last commit. */
  ghost function Now(t: Tale): States {
    if t.docs == [] then [] else t.docs[|t.docs| - 1]
  }

  ghost function NoTale(): Tale {
    Tale([], [], 0, [[]])
  }

  lemma NoTaleOk(maxValueSize: nat)
    ensures TaleOk(NoTale(), maxValueSize)
  {
    assert StateAt([], [], [], [[]], 0);
  }

  /** The documents at the end. */
  lemma TaleEnds(t: Tale, maxValueSize: nat)
    requires TaleOk(t, maxValueSize)
    ensures t.docs != [] && t.docs[|t.docs| - 1] == SerialState([], t.requests, t.outcomes)
  {
    hide Serial, SerialState, Committed;
    assert StateAt([], t.requests, t.outcomes, t.docs, |t.requests|);
    assert t.requests[..|t.requests|] == t.requests && t.outcomes[..|t.requests|] == t.outcomes;
  }

  ghost function TaleGrown(t: Tale, requests: seq<Request>, outcomes: seq<Outcome>, states: seq<States>): Tale
    requires states != []
  {
    Tale(t.requests + requests, t.outcomes + outcomes, t.settled, t.docs + states[1..])
  }

  lemma TaleGrows(t: Tale, requests: seq<Request>, outcomes: seq<Outcome>, states: seq<States>, maxValueSize: nat)
    requires TaleOk(t, maxValueSize) && states != [] && states[0] == t.docs[|t.docs| - 1]
    requires Serial(states[0], requests, outcomes, maxValueSize) && Along(states[0], requests, outcomes, states)
    requires |states| == |Committed(outcomes)| + 1
    ensures TaleOk(TaleGrown(t, requests, outcomes, states), maxValueSize)
    ensures Committed(TaleGrown(t, requests, outcomes, states).outcomes) == Committed(t.outcomes) + Committed(outcomes)
  {
    hide Serial, SerialState, Committed, Along;
    TaleEnds(t, maxValueSize);
    AlongJoin([], t.requests, t.outcomes, t.docs, requests, outcomes, states);
    SerialJoin([], t.requests, t.outcomes, requests, outcomes, maxValueSize);
    CommittedJoin(t.outcomes, outcomes);
  }

  /** How many requests are left when n commits survive: everything if no commit
      is lost, otherwise the synced groups and the requests up to the last
      surviving commit. */
  ghost function Survivors(t: Tale, n: nat): (p: nat)
    requires t.settled <= |t.outcomes|
    ensures p <= |t.outcomes|
  {
    if n == |Committed(t.outcomes)| then |t.outcomes|
    else if CutAt(t.outcomes, n) < t.settled then t.settled
    else CutAt(t.outcomes, n)
  }

  ghost function TaleCut(t: Tale, n: nat): Tale
    requires t.settled <= |t.outcomes| == |t.requests| && n < |t.docs|
  {
    var p := Survivors(t, n);
    Tale(t.requests[..p], t.outcomes[..p], p, t.docs[..n + 1])
  }

  lemma TaleCuts(t: Tale, n: nat, maxValueSize: nat)
    requires TaleOk(t, maxValueSize) && |Committed(t.outcomes[..t.settled])| <= n <= |Committed(t.outcomes)|
    ensures |t.outcomes| == |t.requests| && TaleOk(TaleCut(t, n), maxValueSize)
    ensures Committed(TaleCut(t, n).outcomes) == Committed(t.outcomes)[..n]
    ensures t.requests[..t.settled] <= TaleCut(t, n).requests && t.outcomes[..t.settled] <= TaleCut(t, n).outcomes
  {
    hide SerialState, Committed, Along, OutcomeOk;
    var p := Survivors(t, n);
    CutCommits(t.outcomes, n);
    assert t.outcomes[..|t.outcomes|] == t.outcomes;
    if p == t.settled && n < |Committed(t.outcomes)| {
      CommittedPrefix(t.outcomes[..t.settled], CutAt(t.outcomes, n));
      if CutAt(t.outcomes, n) <= t.settled {
        assert t.outcomes[..t.settled][..CutAt(t.outcomes, n)] == t.outcomes[..CutAt(t.outcomes, n)];
      }
    }
    assert |Committed(t.outcomes[..p])| == n;
    CommittedPrefix(t.outcomes, p);
    SerialPrefix([], t.requests, t.outcomes, p, maxValueSize);
    AlongPrefix([], t.requests, t.outcomes, t.docs, p);
    assert t.settled <= p;
    assert t.requests[..p][..t.settled] == t.requests[..t.settled] && t.outcomes[..p][..t.settled] == t.outcomes[..t.settled];
  }
}
