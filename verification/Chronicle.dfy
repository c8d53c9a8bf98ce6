/** The history of a store: every batch that reached the log and every
    superblock that was ever written for it. */
module Chronicle {
  import opened Pages
  import opened Batches
  import opened Versions
  import opened Redo

  /** A superblock together with the image it describes (after the first k
      batches) and the batches its checkpoint covers (the first j). */
  datatype Event = Event(sb: Superblock, k: nat, j: nat)

  datatype History = History(base: Image, lsn0: nat, log: seq<Prepared>, events: seq<Event>)

  /** Superblocks alternate between the slots, starting with slot A. */
  ghost function SlotAt(h: History, g: nat): Slot {
    if g % 2 == 0 then SlotA else SlotB
  }

  ghost function Last(h: History): nat
    requires h.events != []
  {
    |h.events| - 1
  }

  /** The batches the latest checkpoint covers. */
  ghost function Mark(h: History): nat
    requires h.events != []
  {
    h.events[Last(h)].j
  }

  /** The superblock of an event describes image k and checkpoint j. */
  ghost predicate Describes(h: History, e: Event) {
    && e.j <= e.k <= |h.log|
    && e.sb.root == Img(h.base, h.log, e.k).root
    && e.sb.freeHead == Img(h.base, h.log, e.k).freeHead
    && e.sb.high == Img(h.base, h.log, e.k).high
    && e.sb.checkpointLsn == LsnOf(h.lsn0, h.log, e.j)
  }

  /** Event g is the commit of batch k - 1, or a checkpoint of everything. */
  ghost predicate Follows(h: History, g: nat)
    requires 0 < g < |h.events|
  {
    var before, e := h.events[g - 1], h.events[g];
    && e.sb.generation == before.sb.generation + 1
    && (|| (e.k == before.k + 1 <= |h.log| && e.j == before.j
            && e.sb == SuperOf(h.log[before.k]) && h.log[before.k].slot == SlotAt(h, g))
        || (e.k == before.k == e.j))
  }

  ghost predicate EventsOk(h: History) {
    && h.events != [] && h.events[0].k == 0 && h.events[0].j == 0
    && h.events[Last(h)].k == |h.log|
    && (forall g :: 0 <= g < |h.events| ==> Describes(h, h.events[g]))
    && (forall g :: 0 < g < |h.events| ==> Follows(h, g))
  }

  ghost predicate HistoryOk(h: History) {
    LogOk(h.base, h.lsn0, h.log) && EventsOk(h)
  }

  lemma {:induction false} EventsAscend(h: History, a: nat, b: nat)
    requires EventsOk(h) && a <= b < |h.events|
    ensures h.events[a].k <= h.events[b].k && h.events[a].j <= h.events[b].j
    ensures h.events[b].sb.generation == h.events[a].sb.generation + (b - a)
    decreases b
  {
    if a < b {
      EventsAscend(h, a, b - 1);
      assert Follows(h, b) && Describes(h, h.events[b - 1]);
    }
  }

  /** The commit event of a batch. */
  lemma {:induction false} EventOf(h: History, b: nat, upto: nat) returns (g: nat)
    requires EventsOk(h) && upto < |h.events| && b < h.events[upto].k
    ensures 0 < g <= upto && h.events[g].k == b + 1 && h.events[g - 1].k == b
    ensures b < |h.log| && h.events[g].sb == SuperOf(h.log[b]) && h.log[b].slot == SlotAt(h, g)
    decreases upto
  {
    assert Describes(h, h.events[upto]);
    assert upto > 0;
    assert Follows(h, upto);
    if h.events[upto - 1].k == b {
      g := upto;
    } else {
      g := EventOf(h, b, upto - 1);
    }
  }

  /** After the commit event of the last batch only checkpoints of everything
      follow. */
  lemma {:induction false} AfterLastCommit(h: History, a: nat, b: nat)
    requires EventsOk(h) && a < b < |h.events| && h.events[a].k == |h.log|
    ensures h.events[b].k == |h.log| && h.events[b].j == |h.log|
    decreases b
  {
    assert Follows(h, b) && Describes(h, h.events[b]);
    if a < b - 1 {
      AfterLastCommit(h, a, b - 1);
    }
  }

  // ---------------------------------------------------------------- superblock slots

  /** A superblock slot holds garbage or a superblock of its parity; the first
      superblock was written to both slots. */
  ghost predicate SlotOk(h: History, x: PageId, c: Cell) {
    c == Garbage || exists g: nat :: IsEvent(h, x, c, g)
  }

  ghost predicate IsEvent(h: History, x: PageId, c: Cell, g: nat) {
    g < |h.events| && (SlotPage(SlotAt(h, g)) == x || g == 0) && c == SuperCell(h.events[g].sb)
  }

  /** The event recovery starts from: the newest superblock it finds. */
  ghost predicate Chosen(h: History, cells: Cells, g: nat) {
    && |cells| >= FIRST_DATA_PAGE && g < |h.events|
    && ChooseSuperblock(cells[0], cells[1]).Some? && ChooseSuperblock(cells[0], cells[1]).value.1 == h.events[g].sb
    && (g > 0 ==> ChooseSuperblock(cells[0], cells[1]).value.0 == SlotAt(h, g))
    && (forall x: nat, f: nat :: 0 <= x < FIRST_DATA_PAGE && IsEvent(h, x, cells[x], f) ==> f <= g)
  }


  lemma SameEvent(h: History, x: PageId, c: Cell, f: nat, g: nat)
    requires EventsOk(h) && IsEvent(h, x, c, f) && IsEvent(h, x, c, g)
    ensures f == g
  {
    EventsAscend(h, 0, f);
    EventsAscend(h, 0, g);
  }

  lemma ChoiceExists(h: History, cells: Cells) returns (g: nat)
    requires EventsOk(h) && |cells| >= FIRST_DATA_PAGE && SlotOk(h, 0, cells[0]) && SlotOk(h, 1, cells[1])
    requires cells[0].SuperCell? || cells[1].SuperCell?
    ensures Chosen(h, cells, g) && (IsEvent(h, 0, cells[0], g) || IsEvent(h, 1, cells[1], g))
  {
    if cells[0].SuperCell? && cells[1].SuperCell? {
      var a: nat :| IsEvent(h, 0, cells[0], a);
      var b: nat :| IsEvent(h, 1, cells[1], b);
      EventsAscend(h, 0, a);
      EventsAscend(h, 0, b);
      OnlyEvents(h, cells, a, b);
      g := if a >= b then a else b;
    } else {
      var x: PageId := if cells[0].SuperCell? then 0 else 1;
      g :| IsEvent(h, x, cells[x], g);
      forall y: nat, f: nat | 0 <= y < FIRST_DATA_PAGE && IsEvent(h, y, cells[y], f) ensures f <= g {
        SameEvent(h, x, cells[x], f, g);
      }
    }
  }

  lemma OnlyEvents(h: History, cells: Cells, a: nat, b: nat)
    requires EventsOk(h) && |cells| >= FIRST_DATA_PAGE && IsEvent(h, 0, cells[0], a) && IsEvent(h, 1, cells[1], b)
    ensures forall x: nat, f: nat :: 0 <= x < FIRST_DATA_PAGE && IsEvent(h, x, cells[x], f) ==> f == if x == 0 then a else b
  {
    forall x: nat, f: nat | 0 <= x < FIRST_DATA_PAGE && IsEvent(h, x, cells[x], f) ensures f == if x == 0 then a else b {
      SameEvent(h, x, cells[x], f, if x == 0 then a else b);
    }
  }

  /** When batches were replayed, the newest superblock afterwards is the one of
      the last batch. */
  lemma ReplayedChoice(h: History, cells: Cells, final: Cells, start: nat) returns (g: nat)
    requires HistoryOk(h) && |cells| >= FIRST_DATA_PAGE && |final| >= FIRST_DATA_PAGE && start < |h.log|
    requires SlotOk(h, 0, cells[0]) && SlotOk(h, 1, cells[1])
    requires forall x: nat, f: nat :: 0 <= x < FIRST_DATA_PAGE && IsEvent(h, x, cells[x], f) ==> h.events[f].j < |h.log|
    requires SlotFrom(h.log, cells[0], final[0], 0, start, |h.log|) && SlotFrom(h.log, cells[1], final[1], 1, start, |h.log|)
    ensures Chosen(h, final, g) && h.events[g].k == |h.log|
    ensures SlotOk(h, 0, final[0]) && SlotOk(h, 1, final[1])
  {
    var n := |h.log|;
    var last := EventOf(h, n - 1, Last(h));
    var y := SlotPage(SlotAt(h, last));
    hide LogOk;
    SlotAfter(h, cells[0], final[0], 0, start, last);
    SlotAfter(h, cells[1], final[1], 1, start, last);
    assert IsEvent(h, y, final[y], last);
    g := ChoiceExists(h, final);
    assert last <= g <= last;
  }

  lemma LastEvent(h: History)
    requires EventsOk(h)
    ensures h.events != [] && h.events[Last(h)].k == |h.log|
  {
  }

  lemma SlotAfter(h: History, was: Cell, now: Cell, x: PageId, start: nat, last: nat)
    requires HistoryOk(h) && start < |h.log| && SlotOk(h, x, was) && last < |h.events| && h.events[last].k == |h.log|
    requires forall f: nat :: IsEvent(h, x, was, f) ==> h.events[f].j < |h.log|
    requires SlotFrom(h.log, was, now, x, start, |h.log|)
    ensures SlotOk(h, x, now) && forall f: nat :: IsEvent(h, x, now, f) ==> f <= last
  {
    hide LogOk, EventsOk;
    if now == was {
      forall f: nat | IsEvent(h, x, now, f) ensures f <= last {
        if f > last {
          AfterLastCommit(h, last, f);
        }
      }
    } else {
      var b :| start <= b < |h.log| && SlotPage(h.log[b].slot) == x && now == SuperCell(SuperOf(h.log[b]));
      LastEvent(h);
      var g := EventOf(h, b, Last(h));
      assert IsEvent(h, x, now, g);
      forall f: nat | IsEvent(h, x, now, f) ensures f <= last {
        SameEvent(h, x, now, f, g);
        if g > last {
          EventsAscend(h, last, g - 1);
        }
      }
    }
  }

  // ---------------------------------------------------------------- growth

  /** One more batch in the log. */
  ghost function GrowOne(h: History, b: Prepared): History
    requires h.events != []
  {
    h.(log := h.log + [b], events := h.events + [Event(SuperOf(b), |h.log| + 1, Mark(h))])
  }

  ghost function Grow(h: History, bs: seq<Prepared>): (r: History)
    requires h.events != []
    ensures r.events != []
  {
    if bs == [] then h else GrowOne(Grow(h, bs[..|bs| - 1]), bs[|bs| - 1])
  }

  /** A checkpoint of everything logged so far. */
  ghost function Checkpointed(h: History): History
    requires h.events != []
  {
    var sb := h.events[Last(h)].sb.(generation := h.events[Last(h)].sb.generation + 1,
                                    checkpointLsn := LsnOf(h.lsn0, h.log, |h.log|));
    h.(events := h.events + [Event(sb, |h.log|, |h.log|)])
  }

  /** The batch continues the history. */
  ghost predicate Continues(h: History, b: Prepared)
    requires h.events != []
  {
    && b.generation == h.events[Last(h)].sb.generation + 1
    && b.slot == SlotAt(h, |h.events|)
    && Mark(h) <= |h.log| && b.checkpointLsn == LsnOf(h.lsn0, h.log, Mark(h))
    && BatchStamped(b)
    && LsnOf(h.lsn0, h.log, |h.log|) < b.commitLsn
    && Whole(ApplyBatch(Img(h.base, h.log, |h.log|), b))
  }

  ghost predicate AllContinue(h: History, bs: seq<Prepared>)
    requires h.events != []
  {
    forall i :: 0 <= i < |bs| ==> ContinuesAt(h, bs, i)
  }

  ghost predicate ContinuesAt(h: History, bs: seq<Prepared>, i: nat)
    requires h.events != [] && i < |bs|
  {
    Continues(Grow(h, bs[..i]), bs[i])
  }

  lemma LogGrows(base: Image, lsn0: nat, log: seq<Prepared>, b: Prepared)
    requires LogOk(base, lsn0, log)
    requires BatchStamped(b) && LsnOf(lsn0, log, |log|) < b.commitLsn && Whole(ApplyBatch(Img(base, log, |log|), b))
    ensures LogOk(base, lsn0, log + [b])
  {
    var log' := log + [b];
    forall i | 0 <= i < |log'| ensures BatchOk(base, lsn0, log', i) {
      if i < |log| {
        assert BatchOk(base, lsn0, log, i);
        ImgPrefix(base, log, [b], i + 1);
      } else {
        ImgStep(base, log', i);
        ImgPrefix(base, log, [b], i);
      }
    }
  }

  lemma DescribesGrows(h: History, b: Prepared, e: Event)
    requires h.events != [] && Describes(h, e)
    ensures Describes(GrowOne(h, b), e)
  {
    ImgPrefix(h.base, h.log, [b], e.k);
  }

  lemma GrowOneOk(h: History, b: Prepared)
    requires HistoryOk(h) && Continues(h, b)
    ensures HistoryOk(GrowOne(h, b))
  {
    var h' := GrowOne(h, b);
    LogGrows(h.base, h.lsn0, h.log, b);
    hide LogOk;
    NewEvent(h, b);
    forall g | 0 <= g < |h'.events| ensures Describes(h', h'.events[g]) {
      if g < |h.events| {
        DescribesGrows(h, b, h.events[g]);
      }
    }
    forall g | 0 < g < |h'.events| ensures Follows(h', g) {
      if g < |h.events| {
        assert Follows(h, g) && Describes(h, h.events[g]);
      }
    }
  }

  lemma NewEvent(h: History, b: Prepared)
    requires EventsOk(h) && Continues(h, b)
    ensures Describes(GrowOne(h, b), Event(SuperOf(b), |h.log| + 1, Mark(h)))
    ensures Follows(GrowOne(h, b), |h.events|)
  {
    var h' := GrowOne(h, b);
    ImgStep(h.base, h'.log, |h.log|);
    ImgPrefix(h.base, h.log, [b], |h.log|);
    assert Describes(h, h.events[Last(h)]);
  }

  lemma CheckpointedOk(h: History)
    requires HistoryOk(h)
    ensures HistoryOk(Checkpointed(h)) && Mark(Checkpointed(h)) == |h.log|
  {
    var h' := Checkpointed(h);
    assert Describes(h, h.events[Last(h)]);
    forall g | 0 <= g < |h'.events| ensures Describes(h', h'.events[g]) {
      if g < |h.events| {
        assert Describes(h, h.events[g]);
      }
    }
    forall g | 0 < g < |h'.events| ensures Follows(h', g) {
      if g < |h.events| {
        assert Follows(h, g);
      }
    }
  }

  lemma {:induction false} GrowOk(h: History, bs: seq<Prepared>)
    requires HistoryOk(h) && AllContinue(h, bs)
    ensures HistoryOk(Grow(h, bs))
  {
    if bs != [] {
      var n := |bs| - 1;
      ContinuePrefix(h, bs, n);
      GrowOk(h, bs[..n]);
      assert ContinuesAt(h, bs, n);
      hide HistoryOk, Continues;
      GrowOneOk(Grow(h, bs[..n]), bs[n]);
    }
  }

  lemma ContinuePrefix(h: History, bs: seq<Prepared>, n: nat)
    requires h.events != [] && AllContinue(h, bs) && n <= |bs|
    ensures AllContinue(h, bs[..n])
  {
    hide Continues, Grow;
    forall i | 0 <= i < n ensures ContinuesAt(h, bs[..n], i) {
      assert ContinuesAt(h, bs, i) && bs[..n][..i] == bs[..i];
    }
  }

  /** Growth only adds. */
  lemma {:induction false} GrowAdds(h: History, bs: seq<Prepared>)
    requires h.events != []
    ensures var r := Grow(h, bs);
            && r.log == h.log + bs && r.base == h.base && r.lsn0 == h.lsn0
            && |r.events| == |h.events| + |bs| && r.events[..|h.events|] == h.events
            && Mark(r) == Mark(h)
            && (bs != [] ==> r.events[Last(r)].sb == SuperOf(bs[|bs| - 1]))
  {
    if bs != [] {
      GrowAdds(h, bs[..|bs| - 1]);
    }
  }

  lemma SlotOkGrows(h: History, h': History, x: PageId, c: Cell)
    requires SlotOk(h, x, c) && |h.events| <= |h'.events| && h'.events[..|h.events|] == h.events
    ensures SlotOk(h', x, c)
  {
    if c != Garbage {
      var g: nat :| IsEvent(h, x, c, g);
      assert h'.events[g] == h'.events[..|h.events|][g];
      assert IsEvent(h', x, c, g);
    }
  }

  /** What could be repaired before can be repaired with a longer log. */
  lemma RepairableGrows(base: Image, log: seq<Prepared>, bs: seq<Prepared>, x: PageId, c: Cell, m: nat)
    requires m <= |log| && Repairable(base, log, x, c, m)
    ensures Repairable(base, log + bs, x, c, m)
  {
    var n, log' := |log|, log + bs;
    if Covered(log, x, m, n) {
      var j :| m <= j < n && x in log[j].pages;
      assert log'[j] == log[j] && Covered(log', x, m, |log'|);
      if c != Garbage {
        var k :| IsVersion(base, log, x, c, k) && 0 <= k;
        ImgPrefix(base, log, bs, k);
        assert IsVersion(base, log', x, c, k);
      }
    } else {
      ImgPrefix(base, log, bs, n);
      assert IsVersion(base, log', x, c, n);
      if !Covered(log', x, m, |log'|) {
        assert !Covered(log', x, n, |log'|);
        Uncovered(base, log', x, n, |log'|);
      }
    }
  }
}
