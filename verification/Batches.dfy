/** Prepared transactions: the batches of page images that are logged, numbered
    and applied (btree/mod.rs). */
module Batches {
  import opened Pages

  datatype Slot = SlotA | SlotB

  function OtherSlot(slot: Slot): Slot {
    if slot == SlotA then SlotB else SlotA
  }

  /** The numbers the next transaction will use. */
  datatype Counters = Counters(nextLsn: nat, nextBatchId: nat, generation: nat, slot: Slot, checkpointLsn: nat)

  /** One transaction ready to be logged: the pages it changed and the
      superblock that goes with them. */
  datatype Prepared = Prepared(pages: PageMap, root: PageId, freeHead: Option<PageId>, high: PageId,
                               commitLsn: nat, batchId: nat, generation: nat, slot: Slot, checkpointLsn: nat)

  /** The committed image after a transaction. */
  function ApplyBatch(img: Image, b: Prepared): Image {
    Image(img.pages + b.pages, b.root, b.freeHead, b.high)
  }

  /** The commit LSN leaves one LSN for each logged image and the commit. */
  ghost predicate Numbered(b: Prepared, c: Counters) {
    && b.commitLsn == c.nextLsn + |b.pages.Keys| + 1
    && b.batchId == c.nextBatchId
    && b.generation == c.generation + 1 && b.slot == OtherSlot(c.slot) && b.checkpointLsn == c.checkpointLsn
  }

  ghost function After(b: Prepared): Counters {
    Counters(b.commitLsn + 1, b.batchId + 1, b.generation, b.slot, b.checkpointLsn)
  }

  /** Every page of a batch carries its commit LSN. */
  ghost predicate BatchStamped(b: Prepared) {
    forall x :: x in b.pages ==> b.pages[x].lsn == b.commitLsn
  }

  /** The committed image after the first batches. */
  function ImageAfter(img: Image, batches: seq<Prepared>): Image {
    if batches == [] then img
    else ApplyBatch(ImageAfter(img, batches[..|batches| - 1]), batches[|batches| - 1])
  }

  /** The batches are numbered one after the other. */
  ghost predicate Ordered(batches: seq<Prepared>, first: Counters) {
    forall i :: 0 <= i < |batches| ==> InOrder(batches, i, first)
  }

  ghost predicate InOrder(batches: seq<Prepared>, i: nat, first: Counters)
    requires i < |batches|
  {
    Numbered(batches[i], Next(batches, i, first)) && BatchStamped(batches[i])
  }

  /** The counters before batch i. */
  ghost function Next(batches: seq<Prepared>, i: nat, first: Counters): Counters
    requires i <= |batches|
  {
    if i == 0 then first else After(batches[i - 1])
  }

  lemma OrderedStep(batches: seq<Prepared>, b: Prepared, first: Counters)
    requires Ordered(batches, first) && Numbered(b, Next(batches, |batches|, first)) && BatchStamped(b)
    ensures Ordered(batches + [b], first)
  {
    hide Numbered, BatchStamped;
    var bs := batches + [b];
    forall i | 0 <= i < |bs| ensures InOrder(bs, i, first) {
      if i < |batches| {
        assert InOrder(batches, i, first);
        assert Next(bs, i, first) == Next(batches, i, first);
      }
    }
  }

  lemma {:induction false} ImageJoin(base: Image, log: seq<Prepared>, group: seq<Prepared>)
    ensures ImageAfter(base, log + group) == ImageAfter(ImageAfter(base, log), group)
  {
    if group == [] {
      assert log + group == log;
    } else {
      var n := |group| - 1;
      ImageJoin(base, log, group[..n]);
      assert (log + group)[..|log + group| - 1] == log + group[..n];
    }
  }

  /** Groups numbered one after the other are numbered as a whole. */
  lemma OrderedJoin(a: seq<Prepared>, b: seq<Prepared>, first: Counters)
    requires Ordered(a, first) && Ordered(b, Next(a, |a|, first))
    ensures Ordered(a + b, first) && Next(a + b, |a + b|, first) == Next(b, |b|, Next(a, |a|, first))
  {
    hide Numbered, BatchStamped;
    var all := a + b;
    forall i | 0 <= i < |all| ensures InOrder(all, i, first) {
      if i < |a| {
        assert InOrder(a, i, first) && Next(all, i, first) == Next(a, i, first);
      } else {
        assert InOrder(b, i - |a|, Next(a, |a|, first)) && Next(all, i, first) == Next(b, i - |a|, Next(a, |a|, first));
      }
    }
  }

  lemma {:induction false} CountersAscend(batches: seq<Prepared>, first: Counters, i: nat, j: nat)
    requires Ordered(batches, first) && i <= j <= |batches|
    ensures Next(batches, i, first).nextLsn + (j - i) <= Next(batches, j, first).nextLsn
    decreases j
  {
    if i < j {
      CountersAscend(batches, first, i, j - 1);
      assert InOrder(batches, j - 1, first);
    }
  }

  /** Every commit LSN exceeds all earlier ones and everything logged before. */
  lemma CommitLsnsAscend(batches: seq<Prepared>, first: Counters, i: nat, j: nat)
    requires Ordered(batches, first) && i < j < |batches|
    ensures first.nextLsn < batches[i].commitLsn < batches[j].commitLsn
  {
    CountersAscend(batches, first, 0, i);
    CountersAscend(batches, first, i + 1, j);
    assert InOrder(batches, i, first) && InOrder(batches, j, first);
  }
}
