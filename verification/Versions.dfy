/** The committed versions of every page: what a log of batches makes of a base
    image, and how page LSNs identify the versions. */
module Versions {
  import opened Pages
  import opened Batches

  /** The image after the first k batches of a log. */
  ghost function Img(base: Image, log: seq<Prepared>, k: nat): Image
    requires k <= |log|
  {
    ImageAfter(base, log[..k])
  }

  ghost function LsnOf(lsn0: nat, log: seq<Prepared>, k: nat): nat
    requires k <= |log|
  {
    if k == 0 then lsn0 else log[k - 1].commitLsn
  }

  /** The pages are exactly those from the first data page to the high-water
      mark. */
  ghost predicate Whole(img: Image) {
    img.high >= FIRST_DATA_PAGE && forall x :: x in img.pages <==> FIRST_DATA_PAGE <= x <= img.high
  }

  ghost predicate BatchOk(base: Image, lsn0: nat, log: seq<Prepared>, i: nat)
    requires i < |log|
  {
    && BatchStamped(log[i])
    && LsnOf(lsn0, log, i) < log[i].commitLsn
    && Whole(Img(base, log, i + 1))
  }

  /** A log as group commit produces it. */
  ghost predicate LogOk(base: Image, lsn0: nat, log: seq<Prepared>) {
    && Whole(base)
    && (forall x :: x in base.pages ==> base.pages[x].lsn <= lsn0)
    && (forall i :: 0 <= i < |log| ==> BatchOk(base, lsn0, log, i))
  }

  lemma ImgStep(base: Image, log: seq<Prepared>, k: nat)
    requires k < |log|
    ensures Img(base, log, k + 1) == ApplyBatch(Img(base, log, k), log[k])
  {
    assert log[..k + 1][..k] == log[..k];
  }

  /** Images do not depend on later batches. */
  lemma ImgPrefix(base: Image, log: seq<Prepared>, more: seq<Prepared>, k: nat)
    requires k <= |log|
    ensures Img(base, log + more, k) == Img(base, log, k)
  {
    assert (log + more)[..k] == log[..k];
  }

  lemma ImgWhole(base: Image, lsn0: nat, log: seq<Prepared>, k: nat)
    requires LogOk(base, lsn0, log) && k <= |log|
    ensures Whole(Img(base, log, k))
  {
    if k > 0 {
      assert BatchOk(base, lsn0, log, k - 1);
    } else {
      assert log[..0] == [];
    }
  }

  lemma {:induction false} LsnAscends(base: Image, lsn0: nat, log: seq<Prepared>, i: nat, j: nat)
    requires LogOk(base, lsn0, log) && i <= j <= |log|
    ensures LsnOf(lsn0, log, i) <= LsnOf(lsn0, log, j)
    ensures i < j ==> LsnOf(lsn0, log, i) < LsnOf(lsn0, log, j)
    decreases j
  {
    if i < j {
      LsnAscends(base, lsn0, log, i, j - 1);
      assert BatchOk(base, lsn0, log, j - 1);
    }
  }

  // ---------------------------------------------------------------- versions of one page

  /** Page x is written by one of the batches i .. k - 1. */
  ghost predicate Covered(log: seq<Prepared>, x: PageId, i: nat, k: nat)
    requires k <= |log|
  {
    exists j :: i <= j < k && x in log[j].pages
  }

  lemma {:induction false} Uncovered(base: Image, log: seq<Prepared>, x: PageId, i: nat, k: nat)
    requires i <= k <= |log| && !Covered(log, x, i, k)
    ensures x in Img(base, log, k).pages <==> x in Img(base, log, i).pages
    ensures x in Img(base, log, i).pages ==> Img(base, log, k).pages[x] == Img(base, log, i).pages[x]
    decreases k
  {
    if i < k {
      assert !Covered(log, x, i, k - 1) && x !in log[k - 1].pages;
      Uncovered(base, log, x, i, k - 1);
      ImgStep(base, log, k - 1);
    }
  }

  /** A version is no newer than the batches that make it up. */
  lemma {:induction false} StampUpper(base: Image, lsn0: nat, log: seq<Prepared>, x: PageId, k: nat)
    requires LogOk(base, lsn0, log) && k <= |log| && x in Img(base, log, k).pages
    ensures Img(base, log, k).pages[x].lsn <= LsnOf(lsn0, log, k)
    decreases k
  {
    if k == 0 {
      assert log[..0] == [];
    } else {
      ImgStep(base, log, k - 1);
      assert BatchOk(base, lsn0, log, k - 1);
      if x !in log[k - 1].pages {
        StampUpper(base, lsn0, log, x, k - 1);
      }
    }
  }

  /** A version is at least as new as every batch before it that wrote the page. */
  lemma {:induction false} StampLower(base: Image, lsn0: nat, log: seq<Prepared>, x: PageId, i: nat, k: nat)
    requires LogOk(base, lsn0, log) && i < k <= |log| && x in log[i].pages
    ensures x in Img(base, log, k).pages && Img(base, log, k).pages[x].lsn >= log[i].commitLsn
    decreases k
  {
    ImgStep(base, log, k - 1);
    assert BatchOk(base, lsn0, log, k - 1);
    LsnAscends(base, lsn0, log, i + 1, k);
    if i < k - 1 {
      StampLower(base, lsn0, log, x, i, k - 1);
    }
  }

  // ---------------------------------------------------------------- file growth

  lemma {:induction false} HighGrows(base: Image, lsn0: nat, log: seq<Prepared>, i: nat, k: nat)
    requires LogOk(base, lsn0, log) && i <= k <= |log|
    ensures Img(base, log, i).high <= Img(base, log, k).high
    decreases k
  {
    if i < k {
      HighGrows(base, lsn0, log, i, k - 1);
      ImgStep(base, log, k - 1);
      ImgWhole(base, lsn0, log, k - 1);
      ImgWhole(base, lsn0, log, k);
      assert Img(base, log, k - 1).high in Img(base, log, k).pages;
    }
  }

  /** A page beyond the high-water mark of image i that image k has was written
      in between: every allocated page is logged by the batch that allocates it. */
  lemma NewPagesCovered(base: Image, lsn0: nat, log: seq<Prepared>, i: nat, k: nat, x: PageId)
    requires LogOk(base, lsn0, log) && i <= k <= |log| && Img(base, log, i).high < x <= Img(base, log, k).high
    ensures Covered(log, x, i, k)
  {
    ImgWhole(base, lsn0, log, i);
    ImgWhole(base, lsn0, log, k);
    if !Covered(log, x, i, k) {
      Uncovered(base, log, x, i, k);
    }
  }

  lemma CoveredInside(base: Image, lsn0: nat, log: seq<Prepared>, i: nat, k: nat, x: PageId)
    requires LogOk(base, lsn0, log) && i <= k <= |log| && Covered(log, x, i, k)
    ensures FIRST_DATA_PAGE <= x <= Img(base, log, k).high
  {
    var j :| i <= j < k && x in log[j].pages;
    ImgStep(base, log, j);
    ImgWhole(base, lsn0, log, j + 1);
    HighGrows(base, lsn0, log, j + 1, k);
  }
}
