/** Redo recovery of the data file from the write-ahead log (btree/mod.rs,
    superblock.rs). */
module Redo {
  import opened Seqs
  import opened Pages
  import opened Batches
  import opened Versions

  datatype Superblock = Superblock(generation: nat, root: PageId, freeHead: Option<PageId>, high: PageId, checkpointLsn: nat)

  /** One page of the data file as a reader finds it; garbage does not decode. */
  datatype Cell = Garbage | DataCell(page: PageData) | SuperCell(sb: Superblock)

  type Cells = seq<Cell>

  function SlotPage(slot: Slot): PageId {
    if slot == SlotA then 0 else 1
  }

  function SuperOf(b: Prepared): Superblock {
    Superblock(b.generation, b.root, b.freeHead, b.high, b.checkpointLsn)
  }

  /** The newer valid superblock; slot A wins a tie. */
  function ChooseSuperblock(a: Cell, b: Cell): Option<(Slot, Superblock)> {
    if a.SuperCell? && b.SuperCell? then
      if a.sb.generation >= b.sb.generation then Some((SlotA, a.sb)) else Some((SlotB, b.sb))
    else if a.SuperCell? then Some((SlotA, a.sb))
    else if b.SuperCell? then Some((SlotB, b.sb))
    else None
  }

  // ---------------------------------------------------------------- the replay loop

  /** A batch as the log holds it: page images in page order, then the
      superblock. */
  datatype WalBatch = WalBatch(batchId: nat, commitLsn: nat, images: seq<(PageId, Cell)>)

  function Resize(cells: Cells, length: nat): Cells {
    if length <= |cells| then cells[..length] else cells + seq(length - |cells|, i => Garbage)
  }

  /** Superblocks are always rewritten, data pages when they are invalid or
      older than the commit. */
  predicate MustWrite(cells: Cells, x: PageId, commitLsn: nat) {
    || x < FIRST_DATA_PAGE
    || x >= |cells|
    || !cells[x].DataCell?
    || cells[x].page.lsn < commitLsn
  }

  function RedoImage(cells: Cells, image: (PageId, Cell), commitLsn: nat): Cells {
    if MustWrite(cells, image.0, commitLsn)
    then Resize(cells, if image.0 < |cells| then |cells| else image.0 + 1)[image.0 := image.1]
    else cells
  }

  function RedoImages(cells: Cells, images: seq<(PageId, Cell)>, commitLsn: nat): Cells {
    if images == [] then cells
    else RedoImage(RedoImages(cells, images[..|images| - 1], commitLsn), images[|images| - 1], commitLsn)
  }

  function RedoBatches(cells: Cells, batches: seq<WalBatch>): Cells {
    if batches == [] then cells
    else
      var last := batches[|batches| - 1];
      RedoImages(RedoBatches(cells, batches[..|batches| - 1]), last.images, last.commitLsn)
  }

  function HighestImage(images: seq<(PageId, Cell)>, least: PageId): PageId {
    if images == [] then least
    else
      var high := HighestImage(images[..|images| - 1], least);
      var x := images[|images| - 1].0;
      if x >= FIRST_DATA_PAGE && x > high then x else high
  }

  function HighestPage(batches: seq<WalBatch>): PageId {
    if batches == [] then FIRST_DATA_PAGE
    else HighestImage(batches[|batches| - 1].images, HighestPage(batches[..|batches| - 1]))
  }

  /** The file after a complete replay. */
  function Recovered(cells: Cells, batches: seq<WalBatch>): Cells {
    if batches == [] then cells
    else
      var length := HighestPage(batches) + 1;
      RedoBatches(if |cells| < length then Resize(cells, length) else cells, batches)
  }

  function Since(batches: seq<WalBatch>, lsn: nat): seq<WalBatch> {
    if batches == [] then []
    else
      var last := batches[|batches| - 1];
      Since(batches[..|batches| - 1], lsn) + (if last.commitLsn > lsn then [last] else [])
  }

  method NeededBatches(batches: seq<WalBatch>, checkpointLsn: nat) returns (needed: seq<WalBatch>)
    ensures needed == Since(batches, checkpointLsn)
  {
    needed := [];
    for i := 0 to |batches|
      invariant needed == Since(batches[..i], checkpointLsn)
    {
      assert batches[..i + 1][..i] == batches[..i];
      if batches[i].commitLsn > checkpointLsn {
        needed := needed + [batches[i]];
      }
    }
    assert batches[..|batches|] == batches;
  }

  method HighestLogged(batches: seq<WalBatch>) returns (high: PageId)
    ensures high == HighestPage(batches)
  {
    high := FIRST_DATA_PAGE;
    for i := 0 to |batches|
      invariant high == HighestPage(batches[..i])
    {
      assert batches[..i + 1][..i] == batches[..i];
      ghost var least := high;
      var images := batches[i].images;
      for j := 0 to |images|
        invariant high == HighestImage(images[..j], least)
      {
        assert images[..j + 1][..j] == images[..j];
        if images[j].0 >= FIRST_DATA_PAGE && images[j].0 > high {
          high := images[j].0;
        }
      }
      assert images[..|images|] == images;
    }
    assert batches[..|batches|] == batches;
  }

  /** Replays the batches after the checkpoint over the data file. */
  method RecoverDataFile(file: Cells, batches: seq<WalBatch>, checkpointLsn: nat) returns (cells: Cells)
    ensures cells == Recovered(file, Since(batches, checkpointLsn))
  {
    hide Since, HighestPage, RedoImages, Resize;
    cells := file;
    var needed := NeededBatches(batches, checkpointLsn);
    if needed == [] {
      return;
    }
    var high := HighestLogged(needed);
    if |cells| < high + 1 {
      cells := Resize(cells, high + 1);
    }
    ghost var start := cells;
    for i := 0 to |needed|
      invariant cells == RedoBatches(start, needed[..i])
    {
      assert needed[..i + 1][..i] == needed[..i];
      cells := ReplayBatch(cells, needed[i]);
    }
    assert needed[..|needed|] == needed;
  }

  method ReplayBatch(file: Cells, batch: WalBatch) returns (cells: Cells)
    ensures cells == RedoImages(file, batch.images, batch.commitLsn)
  {
    cells := file;
    var images := batch.images;
    for j := 0 to |images|
      invariant cells == RedoImages(file, images[..j], batch.commitLsn)
    {
      assert images[..j + 1][..j] == images[..j];
      cells := ReplayImage(cells, images[j].0, images[j].1, batch.commitLsn);
    }
    assert images[..|images|] == images;
  }

  method ReplayImage(file: Cells, x: PageId, image: Cell, commitLsn: nat) returns (cells: Cells)
    ensures cells == RedoImage(file, (x, image), commitLsn)
  {
    cells := file;
    if MustWrite(cells, x, commitLsn) {
      if x >= |cells| {
        cells := Resize(cells, x + 1);
      } else {
        assert Resize(cells, |cells|) == cells;
      }
      cells := cells[x := image];
    }
  }

  // ---------------------------------------------------------------- what a replay does to each page

  /** The log holds exactly the images of a batch. */
  ghost predicate Logs(w: WalBatch, b: Prepared) {
    && w.commitLsn == b.commitLsn && w.batchId == b.batchId
    && (forall i, j :: 0 <= i < j < |w.images| ==> w.images[i].0 != w.images[j].0)
    && (forall i :: 0 <= i < |w.images| ==> ImageOf(w.images[i], b))
    && (forall x :: x in b.pages || x == SlotPage(b.slot) ==> Imaged(w.images, x))
    && (forall x :: x in b.pages ==> x >= FIRST_DATA_PAGE)
  }

  ghost predicate ImageOf(image: (PageId, Cell), b: Prepared) {
    if image.0 == SlotPage(b.slot) then image.1 == SuperCell(SuperOf(b))
    else image.0 in b.pages && image.1 == DataCell(b.pages[image.0])
  }

  ghost predicate Imaged(images: seq<(PageId, Cell)>, x: PageId) {
    exists i :: 0 <= i < |images| && images[i].0 == x
  }

  /** A logged batch has one image for each page and one for the superblock. */
  lemma LoggedCount(w: WalBatch, b: Prepared)
    requires Logs(w, b)
    ensures |w.images| == |b.pages.Keys| + 1
  {
    var ids := seq(|w.images|, i requires 0 <= i < |w.images| => w.images[i].0);
    var all := b.pages.Keys + {SlotPage(b.slot)};
    forall x ensures x in ids <==> x in all {
      if x in all {
        assert Imaged(w.images, x);
        var i :| 0 <= i < |w.images| && w.images[i].0 == x;
        assert ids[i] == x;
      }
      if x in ids {
        var i :| 0 <= i < |ids| && ids[i] == x;
        assert ImageOf(w.images[i], b);
      }
    }
    CountDistinct(ids, all);
  }

  /** What one batch makes of page x. */
  ghost function RedoCell(c: Cell, x: PageId, b: Prepared): Cell {
    if x == SlotPage(b.slot) then SuperCell(SuperOf(b))
    else if x in b.pages && !(c.DataCell? && c.page.lsn >= b.commitLsn) then DataCell(b.pages[x])
    else c
  }

  lemma {:induction false} RedoImagesAt(cells: Cells, images: seq<(PageId, Cell)>, lsn: nat, x: PageId)
    requires forall i :: 0 <= i < |images| ==> images[i].0 < |cells|
    requires forall i, j :: 0 <= i < j < |images| ==> images[i].0 != images[j].0
    requires x < |cells|
    ensures |RedoImages(cells, images, lsn)| == |cells|
    ensures !Imaged(images, x) ==> RedoImages(cells, images, lsn)[x] == cells[x]
    ensures forall i :: 0 <= i < |images| && images[i].0 == x ==>
              RedoImages(cells, images, lsn)[x] == if MustWrite(cells, x, lsn) then images[i].1 else cells[x]
  {
    if images != [] {
      var n := |images| - 1;
      var before := RedoImages(cells, images[..n], lsn);
      RedoImagesAt(cells, images[..n], lsn, x);
      assert |before| == |cells| && Resize(before, |before|) == before;
      if images[n].0 == x {
        assert !Imaged(images[..n], x);
      } else {
        assert Imaged(images[..n], x) ==> Imaged(images, x);
      }
      forall i | 0 <= i < |images| && images[i].0 == x
        ensures RedoImages(cells, images, lsn)[x] == if MustWrite(cells, x, lsn) then images[i].1 else cells[x]
      {
        if i < n {
          assert images[..n][i] == images[i];
        }
      }
    }
  }

  lemma RedoBatchAt(cells: Cells, w: WalBatch, b: Prepared, x: PageId)
    requires Logs(w, b) && x < |cells| && forall i :: 0 <= i < |w.images| ==> w.images[i].0 < |cells|
    ensures |RedoImages(cells, w.images, w.commitLsn)| == |cells|
    ensures RedoImages(cells, w.images, w.commitLsn)[x] == RedoCell(cells[x], x, b)
  {
    RedoImagesAt(cells, w.images, w.commitLsn, x);
    if Imaged(w.images, x) {
      var i :| 0 <= i < |w.images| && w.images[i].0 == x;
      assert ImageOf(w.images[i], b);
    }
  }

  // ---------------------------------------------------------------- redo converges

  /** Cell c holds a committed version of page x, no older than version i. */
  ghost predicate VersionFrom(base: Image, log: seq<Prepared>, x: PageId, c: Cell, i: nat) {
    exists k :: IsVersion(base, log, x, c, k) && i <= k
  }

  ghost predicate IsVersion(base: Image, log: seq<Prepared>, x: PageId, c: Cell, k: nat) {
    k <= |log| && x in Img(base, log, k).pages && c == DataCell(Img(base, log, k).pages[x])
  }

  /** Page x is intact, or one of the batches from m on will rewrite it and it
      is either invalid or some committed version. */
  ghost predicate Repairable(base: Image, log: seq<Prepared>, x: PageId, c: Cell, m: nat) {
    if Covered(log, x, m, |log|) then c == Garbage || VersionFrom(base, log, x, c, 0)
    else IsVersion(base, log, x, c, |log|)
  }

  /** The same, when a replay from batch start has reached batch i. */
  ghost predicate Repaired(base: Image, log: seq<Prepared>, x: PageId, c: Cell, m: nat, start: nat, i: nat)
    requires i <= |log|
  {
    && Repairable(base, log, x, c, m)
    && (Covered(log, x, start, i) ==> VersionFrom(base, log, x, c, i))
  }

  lemma RepairStep(base: Image, lsn0: nat, log: seq<Prepared>, x: PageId, c: Cell, m: nat, start: nat, i: nat)
    requires LogOk(base, lsn0, log) && m <= |log| && start <= i < |log| && x >= FIRST_DATA_PAGE
    requires Repaired(base, log, x, c, m, start, i)
    ensures Repaired(base, log, x, RedoCell(c, x, log[i]), m, start, i + 1)
  {
    ImgStep(base, log, i);
    if x in log[i].pages {
      if c.DataCell? {
        RepairVersion(base, lsn0, log, x, c, m, i);
      } else {
        assert Covered(log, x, m, |log|);
        assert IsVersion(base, log, x, DataCell(log[i].pages[x]), i + 1);
      }
    } else {
      if Covered(log, x, start, i + 1) {
        assert Covered(log, x, start, i);
        var k :| IsVersion(base, log, x, c, k) && i <= k;
        assert IsVersion(base, log, x, c, if k == i then i + 1 else k);
      }
    }
  }

  /** A committed version is rewritten exactly when it is older than the batch. */
  lemma RepairVersion(base: Image, lsn0: nat, log: seq<Prepared>, x: PageId, c: Cell, m: nat, i: nat)
    requires LogOk(base, lsn0, log) && m <= |log| && i < |log| && x in log[i].pages && x >= FIRST_DATA_PAGE
    requires c.DataCell? && Repairable(base, log, x, c, m)
    ensures VersionFrom(base, log, x, RedoCell(c, x, log[i]), i + 1)
    ensures !Covered(log, x, m, |log|) ==> RedoCell(c, x, log[i]) == c
  {
    ImgStep(base, log, i);
    assert IsVersion(base, log, x, DataCell(log[i].pages[x]), i + 1);
    assert exists k :: IsVersion(base, log, x, c, k);
    var k: nat :| IsVersion(base, log, x, c, k);
    if i < k {
      StampLower(base, lsn0, log, x, i, k);
    } else {
      StampUpper(base, lsn0, log, x, k);
      LsnAscends(base, lsn0, log, k, i);
      assert BatchOk(base, lsn0, log, i);
    }
    if !Covered(log, x, m, |log|) {
      StampLower(base, lsn0, log, x, i, |log|);
    }
  }

  /** At the end of a replay that starts no later than the batches the page
      relies on, the page is the last committed one. */
  lemma RepairDone(base: Image, log: seq<Prepared>, x: PageId, c: Cell, m: nat, start: nat)
    requires start <= m <= |log| && Repaired(base, log, x, c, m, start, |log|)
    ensures IsVersion(base, log, x, c, |log|)
  {
    if Covered(log, x, m, |log|) {
      assert Covered(log, x, start, |log|);
    }
  }

  // ---------------------------------------------------------------- replaying a whole file

  /** The log file holds the batches from c on. */
  ghost predicate WalHolds(ws: seq<WalBatch>, log: seq<Prepared>, c: nat) {
    && c <= |log| && |ws| == |log| - c
    && forall i :: 0 <= i < |ws| ==> Logs(ws[i], log[c + i])
  }

  /** Every page of the file is intact or will be rewritten by a batch from m
      on; every page of image m is there. */
  ghost predicate FileRepairable(base: Image, log: seq<Prepared>, cells: Cells, m: nat) {
    && m <= |log|
    && Img(base, log, m).high < |cells| <= Img(base, log, |log|).high + 1
    && forall x :: FIRST_DATA_PAGE <= x < |cells| ==> Repairable(base, log, x, cells[x], m)
  }

  /** The data pages of the file are exactly those of the committed image. */
  ghost predicate Restored(base: Image, log: seq<Prepared>, cells: Cells) {
    && |cells| == Img(base, log, |log|).high + 1
    && forall x :: FIRST_DATA_PAGE <= x < |cells| ==> IsVersion(base, log, x, cells[x], |log|)
  }

  function Drop(ws: seq<WalBatch>, d: nat): seq<WalBatch> {
    if d <= |ws| then ws[d..] else []
  }

  lemma DropStep(ws: seq<WalBatch>, d: nat, n: nat)
    requires 0 < n <= |ws|
    ensures Drop(ws[..n], d) == Drop(ws[..n - 1], d) + (if d < n then [ws[n - 1]] else [])
  {
  }

  lemma {:induction false} SinceDrops(ws: seq<WalBatch>, lsn: nat, d: nat, n: nat)
    requires n <= |ws| && forall i :: 0 <= i < |ws| ==> (ws[i].commitLsn > lsn <==> i >= d)
    ensures Since(ws[..n], lsn) == Drop(ws[..n], d)
  {
    if n > 0 {
      SinceDrops(ws, lsn, d, n - 1);
      DropStep(ws, d, n);
      assert ws[..n][..n - 1] == ws[..n - 1];
    }
  }

  /** A checkpoint LSN selects the batches after it. */
  lemma SinceSuffix(base: Image, lsn0: nat, log: seq<Prepared>, c: nat, ws: seq<WalBatch>, j: nat)
    requires LogOk(base, lsn0, log) && WalHolds(ws, log, c) && j <= |log|
    ensures WalHolds(Since(ws, LsnOf(lsn0, log, j)), log, if j <= c then c else j)
  {
    var d := if j <= c then 0 else j - c;
    forall i | 0 <= i < |ws| ensures ws[i].commitLsn > LsnOf(lsn0, log, j) <==> i >= d {
      assert Logs(ws[i], log[c + i]);
      if j <= c + i {
        LsnAscends(base, lsn0, log, j, c + i);
        assert BatchOk(base, lsn0, log, c + i);
      } else {
        LsnAscends(base, lsn0, log, c + i + 1, j);
      }
    }
    SinceDrops(ws, LsnOf(lsn0, log, j), d, |ws|);
    assert ws[..|ws|] == ws;
    WalSuffix(ws, log, c, d);
  }

  lemma WalSuffix(ws: seq<WalBatch>, log: seq<Prepared>, c: nat, d: nat)
    requires WalHolds(ws, log, c) && d <= |ws|
    ensures WalHolds(ws[d..], log, c + d)
  {
    forall i | 0 <= i < |ws[d..]| ensures Logs(ws[d..][i], log[c + d + i]) {
      assert Logs(ws[d + i], log[c + (d + i)]);
    }
  }

  lemma {:induction false} SinceZero(base: Image, lsn0: nat, log: seq<Prepared>, c: nat, ws: seq<WalBatch>, n: nat)
    requires LogOk(base, lsn0, log) && WalHolds(ws, log, c) && n <= |ws|
    ensures Since(ws[..n], 0) == ws[..n]
  {
    if n > 0 {
      SinceZero(base, lsn0, log, c, ws, n - 1);
      assert ws[..n][..n - 1] == ws[..n - 1];
      assert Logs(ws[n - 1], log[c + n - 1]) && BatchOk(base, lsn0, log, c + n - 1);
    }
  }

  /** Images of the log stay below the high-water mark. */
  lemma ImagesInside(base: Image, lsn0: nat, log: seq<Prepared>, c: nat, ws: seq<WalBatch>, i: nat, j: nat)
    requires LogOk(base, lsn0, log) && WalHolds(ws, log, c) && i < |ws| && j < |ws[i].images|
    ensures ws[i].images[j].0 <= Img(base, log, |log|).high
  {
    var x := ws[i].images[j].0;
    assert Logs(ws[i], log[c + i]);
    assert ImageOf(ws[i].images[j], log[c + i]);
    ImgWhole(base, lsn0, log, |log|);
    if x != SlotPage(log[c + i].slot) {
      assert Covered(log, x, c, |log|);
      CoveredInside(base, lsn0, log, c, |log|, x);
    }
  }

  lemma {:induction false} HighestImageBounds(images: seq<(PageId, Cell)>, least: PageId, bound: PageId)
    requires least <= bound && forall i :: 0 <= i < |images| ==> images[i].0 <= bound
    ensures least <= HighestImage(images, least) <= bound
    ensures forall i :: 0 <= i < |images| && images[i].0 >= FIRST_DATA_PAGE ==> images[i].0 <= HighestImage(images, least)
  {
    if images != [] {
      HighestImageBounds(images[..|images| - 1], least, bound);
      forall i | 0 <= i < |images| && images[i].0 >= FIRST_DATA_PAGE ensures images[i].0 <= HighestImage(images, least) {
        if i < |images| - 1 {
          assert images[..|images| - 1][i] == images[i];
        }
      }
    }
  }

  ghost predicate Inside(ws: seq<WalBatch>, bound: PageId) {
    forall i, j :: 0 <= i < |ws| && 0 <= j < |ws[i].images| ==> ws[i].images[j].0 <= bound
  }

  lemma {:induction false} HighestPageBounds(ws: seq<WalBatch>, bound: PageId)
    requires bound >= FIRST_DATA_PAGE && Inside(ws, bound)
    ensures FIRST_DATA_PAGE <= HighestPage(ws) <= bound
    ensures forall i, j :: 0 <= i < |ws| && 0 <= j < |ws[i].images| && ws[i].images[j].0 >= FIRST_DATA_PAGE ==>
              ws[i].images[j].0 <= HighestPage(ws)
  {
    if ws != [] {
      var n := |ws| - 1;
      HighestPageBounds(ws[..n], bound);
      HighestImageBounds(ws[n].images, HighestPage(ws[..n]), bound);
      forall i, j | 0 <= i < |ws| && 0 <= j < |ws[i].images| && ws[i].images[j].0 >= FIRST_DATA_PAGE
        ensures ws[i].images[j].0 <= HighestPage(ws)
      {
        if i < n {
          assert ws[..n][i] == ws[i];
        }
      }
    }
  }

  /** A replay brings the file to the length of the committed image. */
  lemma ReplayLength(base: Image, lsn0: nat, log: seq<Prepared>, start: nat, needed: seq<WalBatch>, m: nat, length: nat)
    requires LogOk(base, lsn0, log) && WalHolds(needed, log, start) && start <= m <= |log|
    requires Img(base, log, m).high < length <= Img(base, log, |log|).high + 1
    ensures Inside(needed, Img(base, log, |log|).high)
    ensures HighestPage(needed) <= Img(base, log, |log|).high
    ensures length == Img(base, log, |log|).high + 1 || HighestPage(needed) == Img(base, log, |log|).high
  {
    var n := |log|;
    var high := Img(base, log, n).high;
    ImgWhole(base, lsn0, log, n);
    forall i, j | 0 <= i < |needed| && 0 <= j < |needed[i].images| ensures needed[i].images[j].0 <= high {
      ImagesInside(base, lsn0, log, start, needed, i, j);
    }
    HighestPageBounds(needed, high);
    if length <= high {
      NewPagesCovered(base, lsn0, log, m, n, high);
      var b :| m <= b < n && high in log[b].pages;
      assert Logs(needed[b - start], log[start + (b - start)]);
      assert Imaged(needed[b - start].images, high);
      var j :| 0 <= j < |needed[b - start].images| && needed[b - start].images[j].0 == high;
      assert needed[b - start].images[j].0 <= HighestPage(needed);
    }
  }

  /** The file after replaying the first i batches, at one page. */
  lemma {:induction false} ReplayUpTo(log: seq<Prepared>, start: nat, needed: seq<WalBatch>, cells: Cells, i: nat, x: PageId)
    requires WalHolds(needed, log, start) && i < |needed| && x < |cells| && Inside(needed, |cells| - 1)
    requires |RedoBatches(cells, needed[..i])| == |cells|
    ensures |RedoBatches(cells, needed[..i + 1])| == |cells|
    ensures RedoBatches(cells, needed[..i + 1])[x] == RedoCell(RedoBatches(cells, needed[..i])[x], x, log[start + i])
  {
    assert needed[..i + 1][..i] == needed[..i];
    assert Logs(needed[i], log[start + i]);
    RedoBatchAt(RedoBatches(cells, needed[..i]), needed[i], log[start + i], x);
  }

  lemma {:induction false} PageUpTo(base: Image, lsn0: nat, log: seq<Prepared>, start: nat, needed: seq<WalBatch>, cells: Cells,
                                    m: nat, i: nat, x: PageId)
    requires LogOk(base, lsn0, log) && WalHolds(needed, log, start) && i <= |needed| && m <= |log|
    requires FIRST_DATA_PAGE <= x < |cells| && Inside(needed, |cells| - 1)
    requires Repairable(base, log, x, cells[x], m)
    ensures |RedoBatches(cells, needed[..i])| == |cells|
    ensures Repaired(base, log, x, RedoBatches(cells, needed[..i])[x], m, start, start + i)
    decreases i
  {
    hide Repaired, Repairable, LogOk, WalHolds, RedoBatches, Inside;
    WalLength(needed, log, start);
    if i > 0 {
      PageUpTo(base, lsn0, log, start, needed, cells, m, i - 1, x);
      ReplayUpTo(log, start, needed, cells, i - 1, x);
      RepairStep(base, lsn0, log, x, RedoBatches(cells, needed[..i - 1])[x], m, start, start + i - 1);
    } else {
      RepairedStart(base, log, start, needed, cells, m, x);
    }
  }

  lemma RepairedStart(base: Image, log: seq<Prepared>, start: nat, needed: seq<WalBatch>, cells: Cells, m: nat, x: PageId)
    requires start <= |log| && x < |cells| && Repairable(base, log, x, cells[x], m)
    ensures RedoBatches(cells, needed[..0]) == cells && Repaired(base, log, x, cells[x], m, start, start)
  {
    hide Repairable;
  }

  lemma WalLength(ws: seq<WalBatch>, log: seq<Prepared>, c: nat)
    requires WalHolds(ws, log, c)
    ensures c + |ws| == |log|
  {
  }

  /** A superblock slot holds what it held, or the superblock of a replayed
      batch; the last batch always leaves its own. */
  lemma {:induction false} SlotUpTo(log: seq<Prepared>, start: nat, needed: seq<WalBatch>, cells: Cells, i: nat, x: PageId)
    requires WalHolds(needed, log, start) && i <= |needed|
    requires x < FIRST_DATA_PAGE <= |cells| && Inside(needed, |cells| - 1)
    ensures |RedoBatches(cells, needed[..i])| == |cells|
    ensures SlotFrom(log, cells[x], RedoBatches(cells, needed[..i])[x], x, start, start + i)
    decreases i
  {
    WalLength(needed, log, start);
    if i > 0 {
      SlotUpTo(log, start, needed, cells, i - 1, x);
      hide WalHolds, Inside;
      ReplayUpTo(log, start, needed, cells, i - 1, x);
    } else {
      assert needed[..0] == [];
    }
  }

  ghost predicate SlotFrom(log: seq<Prepared>, was: Cell, now: Cell, x: PageId, start: nat, i: nat)
    requires i <= |log|
  {
    && (now == was || FromBatch(log, now, x, start, i))
    && (start < i && SlotPage(log[i - 1].slot) == x ==> now == SuperCell(SuperOf(log[i - 1])))
  }

  ghost predicate FromBatch(log: seq<Prepared>, cell: Cell, x: PageId, start: nat, i: nat)
    requires i <= |log|
  {
    exists b :: start <= b < i && SlotPage(log[b].slot) == x && cell == SuperCell(SuperOf(log[b]))
  }

  /** Redo converges: from any file whose pages are intact or covered by the
      replayed batches, whatever was torn or already replayed, a replay leaves
      exactly the committed image. */
  lemma RedoConverges(base: Image, lsn0: nat, log: seq<Prepared>, start: nat, needed: seq<WalBatch>, cells: Cells, m: nat)
    requires LogOk(base, lsn0, log) && WalHolds(needed, log, start) && start <= m
    requires FileRepairable(base, log, cells, m)
    ensures |cells| > FIRST_DATA_PAGE && Restored(base, log, Recovered(cells, needed))
    ensures |Recovered(cells, needed)| > FIRST_DATA_PAGE
    ensures SlotFrom(log, cells[0], Recovered(cells, needed)[0], 0, start, |log|)
    ensures SlotFrom(log, cells[1], Recovered(cells, needed)[1], 1, start, |log|)
  {
    ImgWhole(base, lsn0, log, m);
    WalLength(needed, log, start);
    if needed == [] {
      forall x | FIRST_DATA_PAGE <= x < |cells| ensures IsVersion(base, log, x, cells[x], |log|) {
        assert Repairable(base, log, x, cells[x], m);
      }
    } else {
      ReplayLength(base, lsn0, log, start, needed, m, |cells|);
      var grown := if |cells| < HighestPage(needed) + 1 then Resize(cells, HighestPage(needed) + 1) else cells;
      GrownConverges(base, lsn0, log, start, needed, cells, grown, m);
    }
  }

  lemma GrownConverges(base: Image, lsn0: nat, log: seq<Prepared>, start: nat, needed: seq<WalBatch>, cells: Cells, grown: Cells, m: nat)
    requires LogOk(base, lsn0, log) && WalHolds(needed, log, start) && start <= m
    requires FileRepairable(base, log, cells, m) && |cells| > FIRST_DATA_PAGE
    requires |grown| == Img(base, log, |log|).high + 1 && (grown == cells || grown == Resize(cells, |grown|))
    requires Inside(needed, Img(base, log, |log|).high)
    ensures Restored(base, log, RedoBatches(grown, needed))
    ensures |RedoBatches(grown, needed)| == |grown| > FIRST_DATA_PAGE
    ensures SlotFrom(log, cells[0], RedoBatches(grown, needed)[0], 0, start, |log|)
    ensures SlotFrom(log, cells[1], RedoBatches(grown, needed)[1], 1, start, |log|)
  {
    ImgWhole(base, lsn0, log, |log|);
    assert needed[..|needed|] == needed;
    WalLength(needed, log, start);
    assert grown[0] == cells[0] && grown[1] == cells[1];
    SlotUpTo(log, start, needed, grown, |needed|, 0);
    SlotUpTo(log, start, needed, grown, |needed|, 1);
    forall x | FIRST_DATA_PAGE <= x < |grown| ensures IsVersion(base, log, x, RedoBatches(grown, needed)[x], |log|) {
      GrownRepairable(base, lsn0, log, cells, grown, m, x);
      hide Repairable, LogOk, WalHolds, Inside, FileRepairable, Repaired;
      PageUpTo(base, lsn0, log, start, needed, grown, m, |needed|, x);
      RepairDone(base, log, x, RedoBatches(grown, needed)[x], m, start);
    }
  }

  lemma GrownRepairable(base: Image, lsn0: nat, log: seq<Prepared>, cells: Cells, grown: Cells, m: nat, x: PageId)
    requires LogOk(base, lsn0, log) && FileRepairable(base, log, cells, m)
    requires |grown| == Img(base, log, |log|).high + 1 && (grown == cells || grown == Resize(cells, |grown|))
    requires FIRST_DATA_PAGE <= x < |grown|
    ensures Repairable(base, log, x, grown[x], m)
  {
    if x < |cells| {
      assert Repairable(base, log, x, cells[x], m);
    } else {
      NewPagesCovered(base, lsn0, log, m, |log|, x);
    }
  }

  /** A second replay, from whatever checkpoint, finds nothing to rewrite in the
      data pages. */
  lemma RedoIdempotent(base: Image, lsn0: nat, log: seq<Prepared>, cells: Cells, b: nat, x: PageId)
    requires LogOk(base, lsn0, log) && Restored(base, log, cells) && b < |log| && x in log[b].pages
    ensures x < |cells| && (x >= FIRST_DATA_PAGE ==> !MustWrite(cells, x, log[b].commitLsn))
  {
    assert Covered(log, x, b, |log|);
    CoveredInside(base, lsn0, log, b, |log|, x);
    StampLower(base, lsn0, log, x, b, |log|);
    assert IsVersion(base, log, x, cells[x], |log|);
  }
}
