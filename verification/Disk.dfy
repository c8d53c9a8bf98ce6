/** A file with volatile and durable contents (dodb-testkit/src/crashable_file.rs),
    page by page: any subset of the page writes since the last sync may survive
    a crash, and a page that was being written may be torn. */
module Disk {
  import opened Pages
  import opened Redo

  datatype Disk = Disk(volatile: Cells, durable: Cells, unsynced: map<PageId, set<Cell>>)

  function Fresh(cells: Cells): Disk {
    Disk(cells, cells, map[])
  }

  function Written(d: Disk, x: PageId): set<Cell> {
    if x in d.unsynced then d.unsynced[x] else {}
  }

  function Write(d: Disk, x: PageId, c: Cell): Disk
    requires x < |d.volatile|
  {
    d.(volatile := d.volatile[x := c], unsynced := d.unsynced[x := Written(d, x) + {c}])
  }

  function Extend(d: Disk, length: nat): Disk
    requires |d.volatile| <= length
  {
    d.(volatile := Resize(d.volatile, length))
  }

  function Sync(d: Disk): Disk {
    Fresh(d.volatile)
  }

  /** Page x may read as c, now or after a crash. */
  ghost predicate Possible(d: Disk, x: PageId, c: Cell) {
    || (x < |d.durable| && c == d.durable[x])
    || (x in d.unsynced && (c == Garbage || c in d.unsynced[x]))
    || (x >= |d.durable| && c == Garbage)
  }

  ghost predicate DiskOk(d: Disk) {
    && |d.durable| <= |d.volatile|
    && (forall x :: 0 <= x < |d.volatile| ==> Possible(d, x, d.volatile[x]))
    && (forall x :: x in d.unsynced ==> x < |d.volatile|)
  }

  /** What may be left of the file after a crash. */
  ghost predicate CrashesTo(d: Disk, cells: Cells) {
    && |d.durable| <= |cells| <= |d.volatile|
    && forall x :: 0 <= x < |cells| ==> Possible(d, x, cells[x])
  }

  lemma FreshOk(cells: Cells)
    ensures DiskOk(Fresh(cells))
    ensures forall x, c :: 0 <= x < |cells| ==> (Possible(Fresh(cells), x, c) <==> c == cells[x])
  {
  }

  lemma WriteOk(d: Disk, x: PageId, c: Cell)
    requires DiskOk(d) && x < |d.volatile|
    ensures DiskOk(Write(d, x, c))
    ensures forall y, e :: Possible(Write(d, x, c), y, e) ==> Possible(d, y, e) || (y == x && (e == c || e == Garbage))
  {
    forall y | 0 <= y < |d.volatile| ensures Possible(Write(d, x, c), y, Write(d, x, c).volatile[y]) {
      assert Possible(d, y, d.volatile[y]);
    }
  }

  lemma ExtendOk(d: Disk, length: nat)
    requires DiskOk(d) && |d.volatile| <= length
    ensures DiskOk(Extend(d, length))
    ensures forall y, e :: Possible(Extend(d, length), y, e) ==> Possible(d, y, e)
  {
    forall y | 0 <= y < length ensures Possible(Extend(d, length), y, Extend(d, length).volatile[y]) {
      if y < |d.volatile| {
        assert Possible(d, y, d.volatile[y]);
      }
    }
  }

  /** Losing nothing is another. */
  lemma CrashLosesNothing(d: Disk)
    requires DiskOk(d)
    ensures CrashesTo(d, d.volatile)
  {
  }
}
