/** Point reads, queries and scans over a database image, within a response
    budget (btree/mod.rs; the committed read view of btree/coordinator.rs). */
module Queries {
  import opened Lex
  import opened Seqs
  import opened Pages
  import opened KeyCodec
  import opened Tree
  import opened Records
  import opened Space
  import opened Database
  import opened Reference
  import opened Errors
  import opened Budget
  import opened Reads

  // ---------------------------------------------------------------- entries and documents

  lemma KeyOfEncoded(encoded: bytes, key: DocumentKey)
    requires Decode(encoded).Good?
    ensures encoded == Encoded(KeyOf(encoded))
    ensures encoded == Encoded(key) <==> KeyOf(encoded) == key
  {
    EncodedDecode(encoded);
    DecodeEncoded(key);
  }

  lemma {:induction false} LookupDocs(pages: PageMap, chains: Chains, es: seq<LeafEntry>, key: DocumentKey)
    requires EntriesOk(pages, chains, es)
    ensures Lookup(DocsOf(pages, chains, es), key) ==
            match Find(es, Encoded(key))
            case None => None
            case Some(e) => Some(StateOf(pages, chains, e))
    ensures Find(es, Encoded(key)).Some? ==> Find(es, Encoded(key)).value in es
  {
    if es != [] {
      assert EntryOk(pages, chains, es[0]);
      KeyOfEncoded(es[0].key, key);
      assert DocsOf(pages, chains, es)[1..] == DocsOf(pages, chains, es[1..]);
      LookupDocs(pages, chains, es[1..], key);
    }
  }

  lemma DocsSorted(img: Image, sh: Shape)
    requires Readable(img, sh)
    ensures Sorted(Docs(img, sh))
  {
    var es := Contents(img.pages, sh.levels[0]);
    assert LevelOk(sh.levels[0], sh.bounds[0]);
    ContentsSorted(img.pages, sh.levels[0], sh.bounds[0], |sh.levels[0]|);
    var ess := EntryLists(img.pages, sh.levels[0]);
    assert ess[..|sh.levels[0]|] == ess;
    forall i, j | 0 <= i < j < |es| ensures KeyLess(KeyOf(es[i].key), KeyOf(es[j].key)) {
      assert EntryOk(img.pages, sh.chains, es[i]) && EntryOk(img.pages, sh.chains, es[j]);
      KeyOfEncoded(es[i].key, KeyOf(es[i].key));
      KeyOfEncoded(es[j].key, KeyOf(es[j].key));
      EncodedOrder(KeyOf(es[i].key), KeyOf(es[j].key));
    }
  }

  // ---------------------------------------------------------------- point reads

  /** The entry of a key, wherever the tree keeps it. */
  method FindEntry(img: Image, encoded: bytes, ghost sh: Shape) returns (r: Result<Option<LeafEntry>>)
    ensures r.Err? ==> r.error == Corruption
    ensures Readable(img, sh) ==> r == Ok(Find(Contents(img.pages, sh.levels[0]), encoded))
    ensures forall route :: Routes(img, encoded, route) ==> r == Ok(Find(img.pages[route[|route| - 1]].entries, encoded))
  {
    var found; ghost var path;
    found, path := FindLeaf(img, encoded, sh);
    if found.Err? {
      return Err(found.error);
    }
    var page := PageAt(img, found.value.0);
    if page.Err? || !page.value.Leaf? {
      if Readable(img, sh) {
        ReachedLeaf(img, sh, encoded, found.value.1, path);
      }
      return Err(Corruption);
    }
    if Readable(img, sh) {
      ReachedLeaf(img, sh, encoded, found.value.1, path);
      FindInLeaf(img.pages, sh.levels[0], sh.bounds[0], path[|path| - 1], encoded);
    }
    return Ok(Find(page.value.entries, encoded));
  }

  lemma ReachedLeaf(img: Image, sh: Shape, key: bytes, route: Ids, path: seq<nat>)
    requires Readable(img, sh) && Reaches(img.pages, sh, key, route, path)
    ensures var i := path[|path| - 1];
            && i < |sh.levels[0]| && sh.levels[0][i] == route[|route| - 1]
            && InFile(img, sh.levels[0][i]) && LevelOk(sh.levels[0], sh.bounds[0])
            && LeafOk(img.pages[sh.levels[0][i]], sh.bounds[0], i, NextOf(sh.levels[0], i))
  {
    var i := path[|path| - 1];
    assert LeafOk(At(img.pages, sh.levels[0][i]), sh.bounds[0], i, NextOf(sh.levels[0], i));
  }

  function StateLength(state: RevisionState): nat {
    if state.Present? then |state.value| else 0
  }

  /** Reads exactly what the reference model holds, tombstone revisions
      included, if the response fits the budget. */
  method GetState(img: Image, key: DocumentKey, budget: ResponseBudget, ghost sh: Shape) returns (r: Result<RevisionState>)
    requires budget.State().Ok()
    modifies budget
    ensures budget.State().Ok()
    ensures |Encoded(key)| > MAX_ENCODED_KEY_SIZE ==> r == Err(InvalidInput)
    ensures Readable(img, sh) && |Encoded(key)| <= MAX_ENCODED_KEY_SIZE ==>
              var state := Get(Docs(img, sh), key);
              var wire, memory := StateLength(state) + 13, Saturating(StateLength(state) + 32);
              && r == (if old(budget.State()).Admits(wire, memory) then Ok(state) else Err(ResponseTooLarge))
              && (r.Ok? ==> budget.State() == old(budget.State()).Charge(wire, memory))
  {
    var encoded := Encode(key);
    if |encoded| > MAX_ENCODED_KEY_SIZE {
      return Err(InvalidInput);
    }
    var entry := FindEntry(img, encoded, sh);
    if entry.Err? {
      return Err(entry.error);
    }
    ghost var state := Missing(0);
    if Readable(img, sh) {
      EntryState(img, sh, key, entry.value);
      state := Get(Docs(img, sh), key);
    }
    if entry.value.None? {
      var reserved := budget.ReserveState(0);
      if reserved.Err? {
        return Err(reserved.error);
      }
      return Ok(Missing(0));
    }
    match entry.value.value.value
    case Some(v) =>
      var reserved := budget.ReserveState(ValueLength(v));
      if reserved.Err? {
        return Err(reserved.error);
      }
      var value := ReadValue(img, v, if state.Present? then state.value else []);
      if value.Err? {
        return Err(value.error);
      }
      return Ok(Present(value.value, entry.value.value.revision));
    case None =>
      var reserved := budget.ReserveState(0);
      if reserved.Err? {
        return Err(reserved.error);
      }
      return Ok(Missing(entry.value.value.revision));
  }

  /** What the entry of a key says about its state. */
  lemma EntryState(img: Image, sh: Shape, key: DocumentKey, entry: Option<LeafEntry>)
    requires Readable(img, sh) && entry == Find(Contents(img.pages, sh.levels[0]), Encoded(key))
    ensures entry.None? ==> Get(Docs(img, sh), key) == Missing(0)
    ensures entry.Some? ==> EntryReads(img, entry.value, (key, Get(Docs(img, sh), key)))
  {
    var es := Contents(img.pages, sh.levels[0]);
    LookupDocs(img.pages, sh.chains, es, key);
    if entry.Some? {
      var i :| 0 <= i < |es| && es[i] == entry.value;
      EntryReadsDoc(img, sh, i);
      FindHas(es, Encoded(key));
      DecodeEncoded(key);
    }
  }

  lemma {:induction false} FindHas(es: seq<LeafEntry>, key: bytes)
    ensures Find(es, key).Some? ==> Find(es, key).value.key == key
  {
    if es != [] {
      FindHas(es[1..], key);
    }
  }

  /** Presence and revision of a key, as conditions see it. */
  method GetObserved(img: Image, key: DocumentKey, ghost sh: Shape) returns (r: Result<ObservedState>)
    ensures |Encoded(key)| > MAX_ENCODED_KEY_SIZE ==> r == Err(InvalidInput)
    ensures Readable(img, sh) && |Encoded(key)| <= MAX_ENCODED_KEY_SIZE ==> r == Ok(Get(Docs(img, sh), key).Observed())
  {
    var encoded := Encode(key);
    if |encoded| > MAX_ENCODED_KEY_SIZE {
      return Err(InvalidInput);
    }
    var entry := FindEntry(img, encoded, sh);
    if entry.Err? {
      return Err(entry.error);
    }
    if Readable(img, sh) {
      EntryState(img, sh, key, entry.value);
    }
    if entry.value.None? {
      return Ok(SeenMissing(0));
    }
    if entry.value.value.value.Some? {
      return Ok(SeenPresent(entry.value.value.revision));
    }
    return Ok(SeenMissing(entry.value.value.revision));
  }

  // ---------------------------------------------------------------- walking the leaf chain

  /** The first n documents have been looked at and the answer is not full. */
  ghost predicate Progress(docs: States, range: Range, n: nat, rows: seq<Document>, limit: nat, start: Account, now: Account) {
    && n <= |docs|
    && rows == Select(docs[..n], range)
    && |rows| < limit
    && Charged(rows, start, now)
  }

  ghost predicate Charged(rows: seq<Document>, start: Account, now: Account) {
    now == start.Charge(RowsWire(rows), RowsMemory(rows))
  }

  ghost function Answer(docs: States, range: Range, limit: nat): seq<Document> {
    Take(Select(docs, range), limit)
  }

  ghost predicate Refused(docs: States, range: Range, limit: nat, start: Account) {
    !start.Admits(RowsWire(Answer(docs, range, limit)), RowsMemory(Answer(docs, range, limit)))
  }

  /** An unwanted document changes nothing. */
  lemma ProgressSkip(docs: States, range: Range, n: nat, rows: seq<Document>, limit: nat, start: Account, now: Account)
    requires Progress(docs, range, n, rows, limit, start, now) && n < |docs| && !Wanted(docs[n], range)
    ensures Progress(docs, range, n + 1, rows, limit, start, now)
  {
    SelectStep(docs, range, n);
  }

  /** A wanted document extends the answer by one row. */
  lemma ProgressRow(docs: States, range: Range, n: nat, rows: seq<Document>, limit: nat, start: Account, now: Account)
    requires Progress(docs, range, n, rows, limit, start, now) && n < |docs| && Wanted(docs[n], range)
    ensures var row := Row(docs[n]);
            var wire, memory := RowWire(row.key, |row.value|), RowMemory(row.key, |row.value|);
            && rows + [row] == Select(docs[..n + 1], range)
            && Charged(rows + [row], start, now.Charge(wire, memory))
            && (|rows| + 1 < limit ==> Progress(docs, range, n + 1, rows + [row], limit, start, now.Charge(wire, memory)))
            && (|rows| + 1 == limit ==> rows + [row] == Answer(docs, range, limit))
            && (!now.Admits(wire, memory) ==> Refused(docs, range, limit, start))
  {
    var row := Row(docs[n]);
    SelectStep(docs, range, n);
    SelectPrefix(docs, range, n + 1);
    RowsStep(rows, row);
    assert rows + [row] <= Answer(docs, range, limit);
    RowsPrefix(rows + [row], Answer(docs, range, limit));
  }

  /** The walk is over when no wanted document is left. */
  lemma ProgressDone(docs: States, range: Range, n: nat, rows: seq<Document>, limit: nat, start: Account, now: Account)
    requires Progress(docs, range, n, rows, limit, start, now)
    requires forall i :: n <= i < |docs| ==> !Wanted(docs[i], range)
    ensures rows == Answer(docs, range, limit) && Charged(rows, start, now)
  {
    SelectSkips(docs, range, n, |docs|);
    assert docs[..|docs|] == docs;
  }

  /** Nothing wanted before the leaf of the starting key. */
  lemma ProgressStart(docs: States, range: Range, n: nat, limit: nat, start: Account)
    requires n <= |docs| && limit > 0
    requires forall i :: 0 <= i < n ==> !Wanted(docs[i], range)
    ensures Progress(docs, range, n, [], limit, start, start)
  {
    SelectSkips(docs, range, 0, n);
    assert docs[..0] == [];
  }

  /** The leaves of an image, in chain order, hold exactly the documents. */
  ghost predicate Serves(img: Image, leaves: Ids, docs: States) {
    && NoDup(leaves) && leaves != [] && Sorted(docs)
    && Start(img, leaves, |leaves|) == |docs|
    && forall i :: 0 <= i < |leaves| ==> LeafServes(img, leaves, docs, i)
  }

  /** Position of the first entry of leaf i in the contents. */
  ghost function Start(img: Image, leaves: Ids, i: nat): nat
    requires i <= |leaves|
  {
    Offset(EntryLists(img.pages, leaves), i)
  }

  ghost predicate LeafServes(img: Image, leaves: Ids, docs: States, i: nat)
    requires i < |leaves|
  {
    && InFile(img, leaves[i])
    && img.pages[leaves[i]].Leaf?
    && img.pages[leaves[i]].nextLeaf == NextOf(leaves, i)
    && EntriesServe(img, img.pages[leaves[i]].entries, docs, Start(img, leaves, i))
    && Start(img, leaves, i + 1) == Start(img, leaves, i) + |img.pages[leaves[i]].entries|
  }

  ghost predicate EntriesServe(img: Image, entries: seq<LeafEntry>, docs: States, n: nat) {
    && n + |entries| <= |docs|
    && forall x :: 0 <= x < |entries| ==> EntryReads(img, entries[x], docs[n + x])
  }

  lemma ReadableServes(img: Image, sh: Shape)
    requires Readable(img, sh)
    ensures Serves(img, sh.levels[0], Docs(img, sh))
  {
    DocsSorted(img, sh);
    var leaves := sh.levels[0];
    assert LevelOk(sh.levels[0], sh.bounds[0]);
    var ess := EntryLists(img.pages, leaves);
    assert ess[..|leaves|] == ess;
    forall i | 0 <= i < |leaves| ensures LeafServes(img, leaves, Docs(img, sh), i) {
      hide Readable;
      ReadableLeafServes(img, sh, i);
    }
  }

  lemma ReadableLeaf(img: Image, sh: Shape, i: nat)
    requires Readable(img, sh) && i < |sh.levels[0]|
    ensures |sh.bounds| > 0 && i < |sh.bounds[0]| && InFile(img, sh.levels[0][i])
    ensures LeafOk(At(img.pages, sh.levels[0][i]), sh.bounds[0], i, NextOf(sh.levels[0], i))
  {
    hide TreeOk, ChainsOk, EntriesOk, LeafOk, NoDup;
    TreeRoot(img.pages, img.root, sh.levels, sh.bounds);
    TreeLeaf(img.pages, img.root, sh.levels, sh.bounds, i);
    assert sh.levels[0][i] in sh.levels[0];
  }

  lemma ReadableLeafServes(img: Image, sh: Shape, i: nat)
    requires Readable(img, sh) && i < |sh.levels[0]|
    ensures LeafServes(img, sh.levels[0], Docs(img, sh), i)
  {
    hide Readable, EntryReads, InRange, SortedEntries, Docs, Concat, Offset;
    ReadableLevels(img, sh);
    var leaves := sh.levels[0];
    var ess := EntryLists(img.pages, leaves);
    ReadableLeaf(img, sh, i);
    OffsetBlock(ess, i);
    DocsLength(img, sh);
    var n := Offset(ess, i);
    forall x | 0 <= x < |ess[i]| ensures EntryReads(img, ess[i][x], Docs(img, sh)[n + x]) {
      EntryReadsDoc(img, sh, n + x);
    }
  }

  lemma ReadableLevels(img: Image, sh: Shape)
    requires Readable(img, sh)
    ensures |sh.levels| > 0
  {
  }

  lemma DocsLength(img: Image, sh: Shape)
    requires |sh.levels| > 0
    ensures |Docs(img, sh)| == |Contents(img.pages, sh.levels[0])|
  {
  }

  /** One present entry: reserve its row, read its value, append it. */
  method AddRow(img: Image, key: DocumentKey, v: ValueRef, revision: nat, rows: seq<Document>, budget: ResponseBudget,
                ghost docs: States, ghost range: Range, ghost n: nat, ghost limit: nat, ghost start: Account)
    returns (r: Result<seq<Document>>)
    requires budget.State().Ok()
    modifies budget
    ensures budget.State().Ok()
    ensures old(Progress(docs, range, n, rows, limit, start, budget.State())) && n < |docs| && Contains(range, key)
            && docs[n].0 == key && docs[n].1.Present? && docs[n].1.revision == revision
            && ReadsAs(img, v, docs[n].1.value) && |docs[n].1.value| == ValueLength(v) ==>
              && (r.Ok? ==> && |r.value| == |rows| + 1
                            && Charged(r.value, start, budget.State())
                            && (|r.value| < limit ==> Progress(docs, range, n + 1, r.value, limit, start, budget.State()))
                            && (|r.value| == limit ==> r.value == Answer(docs, range, limit)))
              && (r.Err? ==> r.error == ResponseTooLarge && Refused(docs, range, limit, start))
  {
    ghost var value: bytes := if n < |docs| && docs[n].1.Present? then docs[n].1.value else [];
    if Progress(docs, range, n, rows, limit, start, budget.State()) && n < |docs| && Wanted(docs[n], range) {
      ProgressRow(docs, range, n, rows, limit, start, budget.State());
    }
    var reserved := budget.ReserveDocument(key, ValueLength(v));
    if reserved.Err? {
      return Err(reserved.error);
    }
    var read := ReadValue(img, v, value);
    if read.Err? {
      return Err(read.error);
    }
    return Ok(rows + [Document(key, read.value, revision)]);
  }

  datatype Step = More(rows: seq<Document>) | Finished(rows: seq<Document>) | Failed(error: Error)

  /** What one leaf of the walk contributes. */
  ghost predicate StepOk(step: Step, docs: States, range: Range, n: nat, limit: nat, start: Account, now: Account) {
    match step
    case More(rows) => Progress(docs, range, n, rows, limit, start, now)
    case Finished(rows) => rows == Answer(docs, range, limit) && Charged(rows, start, now)
    case Failed(error) => error == ResponseTooLarge && Refused(docs, range, limit, start)
  }

  // ---------------------------------------------------------------- query

  /** A key at or before the cursor is not in the range of the query. */
  lemma BeforeCursor(pk: bytes, afterSk: bytes, key: DocumentKey)
    requires !Less(Encoded(DocumentKey(pk, afterSk)), Encoded(key))
    ensures !Contains(QueryRange(pk, Some(afterSk)), key)
  {
    EncodedOrder(DocumentKey(pk, afterSk), key);
  }

  /** After a larger primary key nothing can be in the range of the query. */
  lemma PastPrimaryKey(docs: States, pk: bytes, afterSk: Option<bytes>, n: nat)
    requires Sorted(docs) && n < |docs| && Less(pk, docs[n].0.pk)
    ensures forall i :: n <= i < |docs| ==> !Wanted(docs[i], QueryRange(pk, afterSk))
  {
    forall i | n <= i < |docs| ensures !Wanted(docs[i], QueryRange(pk, afterSk)) {
      assert i > n ==> KeyLess(docs[n].0, docs[i].0);
    }
  }

  datatype Verdict = Skip | Stop | Use(key: DocumentKey) | Broken

  /** How a query treats one entry. */
  method ClassifyQuery(encoded: bytes, pk: bytes, afterSk: Option<bytes>, cursor: Option<bytes>, first: bool)
    returns (v: Verdict, stillFirst: bool)
    requires cursor == if afterSk.Some? then Some(Encoded(DocumentKey(pk, afterSk.value))) else None
    ensures v.Skip? && Decode(encoded).Good? ==> !Contains(QueryRange(pk, afterSk), Decode(encoded).value)
    ensures v.Stop? ==> Decode(encoded).Good? && Less(pk, Decode(encoded).value.pk)
    ensures v.Use? ==> Decode(encoded) == Good(v.key) && Contains(QueryRange(pk, afterSk), v.key)
    ensures v.Broken? ==> Decode(encoded).Bad?
  {
    EncodedDecode(encoded);
    if first && cursor.Some? && !Less(cursor.value, encoded) {
      if Decode(encoded).Good? {
        BeforeCursor(pk, afterSk.value, Decode(encoded).value);
      }
      return Skip, first;
    }
    var decoded := DecodeKey(encoded);
    if decoded.Bad? {
      return Broken, false;
    }
    var key := decoded.value;
    if key.pk != pk {
      return if Less(pk, key.pk) then Stop else Skip, false;
    }
    if afterSk.Some? && !Less(afterSk.value, key.sk) {
      return Skip, false;
    }
    return Use(key), false;
  }

  method QueryEntry(img: Image, entry: LeafEntry, pk: bytes, afterSk: Option<bytes>, cursor: Option<bytes>, limit: nat,
                    rows: seq<Document>, first0: bool, budget: ResponseBudget,
                    ghost docs: States, ghost n: nat, ghost start: Account)
    returns (step: Step, first: bool)
    requires budget.State().Ok()
    requires cursor == if afterSk.Some? then Some(Encoded(DocumentKey(pk, afterSk.value))) else None
    modifies budget
    ensures budget.State().Ok()
    ensures Sorted(docs) && n < |docs| && EntryReads(img, entry, docs[n])
            && old(Progress(docs, QueryRange(pk, afterSk), n, rows, limit, start, budget.State())) ==>
              StepOk(step, docs, QueryRange(pk, afterSk), n + 1, limit, start, budget.State())
  {
    ghost var range := QueryRange(pk, afterSk);
    ghost var good := Sorted(docs) && n < |docs| && EntryReads(img, entry, docs[n])
                      && Progress(docs, range, n, rows, limit, start, budget.State());
    var verdict;
    verdict, first := ClassifyQuery(entry.key, pk, afterSk, cursor, first0);
    if verdict.Broken? {
      return Failed(Corruption), first;
    }
    if verdict.Stop? {
      if good {
        PastPrimaryKey(docs, pk, afterSk, n);
        ProgressDone(docs, range, n, rows, limit, start, budget.State());
      }
      return Finished(rows), first;
    }
    if verdict.Use? && entry.value.Some? {
      var added := AddRow(img, verdict.key, entry.value.value, entry.revision, rows, budget, docs, range, n, limit, start);
      if added.Err? {
        return Failed(added.error), first;
      }
      return if |added.value| == limit then Finished(added.value) else More(added.value), first;
    }
    if good {
      ProgressSkip(docs, range, n, rows, limit, start, budget.State());
    }
    return More(rows), first;
  }

  method QueryLeaf(img: Image, entries: seq<LeafEntry>, pk: bytes, afterSk: Option<bytes>, cursor: Option<bytes>, limit: nat,
                   rows0: seq<Document>, first0: bool, budget: ResponseBudget,
                   ghost docs: States, ghost n: nat, ghost start: Account)
    returns (step: Step, first: bool)
    requires budget.State().Ok()
    requires cursor == if afterSk.Some? then Some(Encoded(DocumentKey(pk, afterSk.value))) else None
    modifies budget
    ensures budget.State().Ok()
    ensures Sorted(docs) && EntriesServe(img, entries, docs, n)
            && old(Progress(docs, QueryRange(pk, afterSk), n, rows0, limit, start, budget.State())) ==>
              StepOk(step, docs, QueryRange(pk, afterSk), n + |entries|, limit, start, budget.State())
  {
    ghost var range := QueryRange(pk, afterSk);
    ghost var good := Sorted(docs) && EntriesServe(img, entries, docs, n)
                      && Progress(docs, range, n, rows0, limit, start, budget.State());
    var rows := rows0;
    first := first0;
    for x := 0 to |entries|
      invariant budget.State().Ok()
      invariant good ==> Progress(docs, range, n + x, rows, limit, start, budget.State())
    {
      assert good ==> EntryReads(img, entries[x], docs[n + x]);
      step, first := QueryEntry(img, entries[x], pk, afterSk, cursor, limit, rows, first, budget, docs, n + x, start);
      if !step.More? {
        return;
      }
      rows := step.rows;
    }
    return More(rows), first;
  }

  function TooLong(pk: bytes, afterSk: Option<bytes>): bool {
    || EncodedLen(DocumentKey(pk, [])) > MAX_ENCODED_KEY_SIZE
    || (afterSk.Some? && EncodedLen(DocumentKey(pk, afterSk.value)) > MAX_ENCODED_KEY_SIZE)
  }

  /** Everything left of the leaf of (pk, empty) has a smaller primary key. */
  lemma QueryStart(img: Image, sh: Shape, pk: bytes, afterSk: Option<bytes>, route: Ids, path: seq<nat>, limit: nat, start: Account)
    requires Readable(img, sh) && limit > 0
    requires Reaches(img.pages, sh, Encoded(DocumentKey(pk, [])), route, path)
    ensures path[|path| - 1] < |sh.levels[0]|
    ensures Progress(Docs(img, sh), QueryRange(pk, afterSk), Start(img, sh.levels[0], path[|path| - 1]), [], limit, start, start)
  {
    var i, docs := path[|path| - 1], Docs(img, sh);
    var key := Encoded(DocumentKey(pk, []));
    ReachedLeaf(img, sh, key, route, path);
    AroundLeaf(img.pages, sh.levels[0], sh.bounds[0], i, key);
    var n := Start(img, sh.levels[0], i);
    forall x | 0 <= x < n ensures !Wanted(docs[x], QueryRange(pk, afterSk)) {
      EntryReadsDoc(img, sh, x);
      EncodedDecode(Contents(img.pages, sh.levels[0])[x].key);
      PrimaryKeyRange(pk, docs[x].0, docs[x].0, docs[x].0);
      assert Contents(img.pages, sh.levels[0])[x] == Concat(EntryLists(img.pages, sh.levels[0])[..i])[x];
    }
    ProgressStart(docs, QueryRange(pk, afterSk), n, limit, start);
  }

  method QueryWalk(img: Image, leafId: PageId, pk: bytes, afterSk: Option<bytes>, cursor: Option<bytes>, limit: nat,
                   budget: ResponseBudget, ghost leaves: Ids, ghost docs: States, ghost i0: nat)
    returns (r: Result<seq<Document>>)
    requires budget.State().Ok() && limit > 0
    requires cursor == if afterSk.Some? then Some(Encoded(DocumentKey(pk, afterSk.value))) else None
    modifies budget
    ensures budget.State().Ok()
    ensures Serves(img, leaves, docs) && i0 < |leaves| && leaves[i0] == leafId
            && Progress(docs, QueryRange(pk, afterSk), Start(img, leaves, i0), [], limit, old(budget.State()), old(budget.State())) ==>
              && (r.Ok? ==> r.value == Answer(docs, QueryRange(pk, afterSk), limit)
                            && Charged(r.value, old(budget.State()), budget.State()))
              && (r.Err? ==> r.error == ResponseTooLarge && Refused(docs, QueryRange(pk, afterSk), limit, old(budget.State())))
  {
    hide Serves, Progress, Charged, Refused, Answer, EntriesServe, Encoded;
    ghost var start := budget.State();
    ghost var range := QueryRange(pk, afterSk);
    ghost var good := Serves(img, leaves, docs) && i0 < |leaves| && leaves[i0] == leafId
                      && Progress(docs, range, Start(img, leaves, i0), [], limit, start, start);
    ghost var i: nat := i0;
    var current, first := leafId, true;
    var visited: set<PageId> := {};
    var rows: seq<Document> := [];
    while |rows| < limit
      invariant budget.State().Ok()
      invariant good ==> |rows| < limit
      invariant visited <= img.pages.Keys
      invariant good ==> i < |leaves| && leaves[i] == current
      invariant good ==> forall x :: x in visited ==> x in leaves[..i]
      invariant good ==> Progress(docs, range, Start(img, leaves, i), rows, limit, start, budget.State())
      decreases img.pages.Keys - visited
    {
      if good {
        ServesLeaf(img, leaves, docs, i);
        NotVisited(leaves, i);
      }
      if current in visited {
        return Err(Corruption);
      }
      var page := PageAt(img, current);
      if page.Err? || !page.value.Leaf? {
        return Err(Corruption);
      }
      var step;
      step, first := QueryLeaf(img, page.value.entries, pk, afterSk, cursor, limit, rows, first, budget, docs,
                               if good then Start(img, leaves, i) else 0, start);
      if step.Failed? {
        return Err(step.error);
      }
      rows := step.rows;
      if step.Finished? {
        return Ok(rows);
      }
      if page.value.nextLeaf.None? {
        if good {
          ProgressDone(docs, range, |docs|, rows, limit, start, budget.State());
        }
        break;
      }
      visited := visited + {current};
      current, first := page.value.nextLeaf.value, false;
      i := i + 1;
      ProgressShort(docs, range, if good then Start(img, leaves, i) else 0, rows, limit, start, budget.State());
    }
    return Ok(rows);
  }

  lemma ProgressShort(docs: States, range: Range, n: nat, rows: seq<Document>, limit: nat, start: Account, now: Account)
    ensures Progress(docs, range, n, rows, limit, start, now) ==> |rows| < limit
  {
  }

  lemma ServesLeaf(img: Image, leaves: Ids, docs: States, i: nat)
    requires Serves(img, leaves, docs) && i < |leaves|
    ensures NoDup(leaves) && Sorted(docs) && LeafServes(img, leaves, docs, i) && Start(img, leaves, |leaves|) == |docs|
  {
    hide LeafServes, Start, Sorted, NoDup;
  }

  lemma NotVisited(leaves: Ids, i: nat)
    requires NoDup(leaves) && i < |leaves|
    ensures leaves[i] !in leaves[..i]
    ensures leaves[..i + 1] == leaves[..i] + [leaves[i]]
  {
  }

  /** A query returns the first `limit` present documents of its range, if they
      fit the budget. */
  method QueryRows(img: Image, pk: bytes, afterSk: Option<bytes>, limit: nat, budget: ResponseBudget, ghost sh: Shape)
    returns (r: Result<seq<Document>>)
    requires budget.State().Ok()
    modifies budget
    ensures budget.State().Ok()
    ensures limit == 0 ==> r == Ok([]) && budget.State() == old(budget.State())
    ensures limit > 0 && TooLong(pk, afterSk) && Readable(img, sh) ==> r == Err(InvalidInput)
    ensures Readable(img, sh) && limit > 0 && !TooLong(pk, afterSk) ==>
              var rows := Query(Docs(img, sh), pk, afterSk, limit);
              && r == (if old(budget.State()).Admits(RowsWire(rows), RowsMemory(rows)) then Ok(rows) else Err(ResponseTooLarge))
              && (r.Ok? ==> budget.State() == old(budget.State()).Charge(RowsWire(rows), RowsMemory(rows)))
  {
    if limit == 0 {
      return Ok([]);
    }
    EncodedLenExact(DocumentKey(pk, []));
    var startKey := Encode(DocumentKey(pk, []));
    if |startKey| > MAX_ENCODED_KEY_SIZE {
      return Err(InvalidInput);
    }
    var found; ghost var path;
    found, path := FindLeaf(img, startKey, sh);
    if found.Err? {
      return Err(found.error);
    }
    var cursor: Option<bytes> := None;
    if afterSk.Some? {
      EncodedLenExact(DocumentKey(pk, afterSk.value));
      var encoded := Encode(DocumentKey(pk, afterSk.value));
      if |encoded| > MAX_ENCODED_KEY_SIZE {
        return Err(InvalidInput);
      }
      cursor := Some(encoded);
    }
    ghost var i: nat, leaves: Ids, docs: States := 0, [], [];
    if Readable(img, sh) {
      ReachedLeaf(img, sh, startKey, found.value.1, path);
      QueryStart(img, sh, pk, afterSk, found.value.1, path, limit, budget.State());
      ReadableServes(img, sh);
      i, leaves, docs := path[|path| - 1], sh.levels[0], Docs(img, sh);
    }
    r := QueryWalk(img, found.value.0, pk, afterSk, cursor, limit, budget, leaves, docs, i);
  }

  // ---------------------------------------------------------------- scan

  method ScanEntry(img: Image, entry: LeafEntry, afterKey: Option<DocumentKey>, cursor: Option<bytes>, limit: nat,
                   rows: seq<Document>, budget: ResponseBudget, ghost docs: States, ghost n: nat, ghost start: Account)
    returns (step: Step)
    requires budget.State().Ok()
    requires cursor == if afterKey.Some? then Some(Encoded(afterKey.value)) else None
    modifies budget
    ensures budget.State().Ok()
    ensures n < |docs| && EntryReads(img, entry, docs[n])
            && old(Progress(docs, ScanRange(afterKey), n, rows, limit, start, budget.State())) ==>
              StepOk(step, docs, ScanRange(afterKey), n + 1, limit, start, budget.State())
  {
    ghost var range := ScanRange(afterKey);
    ghost var good := n < |docs| && EntryReads(img, entry, docs[n])
                      && Progress(docs, range, n, rows, limit, start, budget.State());
    EncodedDecode(entry.key);
    if good && afterKey.Some? {
      EncodedOrder(afterKey.value, docs[n].0);
    }
    if cursor.Some? && !Less(cursor.value, entry.key) {
      if good {
        ProgressSkip(docs, range, n, rows, limit, start, budget.State());
      }
      return More(rows);
    }
    var decoded := DecodeKey(entry.key);
    if decoded.Bad? {
      return Failed(Corruption);
    }
    if entry.value.Some? {
      var added := AddRow(img, decoded.value, entry.value.value, entry.revision, rows, budget, docs, range, n, limit, start);
      if added.Err? {
        return Failed(added.error);
      }
      return if |added.value| == limit then Finished(added.value) else More(added.value);
    }
    if good {
      ProgressSkip(docs, range, n, rows, limit, start, budget.State());
    }
    return More(rows);
  }

  method ScanLeaf(img: Image, entries: seq<LeafEntry>, afterKey: Option<DocumentKey>, cursor: Option<bytes>, limit: nat,
                  rows0: seq<Document>, budget: ResponseBudget, ghost docs: States, ghost n: nat, ghost start: Account)
    returns (step: Step)
    requires budget.State().Ok()
    requires cursor == if afterKey.Some? then Some(Encoded(afterKey.value)) else None
    modifies budget
    ensures budget.State().Ok()
    ensures EntriesServe(img, entries, docs, n)
            && old(Progress(docs, ScanRange(afterKey), n, rows0, limit, start, budget.State())) ==>
              StepOk(step, docs, ScanRange(afterKey), n + |entries|, limit, start, budget.State())
  {
    ghost var range := ScanRange(afterKey);
    ghost var good := EntriesServe(img, entries, docs, n)
                      && Progress(docs, range, n, rows0, limit, start, budget.State());
    var rows := rows0;
    for x := 0 to |entries|
      invariant budget.State().Ok()
      invariant good ==> Progress(docs, range, n + x, rows, limit, start, budget.State())
    {
      assert good ==> EntryReads(img, entries[x], docs[n + x]);
      step := ScanEntry(img, entries[x], afterKey, cursor, limit, rows, budget, docs, n + x, start);
      if !step.More? {
        return;
      }
      rows := step.rows;
    }
    return More(rows);
  }

  method ScanWalk(img: Image, leafId: PageId, afterKey: Option<DocumentKey>, cursor: Option<bytes>, limit: nat,
                  budget: ResponseBudget, ghost leaves: Ids, ghost docs: States, ghost i0: nat)
    returns (r: Result<seq<Document>>)
    requires budget.State().Ok() && limit > 0
    requires cursor == if afterKey.Some? then Some(Encoded(afterKey.value)) else None
    modifies budget
    ensures budget.State().Ok()
    ensures Serves(img, leaves, docs) && i0 < |leaves| && leaves[i0] == leafId
            && Progress(docs, ScanRange(afterKey), Start(img, leaves, i0), [], limit, old(budget.State()), old(budget.State())) ==>
              && (r.Ok? ==> r.value == Answer(docs, ScanRange(afterKey), limit)
                            && Charged(r.value, old(budget.State()), budget.State()))
              && (r.Err? ==> r.error == ResponseTooLarge && Refused(docs, ScanRange(afterKey), limit, old(budget.State())))
  {
    hide Serves, Progress, Charged, Refused, Answer, EntriesServe, Encoded;
    ghost var start := budget.State();
    ghost var range := ScanRange(afterKey);
    ghost var good := Serves(img, leaves, docs) && i0 < |leaves| && leaves[i0] == leafId
                      && Progress(docs, range, Start(img, leaves, i0), [], limit, start, start);
    ghost var i: nat := i0;
    var current := leafId;
    var visited: set<PageId> := {};
    var rows: seq<Document> := [];
    while true
      invariant budget.State().Ok()
      invariant visited <= img.pages.Keys
      invariant good ==> i < |leaves| && leaves[i] == current
      invariant good ==> forall x :: x in visited ==> x in leaves[..i]
      invariant good ==> Progress(docs, range, Start(img, leaves, i), rows, limit, start, budget.State())
      decreases img.pages.Keys - visited
    {
      if good {
        ServesLeaf(img, leaves, docs, i);
        NotVisited(leaves, i);
      }
      if current in visited {
        return Err(Corruption);
      }
      var page := PageAt(img, current);
      if page.Err? || !page.value.Leaf? {
        return Err(Corruption);
      }
      var step := ScanLeaf(img, page.value.entries, afterKey, cursor, limit, rows, budget, docs,
                           if good then Start(img, leaves, i) else 0, start);
      if step.Failed? {
        return Err(step.error);
      }
      rows := step.rows;
      if step.Finished? {
        return Ok(rows);
      }
      if page.value.nextLeaf.None? {
        if good {
          ProgressDone(docs, range, |docs|, rows, limit, start, budget.State());
        }
        return Ok(rows);
      }
      visited := visited + {current};
      current := page.value.nextLeaf.value;
      i := i + 1;
    }
  }

  /** Everything left of the leaf of the cursor is at or before the cursor. */
  lemma ScanStart(img: Image, sh: Shape, after: DocumentKey, route: Ids, path: seq<nat>, limit: nat, start: Account)
    requires Readable(img, sh) && limit > 0
    requires Reaches(img.pages, sh, Encoded(after), route, path)
    ensures path[|path| - 1] < |sh.levels[0]|
    ensures Progress(Docs(img, sh), ScanRange(Some(after)), Start(img, sh.levels[0], path[|path| - 1]), [], limit, start, start)
  {
    var i, docs := path[|path| - 1], Docs(img, sh);
    ReachedLeaf(img, sh, Encoded(after), route, path);
    AroundLeaf(img.pages, sh.levels[0], sh.bounds[0], i, Encoded(after));
    var n := Start(img, sh.levels[0], i);
    forall x | 0 <= x < n ensures !Wanted(docs[x], ScanRange(Some(after))) {
      EntryReadsDoc(img, sh, x);
      EncodedDecode(Contents(img.pages, sh.levels[0])[x].key);
      EncodedOrder(after, docs[x].0);
      assert Contents(img.pages, sh.levels[0])[x] == Concat(EntryLists(img.pages, sh.levels[0])[..i])[x];
    }
    ProgressStart(docs, ScanRange(Some(after)), n, limit, start);
  }

  lemma ScanStartLeftmost(img: Image, sh: Shape, limit: nat, start: Account)
    requires Readable(img, sh) && limit > 0
    ensures |sh.levels[0]| > 0
    ensures Progress(Docs(img, sh), ScanRange(None), Start(img, sh.levels[0], 0), [], limit, start, start)
  {
    assert LevelOk(sh.levels[0], sh.bounds[0]);
    var ess := EntryLists(img.pages, sh.levels[0]);
    assert ess[..0] == [];
    ProgressStart(Docs(img, sh), ScanRange(None), 0, limit, start);
  }

  /** A scan returns the first `limit` present documents after its cursor, if
      they fit the budget. */
  method ScanRows(img: Image, afterKey: Option<DocumentKey>, limit: nat, budget: ResponseBudget, ghost sh: Shape)
    returns (r: Result<seq<Document>>)
    requires budget.State().Ok()
    modifies budget
    ensures budget.State().Ok()
    ensures limit == 0 ==> r == Ok([]) && budget.State() == old(budget.State())
    ensures limit > 0 && afterKey.Some? && EncodedLen(afterKey.value) > MAX_ENCODED_KEY_SIZE ==> r == Err(InvalidInput)
    ensures Readable(img, sh) && limit > 0 && (afterKey.Some? ==> EncodedLen(afterKey.value) <= MAX_ENCODED_KEY_SIZE) ==>
              var rows := Scan(Docs(img, sh), afterKey, limit);
              && r == (if old(budget.State()).Admits(RowsWire(rows), RowsMemory(rows)) then Ok(rows) else Err(ResponseTooLarge))
              && (r.Ok? ==> budget.State() == old(budget.State()).Charge(RowsWire(rows), RowsMemory(rows)))
  {
    if limit == 0 {
      return Ok([]);
    }
    var leafId: PageId;
    var cursor: Option<bytes> := None;
    ghost var i: nat, leaves: Ids, docs: States := 0, [], [];
    if Readable(img, sh) {
      ReadableServes(img, sh);
      leaves, docs := sh.levels[0], Docs(img, sh);
    }
    if afterKey.Some? {
      EncodedLenExact(afterKey.value);
      var encoded := Encode(afterKey.value);
      if |encoded| > MAX_ENCODED_KEY_SIZE {
        return Err(InvalidInput);
      }
      var found; ghost var path;
      found, path := FindLeaf(img, encoded, sh);
      if found.Err? {
        return Err(found.error);
      }
      leafId, cursor := found.value.0, Some(encoded);
      if Readable(img, sh) {
        ReachedLeaf(img, sh, encoded, found.value.1, path);
        ScanStart(img, sh, afterKey.value, found.value.1, path, limit, budget.State());
        i := path[|path| - 1];
      }
    } else {
      var leftmost := LeftmostLeaf(img, sh);
      if leftmost.Err? {
        return Err(leftmost.error);
      }
      leafId := leftmost.value;
      if Readable(img, sh) {
        ScanStartLeftmost(img, sh, limit, budget.State());
      }
    }
    r := ScanWalk(img, leafId, afterKey, cursor, limit, budget, leaves, docs, i);
  }
}
