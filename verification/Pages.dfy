/** The decoded pages of the data file (btree/format.rs). */
module Pages {
  import opened Lex

  datatype Option<+T> = None | Some(value: T)

  type PageId = nat

  const FIRST_DATA_PAGE: PageId := 2
  const BODY_SIZE: nat := 4064
  const INLINE_VALUE_LIMIT: nat := 512
  const MAX_VALUE_SIZE: nat := 67108864
  const OVERFLOW_DATA_SIZE: nat := 4032
  const MAX_OVERFLOW_PAGES: nat := 16645
  const MAX_ENCODED_KEY_SIZE: nat := 3992

  datatype ValueRef = Inline(content: bytes) | Overflow(head: PageId, length: nat)

  datatype LeafEntry = LeafEntry(key: bytes, revision: nat, value: Option<ValueRef>)

  datatype InternalEntry = InternalEntry(key: bytes, rightChild: PageId)

  datatype PageData =
    | Leaf(lsn: nat, nextLeaf: Option<PageId>, entries: seq<LeafEntry>)
    | Internal(lsn: nat, leftmostChild: PageId, seps: seq<InternalEntry>)
    | OverflowPage(lsn: nat, next: Option<PageId>, totalLength: nat, chunk: bytes)
    | Free(lsn: nat, nextFree: Option<PageId>)

  type PageMap = map<PageId, PageData>

  /** What a superblock points at, with the pages it is resolved in. */
  datatype Image = Image(pages: PageMap, root: PageId, freeHead: Option<PageId>, high: PageId)

  lemma MergeAssoc(a: PageMap, b: PageMap, c: PageMap)
    ensures a + b + c == a + (b + c)
  {
  }

  lemma MergeStore(a: PageMap, b: PageMap, x: PageId, p: PageData)
    ensures (a + b)[x := p] == a + b[x := p] && b[x := p].Keys == b.Keys + {x}
  {
  }
}
