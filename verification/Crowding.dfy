/** A leaf that cannot be split although any two of its entries fit together
    in a page (btree/mod.rs, choose_leaf_split). */
module Crowding {
  import opened Lex
  import opened Seqs
  import opened Pages
  import opened KeyCodec
  import opened Tree
  import opened Splits
  import opened Database

  /** A primary key of n bytes without zeros that begins with b. */
  function Filled(b: byte, n: nat): (r: bytes)
    requires n > 0
    ensures |r| == n && r[0] == b
  {
    seq(n, i => if i == 0 then b else 1)
  }

  ghost function Entry(b: byte, n: nat): LeafEntry
    requires n > 4
  {
    LeafEntry(Encoded(DocumentKey(Filled(b, n - 4), [])), 1, Some(Inline([])))
  }

  /** Five documents with empty values and ascending keys; the middle key is
      long. */
  ghost function Crowded(): seq<LeafEntry> {
    [Entry(1, 960), Entry(2, 960), Entry(3, 2960), Entry(4, 960), Entry(5, 960)]
  }

  lemma {:induction false} NoZeros(s: bytes)
    requires forall i :: 0 <= i < |s| ==> s[i] != 0
    ensures Zeros(s) == 0
  {
    if s != [] {
      NoZeros(s[1..]);
    }
  }

  lemma EntryKey(b: byte, n: nat)
    requires b > 0 && 4 < n <= MAX_ENCODED_KEY_SIZE
    ensures |Entry(b, n).key| == n && KeyOk(Entry(b, n).key) && LeafRecordSize(Entry(b, n)) == n + 40
  {
    var key := DocumentKey(Filled(b, n - 4), []);
    NoZeros(key.pk);
    EncodedLenExact(key);
    DecodeEncoded(key);
  }

  lemma EntryOrder(a: byte, m: nat, b: byte, n: nat)
    requires a < b && m > 4 && n > 4
    ensures Less(Entry(a, m).key, Entry(b, n).key)
  {
    EncodedOrder(DocumentKey(Filled(a, m - 4), []), DocumentKey(Filled(b, n - 4), []));
  }

  lemma CrowdedEntries()
    ensures forall i :: 0 <= i < 5 ==> KeyOk(Crowded()[i].key)
    ensures Sizes(Crowded()) == [1000, 1000, 3000, 1000, 1000]
  {
    hide KeyOk, Entry, LeafRecordSize;
    EntryKey(1, 960);
    EntryKey(2, 960);
    EntryKey(3, 2960);
    EntryKey(4, 960);
    EntryKey(5, 960);
  }

  lemma CrowdedSorted()
    ensures SortedEntries(Crowded())
  {
    hide Entry, Less;
    var lengths := [960, 960, 2960, 960, 960];
    forall i, j | 0 <= i < j < 5 ensures Less(Crowded()[i].key, Crowded()[j].key) {
      EntryOrder(i + 1, lengths[i], j + 1, lengths[j]);
      assert Crowded()[i] == Entry(i + 1, lengths[i]) && Crowded()[j] == Entry(j + 1, lengths[j]);
    }
  }

  lemma CrowdedPairs(i: nat, j: nat)
    requires i < j < 5
    ensures LeafFits([Crowded()[i], Crowded()[j]])
  {
    hide Entry, LeafRecordSize;
    var a, b := Crowded()[i], Crowded()[j];
    assert Sizes([a, b]) == [LeafRecordSize(a)] + [LeafRecordSize(b)];
    TotalAppend([LeafRecordSize(a)], [LeafRecordSize(b)]);
    CrowdedEntries();
    assert LeafRecordSize(a) == Sizes(Crowded())[i] && LeafRecordSize(b) == Sizes(Crowded())[j];
  }

  /** That any two entries fit together in a page is not enough: an entry of
      3000 bytes between two pairs of 1000 bytes leaves no split, although the
      page without it fits.  The entries are sorted and their keys canonical. */
  lemma PairsFitButNoSplit()
    ensures SortedEntries(Crowded()) && forall i :: 0 <= i < |Crowded()| ==> KeyOk(Crowded()[i].key)
    ensures forall i, j :: 0 <= i < j < |Crowded()| ==> LeafFits([Crowded()[i], Crowded()[j]])
    ensures LeafFits(RemoveAt(Crowded(), 2))
    ensures !LeafFits(Crowded())
    ensures forall c: nat :: !LeafSplitFits(Crowded(), c)
  {
    hide Entry, LeafRecordSize, KeyOk, SortedEntries;
    CrowdedEntries();
    CrowdedSorted();
    forall i, j | 0 <= i < j < |Crowded()| ensures LeafFits([Crowded()[i], Crowded()[j]]) {
      CrowdedPairs(i, j);
    }
    CrowdedStuck();
  }

  lemma CrowdedStuck()
    ensures LeafFits(RemoveAt(Crowded(), 2)) && !LeafFits(Crowded())
    ensures forall c: nat :: !LeafSplitFits(Crowded(), c)
  {
    hide Entry, LeafRecordSize, KeyOk, SortedEntries;
    CrowdedEntries();
    var es := Crowded();
    var s := Sizes(es);
    assert Total([1000, 1000]) == 2000;
    assert s[..2] == [1000, 1000] && s[3..] == [1000, 1000];
    assert Sizes(RemoveAt(es, 2)) == s[..2] + s[3..];
    TotalAppend(s[..2], s[3..]);
    TotalAround(s, 2);
    TotalCut(s, 2);
    TotalCut(s, 3);
    LeafSplitExists(es, 2);
  }
}
