/** Every consistent image passes the checker, with no leaked page. */
module CheckerComplete {
  import opened Lex
  import opened Seqs
  import opened Pages
  import opened KeyCodec
  import opened Tree
  import opened Records
  import opened Space
  import opened Splits
  import opened Database
  import opened Errors
  import opened Reads
  import opened Stamps
  import opened Change
  import opened Checker

  // ---------------------------------------------------------------- the tree of an image

  ghost function ChainOf(chains: Chains, e: LeafEntry): Ids {
    if HasChain(e) && Head(e) in chains then chains[Head(e)] else []
  }

  ghost function ChainsOf(chains: Chains, es: seq<LeafEntry>): seq<Ids> {
    seq(|es|, i requires 0 <= i < |es| => ChainOf(chains, es[i]))
  }

  ghost function IdAt(sh: Shape, k: nat, i: nat): PageId {
    if k < |sh.levels| && i < |sh.levels[k]| then sh.levels[k][i] else 0
  }

  /** Where the children of page i of level k start in the level below. */
  ghost function First(img: Image, sh: Shape, k: nat, i: nat): nat {
    if k < |sh.levels| && i <= |sh.levels[k]| then Offset(KidLists(img.pages, sh.levels[k]), i) else 0
  }

  ghost function Build(img: Image, sh: Shape, k: nat, i: nat): Node
    decreases k
  {
    var p := At(img.pages, IdAt(sh, k, i));
    if k == 0 then LeafNode(IdAt(sh, 0, i), ChainsOf(sh.chains, Entries(p)))
    else InnerNode(IdAt(sh, k, i), seq(|Kids(p)|, c requires 0 <= c < |Kids(p)| => Build(img, sh, k - 1, First(img, sh, k, i) + c)))
  }

  /** The trees below the pages of one level. */
  ghost function Nodes(img: Image, sh: Shape, k: nat): seq<Node>
    requires k < |sh.levels|
  {
    seq(|sh.levels[k]|, i requires 0 <= i < |sh.levels[k]| => Build(img, sh, k, i))
  }

  ghost predicate Leveled(img: Image, sh: Shape, k: nat) {
    && 0 < k < |sh.levels| == |sh.bounds|
    && Linked(img.pages, sh.levels[k], sh.bounds[k], sh.levels[k - 1], sh.bounds[k - 1])
    && |sh.levels[k - 1]| == |sh.bounds[k - 1]|
  }

  lemma TreeLeveled(img: Image, sh: Shape, k: nat)
    requires TreeOk(img.pages, img.root, sh.levels, sh.bounds) && 0 < k < |sh.levels|
    ensures Leveled(img, sh, k)
  {
    assert LinkedAt(img.pages, sh.levels, sh.bounds, k);
    assert LevelOk(sh.levels[k - 1], sh.bounds[k - 1]);
  }

  /** The children of a page are the nodes of its block in the level below. */
  lemma KidNodes(img: Image, sh: Shape, k: nat, i: nat)
    requires Leveled(img, sh, k) && i < |sh.levels[k]|
    ensures First(img, sh, k, i) <= First(img, sh, k, i + 1) <= |sh.levels[k - 1]|
    ensures Build(img, sh, k, i).kids == Nodes(img, sh, k - 1)[First(img, sh, k, i)..First(img, sh, k, i + 1)]
    ensures sh.levels[k - 1][First(img, sh, k, i)..First(img, sh, k, i + 1)] == Kids(At(img.pages, sh.levels[k][i]))
    ensures sh.bounds[k - 1][First(img, sh, k, i)..First(img, sh, k, i + 1)] == [sh.bounds[k][i]] + SepKeys(At(img.pages, sh.levels[k][i]))
    ensures At(img.pages, sh.levels[k][i]).Internal? && At(img.pages, sh.levels[k][i]).seps != []
  {
    hide Concat, Offset, Linked;
    ChildBlock(img.pages, sh.levels[k], sh.bounds[k], sh.levels[k - 1], sh.bounds[k - 1], i);
    LinkedPage(img.pages, sh.levels[k], sh.bounds[k], sh.levels[k - 1], sh.bounds[k - 1], i);
    assert |KidLists(img.pages, sh.levels[k])[i]| == |Kids(At(img.pages, sh.levels[k][i]))|;
    BuiltKids(img, sh, k, i);
  }

  lemma BuiltKids(img: Image, sh: Shape, k: nat, i: nat)
    requires 0 < k < |sh.levels| && i < |sh.levels[k]|
    requires var n := |Kids(At(img.pages, sh.levels[k][i]))|; First(img, sh, k, i) + n <= |sh.levels[k - 1]|
    ensures var p := At(img.pages, sh.levels[k][i]);
            Build(img, sh, k, i).kids == Nodes(img, sh, k - 1)[First(img, sh, k, i)..First(img, sh, k, i) + |Kids(p)|]
  {
    hide First, Kids;
  }

  lemma FirstEnds(img: Image, sh: Shape, k: nat)
    requires Leveled(img, sh, k)
    ensures First(img, sh, k, 0) == 0 && First(img, sh, k, |sh.levels[k]|) == |sh.levels[k - 1]|
  {
    var ks := KidLists(img.pages, sh.levels[k]);
    assert ks[..|ks|] == ks && ks[..0] == [];
  }

  // ---------------------------------------------------------------- pages, leaves and entries level by level

  /** Nodes with the given page ids on top of the nodes `below`. */
  ghost predicate Tops(pages: PageMap, ids: Ids, mine: seq<Node>, below: seq<Node>) {
    && LeavesOfAll(mine) == LeavesOfAll(below)
    && EntriesOfAll(pages, mine) == EntriesOfAll(pages, below)
    && (forall x :: x in PagesOfAll(mine) <==> x in ids || x in PagesOfAll(below))
  }

  /** The nodes of a level, up to page i, stand on their part of the level below. */
  ghost predicate SameBelow(img: Image, sh: Shape, k: nat, i: nat)
    requires 0 < k < |sh.levels| && i <= |sh.levels[k]| && First(img, sh, k, i) <= |sh.levels[k - 1]|
  {
    Tops(img.pages, sh.levels[k][..i], Nodes(img, sh, k)[..i], Nodes(img, sh, k - 1)[..First(img, sh, k, i)])
  }

  lemma {:induction false} LeavesAppend(a: seq<Node>, b: seq<Node>)
    ensures LeavesOfAll(a + b) == LeavesOfAll(a) + LeavesOfAll(b)
  {
    if b == [] {
      assert a + b == a;
    } else {
      assert (a + b)[..|a + b| - 1] == a + b[..|b| - 1];
      LeavesAppend(a, b[..|b| - 1]);
    }
  }

  lemma {:induction false} LevelSame(img: Image, sh: Shape, k: nat, i: nat)
    requires Leveled(img, sh, k) && i <= |sh.levels[k]|
    ensures First(img, sh, k, i) <= |sh.levels[k - 1]| && SameBelow(img, sh, k, i)
    decreases i
  {
    hide Build, Tops, First, Leveled, Nodes;
    LeveledSizes(img, sh, k);
    NodesCount(img, sh, k);
    NodesCount(img, sh, k - 1);
    FirstEnds(img, sh, k);
    if i == 0 {
      assert Nodes(img, sh, k)[..0] == [] && Nodes(img, sh, k - 1)[..0] == [] && sh.levels[k][..0] == [];
      TopsStart(img.pages);
    } else {
      LevelSame(img, sh, k, i - 1);
      KidSpan(img, sh, k, i - 1);
      LevelSameStep(img, sh, k, i - 1, First(img, sh, k, i - 1), First(img, sh, k, i));
    }
  }

  lemma NodesStep(img: Image, sh: Shape, k: nat, i: nat)
    requires k < |sh.levels| && i < |sh.levels[k]|
    ensures |Nodes(img, sh, k)| == |sh.levels[k]| && Nodes(img, sh, k)[..i + 1] == Nodes(img, sh, k)[..i] + [Build(img, sh, k, i)]
  {
  }

  lemma NodesCount(img: Image, sh: Shape, k: nat)
    requires k < |sh.levels|
    ensures |Nodes(img, sh, k)| == |sh.levels[k]|
  {
  }

  lemma KidSpan(img: Image, sh: Shape, k: nat, i: nat)
    requires Leveled(img, sh, k) && i < |sh.levels[k]|
    ensures First(img, sh, k, i) <= First(img, sh, k, i + 1) <= |sh.levels[k - 1]| == |Nodes(img, sh, k - 1)|
    ensures Build(img, sh, k, i).InnerNode? && Build(img, sh, k, i).id == sh.levels[k][i]
    ensures Build(img, sh, k, i).kids == Nodes(img, sh, k - 1)[First(img, sh, k, i)..First(img, sh, k, i + 1)]
  {
    KidNodes(img, sh, k, i);
  }

  lemma LevelSameStep(img: Image, sh: Shape, k: nat, i: nat, a: nat, b: nat)
    requires 0 < k < |sh.levels| && i < |sh.levels[k]| && a <= b <= |sh.levels[k - 1]|
    requires Tops(img.pages, sh.levels[k][..i], Nodes(img, sh, k)[..i], Nodes(img, sh, k - 1)[..a])
    requires Build(img, sh, k, i).InnerNode? && Build(img, sh, k, i).id == sh.levels[k][i]
    requires Build(img, sh, k, i).kids == Nodes(img, sh, k - 1)[a..b]
    ensures Tops(img.pages, sh.levels[k][..i + 1], Nodes(img, sh, k)[..i + 1], Nodes(img, sh, k - 1)[..b])
  {
    hide Build, Tops;
    var nodes, below := Nodes(img, sh, k), Nodes(img, sh, k - 1);
    assert nodes[..i + 1] == nodes[..i] + [nodes[i]];
    assert below[..b] == below[..a] + below[a..b];
    assert sh.levels[k][..i + 1] == sh.levels[k][..i] + [sh.levels[k][i]];
    TopsStep(img.pages, sh.levels[k][..i], nodes[..i], nodes[i], below[..a], below[a..b]);
  }

  lemma TopsStart(pages: PageMap)
    ensures Tops(pages, [], [], [])
  {
  }

  lemma TopsStep(pages: PageMap, ids: Ids, mine: seq<Node>, t: Node, below: seq<Node>, kids: seq<Node>)
    requires t.InnerNode? && t.kids == kids && Tops(pages, ids, mine, below)
    ensures Tops(pages, ids + [t.id], mine + [t], below + kids)
  {
    AllAppendOne(pages, mine, t);
    AllAppend(pages, below, kids);
    LeavesAppend(below, kids);
    assert PagesOf(t) == [t.id] + PagesOfAll(kids) && LeavesOf(t) == LeavesOfAll(kids) && EntriesOf(pages, t) == EntriesOfAll(pages, kids);
    hide PagesOfAll, PagesOf, LeavesOfAll, LeavesOf, EntriesOfAll, EntriesOf;
  }

  /** These trees are the leaves `ids` with the entries `es` and their chains. */
  ghost predicate LeavesAre(pages: PageMap, chains: Chains, ids: Ids, nodes: seq<Node>, es: seq<LeafEntry>) {
    && LeavesOfAll(nodes) == ids && EntriesOfAll(pages, nodes) == es
    && (forall x :: x in PagesOfAll(nodes) <==> x in ids || x in Concat(ChainsOf(chains, es)))
  }

  /** The nodes of the leaf level, up to leaf i. */
  ghost predicate LeavesUpTo(img: Image, sh: Shape, i: nat)
    requires |sh.levels| > 0 && i <= |sh.levels[0]|
  {
    LeavesAre(img.pages, sh.chains, sh.levels[0][..i], Nodes(img, sh, 0)[..i], Concat(EntryLists(img.pages, sh.levels[0])[..i]))
  }

  lemma LeavesNone(pages: PageMap, chains: Chains)
    ensures LeavesAre(pages, chains, [], [], Concat([]))
  {
    assert ChainsOf(chains, []) == [];
  }

  lemma LeafNodeCount(pages: PageMap, ids: Ids)
    ensures |EntryLists(pages, ids)| == |ids|
  {
  }

  lemma LeavesMore(pages: PageMap, chains: Chains, ids: Ids, nodes: seq<Node>, es: seq<LeafEntry>, id: PageId, t: Node, more: seq<LeafEntry>)
    requires LeavesAre(pages, chains, ids, nodes, es)
    requires LeavesOf(t) == [id] && EntriesOf(pages, t) == more && PagesOf(t) == [id] + Concat(ChainsOf(chains, more))
    ensures LeavesAre(pages, chains, ids + [id], nodes + [t], es + more)
  {
    hide PagesOfAll, LeavesOfAll, EntriesOfAll, PagesOf, LeavesOf, EntriesOf, ChainsOf, Concat;
    AllAppendOne(pages, nodes, t);
    ChainsAppend(chains, es, more);
  }

  lemma ChainsAppend(chains: Chains, a: seq<LeafEntry>, b: seq<LeafEntry>)
    ensures Concat(ChainsOf(chains, a + b)) == Concat(ChainsOf(chains, a)) + Concat(ChainsOf(chains, b))
  {
    assert ChainsOf(chains, a + b) == ChainsOf(chains, a) + ChainsOf(chains, b);
    ConcatAppend(ChainsOf(chains, a), ChainsOf(chains, b));
  }

  lemma LeafNodeAt(img: Image, sh: Shape, i: nat)
    requires |sh.levels| > 0 && i < |sh.levels[0]|
    ensures var t, es := Nodes(img, sh, 0)[i], EntryLists(img.pages, sh.levels[0])[i];
            && LeavesOf(t) == [sh.levels[0][i]] && EntriesOf(img.pages, t) == es
            && PagesOf(t) == [sh.levels[0][i]] + Concat(ChainsOf(sh.chains, es))
  {
  }

  lemma {:induction false} LeafLevel(img: Image, sh: Shape, i: nat)
    requires |sh.levels| > 0 && i <= |sh.levels[0]|
    ensures LeavesUpTo(img, sh, i)
  {
    hide LeavesAre, PagesOf, LeavesOf, EntriesOf, Nodes, ChainsOf, Concat, EntryLists;
    NodesCount(img, sh, 0);
    var ids, nodes, ess := sh.levels[0], Nodes(img, sh, 0), EntryLists(img.pages, sh.levels[0]);
    assert |ess| == |ids| by {
      LeafNodeCount(img.pages, ids);
    }
    if i == 0 {
      assert nodes[..0] == [] && ids[..0] == [] && ess[..0] == [];
      LeavesNone(img.pages, sh.chains);
    } else {
      LeafLevel(img, sh, i - 1);
      LeafNodeAt(img, sh, i - 1);
      LeavesMore(img.pages, sh.chains, ids[..i - 1], nodes[..i - 1], Concat(ess[..i - 1]), ids[i - 1], nodes[i - 1], ess[i - 1]);
      assert nodes[..i] == nodes[..i - 1] + [nodes[i - 1]] && ids[..i] == ids[..i - 1] + [ids[i - 1]];
      ConcatTake(ess, i - 1);
    }
  }

  /** The nodes of any level have all leaves, all entries and all pages of their
      level and below. */
  ghost predicate WholeLevel(img: Image, sh: Shape, k: nat)
    requires k < |sh.levels|
  {
    && LeavesOfAll(Nodes(img, sh, k)) == sh.levels[0]
    && EntriesOfAll(img.pages, Nodes(img, sh, k)) == Contents(img.pages, sh.levels[0])
    && forall x :: x in PagesOfAll(Nodes(img, sh, k)) <==> InLevels(sh, k, x) || x in ChainPages(img, sh)
  }

  ghost predicate InLevels(sh: Shape, k: nat, x: PageId)
    requires k < |sh.levels|
  {
    exists m :: 0 <= m <= k && x in sh.levels[m]
  }

  ghost function ChainPages(img: Image, sh: Shape): Ids
    requires |sh.levels| > 0
  {
    Concat(ChainsOf(sh.chains, Contents(img.pages, sh.levels[0])))
  }

  lemma WholeLeafLevel(img: Image, sh: Shape)
    requires |sh.levels| > 0
    ensures WholeLevel(img, sh, 0)
  {
    LeafLevel(img, sh, |sh.levels[0]|);
    NodesCount(img, sh, 0);
    LeafNodeCount(img.pages, sh.levels[0]);
    hide Nodes, PagesOfAll, LeavesOfAll, EntriesOfAll, ChainsOf, Concat, EntryLists;
    var nodes, ess := Nodes(img, sh, 0), EntryLists(img.pages, sh.levels[0]);
    assert ess[..|ess|] == ess && sh.levels[0][..|sh.levels[0]|] == sh.levels[0] && nodes[..|nodes|] == nodes;
  }

  lemma {:induction false} AllLevels(img: Image, sh: Shape, k: nat)
    requires TreeOk(img.pages, img.root, sh.levels, sh.bounds) && k < |sh.levels|
    ensures WholeLevel(img, sh, k)
  {
    hide TreeOk, WholeLevel, SameBelow, First;
    if k == 0 {
      WholeLeafLevel(img, sh);
    } else {
      AllLevels(img, sh, k - 1);
      TreeLeveled(img, sh, k);
      LevelSame(img, sh, k, |sh.levels[k]|);
      FirstEnds(img, sh, k);
      LevelUp(img, sh, k);
    }
  }

  lemma LevelUp(img: Image, sh: Shape, k: nat)
    requires 0 < k < |sh.levels| && WholeLevel(img, sh, k - 1) && First(img, sh, k, |sh.levels[k]|) == |sh.levels[k - 1]|
    requires SameBelow(img, sh, k, |sh.levels[k]|)
    ensures WholeLevel(img, sh, k)
  {
    hide PagesOfAll, LeavesOfAll, EntriesOfAll, Build;
    assert Nodes(img, sh, k)[..|sh.levels[k]|] == Nodes(img, sh, k);
    assert Nodes(img, sh, k - 1)[..|sh.levels[k - 1]|] == Nodes(img, sh, k - 1);
    assert sh.levels[k][..|sh.levels[k]|] == sh.levels[k];
    forall x ensures x in PagesOfAll(Nodes(img, sh, k)) <==> InLevels(sh, k, x) || x in ChainPages(img, sh) {
      if InLevels(sh, k - 1, x) {
        var m :| 0 <= m <= k - 1 && x in sh.levels[m];
        assert InLevels(sh, k, x);
      }
      if InLevels(sh, k, x) {
        var m :| 0 <= m <= k && x in sh.levels[m];
        assert m == k || InLevels(sh, k - 1, x);
      }
    }
  }

  // ---------------------------------------------------------------- no page twice

  lemma {:induction false} ChainsApart(img: Image, sh: Shape, es: seq<LeafEntry>, heads: set<PageId>, n: nat)
    requires ChainRoles(sh.chains, sh.role) && Owned(es, heads) && n <= |es|
    ensures NoDup(Concat(ChainsOf(sh.chains, es[..n])))
    ensures forall x :: x in Concat(ChainsOf(sh.chains, es[..n])) ==>
              x in sh.role && sh.role[x].ChainPage? && exists i :: 0 <= i < n && HasChain(es[i]) && Head(es[i]) == sh.role[x].head
  {
    if n == 0 {
      assert es[..0] == [] && ChainsOf(sh.chains, []) == [];
    } else {
      ChainsApart(img, sh, es, heads, n - 1);
      var before, last := es[..n - 1], [es[n - 1]];
      assert es[..n] == before + last;
      ChainsAppend(sh.chains, before, last);
      assert ChainsOf(sh.chains, last) == [ChainOf(sh.chains, es[n - 1])];
      ConcatOne(ChainOf(sh.chains, es[n - 1]));
      var a, b := Concat(ChainsOf(sh.chains, before)), ChainOf(sh.chains, es[n - 1]);
      if b != [] {
        var h := Head(es[n - 1]);
        ChainNoDup(sh.chains, sh.role, h);
        forall x | x in b ensures x in sh.role && sh.role[x].ChainPage? && sh.role[x].head == h {
          var p :| 0 <= p < |b| && b[p] == x;
          assert sh.role[sh.chains[h][p]] == ChainPage(h, p);
        }
        NoDupJoin(a, b);
      } else {
        assert a + b == a;
      }
    }
  }

  ghost predicate BelowLevel(sh: Shape, k: nat, x: PageId) {
    x in sh.role && (sh.role[x].ChainPage? || (sh.role[x].TreePage? && sh.role[x].level < k))
  }

  lemma {:induction false} LeafLevelApart(img: Image, sh: Shape, i: nat)
    requires |sh.levels| > 0 && i <= |sh.levels[0]| && NoDup(sh.levels[0]) && TreeRoles(sh.levels, sh.role)
    requires NoDup(ChainPages(img, sh)) && forall x :: x in ChainPages(img, sh) ==> x in sh.role && sh.role[x].ChainPage?
    ensures NoDup(PagesOfAll(Nodes(img, sh, 0)[..i]))
  {
    if i == 0 {
      assert Nodes(img, sh, 0)[..0] == [];
    } else {
      LeafLevelApart(img, sh, i - 1);
      LeafLevel(img, sh, i - 1);
      LeafNodeAt(img, sh, i - 1);
      NodesCount(img, sh, 0);
      LeafNodeCount(img.pages, sh.levels[0]);
      hide Nodes, PagesOfAll, LeavesOfAll, EntriesOfAll, PagesOf, LeavesOf, EntriesOf, ChainsOf, Concat, EntryLists, NoDup, TreeRoles;
      var nodes, ess, id := Nodes(img, sh, 0), EntryLists(img.pages, sh.levels[0]), sh.levels[0][i - 1];
      assert nodes[..i] == nodes[..i - 1] + [nodes[i - 1]];
      AllAppendOne(img.pages, nodes[..i - 1], nodes[i - 1]);
      ConcatAround(ess, i - 1);
      var es, rest := Concat(ess[..i - 1]), Concat(ess[i..]);
      ChainsAppend(sh.chains, es + ess[i - 1], rest);
      ChainsAppend(sh.chains, es, ess[i - 1]);
      var a, b := Concat(ChainsOf(sh.chains, es)), Concat(ChainsOf(sh.chains, ess[i - 1]));
      ApartParts(a, b, Concat(ChainsOf(sh.chains, rest)));
      LeafApart(sh, i - 1, PagesOfAll(nodes[..i - 1]), a, b, ChainPages(img, sh));
      assert PagesOf(nodes[i - 1]) == [id] + b;
    }
  }

  lemma ApartParts(a: Ids, b: Ids, c: Ids)
    requires NoDup((a + b) + c)
    ensures NoDup(a) && NoDup(b) && (forall x :: x in a ==> x !in b)
    ensures forall x :: x in a || x in b ==> x in (a + b) + c
  {
    NoDupSplit(a + b, c);
    NoDupSplit(a, b);
  }

  lemma LeafApart(sh: Shape, i: nat, before: Ids, a: Ids, b: Ids, all: Ids)
    requires |sh.levels| > 0 && i < |sh.levels[0]| && NoDup(sh.levels[0]) && TreeRoles(sh.levels, sh.role)
    requires NoDup(before) && NoDup(b) && (forall x :: x in a ==> x !in b)
    requires forall x :: x in before ==> x in sh.levels[0][..i] || x in a
    requires forall x :: x in a || x in b ==> x in sh.role && sh.role[x].ChainPage?
    ensures NoDup(before + ([sh.levels[0][i]] + b))
  {
    var id := sh.levels[0][i];
    assert id in sh.levels[0];
    assert forall x :: x in sh.levels[0][..i] ==> x in sh.levels[0];
    NoDupJoin([id], b);
    NoDupJoin(before, [id] + b);
  }

  lemma {:induction false} LevelApart(img: Image, sh: Shape, k: nat, i: nat)
    requires 0 < k < |sh.levels| && i <= |sh.levels[k]| && Leveled(img, sh, k) && NoDup(sh.levels[k]) && TreeRoles(sh.levels, sh.role)
    requires NoDup(PagesOfAll(Nodes(img, sh, k - 1))) && AllBelow(sh, k, PagesOfAll(Nodes(img, sh, k - 1)))
    ensures NoDup(PagesOfAll(Nodes(img, sh, k)[..i]))
    decreases i
  {
    hide Build, Tops, AllBelow, NoDup, First, Leveled, Nodes, TreeRoles, PagesOfAll, PagesOf;
    NodesCount(img, sh, k);
    NodesCount(img, sh, k - 1);
    if i == 0 {
      assert Nodes(img, sh, k)[..0] == [];
      NoPages();
    } else {
      NodesStep(img, sh, k, i - 1);
      LevelApart(img, sh, k, i - 1);
      LevelSame(img, sh, k, i - 1);
      KidSpan(img, sh, k, i - 1);
      LevelApartCut(img, sh, k, i - 1, First(img, sh, k, i - 1), First(img, sh, k, i));
    }
  }

  lemma NoPages()
    ensures NoDup(PagesOfAll([]))
  {
  }

  lemma LevelApartCut(img: Image, sh: Shape, k: nat, i: nat, a: nat, b: nat)
    requires 0 < k < |sh.levels| && i < |sh.levels[k]| && a <= b <= |Nodes(img, sh, k - 1)| && i <= |Nodes(img, sh, k)|
    requires NoDup(sh.levels[k]) && TreeRoles(sh.levels, sh.role)
    requires NoDup(PagesOfAll(Nodes(img, sh, k)[..i])) && Tops(img.pages, sh.levels[k][..i], Nodes(img, sh, k)[..i], Nodes(img, sh, k - 1)[..a])
    requires NoDup(PagesOfAll(Nodes(img, sh, k - 1))) && AllBelow(sh, k, PagesOfAll(Nodes(img, sh, k - 1)))
    requires Build(img, sh, k, i).InnerNode? && Build(img, sh, k, i).id == sh.levels[k][i]
    requires Build(img, sh, k, i).kids == Nodes(img, sh, k - 1)[a..b]
    ensures NoDup(PagesOfAll(Nodes(img, sh, k)[..i] + [Build(img, sh, k, i)]))
  {
    hide Build, Tops, AllBelow, NoDup, Nodes, TreeRoles, PagesOfAll;
    var below := Nodes(img, sh, k - 1);
    assert below == (below[..a] + below[a..b]) + below[b..];
    LevelApartStep(img.pages, sh, k, i, Nodes(img, sh, k)[..i], Build(img, sh, k, i), below[..a], below[a..b], below[b..]);
  }

  ghost predicate AllBelow(sh: Shape, k: nat, ids: Ids) {
    forall x :: x in ids ==> BelowLevel(sh, k, x)
  }

  lemma InnerNodeIs(img: Image, sh: Shape, k: nat, i: nat)
    requires 0 < k < |sh.levels| && i < |sh.levels[k]|
    ensures Build(img, sh, k, i).InnerNode? && Build(img, sh, k, i).id == sh.levels[k][i]
  {
  }

  lemma LevelApartStep(pages: PageMap, sh: Shape, k: nat, i: nat, mine: seq<Node>, t: Node, below: seq<Node>, kids: seq<Node>, rest: seq<Node>)
    requires k < |sh.levels| && i < |sh.levels[k]| && NoDup(sh.levels[k]) && TreeRoles(sh.levels, sh.role)
    requires t.InnerNode? && t.kids == kids && t.id == sh.levels[k][i]
    requires NoDup(PagesOfAll(mine)) && Tops(pages, sh.levels[k][..i], mine, below)
    requires NoDup(PagesOfAll((below + kids) + rest)) && AllBelow(sh, k, PagesOfAll((below + kids) + rest))
    ensures NoDup(PagesOfAll(mine + [t]))
  {
    AllAppendOne(map[], mine, t);
    AllAppend(map[], below + kids, rest);
    AllAppend(map[], below, kids);
    assert PagesOf(t) == [t.id] + PagesOfAll(kids);
    hide PagesOfAll, PagesOf;
    ApartParts(PagesOfAll(below), PagesOfAll(kids), PagesOfAll(rest));
    InnerApart(sh, k, i, PagesOfAll(mine), PagesOfAll(below), PagesOfAll(kids));
  }

  lemma InnerApart(sh: Shape, k: nat, i: nat, before: Ids, a: Ids, b: Ids)
    requires k < |sh.levels| && i < |sh.levels[k]| && NoDup(sh.levels[k]) && TreeRoles(sh.levels, sh.role)
    requires NoDup(before) && NoDup(b) && (forall x :: x in a ==> x !in b)
    requires forall x :: x in before ==> x in sh.levels[k][..i] || x in a
    requires forall x :: x in a || x in b ==> BelowLevel(sh, k, x)
    ensures NoDup(before + ([sh.levels[k][i]] + b))
  {
    var id := sh.levels[k][i];
    assert id in sh.levels[k];
    assert forall x :: x in sh.levels[k][..i] ==> x in sh.levels[k];
    NoDupJoin([id], b);
    NoDupJoin(before, [id] + b);
  }

  // ---------------------------------------------------------------- the nodes are search trees

  ghost function LowAt(bnds: Bounds, i: nat): Option<bytes>
    requires i < |bnds|
  {
    if i == 0 then None else Some(bnds[i])
  }

  ghost function HighAt(bnds: Bounds, i: nat): Option<bytes>
    requires i < |bnds|
  {
    if i + 1 < |bnds| then Some(bnds[i + 1]) else None
  }

  ghost predicate KeysInside(keys: seq<bytes>, bnds: Bounds, i: nat)
    requires i < |bnds|
  {
    forall x :: 0 <= x < |keys| ==> InRange(keys[x], bnds, i)
  }

  lemma ChainChecks(img: Image, sh: Shape, e: LeafEntry)
    requires Readable(img, sh) && EntryOk(img.pages, sh.chains, e) && HasChain(e)
    ensures Chain(img, ChainOf(sh.chains, e), Head(e), e.value.value.length)
  {
    var ids := sh.chains[Head(e)];
    forall p | 0 <= p < |ids| ensures InFile(img, ids[p]) && ChainLink(img.pages[ids[p]], e.value.value.length, NextOf(ids, p)) {
      assert ChainPageOk(At(img.pages, ids[p]), |ChainBytes(img.pages, ids)|, NextOf(ids, p));
    }
  }

  lemma EntryPasses(img: Image, sh: Shape, e: LeafEntry, bnds: Bounds, i: nat)
    requires Readable(img, sh) && EntryOk(img.pages, sh.chains, e) && i < |bnds| && InRange(e.key, bnds, i)
    ensures EntryChecks(img, e, ChainOf(sh.chains, e), LowAt(bnds, i), HighAt(bnds, i))
  {
    if HasChain(e) {
      ChainChecks(img, sh, e);
    }
  }

  lemma LeafPasses(img: Image, sh: Shape, i: nat)
    requires Readable(img, sh) && i < |sh.levels[0]|
    ensures i < |sh.bounds[0]| && IsTree(img, Build(img, sh, 0, i), LowAt(sh.bounds[0], i), HighAt(sh.bounds[0], i))
    ensures KeysInside(KeysOf(img.pages, Build(img, sh, 0, i)), sh.bounds[0], i)
  {
    var p := At(img.pages, sh.levels[0][i]);
    assert LeafOk(p, sh.bounds[0], i, NextOf(sh.levels[0], i));
    assert sh.levels[0][i] in sh.levels[0];
    var ess := EntryLists(img.pages, sh.levels[0]);
    assert EntriesOk(img.pages, sh.chains, Concat(ess));
    BlockOk(img.pages, sh.chains, ess, i);
    forall x | 0 <= x < |p.entries|
      ensures EntryChecks(img, p.entries[x], ChainOf(sh.chains, p.entries[x]), LowAt(sh.bounds[0], i), HighAt(sh.bounds[0], i))
    {
      assert EntryOk(img.pages, sh.chains, ess[i][x]);
      hide Readable;
      EntryPasses(img, sh, p.entries[x], sh.bounds[0], i);
    }
  }

  lemma {:induction false} FirstPositive(img: Image, sh: Shape, k: nat, i: nat)
    requires Leveled(img, sh, k) && 0 < i <= |sh.levels[k]|
    ensures First(img, sh, k, i) > 0
  {
    KidNodes(img, sh, k, i - 1);
    assert |Kids(At(img.pages, sh.levels[k][i - 1]))| > 0;
  }

  ghost predicate Passes(img: Image, sh: Shape, k: nat, i: nat)
    requires k < |sh.bounds| && i < |sh.bounds[k]|
  {
    && IsTree(img, Build(img, sh, k, i), LowAt(sh.bounds[k], i), HighAt(sh.bounds[k], i))
    && KeysInside(KeysOf(img.pages, Build(img, sh, k, i)), sh.bounds[k], i)
  }

  lemma KidPlace(img: Image, sh: Shape, k: nat, i: nat, c: nat)
    requires Leveled(img, sh, k) && i < |sh.levels[k]| == |sh.bounds[k]|
    requires c < |Kids(At(img.pages, sh.levels[k][i]))|
    ensures var p, d := At(img.pages, sh.levels[k][i]), First(img, sh, k, i) + c;
            && p.Internal? && c <= |p.seps| && |Kids(p)| == |p.seps| + 1
            && d < First(img, sh, k, i + 1) <= |sh.bounds[k - 1]| == |sh.levels[k - 1]|
            && First(img, sh, k, i) + |Kids(p)| == First(img, sh, k, i + 1)
            && sh.levels[k - 1][d] == ChildAt(p, c)
            && sh.bounds[k - 1][d] == (if c == 0 then sh.bounds[k][i] else p.seps[c - 1].key)
            && (c < |p.seps| ==> d + 1 < |sh.bounds[k - 1]| && sh.bounds[k - 1][d + 1] == p.seps[c].key)
  {
    hide Build, Nodes, Leveled, First;
    LeveledSizes(img, sh, k);
    KidNodes(img, sh, k, i);
    KidCount(img, sh, k, i);
    var p, a, b := At(img.pages, sh.levels[k][i]), First(img, sh, k, i), First(img, sh, k, i + 1);
    assert sh.levels[k - 1][a + c] == sh.levels[k - 1][a..b][c] == Kids(p)[c];
    assert sh.bounds[k - 1][a + c] == sh.bounds[k - 1][a..b][c] == ([sh.bounds[k][i]] + SepKeys(p))[c];
    if c < |p.seps| {
      assert sh.bounds[k - 1][a + c + 1] == sh.bounds[k - 1][a..b][c + 1] == ([sh.bounds[k][i]] + SepKeys(p))[c + 1];
    }
  }

  /** The first and the last child of a page lie at the ends of its range. */
  lemma KidEdges(img: Image, sh: Shape, k: nat, i: nat, c: nat)
    requires Leveled(img, sh, k) && i < |sh.levels[k]| == |sh.bounds[k]|
    requires c < |Kids(At(img.pages, sh.levels[k][i]))|
    ensures First(img, sh, k, i) == 0 <==> i == 0
    ensures First(img, sh, k, i + 1) < |sh.bounds[k - 1]| <==> i + 1 < |sh.bounds[k]|
    ensures i + 1 < |sh.bounds[k]| ==> sh.bounds[k - 1][First(img, sh, k, i + 1)] == sh.bounds[k][i + 1]
  {
    hide Build, Nodes, Leveled, First, Kids;
    LeveledSizes(img, sh, k);
    FirstEnds(img, sh, k);
    if i > 0 {
      FirstPositive(img, sh, k, i);
    }
    if i + 1 < |sh.levels[k]| {
      KidCount(img, sh, k, i + 1);
      KidPlace(img, sh, k, i + 1, 0);
    }
  }

  /** The bounds a page hands to its children are the bounds of their level. */
  lemma KidBounds(img: Image, sh: Shape, k: nat, i: nat, c: nat)
    requires Leveled(img, sh, k) && i < |sh.levels[k]| == |sh.bounds[k]| && Ascending(sh.bounds[k - 1])
    requires c < |Kids(At(img.pages, sh.levels[k][i]))|
    ensures var p, d := At(img.pages, sh.levels[k][i]), First(img, sh, k, i) + c;
            && p.Internal? && c <= |p.seps| && d < |sh.bounds[k - 1]| == |sh.levels[k - 1]|
            && sh.levels[k - 1][d] == ChildAt(p, c)
            && LowerOf(p.seps, LowAt(sh.bounds[k], i), c) == LowAt(sh.bounds[k - 1], d)
            && UpperOf(p.seps, HighAt(sh.bounds[k], i), c) == HighAt(sh.bounds[k - 1], d)
            && (c > 0 ==> sh.bounds[k - 1][d] == p.seps[c - 1].key)
            && (c < |p.seps| ==> d + 1 < |sh.bounds[k - 1]| && sh.bounds[k - 1][d + 1] == p.seps[c].key)
  {
    hide Build, Nodes, Ascending, Less, Leveled, First, Kids;
    LeveledSizes(img, sh, k);
    KidPlace(img, sh, k, i, c);
    KidEdges(img, sh, k, i, c);
  }

  lemma KeysBetween(keys: seq<bytes>, bnds: Bounds, d: nat, seps: seq<InternalEntry>, c: nat)
    requires d < |bnds| && c <= |seps| && KeysInside(keys, bnds, d)
    requires c > 0 ==> bnds[d] == seps[c - 1].key
    requires c < |seps| ==> d + 1 < |bnds| && bnds[d + 1] == seps[c].key
    ensures Between(keys, seps, c)
  {
  }

  lemma {:induction false} KidsInside(pages: PageMap, kids: seq<Node>, bnds: Bounds, i: nat, n: nat)
    requires i < |bnds| && n <= |kids| && forall c :: 0 <= c < |kids| ==> KeysInside(KeysOf(pages, kids[c]), bnds, i)
    ensures KeysInside(KeysIn(EntriesOfAll(pages, kids[..n])), bnds, i)
  {
    if n == 0 {
      assert kids[..0] == [];
    } else {
      KidsInside(pages, kids, bnds, i, n - 1);
      AllStep(pages, kids, n - 1);
      hide InRange, EntriesOfAll, EntriesOf;
      assert KeysInside(KeysOf(pages, kids[n - 1]), bnds, i);
    }
  }

  /** A key in the range of a child is in the range of its parent. */
  lemma WiderRange(key: bytes, below: Bounds, d: nat, bnds: Bounds, i: nat, a: nat, b: nat)
    requires Ascending(below) && i < |bnds| && a <= d < b <= |below| && below[a] == bnds[i] && InRange(key, below, d)
    requires i + 1 < |bnds| ==> b < |below| && below[b] == bnds[i + 1]
    ensures InRange(key, bnds, i)
  {
    assert a == d || Less(below[a], below[d]);
    if i + 1 < |bnds| {
      assert d + 1 == b || Less(below[d + 1], below[b]);
    }
  }

  lemma KidRange(img: Image, sh: Shape, k: nat, i: nat, c: nat, keys: seq<bytes>)
    requires Leveled(img, sh, k) && i < |sh.levels[k]| == |sh.bounds[k]| && Ascending(sh.bounds[k - 1])
    requires First(img, sh, k, i) + c < First(img, sh, k, i + 1) <= |sh.bounds[k - 1]|
    requires KeysInside(keys, sh.bounds[k - 1], First(img, sh, k, i) + c)
    ensures KeysInside(keys, sh.bounds[k], i)
  {
    BlockStart(img, sh, k, i);
    if i + 1 < |sh.levels[k]| {
      BlockStart(img, sh, k, i + 1);
    }
    hide Leveled, First, InRange;
    forall x | 0 <= x < |keys| ensures InRange(keys[x], sh.bounds[k], i) {
      WiderRange(keys[x], sh.bounds[k - 1], First(img, sh, k, i) + c, sh.bounds[k], i, First(img, sh, k, i), First(img, sh, k, i + 1));
    }
  }

  lemma BlockStart(img: Image, sh: Shape, k: nat, i: nat)
    requires Leveled(img, sh, k) && i < |sh.levels[k]| == |sh.bounds[k]|
    ensures First(img, sh, k, i) < First(img, sh, k, i + 1) <= |sh.bounds[k - 1]|
    ensures sh.bounds[k - 1][First(img, sh, k, i)] == sh.bounds[k][i]
  {
    KidNodes(img, sh, k, i);
    var a, b := First(img, sh, k, i), First(img, sh, k, i + 1);
    assert |Kids(At(img.pages, sh.levels[k][i]))| > 0;
    assert sh.bounds[k - 1][a] == sh.bounds[k - 1][a..b][0];
  }

  ghost predicate LevelPasses(img: Image, sh: Shape, k: nat)
    requires k < |sh.levels|
  {
    forall i :: 0 <= i < |sh.levels[k]| ==> k < |sh.bounds| && i < |sh.bounds[k]| && Passes(img, sh, k, i)
  }

  lemma {:induction false} AllPass(img: Image, sh: Shape, k: nat)
    requires Readable(img, sh) && k < |sh.levels|
    ensures LevelPasses(img, sh, k)
  {
    if k == 0 {
      forall i | 0 <= i < |sh.levels[0]| ensures i < |sh.bounds[0]| && Passes(img, sh, 0, i) {
        hide Readable;
        LeafPasses(img, sh, i);
      }
    } else {
      AllPass(img, sh, k - 1);
      forall i | 0 <= i < |sh.levels[k]| ensures k < |sh.bounds| && i < |sh.bounds[k]| && Passes(img, sh, k, i) {
        LevelFacts(img, sh, k, i);
        hide Readable, Leveled, Ascending, LevelPasses;
        InnerPasses(img, sh, k, i);
      }
    }
  }

  lemma LevelFacts(img: Image, sh: Shape, k: nat, i: nat)
    requires Readable(img, sh) && 0 < k < |sh.levels| && i < |sh.levels[k]|
    ensures Leveled(img, sh, k) && |sh.bounds| == |sh.levels| && |sh.bounds[k]| == |sh.levels[k]|
    ensures Ascending(sh.bounds[k - 1]) && InFile(img, sh.levels[k][i])
  {
    TreeLeveled(img, sh, k);
    assert LevelOk(sh.levels[k - 1], sh.bounds[k - 1]) && LevelOk(sh.levels[k], sh.bounds[k]);
    assert sh.levels[k][i] in sh.levels[k];
  }

  /** One child of a page, as the page sees it. */
  lemma KidPasses(img: Image, sh: Shape, k: nat, i: nat, c: nat, kid: Node)
    requires Leveled(img, sh, k) && i < |sh.levels[k]| == |sh.bounds[k]| && Ascending(sh.bounds[k - 1]) && InFile(img, sh.levels[k][i])
    requires LevelPasses(img, sh, k - 1) && c < |Build(img, sh, k, i).kids| && kid == Build(img, sh, k, i).kids[c]
    ensures var p := img.pages[sh.levels[k][i]];
            && p.Internal? && c <= |p.seps| && kid.id == ChildAt(p, c)
            && IsTree(img, kid, LowerOf(p.seps, LowAt(sh.bounds[k], i), c), UpperOf(p.seps, HighAt(sh.bounds[k], i), c))
            && Between(KeysOf(img.pages, kid), p.seps, c) && KeysInside(KeysOf(img.pages, kid), sh.bounds[k], i)
  {
    hide IsTree, Leveled, First, Build, KeysOf, InRange, Nodes, Ascending, KeysInside, LevelPasses, Kids;
    LeveledSizes(img, sh, k);
    KidCount(img, sh, k, i);
    var p, d := img.pages[sh.levels[k][i]], First(img, sh, k, i) + c;
    KidBounds(img, sh, k, i, c);
    KidIsNode(img, sh, k, i, c);
    LevelPassesAt(img, sh, k - 1, d);
    BuiltId(img, sh, k - 1, d);
    KeysBetween(KeysOf(img.pages, kid), sh.bounds[k - 1], d, p.seps, c);
    KidRange(img, sh, k, i, c, KeysOf(img.pages, kid));
  }

  lemma LeveledSizes(img: Image, sh: Shape, k: nat)
    requires Leveled(img, sh, k)
    ensures 0 < k < |sh.levels| == |sh.bounds| && |sh.levels[k]| == |sh.bounds[k]| && |sh.levels[k - 1]| == |sh.bounds[k - 1]|
  {
    hide Internals;
  }

  lemma LevelPassesAt(img: Image, sh: Shape, k: nat, i: nat)
    requires k < |sh.levels| && LevelPasses(img, sh, k) && i < |sh.levels[k]|
    ensures k < |sh.bounds| && i < |sh.bounds[k]| && Passes(img, sh, k, i)
  {
    hide Passes;
  }

  lemma KidIsNode(img: Image, sh: Shape, k: nat, i: nat, c: nat)
    requires Leveled(img, sh, k) && i < |sh.levels[k]| && c < |Build(img, sh, k, i).kids|
    ensures First(img, sh, k, i) + c < First(img, sh, k, i + 1) <= |sh.levels[k - 1]|
    ensures Build(img, sh, k, i).kids[c] == Build(img, sh, k - 1, First(img, sh, k, i) + c)
  {
    hide Leveled, First, Build, Nodes;
    LeveledSizes(img, sh, k);
    KidSpan(img, sh, k, i);
    NodeAt(img, sh, k - 1, First(img, sh, k, i) + c);
  }

  lemma NodeAt(img: Image, sh: Shape, k: nat, i: nat)
    requires k < |sh.levels| && i < |sh.levels[k]|
    ensures |Nodes(img, sh, k)| == |sh.levels[k]| && Nodes(img, sh, k)[i] == Build(img, sh, k, i)
  {
    hide Build;
  }

  lemma BuiltId(img: Image, sh: Shape, k: nat, i: nat)
    requires k < |sh.levels| && i < |sh.levels[k]|
    ensures Build(img, sh, k, i).id == sh.levels[k][i]
  {
  }

  lemma KidCount(img: Image, sh: Shape, k: nat, i: nat)
    requires Leveled(img, sh, k) && i < |sh.levels[k]|
    ensures var p := At(img.pages, sh.levels[k][i]);
            p.Internal? && p.seps != [] && |Build(img, sh, k, i).kids| == |Kids(p)| == |p.seps| + 1
    ensures First(img, sh, k, i) + |Kids(At(img.pages, sh.levels[k][i]))| == First(img, sh, k, i + 1)
  {
    KidNodes(img, sh, k, i);
  }

  lemma InnerPasses(img: Image, sh: Shape, k: nat, i: nat)
    requires 0 < k < |sh.levels| == |sh.bounds| && i < |sh.levels[k]| == |sh.bounds[k]| && Leveled(img, sh, k)
    requires Ascending(sh.bounds[k - 1]) && InFile(img, sh.levels[k][i]) && LevelPasses(img, sh, k - 1)
    ensures Passes(img, sh, k, i)
  {
    hide IsTree, KeysOf, Between, Leveled, Ascending, LevelPasses, KeysInside, Build, EntriesOfAll;
    KidCount(img, sh, k, i);
    InnerNodeIs(img, sh, k, i);
    var t := Build(img, sh, k, i);
    var kids, p := t.kids, img.pages[sh.levels[k][i]];
    forall c | 0 <= c < |kids|
      ensures kids[c].id == ChildAt(p, c)
      ensures IsTree(img, kids[c], LowerOf(p.seps, LowAt(sh.bounds[k], i), c), UpperOf(p.seps, HighAt(sh.bounds[k], i), c))
      ensures Between(KeysOf(img.pages, kids[c]), p.seps, c) && KeysInside(KeysOf(img.pages, kids[c]), sh.bounds[k], i)
    {
      KidPasses(img, sh, k, i, c, kids[c]);
    }
    InnerIsTree(img, sh.levels[k][i], kids, LowAt(sh.bounds[k], i), HighAt(sh.bounds[k], i), []);
    KidsInside(img.pages, kids, sh.bounds[k], i, |kids|);
    assert kids[..|kids|] == kids && t == InnerNode(sh.levels[k][i], kids);
    PassesIntro(img, sh, k, i, kids);
  }

  lemma PassesIntro(img: Image, sh: Shape, k: nat, i: nat, kids: seq<Node>)
    requires 0 < k < |sh.bounds| && i < |sh.bounds[k]| && Build(img, sh, k, i).InnerNode? && Build(img, sh, k, i).kids == kids
    requires IsTree(img, Build(img, sh, k, i), LowAt(sh.bounds[k], i), HighAt(sh.bounds[k], i))
    requires KeysInside(KeysIn(EntriesOfAll(img.pages, kids)), sh.bounds[k], i)
    ensures Passes(img, sh, k, i)
  {
    hide IsTree, Build, EntriesOfAll;
  }

  // ---------------------------------------------------------------- every consistent image passes

  ghost function TreeOf(img: Image, sh: Shape): Node
    requires |sh.levels| > 0
  {
    Build(img, sh, |sh.levels| - 1, 0)
  }

  ghost function Backwards(ids: Ids): Ids {
    seq(|ids|, i requires 0 <= i < |ids| => ids[|ids| - 1 - i])
  }

  lemma RootNodes(img: Image, sh: Shape)
    requires TreeOk(img.pages, img.root, sh.levels, sh.bounds)
    ensures var t := TreeOf(img, sh);
            && t.id == img.root && PagesOf(t) == PagesOfAll(Nodes(img, sh, |sh.levels| - 1))
            && LeavesOf(t) == LeavesOfAll(Nodes(img, sh, |sh.levels| - 1))
            && EntriesOf(img.pages, t) == EntriesOfAll(img.pages, Nodes(img, sh, |sh.levels| - 1))
  {
    var k := |sh.levels| - 1;
    assert Nodes(img, sh, k) == [TreeOf(img, sh)];
    var ts := [TreeOf(img, sh)];
    assert ts[..0] == [];
    assert [] + PagesOf(ts[0]) == PagesOf(ts[0]) && [] + LeavesOf(ts[0]) == LeavesOf(ts[0]);
    assert [] + EntriesOf(img.pages, ts[0]) == EntriesOf(img.pages, ts[0]);
  }

  lemma {:induction false} AllApart(img: Image, sh: Shape, k: nat)
    requires TreeOk(img.pages, img.root, sh.levels, sh.bounds) && k < |sh.levels| && TreeRoles(sh.levels, sh.role)
    requires NoDup(ChainPages(img, sh)) && forall x :: x in ChainPages(img, sh) ==> x in sh.role && sh.role[x].ChainPage?
    ensures NoDup(PagesOfAll(Nodes(img, sh, k)))
  {
    hide TreeOk, Nodes, PagesOfAll, TreeRoles, ChainPages, Ascending, Leveled;
    TreeLevel(img.pages, img.root, sh.levels, sh.bounds, k);
    NodesCount(img, sh, k);
    assert Nodes(img, sh, k)[..|sh.levels[k]|] == Nodes(img, sh, k);
    if k == 0 {
      LeafLevelApart(img, sh, |sh.levels[0]|);
    } else {
      AllApart(img, sh, k - 1);
      AllLevels(img, sh, k - 1);
      TreeLeveled(img, sh, k);
      LevelRoles(img, sh, k);
      LevelApart(img, sh, k, |sh.levels[k]|);
    }
  }

  lemma LevelRoles(img: Image, sh: Shape, k: nat)
    requires 0 < k < |sh.levels| && TreeRoles(sh.levels, sh.role) && WholeLevel(img, sh, k - 1)
    requires forall x :: x in ChainPages(img, sh) ==> x in sh.role && sh.role[x].ChainPage?
    ensures AllBelow(sh, k, PagesOfAll(Nodes(img, sh, k - 1)))
  {
  }

  lemma FreeBackwards(img: Image, sh: Shape)
    requires FreeOk(img.pages, sh.free, img.freeHead) && FreeRoles(sh.free, sh.role)
    requires forall x :: x in sh.role ==> InFile(img, x)
    ensures FreeLinks(img, Backwards(sh.free), img.freeHead, None) && NoDup(Backwards(sh.free))
    ensures forall x :: x in Backwards(sh.free) <==> x in sh.role && sh.role[x].FreePage?
  {
    hide FreeOk, FreeRoles, InFile, FreeLinks, NoDup;
    FreeLinked(img, sh);
    FreeDistinct(img, sh);
    forall x ensures x in Backwards(sh.free) <==> x in sh.role && sh.role[x].FreePage? {
      FreeMember(sh, x);
    }
  }

  lemma FreeLinked(img: Image, sh: Shape)
    requires FreeOk(img.pages, sh.free, img.freeHead) && FreeRoles(sh.free, sh.role)
    requires forall x :: x in sh.role ==> InFile(img, x)
    ensures FreeLinks(img, Backwards(sh.free), img.freeHead, None)
  {
    hide FreeOk, FreeRoles;
    var ids, n := Backwards(sh.free), |sh.free|;
    FreeHead(img.pages, sh.free, img.freeHead);
    forall p | 0 <= p < |ids|
      ensures InFile(img, ids[p]) && img.pages[ids[p]].Free? && img.pages[ids[p]].nextFree == NextIn(ids, p, None)
    {
      FreeAt(img, sh, n - 1 - p);
    }
  }

  lemma FreeDistinct(img: Image, sh: Shape)
    requires FreeOk(img.pages, sh.free, img.freeHead) && FreeRoles(sh.free, sh.role)
    requires forall x :: x in sh.role ==> InFile(img, x)
    ensures NoDup(Backwards(sh.free))
  {
    hide FreeOk, FreeRoles, InFile;
    var ids, n := Backwards(sh.free), |sh.free|;
    forall i, j | 0 <= i < j < |ids| ensures ids[i] != ids[j] {
      FreeAt(img, sh, n - 1 - i);
      FreeAt(img, sh, n - 1 - j);
    }
  }

  lemma FreeHead(pages: PageMap, free: Ids, head: Option<PageId>)
    requires FreeOk(pages, free, head)
    ensures head == if free == [] then None else Some(free[|free| - 1])
  {
  }

  lemma FreeAt(img: Image, sh: Shape, p: nat)
    requires FreeOk(img.pages, sh.free, img.freeHead) && FreeRoles(sh.free, sh.role) && p < |sh.free|
    requires forall x :: x in sh.role ==> InFile(img, x)
    ensures sh.free[p] in sh.role && sh.role[sh.free[p]] == FreePage(p) && InFile(img, sh.free[p])
    ensures img.pages[sh.free[p]].Free? && img.pages[sh.free[p]].nextFree == if p == 0 then None else Some(sh.free[p - 1])
  {
    assert At(img.pages, sh.free[p]).Free?;
  }

  lemma FreeMember(sh: Shape, x: PageId)
    requires FreeRoles(sh.free, sh.role)
    ensures x in Backwards(sh.free) <==> x in sh.role && sh.role[x].FreePage?
  {
    var ids, n := Backwards(sh.free), |sh.free|;
    if x in sh.role && sh.role[x].FreePage? {
      assert ids[n - 1 - sh.role[x].pos] == x;
    }
    if x in ids {
      var i :| 0 <= i < n && ids[i] == x;
      assert sh.free[n - 1 - i] == x;
    }
  }

  lemma ChainAtLeaf(img: Image, sh: Shape, x: PageId)
    requires |sh.levels| > 0 && ChainRoles(sh.chains, sh.role) && Owned(Contents(img.pages, sh.levels[0]), Claimed(sh, {}))
    requires x in sh.role && sh.role[x].ChainPage? && sh.role[x].head !in sh.lost
    ensures x in ChainPages(img, sh)
  {
    var h, es := sh.role[x].head, Contents(img.pages, sh.levels[0]);
    assert h in Claimed(sh, {});
    var i :| 0 <= i < |es| && HasChain(es[i]) && Head(es[i]) == h;
    assert ChainsOf(sh.chains, es)[i] == sh.chains[h] && x in sh.chains[h];
    InConcat(ChainsOf(sh.chains, es), i, x);
  }

  lemma LeavesChained(img: Image, sh: Shape)
    requires Readable(img, sh)
    ensures sh.levels[0] != [] && LeafChain(img, sh.levels[0], sh.levels[0][0]) && NoDup(KeysIn(Contents(img.pages, sh.levels[0])))
  {
    var leaves := sh.levels[0];
    assert LevelOk(leaves, sh.bounds[0]);
    TreeContentsSorted(img, sh);
    var keys := KeysIn(Contents(img.pages, leaves));
    assert Ascending(keys);
    forall p | 0 <= p < |leaves|
      ensures InFile(img, leaves[p]) && img.pages[leaves[p]].Leaf? && img.pages[leaves[p]].nextLeaf == NextIn(leaves, p, None)
    {
      assert leaves[p] in sh.levels[0];
      assert LeafOk(At(img.pages, leaves[p]), sh.bounds[0], p, NextOf(leaves, p));
    }
  }

  lemma PagesApart(img: Image, sh: Shape)
    requires Sound(img, sh)
    ensures |sh.levels| > 0 && NoDup(ChainPages(img, sh)) && forall x :: x in ChainPages(img, sh) ==> InUse(sh, x) && sh.role[x].ChainPage?
    ensures Owned(Contents(img.pages, sh.levels[0]), Claimed(sh, {}))
  {
    var es := Contents(img.pages, sh.levels[0]);
    assert es[..|es|] == es;
    ChainsApart(img, sh, es, Claimed(sh, {}), |es|);
  }

  /** The page belongs to the tree or to a chain that a record names. */
  ghost predicate InUse(sh: Shape, x: PageId) {
    x in sh.role && (sh.role[x].TreePage? || (sh.role[x].ChainPage? && sh.role[x].head !in sh.lost))
  }

  /** The page belongs to a chain that was written for a record without a place. */
  ghost predicate Lost(sh: Shape, x: PageId) {
    x in sh.role && sh.role[x].ChainPage? && sh.role[x].head in sh.lost
  }

  lemma TreePages(img: Image, sh: Shape)
    requires Sound(img, sh)
    ensures |sh.levels| > 0 && NoDup(PagesOf(TreeOf(img, sh)))
    ensures forall x :: x in PagesOf(TreeOf(img, sh)) <==> InUse(sh, x)
  {
    hide Working, TreeOk, PagesOf, PagesOfAll, LeavesOf, LeavesOfAll, EntriesOf, EntriesOfAll, Nodes, TreeOf, ChainPages, Owned, NoDup;
    SoundParts(img, sh);
    var k := |sh.levels| - 1;
    PagesApart(img, sh);
    RootNodes(img, sh);
    AllApart(img, sh, k);
    AllLevels(img, sh, k);
    forall x ensures x in PagesOf(TreeOf(img, sh)) <==> InUse(sh, x) {
      hide TreeRoles, ChainRoles, FreeRoles, WholeLevel;
      TreePage(img, sh, k, x);
    }
  }

  lemma TreePage(img: Image, sh: Shape, k: nat, x: PageId)
    requires k == |sh.levels| - 1 && TreeRoles(sh.levels, sh.role) && ChainRoles(sh.chains, sh.role) && WholeLevel(img, sh, k)
    requires Owned(Contents(img.pages, sh.levels[0]), Claimed(sh, {}))
    requires forall y :: y in ChainPages(img, sh) ==> InUse(sh, y) && sh.role[y].ChainPage?
    ensures x in PagesOfAll(Nodes(img, sh, k)) <==> InUse(sh, x)
  {
    hide PagesOfAll, Nodes, ChainPages, Owned;
    if x in sh.role && sh.role[x].TreePage? {
      assert InLevels(sh, k, x);
    }
    if x in sh.role && sh.role[x].ChainPage? && sh.role[x].head !in sh.lost {
      ChainAtLeaf(img, sh, x);
    }
  }

  /** Every sound image passes the checker, and the pages it misses are those of
      the lost chains. */
  lemma SoundPasses(img: Image, sh: Shape)
    requires Sound(img, sh)
    ensures |sh.levels| > 0 && WellFormed(img, TreeOf(img, sh), Backwards(sh.free))
    ensures forall x :: FIRST_DATA_PAGE <= x <= img.high ==> (x !in PagesOf(TreeOf(img, sh)) + Backwards(sh.free) <==> Lost(sh, x))
    ensures EntriesOf(img.pages, TreeOf(img, sh)) == Contents(img.pages, sh.levels[0])
  {
    hide Working, Readable, TreeOk, PagesOf, TreeOf, IsTree, LeavesOf, EntriesOf, LeafChain, Nodes, FreeLinks, NoDup, FreeOk;
    SoundParts(img, sh);
    ConsistentReadable(img, sh, {}, {});
    TreePages(img, sh);
    FreeBackwards(img, sh);
    RootNodes(img, sh);
    RootPasses(img, sh);
    AllLevels(img, sh, |sh.levels| - 1);
    LeavesChained(img, sh);
    NoDupJoin(PagesOf(TreeOf(img, sh)), Backwards(sh.free));
    forall x | FIRST_DATA_PAGE <= x <= img.high ensures x !in PagesOf(TreeOf(img, sh)) + Backwards(sh.free) <==> Lost(sh, x) {
      assert x in sh.role;
    }
  }

  lemma RootPasses(img: Image, sh: Shape)
    requires Readable(img, sh)
    ensures |sh.levels| > 0 && IsTree(img, TreeOf(img, sh), None, None)
  {
    var k := |sh.levels| - 1;
    AllPass(img, sh, k);
    assert LevelOk(sh.levels[k], sh.bounds[k]);
    assert Passes(img, sh, k, 0);
  }

  /** The check of a built image succeeds.  It reports as leaked exactly the lost
      pages, none when no record failed to find a place. */
  method CheckBuilt(img: Image, ghost sh: Shape) returns (r: Result<Report>)
    requires Sound(img, sh)
    ensures r.Ok? && (forall x :: x in r.value.leaked <==> FIRST_DATA_PAGE <= x <= img.high && Lost(sh, x))
    ensures sh.lost == {} ==> r.value.leaked == []
    ensures |sh.levels| > 0 && r.value.maxRevision == MaxRevision(Contents(img.pages, sh.levels[0]), 0)
  {
    SoundPasses(img, sh);
    hide Working, WellFormed;
    ghost var t, free;
    r, t, free := Check(img, Some((TreeOf(img, sh), Backwards(sh.free))));
    NothingIn(r.value.leaked);
  }

  lemma NothingIn(ids: Ids)
    ensures (forall x :: x !in ids) ==> ids == []
  {
    assert ids != [] ==> ids[0] in ids;
  }
}
