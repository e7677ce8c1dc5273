/** How the graph of blocks in pending commits is built and taken down, commit by commit. */
module CommitGraphs {
  import opened Committees
  import opened Dags
  import opened VoteTraversals
  import CommitRules

  /** A committed sub-DAG. */
  datatype Commit = Commit(index: nat, leader: BlockRef, blocks: seq<Block>, decidedLocally: bool)

  /** What the linearizer guarantees about one commit. */
  ghost predicate ProperCommit(c: Committee, commit: Commit) {
    commit.blocks != [] && DistinctRefs(commit.blocks) && forall b :: b in commit.blocks ==> ProperBlock(c, b)
  }

  /** What it guarantees about two: they share no block, the earlier one links to no block of the
      later one, and leader rounds do not decrease. */
  ghost predicate Follows(earlier: Commit, later: Commit) {
    && RefsOf(earlier.blocks) !! RefsOf(later.blocks)
    && (forall b, a :: b in earlier.blocks && a in b.ancestors ==> a !in RefsOf(later.blocks))
    && earlier.leader.round <= later.leader.round
  }

  ghost predicate Buffered(c: Committee, commits: seq<Commit>) {
    && (forall i :: 0 <= i < |commits| ==> ProperCommit(c, commits[i]))
    && (forall i, j :: 0 <= i < j < |commits| ==> Follows(commits[i], commits[j]))
  }

  /** The map holds exactly the blocks of the commits. */
  ghost predicate HoldsExactly(m: BlockMap, commits: seq<Commit>) {
    && (forall r :: r in m <==> InSome(commits, r))
    && (forall i, b :: 0 <= i < |commits| && b in commits[i].blocks ==> b.ref in m && m[b.ref] == b)
  }

  ghost predicate InSome(commits: seq<Commit>, r: BlockRef) {
    exists i :: 0 <= i < |commits| && r in RefsOf(commits[i].blocks)
  }

  // ----- the graph while the last commit is being added -----------------------------------

  ghost predicate OriginsExcept(g: Graph, undone: set<BlockRef>)
    requires Grounded(Bodies(g))
  {
    forall x, y :: x in g ==> (y in g[x].originDescendants <==> y !in undone && OriginDescends(Bodies(g), y, x))
  }

  /** The graph is exact, but the blocks in `undone` are not yet recorded as origin descendants. */
  ghost predicate Partly(c: Committee, g: Graph, undone: set<BlockRef>) {
    && Proper(c, Bodies(g))
    && (ProperIsGrounded(c, Bodies(g)); ChildrenExact(g) && OriginsExcept(g, undone))
  }

  lemma PartlyNone(c: Committee, g: Graph)
    ensures Partly(c, g, {}) <==> GraphOk(c, g)
  {
  }

  lemma PartlyIsGrounded(c: Committee, g: Graph, undone: set<BlockRef>)
    requires Partly(c, g, undone)
    ensures Grounded(Bodies(g))
  {
  }

  /** `b` is recorded as a child of those of the first `n` ancestors that are in the map. */
  function WithChild(g: Graph, b: Block, n: nat): Graph
    requires n <= |b.ancestors|
  {
    map x | x in g :: if x in b.ancestors[..n] then g[x].(children := g[x].children + {b.ref}) else g[x]
  }

  function LinkedIn(g: Graph, b: Block): Graph {
    WithChild(g, b, |b.ancestors|)[b.ref := BlockState(b, {}, {})]
  }

  lemma {:induction false} ChainUnaffected(m: BlockMap, b: Block, y: BlockRef, x: BlockRef)
    requires Grounded(m) && Grounded(m[b.ref := b]) && y != b.ref
    requires forall z :: !LinksTo(m, z, b.ref)
    ensures CommitRules.OwnChain(m[b.ref := b], y, x) <==> CommitRules.OwnChain(m, y, x)
    decreases y.round
  {
    if y in m && y != x && |m[y].ancestors| > 0 {
      assert !LinksTo(m, y, b.ref);
      ChainUnaffected(m, b, m[y].ancestors[0], x);
    }
  }

  lemma BodiesLinked(g: Graph, b: Block)
    ensures Bodies(LinkedIn(g, b)) == Bodies(g)[b.ref := b]
  {
  }

  lemma LinkChildren(g: Graph, b: Block)
    requires b.ref !in g && ChildrenExact(g) && forall z :: !LinksTo(Bodies(g), z, b.ref)
    requires b.ref !in b.ancestors
    ensures ChildrenExact(LinkedIn(g, b))
  {
    var g', m := LinkedIn(g, b), Bodies(g);
    BodiesLinked(g, b);
    assert b.ancestors[..|b.ancestors|] == b.ancestors;
    forall x, y | x in g'
      ensures y in g'[x].children <==> LinksTo(Bodies(g'), y, x)
    {
      assert LinksTo(Bodies(g'), y, x) <==> if y == b.ref then x in b.ancestors else LinksTo(m, y, x);
    }
  }

  lemma LinkOrigins(c: Committee, g: Graph, undone: set<BlockRef>, b: Block)
    requires Partly(c, g, undone) && ProperBlock(c, b) && b.ref !in g
    requires forall z :: !LinksTo(Bodies(g), z, b.ref)
    requires Proper(c, Bodies(LinkedIn(g, b))) && Grounded(Bodies(LinkedIn(g, b)))
    ensures OriginsExcept(LinkedIn(g, b), undone + {b.ref})
  {
    hide CommitRules.OwnChain, ChildrenExact, Proper;
    var g', m := LinkedIn(g, b), Bodies(g);
    BodiesLinked(g, b);
    PartlyIsGrounded(c, g, undone);
    forall x, y | x in g'
      ensures y in g'[x].originDescendants <==> y !in undone + {b.ref} && OriginDescends(Bodies(g'), y, x)
    {
      if y != b.ref {
        ChainUnaffected(m, b, y, x);
        if x == b.ref && CommitRules.OwnChain(m, y, x) {
          CommitRules.OwnChainRounds(m, y, x);
        }
      } else if OriginDescends(m, y, x) {
        OriginDescendsRaisesRound(m, y, x);
      }
    }
  }

  /** Adding a block nothing links to yet, with its ancestors told about it. */
  lemma LinkStep(c: Committee, g: Graph, undone: set<BlockRef>, b: Block)
    requires Partly(c, g, undone) && ProperBlock(c, b) && b.ref !in g
    requires forall z :: !LinksTo(Bodies(g), z, b.ref)
    ensures Partly(c, LinkedIn(g, b), undone + {b.ref})
  {
    hide CommitRules.OwnChain, ChildrenExact, OriginsExcept, LinkedIn, WithChild;
    BodiesLinked(g, b);
    assert Proper(c, Bodies(LinkedIn(g, b)));
    ProperIsGrounded(c, Bodies(LinkedIn(g, b)));
    LinkChildren(g, b);
    LinkOrigins(c, g, undone, b);
  }

  /** `y` is recorded as an origin descendant of every block in `marked`. */
  function WithOrigin(g: Graph, y: BlockRef, marked: set<BlockRef>): Graph {
    map x | x in g :: if x in marked then g[x].(originDescendants := g[x].originDescendants + {y}) else g[x]
  }

  /** The blocks on the own chain of `y`, as far as the chain stays in the map. */
  ghost function Origins(m: BlockMap, y: BlockRef): set<BlockRef>
    requires Grounded(m)
  {
    set x | x in m && OriginDescends(m, y, x)
  }

  /** What remains to be marked when the walk down the own chain has come to `next`. */
  ghost function Onwards(m: BlockMap, next: BlockRef): set<BlockRef>
    requires Grounded(m)
  {
    set x | x in m && CommitRules.OwnChain(m, next, x)
  }

  lemma OnwardsStep(m: BlockMap, y: BlockRef)
    requires Grounded(m)
    ensures y !in m ==> Onwards(m, y) == {}
    ensures y in m && |m[y].ancestors| > 0 ==>
      Onwards(m, y) == {y} + Onwards(m, m[y].ancestors[0]) && y !in Onwards(m, m[y].ancestors[0])
      && Onwards(m, m[y].ancestors[0]) == Origins(m, y)
  {
    if y in m && |m[y].ancestors| > 0 {
      var own := m[y].ancestors[0];
      if CommitRules.OwnChain(m, own, y) {
        CommitRules.OwnChainRounds(m, own, y);
      }
    }
  }

  lemma BodiesMarked(g: Graph, y: BlockRef, marked: set<BlockRef>)
    ensures Bodies(WithOrigin(g, y, marked)) == Bodies(g)
  {
  }

  lemma AppendStep(c: Committee, g: Graph, undone: set<BlockRef>, y: BlockRef)
    requires Partly(c, g, undone) && y in undone && Grounded(Bodies(g))
    ensures Partly(c, WithOrigin(g, y, Origins(Bodies(g), y)), undone - {y})
  {
    hide CommitRules.OwnChain, Proper;
    BodiesMarked(g, y, Origins(Bodies(g), y));
  }

  // ----- taking down the earliest commit ------------------------------------------------

  lemma {:induction false} ChainStaysLate(m: BlockMap, removed: set<BlockRef>, y: BlockRef, x: BlockRef)
    requires Grounded(m) && x !in removed && CommitRules.OwnChain(m, y, x)
    requires forall b, a :: b in removed && LinksTo(m, b, a) && a in m ==> a in removed
    ensures y !in removed && Grounded(m - removed) && CommitRules.OwnChain(m - removed, y, x)
    decreases y.round
  {
    if y != x {
      var own := m[y].ancestors[0];
      ChainStaysLate(m, removed, own, x);
      assert LinksTo(m, y, own);
      CommitRules.OwnChainRounds(m, own, x);
    }
  }

  lemma {:induction false} ChainInSubmap(m: BlockMap, removed: set<BlockRef>, y: BlockRef, x: BlockRef)
    requires Grounded(m) && Grounded(m - removed) && CommitRules.OwnChain(m - removed, y, x)
    ensures CommitRules.OwnChain(m, y, x)
    decreases y.round
  {
    if y != x {
      ChainInSubmap(m, removed, m[y].ancestors[0], x);
    }
  }

  /** Removing blocks that link to no other block of the map keeps the graph exact. */
  lemma RemoveKeepsGraph(c: Committee, g: Graph, removed: set<BlockRef>)
    requires GraphOk(c, g)
    requires forall b, a :: b in removed && LinksTo(Bodies(g), b, a) && a in g ==> a in removed
    ensures GraphOk(c, g - removed) && Bodies(g - removed) == Bodies(g) - removed
  {
    var g', m := g - removed, Bodies(g);
    assert Bodies(g') == m - removed;
    assert Proper(c, Bodies(g'));
    forall x, y | x in g'
      ensures y in g'[x].children <==> LinksTo(Bodies(g'), y, x)
    {
      assert LinksTo(m, y, x) && y in removed ==> x in removed;
    }
    RemoveKeepsOrigins(c, g, removed);
  }

  lemma RemoveKeepsOrigins(c: Committee, g: Graph, removed: set<BlockRef>)
    requires GraphOk(c, g) && Grounded(Bodies(g - removed))
    requires forall b, a :: b in removed && LinksTo(Bodies(g), b, a) && a in g ==> a in removed
    requires Bodies(g - removed) == Bodies(g) - removed
    ensures OriginsExact(g - removed)
  {
    hide CommitRules.OwnChain, ChildrenExact;
    var g', m := g - removed, Bodies(g);
    forall x, y | x in g'
      ensures y in g'[x].originDescendants <==> OriginDescends(Bodies(g'), y, x)
    {
      if CommitRules.OwnChain(m, y, x) {
        ChainStaysLate(m, removed, y, x);
      }
      if CommitRules.OwnChain(m - removed, y, x) {
        ChainInSubmap(m, removed, y, x);
      }
    }
  }

  lemma RefIsInBlocks(blocks: seq<Block>, r: BlockRef) returns (b: Block)
    requires r in RefsOf(blocks)
    ensures b in blocks && b.ref == r
  {
    var i :| 0 <= i < |blocks| && blocks[i].ref == r;
    b := blocks[i];
  }

  /** The earliest commit links to nothing in the later ones. */
  lemma EarliestLinksNowhere(c: Committee, m: BlockMap, commits: seq<Commit>, b: BlockRef, a: BlockRef)
    requires Buffered(c, commits) && HoldsExactly(m, commits) && commits != []
    requires b in RefsOf(commits[0].blocks) && LinksTo(m, b, a) && a in m
    ensures a in RefsOf(commits[0].blocks)
  {
    var block := RefIsInBlocks(commits[0].blocks, b);
    assert m[block.ref] == block;
    var i :| 0 <= i < |commits| && a in RefsOf(commits[i].blocks);
    assert i > 0 ==> Follows(commits[0], commits[i]);
  }

  /** Popping the earliest commit and removing its blocks keeps the graph exact. */
  lemma PopKeepsGraph(c: Committee, g: Graph, commits: seq<Commit>)
    requires GraphOk(c, g) && Buffered(c, commits) && HoldsExactly(Bodies(g), commits) && commits != []
    ensures var g' := g - RefsOf(commits[0].blocks);
            GraphOk(c, g') && HoldsExactly(Bodies(g'), commits[1..])
  {
    hide GraphOk, ProperCommit;
    var removed, m := RefsOf(commits[0].blocks), Bodies(g);
    forall b, a | b in removed && LinksTo(m, b, a) && a in g
      ensures a in removed
    {
      EarliestLinksNowhere(c, m, commits, b, a);
    }
    RemoveKeepsGraph(c, g, removed);
    RestHolds(c, m, commits);
  }

  lemma RestHolds(c: Committee, m: BlockMap, commits: seq<Commit>)
    requires Buffered(c, commits) && HoldsExactly(m, commits) && commits != []
    ensures HoldsExactly(m - RefsOf(commits[0].blocks), commits[1..])
  {
    var removed, rest := RefsOf(commits[0].blocks), commits[1..];
    forall r
      ensures r in m - removed <==> InSome(rest, r)
    {
      if r in m - removed {
        var i :| 0 <= i < |commits| && r in RefsOf(commits[i].blocks);
        assert rest[i - 1] == commits[i];
      }
      if InSome(rest, r) {
        var i :| 0 <= i < |rest| && r in RefsOf(rest[i].blocks);
        assert rest[i] == commits[i + 1] && Follows(commits[0], commits[i + 1]);
      }
    }
    forall i, b | 0 <= i < |rest| && b in rest[i].blocks
      ensures b.ref in m - removed && (m - removed)[b.ref] == b
    {
      assert rest[i] == commits[i + 1] && Follows(commits[0], commits[i + 1]);
      var k :| 0 <= k < |rest[i].blocks| && rest[i].blocks[k] == b;
      assert b.ref in RefsOf(rest[i].blocks);
    }
  }

  // ----- adding the blocks of the newest commit -----------------------------------------

  lemma OneMoreListed(commits: seq<Commit>, r: BlockRef)
    requires commits != []
    ensures InSome(commits, r) <==> InSome(commits[..|commits| - 1], r) || r in RefsOf(commits[|commits| - 1].blocks)
  {
    hide RefsOf;
    var earlier := commits[..|commits| - 1];
    if InSome(earlier, r) {
      var k :| 0 <= k < |earlier| && r in RefsOf(earlier[k].blocks);
      assert r in RefsOf(commits[k].blocks);
    }
    if InSome(commits, r) {
      var k :| 0 <= k < |commits| && r in RefsOf(commits[k].blocks);
      assert k < |earlier| ==> earlier[k] == commits[k];
    }
  }

  /** The blocks of the newest commit, in any order, complete the map. */
  lemma LastAdded(commits: seq<Commit>, m0: BlockMap, m: BlockMap, blocks: seq<Block>)
    requires commits != [] && HoldsExactly(m0, commits[..|commits| - 1]) && Stored(m0, m, blocks)
    requires forall b :: b in blocks <==> b in commits[|commits| - 1].blocks
    requires RefsOf(blocks) == RefsOf(commits[|commits| - 1].blocks)
    ensures HoldsExactly(m, commits)
  {
    hide RefsOf, InSome;
    var earlier := commits[..|commits| - 1];
    forall r
      ensures r in m <==> InSome(commits, r)
    {
      OneMoreListed(commits, r);
    }
    forall k, b | 0 <= k < |commits| && b in commits[k].blocks
      ensures b.ref in m && m[b.ref] == b
    {
      if k < |earlier| {
        assert b in earlier[k].blocks;
      } else {
        assert b in blocks;
      }
    }
  }
}
