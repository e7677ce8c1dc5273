/** Block references, blocks, the block DAG and reachability in it. */
module Dags {
  import opened Committees

  const GENESIS_ROUND: nat := 0

  datatype Option<+T> = None | Some(value: T)

  /** Identifies a block. The digest is taken to be collision free. */
  datatype BlockRef = BlockRef(round: nat, author: nat, digest: nat)

  datatype Slot = Slot(round: nat, authority: nat)

  datatype CommitRef = CommitRef(index: nat, digest: nat)

  /** A verified block: its reference, the blocks it links to, the transactions it rejects in
      other blocks, and the commits it votes for. */
  datatype Block = Block(
    ref: BlockRef,
    ancestors: seq<BlockRef>,
    rejects: map<BlockRef, set<nat>>,
    commitVotes: seq<CommitRef>)

  type BlockMap = map<BlockRef, Block>

  function SlotOf(r: BlockRef): Slot {
    Slot(r.round, r.author)
  }

  /** The lexicographic order on (round, author, digest) used by every ordered collection. */
  predicate Less(a: BlockRef, b: BlockRef) {
    || a.round < b.round
    || (a.round == b.round && a.author < b.author)
    || (a.round == b.round && a.author == b.author && a.digest < b.digest)
  }

  /** A total order in which the round decides first, then the author, then the digest. */
  lemma OrderIsLexicographic(a: BlockRef, b: BlockRef)
    ensures a == b || Less(a, b) || Less(b, a)
    ensures !(Less(a, b) && Less(b, a)) && !Less(a, a)
    ensures a.round < b.round ==> Less(a, b)
    ensures a.round == b.round && a.author < b.author ==> Less(a, b)
    ensures a.round == b.round && a.author == b.author && a.digest < b.digest ==> Less(a, b)
  {
  }

  ghost predicate IsLeast(m: BlockRef, s: set<BlockRef>) {
    m in s && forall x :: x in s ==> x == m || Less(m, x)
  }

  ghost predicate IsGreatest(m: BlockRef, s: set<BlockRef>) {
    m in s && forall x :: x in s ==> x == m || Less(x, m)
  }

  ghost predicate StrictlyAscending(q: seq<BlockRef>) {
    forall i, j :: 0 <= i < j < |q| ==> Less(q[i], q[j])
  }

  lemma AscendingHasNoRepeats(q: seq<BlockRef>, i: nat)
    requires StrictlyAscending(q) && i < |q|
    ensures q[i] !in q[..i]
  {
  }

  lemma {:induction false} LeastExists(s: set<BlockRef>) returns (m: BlockRef)
    requires s != {}
    ensures IsLeast(m, s)
    decreases |s|
  {
    var x :| x in s;
    m := x;
    assert forall y :: y in s ==> y == x || y in s - {x};
    if s - {x} != {} {
      var rest := LeastExists(s - {x});
      if Less(rest, m) {
        m := rest;
      }
    }
  }

  lemma {:induction false} GreatestExists(s: set<BlockRef>) returns (m: BlockRef)
    requires s != {}
    ensures IsGreatest(m, s)
    decreases |s|
  {
    var x :| x in s;
    m := x;
    assert forall y :: y in s ==> y == x || y in s - {x};
    if s - {x} != {} {
      var rest := GreatestExists(s - {x});
      if Less(m, rest) {
        m := rest;
      }
    }
  }

  lemma ProperSubsetIsSmaller(a: set<BlockRef>, b: set<BlockRef>)
    requires a < b
    ensures |a| < |b|
  {
    assert b == a + (b - a);
  }

  /** The least reference of an ordered set (`first`). */
  method First(s: set<BlockRef>) returns (m: BlockRef)
    requires s != {}
    ensures IsLeast(m, s)
  {
    ghost var w := LeastExists(s);
    m :| m in s && forall x :: x in s ==> x == m || Less(m, x);
  }

  /** The greatest reference of an ordered set (`last`). */
  method Last(s: set<BlockRef>) returns (m: BlockRef)
    requires s != {}
    ensures IsGreatest(m, s)
  {
    ghost var w := GreatestExists(s);
    m :| m in s && forall x :: x in s ==> x == m || Less(x, m);
  }

  /** Iteration over an ordered set: its members in ascending order, each once. */
  method Ascending(s: set<BlockRef>) returns (q: seq<BlockRef>)
    ensures StrictlyAscending(q)
    ensures forall r :: r in q <==> r in s
  {
    q := [];
    var rest := s;
    while rest != {}
      invariant rest <= s
      invariant StrictlyAscending(q)
      invariant forall r :: r in s <==> r in q || r in rest
      invariant forall i, r :: 0 <= i < |q| && r in rest ==> Less(q[i], r)
      decreases |rest|
    {
      var m := First(rest);
      rest := rest - {m};
      q := q + [m];
    }
  }

  function Links(b: Block): set<BlockRef> {
    set a | a in b.ancestors
  }

  function Members(q: seq<BlockRef>): set<BlockRef> {
    set r | r in q
  }

  function Refs(blocks: seq<Block>): (refs: seq<BlockRef>)
    ensures |refs| == |blocks| && forall i :: 0 <= i < |blocks| ==> refs[i] == blocks[i].ref
  {
    seq(|blocks|, i requires 0 <= i < |blocks| => blocks[i].ref)
  }

  ghost function AuthorsOf(s: set<BlockRef>): set<nat> {
    set r | r in s :: r.author
  }

  /** Authors of the references in `q` that belong to `keep`. */
  ghost function AuthorsIn(q: seq<BlockRef>, keep: set<BlockRef>): set<nat> {
    set i | 0 <= i < |q| && q[i] in keep :: q[i].author
  }

  lemma AuthorsInStep(q: seq<BlockRef>, keep: set<BlockRef>, i: nat)
    requires i < |q|
    ensures AuthorsIn(q[..i + 1], keep) == AuthorsIn(q[..i], keep) + (if q[i] in keep then {q[i].author} else {})
  {
    var before, after := AuthorsIn(q[..i], keep), AuthorsIn(q[..i + 1], keep);
    forall a | a in after
      ensures a in before + (if q[i] in keep then {q[i].author} else {})
    {
      var k :| 0 <= k < i + 1 && q[..i + 1][k] in keep && q[..i + 1][k].author == a;
      assert k < i ==> q[..i][k] == q[k];
    }
    forall a | a in before
      ensures a in after
    {
      var k :| 0 <= k < i && q[..i][k] in keep && q[..i][k].author == a;
      assert q[..i + 1][k] == q[k];
    }
    assert q[..i + 1][i] == q[i];
  }

  lemma AuthorsInWhole(q: seq<BlockRef>, keep: set<BlockRef>)
    requires forall r :: r in keep ==> r in q
    ensures AuthorsIn(q[..|q|], keep) == AuthorsOf(keep)
  {
    assert q[..|q|] == q;
    forall a | a in AuthorsOf(keep)
      ensures a in AuthorsIn(q, keep)
    {
      var r :| r in keep && r.author == a;
      var k :| 0 <= k < |q| && q[k] == r;
    }
  }

  function RefsOf(blocks: seq<Block>): set<BlockRef> {
    set i | 0 <= i < |blocks| :: blocks[i].ref
  }

  ghost predicate DistinctRefs(blocks: seq<Block>) {
    forall i, j :: 0 <= i < j < |blocks| ==> blocks[i].ref != blocks[j].ref
  }

  lemma RefsOfAppend(blocks: seq<Block>, b: Block)
    ensures RefsOf(blocks + [b]) == RefsOf(blocks) + {b.ref}
  {
    var both := blocks + [b];
    forall r | r in RefsOf(blocks) + {b.ref}
      ensures r in RefsOf(both)
    {
      if r == b.ref {
        assert both[|blocks|].ref == r;
      } else {
        var i :| 0 <= i < |blocks| && blocks[i].ref == r;
        assert both[i].ref == r;
      }
    }
  }

  lemma RefsOfConcat(a: seq<Block>, b: seq<Block>)
    ensures RefsOf(a + b) == RefsOf(a) + RefsOf(b)
  {
    forall r | r in RefsOf(a) + RefsOf(b)
      ensures r in RefsOf(a + b)
    {
      if r in RefsOf(a) {
        var i :| 0 <= i < |a| && a[i].ref == r;
        assert (a + b)[i].ref == r;
      } else {
        var i :| 0 <= i < |b| && b[i].ref == r;
        assert (a + b)[|a| + i].ref == r;
      }
    }
  }

  lemma NoRefs()
    ensures RefsOf([]) == {}
  {
  }

  lemma RefsOfSame(a: seq<Block>, b: seq<Block>)
    requires forall x :: x in a <==> x in b
    ensures RefsOf(a) == RefsOf(b)
  {
    assert forall i :: 0 <= i < |a| ==> a[i] in b;
    assert forall i :: 0 <= i < |b| ==> b[i] in a;
  }

  /** `after` is `before` with `blocks` added. */
  ghost predicate Stored(before: BlockMap, after: BlockMap, blocks: seq<Block>) {
    && after.Keys == before.Keys + RefsOf(blocks)
    && (forall r :: r in before ==> after[r] == before[r])
    && (forall i :: 0 <= i < |blocks| ==> blocks[i].ref in after && after[blocks[i].ref] == blocks[i])
  }

  lemma StoredConcat(dag0: BlockMap, dag1: BlockMap, dag2: BlockMap, a: seq<Block>, b: seq<Block>)
    requires Stored(dag0, dag1, a) && Stored(dag1, dag2, b)
    ensures Stored(dag0, dag2, a + b)
  {
    RefsOfConcat(a, b);
    forall i | 0 <= i < |a + b|
      ensures (a + b)[i].ref in dag2 && dag2[(a + b)[i].ref] == (a + b)[i]
    {
      if i < |a| {
        assert (a + b)[i] == a[i] && a[i].ref in dag1;
      } else {
        assert (a + b)[i] == b[i - |a|];
      }
    }
  }

  // ----- verified blocks ----------------------------------------------------------------

  ghost function ParentAuthors(b: Block): set<nat> {
    set i | 0 <= i < |b.ancestors| && b.ancestors[i].round + 1 == b.ref.round :: b.ancestors[i].author
  }

  ghost predicate DistinctAuthors(q: seq<BlockRef>) {
    forall i, j :: 0 <= i < j < |q| ==> q[i].author != q[j].author
  }

  ghost predicate LowerRounds(b: Block) {
    forall i :: 0 <= i < |b.ancestors| ==> b.ancestors[i].round < b.ref.round
  }

  /** What block verification guarantees about a block's links: authors are members of the
      committee, the own ancestor comes first, authors are distinct, rounds strictly decrease, and
      the blocks of the previous round among the ancestors hold a quorum of stake. */
  ghost predicate WellLinked(c: Committee, b: Block) {
    && c.IsValidIndex(b.ref.author)
    && b.ref.round > GENESIS_ROUND
    && |b.ancestors| > 0
    && b.ancestors[0].author == b.ref.author
    && (forall i :: 0 <= i < |b.ancestors| ==> c.IsValidIndex(b.ancestors[i].author))
    && DistinctAuthors(b.ancestors)
    && LowerRounds(b)
    && c.IsQuorum(ParentAuthors(b))
  }

  ghost predicate IsGenesis(c: Committee, b: Block) {
    c.IsValidIndex(b.ref.author) && b.ref.round == GENESIS_ROUND && b.ancestors == []
  }

  ghost predicate Verified(c: Committee, b: Block) {
    WellLinked(c, b) || IsGenesis(c, b)
  }

  /** A collection of verified blocks, stored under their own references. */
  ghost predicate WellFormed(c: Committee, dag: BlockMap) {
    && (forall r :: r in dag ==> dag[r].ref == r)
    && (forall r {:trigger Verified(c, dag[r])} :: r in dag ==> Verified(c, dag[r]))
  }

  /** The part of well-formedness that makes recursion along links terminate. */
  ghost predicate Grounded(dag: BlockMap) {
    forall r :: r in dag ==> dag[r].ref == r && LowerRounds(dag[r])
  }

  /** `part` holds some of the blocks of `whole`, unchanged. */
  ghost predicate PartOf(part: BlockMap, whole: BlockMap) {
    forall r :: r in part ==> r in whole && whole[r] == part[r]
  }

  /** Every link to a round above `floor` can be followed. */
  ghost predicate CompleteAbove(dag: BlockMap, floor: nat) {
    forall r, i :: r in dag && 0 <= i < |dag[r].ancestors| && dag[r].ancestors[i].round > floor
      ==> dag[r].ancestors[i] in dag
  }

  // ----- reachability -------------------------------------------------------------------

  /** `to` lies in the causal history of `from`. */
  ghost predicate Linked(dag: BlockMap, from: BlockRef, to: BlockRef)
    decreases from.round
  {
    && from in dag
    && (to in dag[from].ancestors
        || exists a :: a in dag[from].ancestors && a.round < from.round && Linked(dag, a, to))
  }

  lemma {:induction false} LinkedLowersRound(dag: BlockMap, from: BlockRef, to: BlockRef)
    requires Grounded(dag) && Linked(dag, from, to)
    ensures to.round < from.round
    decreases from.round
  {
    if to !in dag[from].ancestors {
      var a :| a in dag[from].ancestors && a.round < from.round && Linked(dag, a, to);
      LinkedLowersRound(dag, a, to);
    }
  }

  /** A way down from one block to another, each link among the ancestors of the block before. */
  ghost predicate IsPath(dag: BlockMap, path: seq<BlockRef>) {
    |path| >= 2 && forall i :: 0 <= i < |path| - 1 ==> path[i] in dag && path[i + 1] in dag[path[i]].ancestors
  }

  /** A block lies in the causal history of another exactly when there is a way down to it. */
  lemma LinkedIsPath(dag: BlockMap, from: BlockRef, to: BlockRef)
    requires Grounded(dag)
    ensures Linked(dag, from, to) <==> exists path :: IsPath(dag, path) && path[0] == from && path[|path| - 1] == to
  {
    if Linked(dag, from, to) {
      var path := PathTo(dag, from, to);
    }
    if path :| IsPath(dag, path) && path[0] == from && path[|path| - 1] == to {
      PathLinks(dag, path);
    }
  }

  lemma {:induction false} PathTo(dag: BlockMap, from: BlockRef, to: BlockRef) returns (path: seq<BlockRef>)
    requires Grounded(dag) && Linked(dag, from, to)
    ensures IsPath(dag, path) && path[0] == from && path[|path| - 1] == to
    decreases from.round
  {
    if to in dag[from].ancestors {
      path := [from, to];
    } else {
      var a :| a in dag[from].ancestors && a.round < from.round && Linked(dag, a, to);
      var rest := PathTo(dag, a, to);
      path := [from] + rest;
    }
  }

  lemma {:induction false} PathLinks(dag: BlockMap, path: seq<BlockRef>)
    requires Grounded(dag) && IsPath(dag, path)
    ensures Linked(dag, path[0], path[|path| - 1])
    decreases |path|
  {
    if |path| > 2 {
      var rest := path[1..];
      assert IsPath(dag, rest);
      PathLinks(dag, rest);
      assert path[1] in dag[path[0]].ancestors && path[1].round < path[0].round;
    } else {
      assert path[1] in dag[path[0]].ancestors;
    }
  }

  /** Causal history is closed under following one more link. */
  lemma {:induction false} LinkedExtends(dag: BlockMap, from: BlockRef, mid: BlockRef, to: BlockRef)
    requires Grounded(dag) && Linked(dag, from, mid) && mid in dag && to in dag[mid].ancestors
    ensures Linked(dag, from, to)
    decreases from.round
  {
    if mid in dag[from].ancestors {
      assert mid.round < from.round && Linked(dag, mid, to);
    } else {
      var a :| a in dag[from].ancestors && a.round < from.round && Linked(dag, a, mid);
      LinkedExtends(dag, a, mid, to);
    }
  }

  /** A collection that is complete above `floor` gives its blocks the same causal history above
      that floor as any larger collection does. */
  lemma {:induction false} LinkedAgrees(part: BlockMap, whole: BlockMap, floor: nat, from: BlockRef, to: BlockRef)
    requires Grounded(whole) && PartOf(part, whole) && CompleteAbove(part, floor)
    requires from in part && to.round > floor
    ensures Linked(part, from, to) <==> Linked(whole, from, to)
    ensures Linked(part, from, to) ==> to in part
    decreases from.round
  {
    forall a | a in whole[from].ancestors && Linked(whole, a, to)
      ensures Linked(part, a, to) && to in part
    {
      LinkedLowersRound(whole, a, to);
      LinkedAgrees(part, whole, floor, a, to);
    }
    forall a | a in part[from].ancestors && a.round < from.round && Linked(part, a, to)
      ensures Linked(whole, a, to) && to in part
    {
      LinkedAgrees(part, whole, floor, a, to);
    }
  }

  /** Gets all blocks at `round` in the causal history of a block, by a traversal in descending
      order that never revisits a reference. */
  method AncestorsAtRound(dag: BlockMap, later: BlockRef, round: nat) returns (found: set<BlockRef>)
    requires Grounded(dag) && CompleteAbove(dag, round) && later in dag
    ensures forall x :: x in found <==> Linked(dag, later, x) && x.round == round
  {
    var linked := Links(dag[later]);
    ghost var bound := later;
    while linked != {}
      invariant forall x :: x in linked ==> Less(x, bound)
      invariant Traversing(dag, later, round, linked)
      decreases |Below(dag, bound)|
    {
      var block := Last(linked);
      if block.round <= round {
        break;
      }
      VisitKeepsTraversing(dag, later, round, linked, block);
      linked := linked - {block} + Links(dag[block]);
      assert Below(dag, block) < Below(dag, bound) by {
        assert block in Below(dag, bound) && block !in Below(dag, block);
      }
      ProperSubsetIsSmaller(Below(dag, block), Below(dag, bound));
      bound := block;
    }
    forall x | StillLinked(dag, linked, x) && x.round == round
      ensures x in linked
    {
      if x !in linked {
        var y :| y in linked && Linked(dag, y, x);
        LinkedLowersRound(dag, y, x);
        assert false;
      }
    }
    found := set x | x in linked && x.round == round;
  }

  ghost function Below(dag: BlockMap, bound: BlockRef): set<BlockRef> {
    set r | r in dag && Less(r, bound)
  }

  /** Everything in the frontier is in the history of `later`, and everything at `round` in that
      history is still to be found through the frontier. */
  ghost predicate Traversing(dag: BlockMap, later: BlockRef, round: nat, frontier: set<BlockRef>) {
    && (forall x :: x in frontier ==> Linked(dag, later, x))
    && (forall x :: Linked(dag, later, x) && x.round == round ==> StillLinked(dag, frontier, x))
  }

  lemma VisitKeepsTraversing(dag: BlockMap, later: BlockRef, round: nat, frontier: set<BlockRef>, block: BlockRef)
    requires Grounded(dag) && CompleteAbove(dag, round) && later in dag
    requires Traversing(dag, later, round, frontier) && block in frontier && block.round > round
    ensures block in dag && Traversing(dag, later, round, frontier - {block} + Links(dag[block]))
  {
    LinkedAgrees(dag, dag, round, later, block);
    forall a | a in dag[block].ancestors
      ensures Linked(dag, later, a)
    {
      LinkedExtends(dag, later, block, a);
    }
    forall x | Linked(dag, later, x) && x.round == round
      ensures StillLinked(dag, frontier - {block} + Links(dag[block]), x)
    {
      StillLinkedAfterVisit(dag, frontier, block, x);
    }
  }

  ghost predicate StillLinked(dag: BlockMap, frontier: set<BlockRef>, x: BlockRef) {
    x in frontier || exists y :: y in frontier && Linked(dag, y, x)
  }

  lemma StillLinkedAfterVisit(dag: BlockMap, frontier: set<BlockRef>, visited: BlockRef, x: BlockRef)
    requires StillLinked(dag, frontier, x) && visited in dag && x != visited
    ensures StillLinked(dag, frontier - {visited} + Links(dag[visited]), x)
  {
    var next := frontier - {visited} + Links(dag[visited]);
    if x !in frontier && !exists y :: y in frontier && y != visited && Linked(dag, y, x) {
      assert Linked(dag, visited, x);
      if x !in dag[visited].ancestors {
        var a :| a in dag[visited].ancestors && a.round < visited.round && Linked(dag, a, x);
        assert a in next;
      }
    }
  }
}
