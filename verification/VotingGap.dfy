/** A run in which garbage collection leaves a gap in an authority's chain of committed blocks: its first
    block rejects a transaction, and yet the authority counts as accepting it. */
module VotingGaps {
  import opened Committees
  import opened Dags
  import CommitGraphs
  import DagStates
  import Linearizers
  import Settlements
  import VoteTraversals

  /** Four authorities of equal stake; any three are a quorum. */
  const COMMITTEE := Committee([1, 1, 1, 1])

  /** Committed blocks are collected one round below the last leader. */
  const PARAMETERS := DagStates.Parameters(4, 0, map[], 1, 1)

  const LEADERS: seq<BlockRef> := [Ref(3, 0), Ref(4, 0), Ref(5, 0)]

  const TRANSACTION: nat := 7

  function Ref(round: nat, author: nat): BlockRef {
    BlockRef(round, author, 0)
  }

  /** The first three authorities propose in rounds 1 to 5, the last one in rounds 2 to 4. */
  function AllRefs(): set<BlockRef> {
    (set k, a | 1 <= k <= 5 && 0 <= a <= 2 :: Ref(k, a)) + {Ref(2, 3), Ref(3, 3), Ref(4, 3)}
  }

  /** Every block links to its own previous one first, and to all first three authorities in the round before.
      Of the last authority's blocks only those of rounds 2 and 4 are linked to by others. */
  function LinksOf(r: BlockRef): seq<BlockRef>
    requires r.round >= 1
  {
    var k := r.round - 1;
    if r.author == 0 then [Ref(k, 0), Ref(k, 1), Ref(k, 2)] + if r.round == 3 || r.round == 5 then [Ref(k, 3)] else []
    else if r.author == 1 then [Ref(k, 1), Ref(k, 2), Ref(k, 0)]
    else if r.author == 2 then [Ref(k, 2), Ref(k, 0), Ref(k, 1)]
    else [Ref(if k == 1 then 0 else k, 3), Ref(k, 0), Ref(k, 1), Ref(k, 2)]
  }

  /** The last authority's first block rejects a transaction of a block it links to. */
  function MakeBlock(r: BlockRef): Block
    requires r.round >= 1
  {
    Block(r, LinksOf(r), if r == Ref(2, 3) then map[Ref(1, 0) := {TRANSACTION}] else map[], [])
  }

  function Network(): BlockMap {
    map r | r in AllRefs() :: MakeBlock(r)
  }

  // ----- the blocks are verified, and nothing they link to is unknown -------------------

  lemma ThreeAreQuorum(s: set<nat>)
    requires {0, 1, 2} <= s
    ensures COMMITTEE.IsQuorum(s)
  {
    var c := COMMITTEE;
    NoStakeInNobody(c, |c.stakes|);
    StakeInsert(c, {}, 0);
    StakeInsert(c, {0}, 1);
    StakeInsert(c, {0, 1}, 2);
    assert {} + {0} == {0} && {0} + {1} == {0, 1} && {0, 1} + {2} == {0, 1, 2};
    StakeMonotone(c, {0, 1, 2}, s);
    TotalOfFour();
  }

  lemma TotalOfFour()
    ensures COMMITTEE.TotalStake() == 4
  {
    assert COMMITTEE.stakes == [1, 1, 1, 1];
    assert [1, 1, 1, 1][..3] == [1, 1, 1] && [1, 1, 1][..2] == [1, 1] && [1, 1][..1] == [1] && [1][..0] == [];
  }

  predicate Proposed(r: BlockRef) {
    r.digest == 0 && ((1 <= r.round <= 5 && r.author <= 2) || (2 <= r.round <= 4 && r.author == 3))
  }

  lemma InNetwork(r: BlockRef)
    ensures r in AllRefs() <==> Proposed(r)
    ensures r in Network() <==> Proposed(r)
    ensures Proposed(r) ==> Network()[r] == MakeBlock(r)
  {
    if Proposed(r) && r.author <= 2 {
      assert r == Ref(r.round, r.author);
    }
  }

  ghost predicate LinksTo(r: BlockRef, k: nat, a: nat) {
    r.round >= 1 && exists i :: 0 <= i < |LinksOf(r)| && LinksOf(r)[i] == Ref(k, a)
  }

  lemma LinksToThree(r: BlockRef)
    requires Proposed(r)
    ensures LinksTo(r, r.round - 1, 0) && LinksTo(r, r.round - 1, 1) && LinksTo(r, r.round - 1, 2)
  {
    var links, k := LinksOf(r), r.round - 1;
    if r.author == 0 {
      assert links[0] == Ref(k, 0) && links[1] == Ref(k, 1) && links[2] == Ref(k, 2);
    } else if r.author == 1 {
      assert links[2] == Ref(k, 0) && links[0] == Ref(k, 1) && links[1] == Ref(k, 2);
    } else if r.author == 2 {
      assert links[1] == Ref(k, 0) && links[2] == Ref(k, 1) && links[0] == Ref(k, 2);
    } else {
      assert links[1] == Ref(k, 0) && links[2] == Ref(k, 1) && links[3] == Ref(k, 2);
    }
  }

  lemma LinksAreProper(r: BlockRef)
    requires Proposed(r)
    ensures |LinksOf(r)| >= 3 && LinksOf(r)[0].author == r.author && DistinctAuthors(LinksOf(r))
    ensures forall i :: 0 <= i < |LinksOf(r)| ==>
              var a := LinksOf(r)[i]; a.author < 4 && a.round < r.round && (a.round == 0 || Proposed(a))
  {
  }

  lemma BlockIsVerified(r: BlockRef)
    requires Proposed(r)
    ensures WellLinked(COMMITTEE, MakeBlock(r)) && DagStates.ProperBlock(4, r, MakeBlock(r))
  {
    LinksAreProper(r);
    LinksToThree(r);
    hide LinksOf, LinksTo;
    var b := MakeBlock(r);
    forall a | a in {0, 1, 2}
      ensures a in ParentAuthors(b)
    {
      ParentOf(r, a);
    }
    ThreeAreQuorum(ParentAuthors(b));
  }

  lemma ParentOf(r: BlockRef, a: nat)
    requires r.round >= 1 && LinksTo(r, r.round - 1, a)
    ensures a in ParentAuthors(MakeBlock(r))
  {
    hide LinksOf;
    var i :| 0 <= i < |LinksOf(r)| && LinksOf(r)[i] == Ref(r.round - 1, a);
    assert MakeBlock(r).ancestors[i] == Ref(r.round - 1, a);
  }

  lemma NetworkIsVerified()
    ensures forall r :: r in Network() ==> Network()[r].ref == r && WellLinked(COMMITTEE, Network()[r])
    ensures forall r, a :: r in Network() && a in Network()[r].ancestors ==> a.round == 0 || a in Network()
    ensures DagStates.ProperBlocks(4, Network()) && Grounded(Network()) && Linearizers.Rising(Network(), LEADERS)
  {
    hide Network, WellLinked, DagStates.ProperBlock, LinksOf, Grounded;
    forall r | r in Network()
      ensures Network()[r].ref == r && WellLinked(COMMITTEE, Network()[r]) && DagStates.ProperBlock(4, r, Network()[r])
      ensures forall a :: a in Network()[r].ancestors ==> a.round == 0 || a in Network()
    {
      InNetwork(r);
      BlockIsVerified(r);
      LinksAreKnown(r);
    }
    DagStates.BlocksAreGrounded(4, Network());
    LeadersAreRising();
  }

  lemma LeadersAreRising()
    ensures Linearizers.Rising(Network(), LEADERS)
  {
    hide Network;
    InNetwork(Ref(3, 0));
    InNetwork(Ref(4, 0));
    InNetwork(Ref(5, 0));
  }

  lemma LinksAreKnown(r: BlockRef)
    requires Proposed(r)
    ensures forall a :: a in MakeBlock(r).ancestors ==> a.round == 0 || a in Network()
  {
    LinksAreProper(r);
    hide LinksOf, Network;
    forall a | a in MakeBlock(r).ancestors && a.round != 0
      ensures a in Network()
    {
      var i :| 0 <= i < |LinksOf(r)| && LinksOf(r)[i] == a;
      InNetwork(a);
    }
  }

  // ----- what is committed --------------------------------------------------------------

  ghost function Commits(): seq<DagStates.TrustedCommit> {
    Linearizers.CommitsFor(Network(), PARAMETERS, LEADERS)
  }

  /** What the commit of leader `k` holds. */
  lemma InCommit(k: nat, r: BlockRef)
    requires k < 3
    ensures |Commits()| == 3
    ensures r in Commits()[k].blocks <==>
            && Proposed(r) && r.round > (if k == 0 then 0 else LEADERS[k - 1].round - 1)
            && DagStates.Reaches(Network(), LEADERS[k], r) && !DagStates.CommittedBy(Commits()[..k], r)
  {
    hide Linearizers.CommitsFor, DagStates.Reaches, Network, DagStates.ProperBlocks, WellLinked, DagStates.LastCommit,
      Grounded, Linearizers.Rising, DagStates.CommittedBy, Proposed;
    NetworkIsVerified();
    InNetwork(r);
    Linearizers.CommitMeans(Network(), PARAMETERS, LEADERS, k);
  }

  /** The first leader commits its history. */
  lemma FirstCommit()
    ensures |Commits()| == 3
    ensures forall r :: r in {Ref(1, 0), Ref(2, 0), Ref(3, 0), Ref(2, 3)} ==> r in Commits()[0].blocks
  {
    hide Commits, Network;
    FirstReaches();
    assert Commits()[..0] == [];
    InCommit(0, Ref(1, 0));
    InCommit(0, Ref(2, 0));
    InCommit(0, Ref(3, 0));
    InCommit(0, Ref(2, 3));
  }

  lemma FirstReaches()
    ensures DagStates.Reaches(Network(), Ref(3, 0), Ref(1, 0)) && DagStates.Reaches(Network(), Ref(3, 0), Ref(2, 0))
    ensures DagStates.Reaches(Network(), Ref(3, 0), Ref(2, 3))
  {
    hide Network;
    InNetwork(Ref(2, 0));
    InNetwork(Ref(3, 0));
    var u := Network();
    assert u[Ref(3, 0)].ancestors[0] == Ref(2, 0) && u[Ref(2, 0)].ancestors[0] == Ref(1, 0) &&
      u[Ref(3, 0)].ancestors[3] == Ref(2, 3);
    assert Linked(u, Ref(2, 0), Ref(1, 0)) && Linked(u, Ref(3, 0), Ref(2, 0)) && Linked(u, Ref(3, 0), Ref(2, 3));
  }

  lemma NotReached(u: BlockMap, leader: BlockRef, r: BlockRef)
    requires Grounded(u) && leader in u && leader != r
    requires forall a :: a in u[leader].ancestors ==> a != r && a.round <= r.round
    ensures !DagStates.Reaches(u, leader, r)
  {
    if Linked(u, leader, r) {
      var a :| a in u[leader].ancestors && Linked(u, a, r);
      LinkedLowersRound(u, a, r);
    }
  }

  lemma NotReachedAbove(u: BlockMap, leader: BlockRef, r: BlockRef)
    requires Grounded(u) && leader in u && leader != r && leader.round <= r.round
    ensures !DagStates.Reaches(u, leader, r)
  {
    if Linked(u, leader, r) {
      LinkedLowersRound(u, leader, r);
    }
  }

  /** The first two leaders do not reach the last authority's block of round 3, nor the one of round 4. */
  lemma NotReachedByFirstTwo()
    ensures !DagStates.Reaches(Network(), Ref(3, 0), Ref(3, 3)) && !DagStates.Reaches(Network(), Ref(4, 0), Ref(3, 3))
    ensures !DagStates.Reaches(Network(), Ref(3, 0), Ref(4, 3)) && !DagStates.Reaches(Network(), Ref(4, 0), Ref(4, 3))
  {
    hide Network, DagStates.Reaches;
    NetworkIsGrounded();
    InNetwork(Ref(3, 0));
    InNetwork(Ref(4, 0));
    NotReachedAbove(Network(), Ref(3, 0), Ref(3, 3));
    NotReachedAbove(Network(), Ref(3, 0), Ref(4, 3));
    NotReachedAbove(Network(), Ref(4, 0), Ref(4, 3));
    assert Network()[Ref(4, 0)].ancestors == [Ref(3, 0), Ref(3, 1), Ref(3, 2)];
    NotReached(Network(), Ref(4, 0), Ref(3, 3));
  }

  lemma NetworkIsGrounded()
    ensures Grounded(Network())
  {
    NetworkIsVerified();
  }

  /** The third leader comes too late for that block, and commits the next one of its authority. */
  lemma GapInCommits()
    ensures |Commits()| == 3 && Ref(4, 3) in Commits()[2].blocks
    ensures forall i :: 0 <= i < 3 ==> Ref(3, 3) !in Commits()[i].blocks
  {
    hide Commits, DagStates.Reaches;
    NotReachedByFirstTwo();
    ThirdReaches();
    InCommit(0, Ref(3, 3));
    InCommit(1, Ref(3, 3));
    InCommit(2, Ref(3, 3));
    InCommit(0, Ref(4, 3));
    InCommit(1, Ref(4, 3));
    InCommit(2, Ref(4, 3));
  }

  lemma ThirdReaches()
    ensures DagStates.Reaches(Network(), Ref(5, 0), Ref(4, 3))
  {
  }

  // ----- the votes ----------------------------------------------------------------------

  function Local(i: nat): bool {
    true
  }

  lemma CommitsAreKnown()
    ensures Linearizers.BlocksKnown(Network(), Commits())
    ensures CommitGraphs.Buffered(COMMITTEE, Linearizers.SubDags(Network(), Commits(), Local))
  {
    hide Linearizers.CommitsFor, WellLinked;
    NetworkIsVerified();
    Linearizers.CommitsFeedFinalizer(COMMITTEE, Network(), PARAMETERS, LEADERS, Local);
  }

  /** The three commits as they are buffered by the finalizer. */
  ghost function Buffer(): seq<CommitGraphs.Commit> {
    CommitsAreKnown();
    Linearizers.SubDags(Network(), Commits(), Local)
  }

  /** The graph over the buffered commits holds the two blocks, but not the one between them. */
  lemma GapInBuffer()
    ensures var m := Settlements.BlocksIn(Buffer());
            && CommitGraphs.Buffered(COMMITTEE, Buffer()) && CommitGraphs.HoldsExactly(m, Buffer())
            && (forall r :: r in m ==> Proposed(r) && m[r] == MakeBlock(r))
            && (forall r :: r in {Ref(1, 0), Ref(2, 0), Ref(3, 0), Ref(2, 3), Ref(4, 3)} ==> r in m) && Ref(3, 3) !in m
  {
    hide Linearizers.CommitsFor, WellLinked, Linearizers.SubDags, Settlements.BlocksIn, CommitGraphs.HoldsExactly,
      Network;
    var m, commits := Settlements.BlocksIn(Buffer()), Commits();
    CommitsAreKnown();
    NetworkIsVerified();
    Settlements.HoldsBlocksIn(COMMITTEE, Buffer());
    FirstCommit();
    GapInCommits();
    assert Buffer()[0..3] == Buffer() && commits[0..3] == commits;
    Linearizers.HeldIsNetwork(Network(), commits, Local, 0, 3, m);
    forall r | r in m
      ensures Proposed(r) && m[r] == MakeBlock(r)
    {
      InNetwork(r);
    }
    assert forall r :: r in commits[0].blocks || r in commits[2].blocks ==> DagStates.CommittedBy(commits, r);
  }

  /** A gap in an authority's chain breaks the rule that only its first block votes: the block between was
      collected before it could be committed, so the first block rejects, a later one accepts, and both vote. */
  lemma GapLetsLaterBlockVote()
    ensures (forall r :: r in Network() ==> WellLinked(COMMITTEE, Network()[r]))
    ensures Linearizers.Rising(Network(), LEADERS)
    ensures CommitGraphs.Buffered(COMMITTEE, Buffer())
    ensures var m, p, x, y := Settlements.BlocksIn(Buffer()), Ref(1, 0), Ref(2, 3), Ref(4, 3);
            && CommitGraphs.HoldsExactly(m, Buffer()) && Grounded(m) && p in m && x in m && y in m
            && VoteTraversals.Counts(m, p, x) && VoteTraversals.Rejects(m[x], p, TRANSACTION)
            && VoteTraversals.Counts(m, p, y) && 3 in VoteTraversals.Accepting(m, p, TRANSACTION)
  {
    hide WellLinked, CommitGraphs.HoldsExactly, CommitGraphs.Buffered, Settlements.BlocksIn, Buffer, Network;
    NetworkIsVerified();
    GapInBuffer();
    BothVote(Settlements.BlocksIn(Buffer()));
  }

  lemma BothVote(m: BlockMap)
    requires (forall r :: r in m ==> Proposed(r) && m[r] == MakeBlock(r)) && Ref(3, 3) !in m
    requires forall r :: r in {Ref(1, 0), Ref(2, 0), Ref(3, 0), Ref(2, 3), Ref(4, 3)} ==> r in m
    ensures var p, x, y := Ref(1, 0), Ref(2, 3), Ref(4, 3);
            && Grounded(m) && VoteTraversals.Counts(m, p, x) && VoteTraversals.Rejects(m[x], p, TRANSACTION)
            && VoteTraversals.Counts(m, p, y) && 3 in VoteTraversals.Accepting(m, p, TRANSACTION)
  {
    var p, x, y := Ref(1, 0), Ref(2, 3), Ref(4, 3);
    forall r | r in m
      ensures m[r].ref == r && LowerRounds(m[r])
    {
      LinksAreProper(r);
    }
    BothDescend(m);
    hide Linked;
    assert m[y].ancestors[0] == Ref(3, 3) && m[x].ancestors[0] == Ref(0, 3) && Ref(0, 3) !in m;
    assert VoteTraversals.Counts(m, p, x) && VoteTraversals.Counts(m, p, y);
    assert !VoteTraversals.Rejects(m[y], p, TRANSACTION) && y.author == 3;
  }

  lemma BothDescend(m: BlockMap)
    requires forall r :: r in m ==> Proposed(r) && m[r] == MakeBlock(r)
    requires forall r :: r in {Ref(1, 0), Ref(2, 0), Ref(3, 0), Ref(2, 3), Ref(4, 3)} ==> r in m
    ensures Linked(m, Ref(2, 3), Ref(1, 0)) && Linked(m, Ref(4, 3), Ref(1, 0))
  {
    var p, x, y := Ref(1, 0), Ref(2, 3), Ref(4, 3);
    assert m[x].ancestors[1] == p && m[Ref(2, 0)].ancestors[0] == p && m[Ref(3, 0)].ancestors[0] == Ref(2, 0);
    assert m[y].ancestors[1] == Ref(3, 0);
    assert Linked(m, Ref(2, 0), p);
    assert Linked(m, Ref(3, 0), p);
  }
}
