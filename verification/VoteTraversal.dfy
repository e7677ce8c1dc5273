/** Transaction votes in committed blocks: the graph of blocks in pending commits, and the traversal
    that collects the votes on the transactions of one block. */
module VoteTraversals {
  import opened Committees
  import opened Dags
  import CommitRules

  /** A block of a pending commit, the blocks that link to it, and the later blocks of its own
      authority that build on it. */
  datatype BlockState = BlockState(block: Block, children: set<BlockRef>, originDescendants: set<BlockRef>)

  type Graph = map<BlockRef, BlockState>

  ghost function Bodies(g: Graph): BlockMap {
    map r | r in g :: g[r].block
  }

  /** What verification guarantees about a committed block. */
  ghost predicate ProperBlock(c: Committee, b: Block) {
    c.IsValidIndex(b.ref.author) && |b.ancestors| > 0 && b.ancestors[0].author == b.ref.author && LowerRounds(b)
  }

  ghost predicate Proper(c: Committee, m: BlockMap) {
    forall r :: r in m ==> m[r].ref == r && ProperBlock(c, m[r])
  }

  lemma ProperIsGrounded(c: Committee, m: BlockMap)
    requires Proper(c, m)
    ensures Grounded(m)
  {
  }

  ghost predicate LinksTo(m: BlockMap, y: BlockRef, x: BlockRef) {
    y in m && x in m[y].ancestors
  }

  /** `later` builds on `earlier` by own-ancestor links through blocks of the map. */
  ghost predicate OriginDescends(m: BlockMap, later: BlockRef, earlier: BlockRef)
    requires Grounded(m)
  {
    later != earlier && CommitRules.OwnChain(m, later, earlier)
  }

  ghost predicate ChildrenExact(g: Graph) {
    forall x, y :: x in g ==> (y in g[x].children <==> LinksTo(Bodies(g), y, x))
  }

  ghost predicate OriginsExact(g: Graph)
    requires Grounded(Bodies(g))
  {
    forall x, y :: x in g ==> (y in g[x].originDescendants <==> OriginDescends(Bodies(g), y, x))
  }

  ghost predicate GraphOk(c: Committee, g: Graph) {
    && Proper(c, Bodies(g))
    && (ProperIsGrounded(c, Bodies(g)); ChildrenExact(g) && OriginsExact(g))
  }

  // ----- which blocks vote --------------------------------------------------------------

  /** `x` votes on the transactions of `p`: it descends from `p`, and builds on no other block of its
      own authority that does. */
  ghost predicate Counts(m: BlockMap, p: BlockRef, x: BlockRef)
    requires Grounded(m)
  {
    Linked(m, x, p) && forall z :: Linked(m, z, p) ==> !OriginDescends(m, x, z)
  }

  predicate Rejects(b: Block, p: BlockRef, transaction: nat) {
    p in b.rejects && transaction in b.rejects[p]
  }

  /** Authorities among the blocks of `some` whose vote accepts a transaction of `p`. */
  ghost function AcceptingAmong(m: BlockMap, p: BlockRef, some: set<BlockRef>, transaction: nat): set<nat>
    requires Grounded(m)
  {
    set x | x in some && x in m && Counts(m, p, x) && !(p in m[x].rejects && transaction in m[x].rejects[p]) :: x.author
  }

  /** Authorities whose voting block accepts a transaction of `p`. */
  ghost function Accepting(m: BlockMap, p: BlockRef, transaction: nat): set<nat>
    requires Grounded(m)
  {
    AcceptingAmong(m, p, m.Keys, transaction)
  }

  lemma {:induction false} OwnChainTransitive(m: BlockMap, x: BlockRef, y: BlockRef, z: BlockRef)
    requires Grounded(m) && CommitRules.OwnChain(m, x, y) && CommitRules.OwnChain(m, y, z)
    ensures CommitRules.OwnChain(m, x, z)
    decreases x.round
  {
    if x != y {
      OwnChainTransitive(m, m[x].ancestors[0], y, z);
    }
  }

  lemma OriginDescendsRaisesRound(m: BlockMap, later: BlockRef, earlier: BlockRef)
    requires Grounded(m) && OriginDescends(m, later, earlier)
    ensures earlier.round < later.round && later in m && earlier in m
  {
    CommitRules.OwnChainRounds(m, m[later].ancestors[0], earlier);
  }

  lemma OriginDescendsTransitive(m: BlockMap, x: BlockRef, y: BlockRef, z: BlockRef)
    requires Grounded(m) && OriginDescends(m, x, y) && OriginDescends(m, y, z)
    ensures OriginDescends(m, x, z)
  {
    OriginDescendsRaisesRound(m, x, y);
    OriginDescendsRaisesRound(m, y, z);
    OwnChainTransitive(m, x, y, z);
  }

  /** Below a block that does not vote, on its own chain, there is one that does. */
  lemma {:induction false} VotingRoot(m: BlockMap, p: BlockRef, x: BlockRef) returns (w: BlockRef)
    requires Grounded(m) && Linked(m, x, p) && !Counts(m, p, x)
    ensures Counts(m, p, w) && OriginDescends(m, x, w)
    decreases x.round
  {
    var z :| Linked(m, z, p) && OriginDescends(m, x, z);
    OriginDescendsRaisesRound(m, x, z);
    if Counts(m, p, z) {
      w := z;
    } else {
      w := VotingRoot(m, p, z);
      OriginDescendsTransitive(m, x, z, w);
    }
  }

  // ----- an authority that does not equivocate ------------------------------------------

  /** An authority's blocks in the map form one chain: at most one per round, and each links to the
      previous one in the map as its own ancestor. */
  ghost predicate Unbroken(m: BlockMap, authority: nat) {
    forall x, y ::
      x in m && y in m && x.author == authority && y.author == authority && x != y && y.round <= x.round ==>
      && y.round < x.round
      && |m[x].ancestors| > 0 && m[x].ancestors[0] in m && m[x].ancestors[0].author == authority
      && y.round <= m[x].ancestors[0].round
  }

  lemma {:induction false} UnbrokenChain(m: BlockMap, x: BlockRef, y: BlockRef)
    requires Grounded(m) && Unbroken(m, x.author) && x in m && y in m && y.author == x.author && y.round <= x.round
    ensures CommitRules.OwnChain(m, x, y)
    decreases x.round
  {
    if x != y {
      UnbrokenChain(m, m[x].ancestors[0], y);
    }
  }

  lemma {:induction false} OwnChainAuthor(c: Committee, m: BlockMap, x: BlockRef, z: BlockRef)
    requires Proper(c, m) && Grounded(m) && CommitRules.OwnChain(m, x, z)
    ensures z.author == x.author
    decreases x.round
  {
    if x != z {
      OwnChainAuthor(c, m, m[x].ancestors[0], z);
    }
  }

  /** For an authority with an unbroken chain, the block that votes is the lowest-round one that
      descends from the voted-on block. */
  lemma FirstBlockVotes(c: Committee, m: BlockMap, p: BlockRef, x: BlockRef)
    requires Proper(c, m) && Grounded(m) && x in m && Linked(m, x, p) && Unbroken(m, x.author)
    ensures Counts(m, p, x) <==> forall y :: y in m && y.author == x.author && Linked(m, y, p) ==> x.round <= y.round
  {
    forall y | y in m && y.author == x.author && Linked(m, y, p) && y.round < x.round
      ensures OriginDescends(m, x, y)
    {
      UnbrokenChain(m, x, y);
    }
    forall z | Linked(m, z, p) && OriginDescends(m, x, z)
      ensures z in m && z.author == x.author && z.round < x.round
    {
      OriginDescendsRaisesRound(m, x, z);
      OwnChainAuthor(c, m, x, z);
    }
  }

  /** Exactly when only the lowest-round descendant of an authority votes: when every other descendant
      of the authority builds on it through blocks of the map. */
  lemma OnlyFirstVotes(c: Committee, m: BlockMap, p: BlockRef, x: BlockRef)
    requires Proper(c, m) && Grounded(m) && Linked(m, x, p)
    requires forall y :: Linked(m, y, p) && y.author == x.author ==> x.round <= y.round
    ensures Counts(m, p, x)
    ensures (forall y :: Linked(m, y, p) && y.author == x.author && y != x ==> !Counts(m, p, y)) <==>
            (forall y :: Linked(m, y, p) && y.author == x.author && y != x ==> OriginDescends(m, y, x))
  {
    forall z | Linked(m, z, p) && OriginDescends(m, x, z)
      ensures false
    {
      OriginDescendsRaisesRound(m, x, z);
      OwnChainAuthor(c, m, x, z);
    }
    if forall y :: Linked(m, y, p) && y.author == x.author && y != x ==> !Counts(m, p, y) {
      forall y | Linked(m, y, p) && y.author == x.author && y != x
        ensures OriginDescends(m, y, x)
      {
        var w := VotingRoot(m, p, y);
        OwnChainAuthor(c, m, y, w);
      }
    }
  }

  /** When every other descendant of its authority builds on the lowest-round one, that block alone speaks
      for the authority: it accepts exactly what that block does not reject. */
  lemma AcceptingAuthority(c: Committee, m: BlockMap, p: BlockRef, transaction: nat, x: BlockRef)
    requires Proper(c, m) && Grounded(m) && Linked(m, x, p)
    requires forall y :: Linked(m, y, p) && y.author == x.author ==> x.round <= y.round
    requires forall y :: Linked(m, y, p) && y.author == x.author && y != x ==> OriginDescends(m, y, x)
    ensures x.author in Accepting(m, p, transaction) <==> !Rejects(m[x], p, transaction)
  {
    assert x in m;
    hide Linked, CommitRules.OwnChain, Rejects;
    OnlyFirstVotes(c, m, p, x);
    if x.author in Accepting(m, p, transaction) {
      var y :| y in m && Counts(m, p, y) && !Rejects(m[y], p, transaction) && y.author == x.author;
      assert y == x;
    }
  }

  /** An unbroken chain is enough for that. */
  lemma UnbrokenBuildsOnFirst(c: Committee, m: BlockMap, p: BlockRef, x: BlockRef)
    requires Grounded(m) && Linked(m, x, p) && Unbroken(m, x.author)
    requires forall y :: Linked(m, y, p) && y.author == x.author ==> x.round <= y.round
    ensures forall y :: Linked(m, y, p) && y.author == x.author && y != x ==> OriginDescends(m, y, x)
  {
    forall y | Linked(m, y, p) && y.author == x.author && y != x
      ensures OriginDescends(m, y, x)
    {
      UnbrokenChain(m, y, x);
    }
  }

  // ----- the traversal ------------------------------------------------------------------

  /** Everything visited or waiting descends from `p`, the children of visited blocks are visited or
      waiting, and nothing waiting is below a visited block. */
  ghost predicate Visiting(m: BlockMap, p: BlockRef, toVisit: set<BlockRef>, visited: set<BlockRef>) {
    && (forall x :: x in toVisit + visited ==> Linked(m, x, p))
    && (forall y :: LinksTo(m, y, p) ==> y in toVisit + visited)
    && (forall x, y :: x in visited && LinksTo(m, y, x) ==> y in toVisit + visited)
    && (forall x, y :: x in visited && y in toVisit ==> !Less(y, x))
  }

  /** Descendants are met in ascending order: one with nothing waiting below it has been met. */
  lemma {:induction false} Covered(m: BlockMap, p: BlockRef, toVisit: set<BlockRef>, visited: set<BlockRef>,
                                   z: BlockRef)
    requires Grounded(m) && Visiting(m, p, toVisit, visited) && Linked(m, z, p)
    requires forall u :: u in toVisit ==> !Less(u, z)
    ensures z in toVisit + visited
    decreases z.round
  {
    if p in m[z].ancestors {
      assert LinksTo(m, z, p);
    } else {
      var a :| a in m[z].ancestors && a.round < z.round && Linked(m, a, p);
      Covered(m, p, toVisit, visited, a);
      assert LinksTo(m, z, a);
    }
  }

  lemma ChildDescends(m: BlockMap, p: BlockRef, x: BlockRef, y: BlockRef)
    requires Grounded(m) && Linked(m, x, p) && LinksTo(m, y, x)
    ensures Linked(m, y, p) && x.round < y.round
  {
  }

  /** Visiting the least waiting block: all descendants below it have been visited. */
  lemma AllBelowVisited(m: BlockMap, p: BlockRef, toVisit: set<BlockRef>, visited: set<BlockRef>, x: BlockRef)
    requires Grounded(m) && Visiting(m, p, toVisit, visited) && IsLeast(x, toVisit)
    ensures forall z :: Linked(m, z, p) && Less(z, x) ==> z in visited
  {
    forall z | Linked(m, z, p) && Less(z, x)
      ensures z in visited
    {
      Covered(m, p, toVisit, visited, z);
    }
  }

  lemma VisitStep(m: BlockMap, p: BlockRef, toVisit: set<BlockRef>, visited: set<BlockRef>, x: BlockRef,
                  children: set<BlockRef>)
    requires Grounded(m) && Visiting(m, p, toVisit, visited) && IsLeast(x, toVisit)
    requires forall y :: y in children <==> LinksTo(m, y, x)
    ensures Visiting(m, p, toVisit - {x} + (children - (visited + {x})), visited + {x})
  {
    hide Linked, Grounded, LinksTo;
    forall y | y in children
      ensures Linked(m, y, p) && Less(x, y)
    {
      ChildDescends(m, p, x, y);
    }
    forall v, y | v in visited && y in children
      ensures !Less(y, v)
    {
      assert !Less(x, v);
    }
  }

  /** The ignored blocks: those visited, and those that build on a visited block that votes. */
  ghost predicate IgnoredExactly(m: BlockMap, p: BlockRef, visited: set<BlockRef>, ignored: set<BlockRef>)
    requires Grounded(m)
  {
    forall x :: x in ignored <==> x in visited || BuildsOnVoter(m, p, visited, x)
  }

  ghost predicate BuildsOnVoter(m: BlockMap, p: BlockRef, visited: set<BlockRef>, x: BlockRef)
    requires Grounded(m)
  {
    exists z :: z in visited && Counts(m, p, z) && OriginDescends(m, x, z)
  }

  lemma IgnoredMeansNoVote(m: BlockMap, p: BlockRef, visited: set<BlockRef>, ignored: set<BlockRef>, x: BlockRef)
    requires Grounded(m) && IgnoredExactly(m, p, visited, ignored) && Linked(m, x, p) && x !in visited
    requires forall z :: Linked(m, z, p) && Less(z, x) ==> z in visited
    ensures x in ignored <==> !Counts(m, p, x)
  {
    if !Counts(m, p, x) {
      var w := VotingRoot(m, p, x);
      OriginDescendsRaisesRound(m, x, w);
      assert BuildsOnVoter(m, p, visited, x);
    }
  }

  lemma IgnoreStep(m: BlockMap, p: BlockRef, visited: set<BlockRef>, ignored: set<BlockRef>, x: BlockRef,
                   origins: set<BlockRef>)
    requires Grounded(m) && IgnoredExactly(m, p, visited, ignored)
    requires forall y :: y in origins <==> OriginDescends(m, y, x)
    requires x in ignored <==> !Counts(m, p, x)
    ensures IgnoredExactly(m, p, visited + {x}, if x in ignored then ignored else ignored + {x} + origins)
  {
    var ignored' := if x in ignored then ignored else ignored + {x} + origins;
    forall y
      ensures y in ignored' <==> y in visited + {x} || BuildsOnVoter(m, p, visited + {x}, y)
    {
      assert BuildsOnVoter(m, p, visited + {x}, y) <==>
        BuildsOnVoter(m, p, visited, y) || (Counts(m, p, x) && OriginDescends(m, y, x));
    }
  }

  /** Votes so far: an undecided transaction has its accepting authorities, short of a quorum; a
      finalized one has a quorum. */
  ghost predicate Tallied(c: Committee, m: BlockMap, p: BlockRef, visited: set<BlockRef>, pending: set<nat>,
                          votes: map<nat, set<nat>>, finalized: set<nat>)
    requires Grounded(m)
  {
    && votes.Keys + finalized == pending && votes.Keys !! finalized
    && (forall t :: t in votes ==> votes[t] == AcceptingAmong(m, p, visited, t) && !c.IsQuorum(votes[t]))
    && (forall t :: t in finalized ==> c.IsQuorum(AcceptingAmong(m, p, visited, t)))
  }

  lemma NoVotesYet(c: Committee, m: BlockMap, p: BlockRef, pending: set<nat>)
    requires Grounded(m)
    ensures Tallied(c, m, p, {}, pending, map t | t in pending :: {}, {})
  {
    NoStakeInNobody(c, |c.stakes|);
    forall t | t in pending
      ensures AcceptingAmong(m, p, {}, t) == {}
    {
    }
  }

  lemma AcceptingGrows(m: BlockMap, p: BlockRef, visited: set<BlockRef>, x: BlockRef, transaction: nat)
    requires Grounded(m) && x in m
    ensures AcceptingAmong(m, p, visited + {x}, transaction) == AcceptingAmong(m, p, visited, transaction) +
              (if Counts(m, p, x) && !Rejects(m[x], p, transaction) then {x.author} else {})
  {
  }

  /** The votes after the block `x`, which votes, has been counted. */
  lemma TallyStep(c: Committee, m: BlockMap, p: BlockRef, visited: set<BlockRef>, pending: set<nat>, x: BlockRef,
                  votes: map<nat, set<nat>>, finalized: set<nat>, votes': map<nat, set<nat>>, newly: set<nat>)
    requires Grounded(m) && x in m && Counts(m, p, x) && Tallied(c, m, p, visited, pending, votes, finalized)
    requires votes'.Keys == votes.Keys - newly && newly <= votes.Keys
    requires forall t :: t in votes ==> (t in newly <==> c.IsQuorum(WithVote(votes[t], m[x], p, t)))
    requires forall t :: t in votes' ==> votes'[t] == WithVote(votes[t], m[x], p, t)
    ensures Tallied(c, m, p, visited + {x}, pending, votes', finalized + newly)
  {
    forall t | t in pending
      ensures t in votes ==> AcceptingAmong(m, p, visited + {x}, t) == WithVote(votes[t], m[x], p, t)
      ensures t in finalized ==> c.IsQuorum(AcceptingAmong(m, p, visited + {x}, t))
    {
      AcceptingGrows(m, p, visited, x, t);
      assert m[x].ref == x;
      StakeMonotone(c, AcceptingAmong(m, p, visited, t), AcceptingAmong(m, p, visited + {x}, t));
    }
  }

  lemma NoVoteStep(c: Committee, m: BlockMap, p: BlockRef, visited: set<BlockRef>, pending: set<nat>, x: BlockRef,
                   votes: map<nat, set<nat>>, finalized: set<nat>)
    requires Grounded(m) && x in m && !Counts(m, p, x) && Tallied(c, m, p, visited, pending, votes, finalized)
    ensures Tallied(c, m, p, visited + {x}, pending, votes, finalized)
  {
    forall t | t in pending
      ensures AcceptingAmong(m, p, visited + {x}, t) == AcceptingAmong(m, p, visited, t)
    {
      AcceptingGrows(m, p, visited, x, t);
    }
  }

  /** A block's vote on one transaction: its author, unless the block rejects the transaction. */
  function WithVote(votes: set<nat>, b: Block, p: BlockRef, transaction: nat): set<nat> {
    if Rejects(b, p, transaction) then votes else votes + {b.ref.author}
  }

  /** When everything is finalized, or every descendant is visited, the answer is complete. */
  lemma TallyIsFinal(c: Committee, m: BlockMap, p: BlockRef, toVisit: set<BlockRef>, visited: set<BlockRef>,
                     pending: set<nat>, votes: map<nat, set<nat>>, finalized: set<nat>)
    requires Grounded(m) && Tallied(c, m, p, visited, pending, votes, finalized)
    requires votes == map[] || (Visiting(m, p, {}, visited) && toVisit == {})
    ensures finalized == set t | t in pending && c.IsQuorum(Accepting(m, p, t))
  {
    forall t | t in pending
      ensures t in finalized <==> c.IsQuorum(Accepting(m, p, t))
    {
      if t in finalized {
        StakeMonotone(c, AcceptingAmong(m, p, visited, t), Accepting(m, p, t));
      } else {
        forall z | z in m && Counts(m, p, z)
          ensures z in visited
        {
          Covered(m, p, {}, visited, z);
        }
        assert AcceptingAmong(m, p, visited, t) == Accepting(m, p, t);
      }
    }
  }

  /** Adds the vote of one block to every undecided transaction; returns those that now have a
      quorum, which are no longer counted. */
  method CountVote(c: Committee, votes: map<nat, set<nat>>, b: Block, p: BlockRef)
    returns (votes': map<nat, set<nat>>, newly: set<nat>)
    requires forall t :: t in votes ==> !c.IsQuorum(votes[t])
    ensures votes'.Keys == votes.Keys - newly && newly <= votes.Keys
    ensures forall t :: t in votes ==> (t in newly <==> c.IsQuorum(WithVote(votes[t], b, p, t)))
    ensures forall t :: t in votes' ==> votes'[t] == WithVote(votes[t], b, p, t)
  {
    votes', newly := votes, {};
    var rest := votes.Keys;
    while rest != {}
      invariant rest <= votes'.Keys && votes'.Keys == votes.Keys - newly && newly <= votes.Keys
      invariant forall t :: t in rest ==> votes'[t] == votes[t] && t !in newly
      invariant forall t :: t in votes && t !in rest ==> (t in newly <==> c.IsQuorum(WithVote(votes[t], b, p, t)))
      invariant forall t :: t in votes' && t !in rest ==> votes'[t] == WithVote(votes[t], b, p, t)
    {
      var t :| t in rest;
      rest := rest - {t};
      if !Rejects(b, p, t) {
        var counted := votes[t] + {b.ref.author};
        if c.IsQuorum(counted) {
          newly := newly + {t};
          votes' := votes' - {t};
        } else {
          votes' := votes'[t := counted];
        }
      }
    }
  }

  /** Traverses the descendants of a block in ascending order and returns which of its pending
      transactions are accepted by a quorum: exactly those whose accepting authorities hold one. */
  method TryIndirectFinalizePendingTransactionsInBlock(c: Committee, blocks: Graph, p: BlockRef, pending: set<nat>)
    returns (finalized: set<nat>)
    requires GraphOk(c, blocks) && p in blocks && Grounded(Bodies(blocks))
    ensures finalized == set t | t in pending && c.IsQuorum(Accepting(Bodies(blocks), p, t))
  {
    hide Linked, Counts, Visiting, IgnoredExactly, Tallied, AcceptingAmong, Accepting, Grounded, CommitRules.OwnChain;
    ghost var m := Bodies(blocks);
    if pending == {} {
      return {};
    }
    finalized := {};
    var votes: map<nat, set<nat>> := map t | t in pending :: {};
    var toVisit := blocks[p].children;
    var visited, ignored := {}, {};
    NoVotesYet(c, m, p, pending);
    StartVisiting(m, p, toVisit);
    while toVisit != {}
      invariant Visiting(m, p, toVisit, visited) && IgnoredExactly(m, p, visited, ignored)
      invariant Tallied(c, m, p, visited, pending, votes, finalized)
      decreases |m.Keys - visited|, |toVisit|
    {
      var curr := First(toVisit);
      if curr in visited {
        PopVisited(m, p, toVisit, visited, curr);
        toVisit := toVisit - {curr};
        continue;
      }
      LeastDescends(m, p, toVisit, visited, curr);
      var state := blocks[curr];
      AllBelowVisited(m, p, toVisit, visited, curr);
      VisitStep(m, p, toVisit, visited, curr, state.children);
      IgnoredMeansNoVote(m, p, visited, ignored, curr);
      IgnoreStep(m, p, visited, ignored, curr, state.originDescendants);
      Shrinks(m.Keys, visited, curr);
      if curr !in ignored {
        ignored := ignored + {curr} + state.originDescendants;
        NotYetQuorum(c, m, p, visited, pending, votes, finalized);
        var votes', newly := CountVote(c, votes, state.block, p);
        TallyStep(c, m, p, visited, pending, curr, votes, finalized, votes', newly);
        votes, finalized := votes', finalized + newly;
        if votes == map[] {
          TallyIsFinal(c, m, p, toVisit, visited + {curr}, pending, votes, finalized);
          return;
        }
      } else {
        NoVoteStep(c, m, p, visited, pending, curr, votes, finalized);
      }
      visited := visited + {curr};
      toVisit := toVisit - {curr} + (state.children - visited);
    }
    TallyIsFinal(c, m, p, toVisit, visited, pending, votes, finalized);
  }

  lemma StartVisiting(m: BlockMap, p: BlockRef, children: set<BlockRef>)
    requires Grounded(m) && forall y :: y in children <==> LinksTo(m, y, p)
    ensures Visiting(m, p, children, {}) && IgnoredExactly(m, p, {}, {})
  {
  }

  lemma PopVisited(m: BlockMap, p: BlockRef, toVisit: set<BlockRef>, visited: set<BlockRef>, x: BlockRef)
    requires Visiting(m, p, toVisit, visited) && x in visited
    ensures Visiting(m, p, toVisit - {x}, visited)
  {
  }

  lemma LeastDescends(m: BlockMap, p: BlockRef, toVisit: set<BlockRef>, visited: set<BlockRef>, x: BlockRef)
    requires Visiting(m, p, toVisit, visited) && x in toVisit
    ensures Linked(m, x, p) && x in m
  {
  }

  lemma NotYetQuorum(c: Committee, m: BlockMap, p: BlockRef, visited: set<BlockRef>, pending: set<nat>,
                     votes: map<nat, set<nat>>, finalized: set<nat>)
    requires Grounded(m) && Tallied(c, m, p, visited, pending, votes, finalized)
    ensures forall t :: t in votes ==> !c.IsQuorum(votes[t])
  {
  }

  lemma Shrinks(all: set<BlockRef>, visited: set<BlockRef>, x: BlockRef)
    requires x in all && x !in visited
    ensures |all - (visited + {x})| < |all - visited|
  {
    ProperSubsetIsSmaller(all - (visited + {x}), all - visited);
  }
}
