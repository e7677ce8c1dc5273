/** The linearizer: expands a sequence of committed leaders into the sequence of committed blocks. */
module Linearizers {
  import opened Committees
  import opened Dags
  import opened DagStates
  import CommitGraphs
  import CommitRules
  import Agreement
  import Sorting
  import UniversalCommitters
  import VoteTraversals

  // ----- collecting a sub-DAG -----------------------------------------------------------

  /** Ancestors to commit next: stored, above the GC round, and not marked. */
  function Uncommitted(dag: BlockMap, ancestors: seq<BlockRef>, gcRound: nat, marked: set<BlockRef>): seq<BlockRef> {
    if ancestors == [] then []
    else
      var rest := Uncommitted(dag, ancestors[..|ancestors| - 1], gcRound, marked);
      var a := ancestors[|ancestors| - 1];
      if a in dag && a.round > gcRound && a !in marked then rest + [a] else rest
  }

  lemma {:induction false} UncommittedMeans(dag: BlockMap, ancestors: seq<BlockRef>, gcRound: nat,
                                            marked: set<BlockRef>)
    ensures forall a :: a in Uncommitted(dag, ancestors, gcRound, marked) <==>
              a in ancestors && a in dag && a.round > gcRound && a !in marked
    ensures NoRepeats(ancestors) ==> NoRepeats(Uncommitted(dag, ancestors, gcRound, marked))
  {
    if ancestors != [] {
      var init, a := ancestors[..|ancestors| - 1], ancestors[|ancestors| - 1];
      assert ancestors == init + [a];
      UncommittedMeans(dag, init, gcRound, marked);
      var rest := Uncommitted(dag, init, gcRound, marked);
      assert forall i :: 0 <= i < |rest| ==> rest[i] in rest;
    }
  }

  lemma MarkingShrinks(dag: BlockMap, ancestors: seq<BlockRef>, gcRound: nat, marked: set<BlockRef>)
    ensures var next := Uncommitted(dag, ancestors, gcRound, marked);
            && (next == [] ==> marked + Members(next) == marked)
            && (next != [] ==> |dag.Keys - (marked + Members(next))| < |dag.Keys - marked|)
  {
    var next := Uncommitted(dag, ancestors, gcRound, marked);
    UncommittedMeans(dag, ancestors, gcRound, marked);
    if next != [] {
      assert next[0] in Members(next);
      assert next[0] in dag.Keys - marked;
      ProperSubsetIsSmaller(dag.Keys - (marked + Members(next)), dag.Keys - marked);
    }
  }

  /** The blocks committed by a depth-first walk from the buffer, in the order the walk takes them. What is
      in the buffer is marked already. */
  function Collect(dag: BlockMap, gcRound: nat, marked: set<BlockRef>, buffer: seq<BlockRef>): seq<BlockRef>
    decreases |dag.Keys - marked|, |buffer|
  {
    if buffer == [] then []
    else
      var x, rest := buffer[|buffer| - 1], buffer[..|buffer| - 1];
      if x !in dag then Collect(dag, gcRound, marked, rest)
      else
        var next := Uncommitted(dag, dag[x].ancestors, gcRound, marked);
        MarkingShrinks(dag, dag[x].ancestors, gcRound, marked);
        [x] + Collect(dag, gcRound, marked + Members(next), rest + next)
  }

  /** Where a walk stands: the buffer is marked, stored, and lists nothing twice. */
  ghost predicate Walking(dag: BlockMap, marked: set<BlockRef>, buffer: seq<BlockRef>) {
    && NoRepeats(buffer) && (forall r :: r in buffer ==> r in marked && r in dag)
    && forall r :: r in dag ==> NoRepeats(dag[r].ancestors)
  }

  lemma WalkStep(dag: BlockMap, gcRound: nat, marked: set<BlockRef>, buffer: seq<BlockRef>)
    requires Walking(dag, marked, buffer) && buffer != []
    ensures var x, rest := buffer[|buffer| - 1], buffer[..|buffer| - 1];
            var next := Uncommitted(dag, dag[x].ancestors, gcRound, marked);
            && Walking(dag, marked + Members(next), rest + next)
            && Members(next) !! marked && Members(rest + next) == Members(buffer) - {x} + Members(next)
  {
    var x, rest := buffer[|buffer| - 1], buffer[..|buffer| - 1];
    assert buffer == rest + [x];
    assert x in buffer;
    UncommittedMeans(dag, dag[x].ancestors, gcRound, marked);
    var next := Uncommitted(dag, dag[x].ancestors, gcRound, marked);
    assert forall i :: 0 <= i < |next| ==> next[i] in next;
    assert forall i :: 0 <= i < |rest| ==> rest[i] in buffer;
  }

  /** What a walk collects: the buffer and blocks not marked before, each once, above the GC round; and its
      ancestors above the GC round are collected with it or were marked. */
  ghost predicate Collected(dag: BlockMap, gcRound: nat, marked: set<BlockRef>, buffer: seq<BlockRef>,
                            got: seq<BlockRef>) {
    && NoRepeats(got) && Members(got) * marked == Members(buffer) && Members(got) <= dag.Keys
    && (forall r :: r in got ==> r in buffer || r.round > gcRound)
    && (forall x :: x in got ==> Closed(dag, gcRound, marked + Members(got), x))
  }

  /** Every stored ancestor of `x` above the GC round is in the set. */
  ghost predicate Closed(dag: BlockMap, gcRound: nat, all: set<BlockRef>, x: BlockRef) {
    x in dag ==> forall a :: a in dag[x].ancestors && a in dag && a.round > gcRound ==> a in all
  }

  lemma CollectOne(dag: BlockMap, gcRound: nat, marked: set<BlockRef>, buffer: seq<BlockRef>, rest: seq<BlockRef>,
                   x: BlockRef, next: seq<BlockRef>, got: seq<BlockRef>)
    requires buffer == rest + [x] && x in marked && x in dag && x !in Members(rest + next) && Members(rest) <= marked
    requires Members(next) !! marked && (forall r :: r in next ==> r.round > gcRound)
    requires Closed(dag, gcRound, marked + Members(next), x)
    requires Collected(dag, gcRound, marked + Members(next), rest + next, got)
    ensures Collected(dag, gcRound, marked, buffer, [x] + got)
  {
    var all := [x] + got;
    assert x !in Members(got);
    assert NoRepeats(all);
    assert Members(all) == {x} + Members(got);
    assert Members(rest + next) == Members(rest) + Members(next);
    assert Members(buffer) == Members(rest) + {x};
    forall y | y in all
      ensures Closed(dag, gcRound, marked + Members(all), y)
    {
      assert y in got ==> Closed(dag, gcRound, marked + Members(next) + Members(got), y);
    }
  }

  lemma {:induction false} CollectMeans(dag: BlockMap, gcRound: nat, marked: set<BlockRef>, buffer: seq<BlockRef>)
    requires Walking(dag, marked, buffer)
    ensures Collected(dag, gcRound, marked, buffer, Collect(dag, gcRound, marked, buffer))
    decreases |dag.Keys - marked|, |buffer|
  {
    if buffer != [] {
      var x, rest := buffer[|buffer| - 1], buffer[..|buffer| - 1];
      assert x in buffer && buffer == rest + [x];
      var next := Uncommitted(dag, dag[x].ancestors, gcRound, marked);
      MarkingShrinks(dag, dag[x].ancestors, gcRound, marked);
      WalkStep(dag, gcRound, marked, buffer);
      UncommittedMeans(dag, dag[x].ancestors, gcRound, marked);
      assert forall r :: r in rest ==> r in buffer;
      CollectMeans(dag, gcRound, marked + Members(next), rest + next);
      CollectOne(dag, gcRound, marked, buffer, rest, x, next,
                 Collect(dag, gcRound, marked + Members(next), rest + next));
    }
  }

  /** Everything collected is reachable from the root of the walk. */
  lemma {:induction false} CollectReaches(dag: BlockMap, gcRound: nat, marked: set<BlockRef>, buffer: seq<BlockRef>,
                                          root: BlockRef)
    requires Grounded(dag) && forall r :: r in buffer ==> Reaches(dag, root, r)
    ensures forall r :: r in Collect(dag, gcRound, marked, buffer) ==> Reaches(dag, root, r)
    decreases |dag.Keys - marked|, |buffer|
  {
    if buffer != [] {
      var x, rest := buffer[|buffer| - 1], buffer[..|buffer| - 1];
      assert x in buffer;
      if x !in dag {
        CollectReaches(dag, gcRound, marked, rest, root);
      } else {
        var next := Uncommitted(dag, dag[x].ancestors, gcRound, marked);
        MarkingShrinks(dag, dag[x].ancestors, gcRound, marked);
        UncommittedMeans(dag, dag[x].ancestors, gcRound, marked);
        forall a | a in next
          ensures Reaches(dag, root, a)
        {
          ReachesFurther(dag, root, x, a);
        }
        CollectReaches(dag, gcRound, marked + Members(next), rest + next, root);
      }
    }
  }

  /** The walk does not depend on the local view: a collection complete above the GC round gives the same result
      as any larger one. */
  lemma {:induction false} CollectIsLocal(part: BlockMap, whole: BlockMap, gcRound: nat, marked: set<BlockRef>,
                                          buffer: seq<BlockRef>)
    requires PartOf(part, whole) && CompleteAbove(part, gcRound) && forall r :: r in buffer ==> r in part
    ensures Collect(part, gcRound, marked, buffer) == Collect(whole, gcRound, marked, buffer)
    decreases |part.Keys - marked|, |buffer|
  {
    if buffer != [] {
      var x, rest := buffer[|buffer| - 1], buffer[..|buffer| - 1];
      assert x in buffer;
      var next := Uncommitted(part, part[x].ancestors, gcRound, marked);
      UncommittedIsLocal(part, whole, x, |part[x].ancestors|, gcRound, marked);
      assert part[x].ancestors[..|part[x].ancestors|] == part[x].ancestors;
      MarkingShrinks(part, part[x].ancestors, gcRound, marked);
      UncommittedMeans(part, part[x].ancestors, gcRound, marked);
      CollectIsLocal(part, whole, gcRound, marked + Members(next), rest + next);
    }
  }

  lemma {:induction false} UncommittedIsLocal(part: BlockMap, whole: BlockMap, x: BlockRef, n: nat, gcRound: nat,
                                              marked: set<BlockRef>)
    requires PartOf(part, whole) && CompleteAbove(part, gcRound) && x in part && n <= |part[x].ancestors|
    ensures Uncommitted(part, part[x].ancestors[..n], gcRound, marked) ==
            Uncommitted(whole, part[x].ancestors[..n], gcRound, marked)
  {
    if n > 0 {
      assert part[x].ancestors[..n][..n - 1] == part[x].ancestors[..n - 1];
      UncommittedIsLocal(part, whole, x, n - 1, gcRound, marked);
    }
  }

  // ----- the sub-DAG of a leader --------------------------------------------------------

  /** Blocks of a commit are ordered by round, then author. */
  function CommitKey(size: nat): BlockRef -> int {
    (r: BlockRef) => r.round * size + r.author
  }

  ghost predicate ByRoundThenAuthor(refs: seq<BlockRef>) {
    forall i, j :: 0 <= i < j < |refs| ==>
      refs[i].round < refs[j].round || (refs[i].round == refs[j].round && refs[i].author <= refs[j].author)
  }

  lemma KeyOrders(size: nat, a: BlockRef, b: BlockRef)
    requires a.author < size && b.author < size && CommitKey(size)(a) <= CommitKey(size)(b)
    ensures a.round < b.round || (a.round == b.round && a.author <= b.author)
  {
    assert a.round > b.round ==> a.round * size >= (b.round + 1) * size;
  }

  lemma SortedByKey(size: nat, refs: seq<BlockRef>)
    requires Sorting.SortedBy(refs, CommitKey(size)) && forall r :: r in refs ==> r.author < size
    ensures ByRoundThenAuthor(refs)
  {
    forall i, j | 0 <= i < j < |refs|
      ensures refs[i].round < refs[j].round || (refs[i].round == refs[j].round && refs[i].author <= refs[j].author)
    {
      assert refs[i] in refs && refs[j] in refs;
      KeyOrders(size, refs[i], refs[j]);
    }
  }

  /** The blocks a leader commits, when `done` are committed already. */
  function SubDag(dag: BlockMap, size: nat, gcRound: nat, done: set<BlockRef>, leader: BlockRef): seq<BlockRef> {
    Sorting.StableSort(Collect(dag, gcRound, done + {leader}, [leader]), CommitKey(size))
  }

  /** The set of committed blocks above the GC round is closed under ancestors above it. */
  ghost predicate DoneIsClosed(dag: BlockMap, gcRound: nat, done: set<BlockRef>) {
    forall x :: x in done && x.round > gcRound ==> Closed(dag, gcRound, done, x)
  }

  lemma {:induction false} ClosedReachesAll(dag: BlockMap, gcRound: nat, all: set<BlockRef>, x: BlockRef, r: BlockRef)
    requires Grounded(dag) && DoneIsClosed(dag, gcRound, all)
    requires x in all && Linked(dag, x, r) && r in dag && r.round > gcRound
    ensures r in all
    decreases x.round
  {
    LinkedLowersRound(dag, x, r);
    assert Closed(dag, gcRound, all, x);
    if r !in dag[x].ancestors {
      var a :| a in dag[x].ancestors && a.round < x.round && Linked(dag, a, r);
      LinkedLowersRound(dag, a, r);
      ClosedReachesAll(dag, gcRound, all, a, r);
    }
  }

  /** A leader commits exactly its causal history above the GC round that is not committed yet, each block
      once, by round then author. */
  lemma SubDagMeans(dag: BlockMap, size: nat, gcRound: nat, done: set<BlockRef>, leader: BlockRef)
    requires ProperBlocks(size, dag) && DoneIsClosed(dag, gcRound, done)
    requires leader in dag && leader !in done && leader.round > gcRound
    ensures var blocks := SubDag(dag, size, gcRound, done, leader);
            && NoRepeats(blocks) && ByRoundThenAuthor(blocks)
            && (forall r :: r in blocks <==> r in dag && r.round > gcRound && Reaches(dag, leader, r) && r !in done)
            && DoneIsClosed(dag, gcRound, done + Members(blocks))
  {
    BlocksAreGrounded(size, dag);
    var got := Collect(dag, gcRound, done + {leader}, [leader]);
    CollectMeans(dag, gcRound, done + {leader}, [leader]);
    CollectReaches(dag, gcRound, done + {leader}, [leader], leader);
    SortKeeps(got, size);
    CollectIsExact(dag, gcRound, done, leader, got);
    forall r | r in got
      ensures r.author < size
    {
      assert r in Members(got);
    }
    SortedByKey(size, SubDag(dag, size, gcRound, done, leader));
  }

  lemma SortKeeps(got: seq<BlockRef>, size: nat)
    requires NoRepeats(got)
    ensures var sorted := Sorting.StableSort(got, CommitKey(size));
            NoRepeats(sorted) && Members(sorted) == Members(got) && forall r :: r in sorted <==> r in got
  {
    var sorted := Sorting.StableSort(got, CommitKey(size));
    Sorting.SameElements(sorted, got);
    Sorting.DistinctPermuted(got, sorted);
  }

  lemma CollectIsExact(dag: BlockMap, gcRound: nat, done: set<BlockRef>, leader: BlockRef, got: seq<BlockRef>)
    requires Grounded(dag) && DoneIsClosed(dag, gcRound, done) && leader !in done && leader.round > gcRound
    requires Collected(dag, gcRound, done + {leader}, [leader], got) && forall r :: r in got ==> Reaches(dag, leader, r)
    ensures DoneIsClosed(dag, gcRound, done + Members(got))
    ensures forall r :: r in got <==> r in dag && r.round > gcRound && Reaches(dag, leader, r) && r !in done
  {
    var all := done + Members(got);
    assert leader in Members([leader]);
    assert leader in got;
    assert done + {leader} + Members(got) == all;
    forall x | x in all && x.round > gcRound
      ensures Closed(dag, gcRound, all, x)
    {
      assert x in done ==> Closed(dag, gcRound, done, x);
    }
    forall r | r in got
      ensures r in dag && r.round > gcRound && r !in done
    {
      assert r in Members(got);
      assert r in Members(got) * (done + {leader}) ==> r in Members([leader]);
    }
    forall r | r in dag && r.round > gcRound && Reaches(dag, leader, r)
      ensures r in all
    {
      if r != leader {
        ClosedReachesAll(dag, gcRound, all, leader, r);
      }
    }
  }
  // ----- the commits of a sequence of leaders -------------------------------------------

  function AllBlocks(commits: seq<TrustedCommit>): set<BlockRef> {
    if commits == [] then {} else AllBlocks(commits[..|commits| - 1]) + Members(commits[|commits| - 1].blocks)
  }

  lemma {:induction false} AllBlocksMeans(commits: seq<TrustedCommit>)
    ensures forall r :: r in AllBlocks(commits) <==> CommittedBy(commits, r)
  {
    if commits != [] {
      var init, last := commits[..|commits| - 1], commits[|commits| - 1];
      AllBlocksMeans(init);
      forall r
        ensures CommittedBy(commits, r) <==> CommittedBy(init, r) || r in last.blocks
      {
        if CommittedBy(commits, r) {
          var i :| 0 <= i < |commits| && r in commits[i].blocks;
          assert i < |init| ==> init[i] == commits[i];
        }
        if CommittedBy(init, r) {
          var i :| 0 <= i < |init| && r in init[i].blocks;
          assert r in commits[i].blocks;
        }
        assert r in last.blocks ==> r in commits[|commits| - 1].blocks;
      }
    }
  }

  /** The next commit after `prior`, for a leader. */
  function NextCommit(u: BlockMap, p: Parameters, prior: seq<TrustedCommit>, leader: BlockRef): TrustedCommit {
    TrustedCommit(|prior| + 1, leader, SubDag(u, p.size, GcRound(p, LastCommit(prior)), AllBlocks(prior), leader))
  }

  /** Reference definition: the commits that a sequence of leaders stands for, over all blocks of the network. */
  function CommitsFor(u: BlockMap, p: Parameters, leaders: seq<BlockRef>): (commits: seq<TrustedCommit>)
    ensures |commits| == |leaders|
  {
    if leaders == [] then []
    else
      var prior := CommitsFor(u, p, leaders[..|leaders| - 1]);
      prior + [NextCommit(u, p, prior, leaders[|leaders| - 1])]
  }

  /** Leaders are known blocks in strictly increasing rounds. */
  ghost predicate Rising(u: BlockMap, leaders: seq<BlockRef>) {
    && (forall i :: 0 <= i < |leaders| ==> leaders[i] in u)
    && forall i, j :: 0 <= i < j < |leaders| ==> leaders[i].round < leaders[j].round
  }

  /** A block of an earlier commit never links to a block of a later one. */
  ghost predicate NoForwardLinks(u: BlockMap, commits: seq<TrustedCommit>) {
    forall i, j :: 0 <= i < j < |commits| ==> NoLinksBetween(u, commits[i], commits[j])
  }

  ghost predicate NoLinksBetween(u: BlockMap, earlier: TrustedCommit, later: TrustedCommit) {
    forall b, a :: b in earlier.blocks && b in u && a in u[b].ancestors ==> a !in later.blocks
  }

  /** What the linearizer keeps from commit to commit. */
  ghost predicate Linearized(u: BlockMap, p: Parameters, commits: seq<TrustedCommit>) {
    && ProperCommits(commits) && NoForwardLinks(u, commits)
    && AllBlocks(commits) <= u.Keys && (forall r :: r in AllBlocks(commits) ==>
                                          r.round <= LastCommitRound(LastCommit(commits)))
    && DoneIsClosed(u, GcRound(p, LastCommit(commits)), AllBlocks(commits))
    && (forall i :: 0 <= i < |commits| ==>
          commits[i].leader in commits[i].blocks && ByRoundThenAuthor(commits[i].blocks))
  }

  /** A new leader is above everything committed, and above the GC round. */
  lemma LeaderIsNew(u: BlockMap, p: Parameters, prior: seq<TrustedCommit>, leader: BlockRef)
    requires ProperBlocks(p.size, u) && Linearized(u, p, prior) && leader in u
    requires leader.round > LastCommitRound(LastCommit(prior))
    ensures leader !in AllBlocks(prior) && leader.round > GcRound(p, LastCommit(prior))
  {
  }

  lemma ClosedAboveHigherGc(u: BlockMap, gcRound: nat, gcRound': nat, done: set<BlockRef>)
    requires DoneIsClosed(u, gcRound, done) && gcRound <= gcRound'
    ensures DoneIsClosed(u, gcRound', done)
  {
    forall x | x in done && x.round > gcRound'
      ensures Closed(u, gcRound', done, x)
    {
      assert Closed(u, gcRound, done, x);
    }
  }

  /** Committed blocks do not link to what is committed next. */
  lemma DoneLinksNowhere(u: BlockMap, p: Parameters, prior: seq<TrustedCommit>, later: TrustedCommit, i: nat)
    requires ProperBlocks(p.size, u) && Linearized(u, p, prior) && i < |prior|
    requires forall r :: r in later.blocks ==>
               r in u && r.round > GcRound(p, LastCommit(prior)) && r !in AllBlocks(prior)
    ensures NoLinksBetween(u, prior[i], later)
  {
    hide ProperCommits, NoForwardLinks, AllBlocks;
    AllBlocksMeans(prior);
    forall b, a | b in prior[i].blocks && b in u && a in u[b].ancestors
      ensures a !in later.blocks
    {
      assert CommittedBy(prior, b);
      if b.round > GcRound(p, LastCommit(prior)) {
        assert Closed(u, GcRound(p, LastCommit(prior)), AllBlocks(prior), b);
      } else {
        assert LowerRounds(u[b]);
      }
    }
  }

  lemma NextIsProper(u: BlockMap, p: Parameters, prior: seq<TrustedCommit>, leader: BlockRef)
    requires ProperBlocks(p.size, u) && Linearized(u, p, prior) && leader in u
    requires leader.round > LastCommitRound(LastCommit(prior))
    ensures var next := NextCommit(u, p, prior, leader);
            && ProperCommit(next) && leader in next.blocks && ByRoundThenAuthor(next.blocks)
            && (forall r :: r in next.blocks <==>
                  r in u && r.round > GcRound(p, LastCommit(prior)) && Reaches(u, leader, r) && r !in AllBlocks(prior))
            && DoneIsClosed(u, GcRound(p, LastCommit(prior)), AllBlocks(prior) + Members(next.blocks))
  {
    hide ProperCommits, NoForwardLinks, AllBlocks, DoneIsClosed, SubDag, ByRoundThenAuthor, NoRepeats, Linked;
    LeaderIsNew(u, p, prior, leader);
    SubDagMeans(u, p.size, GcRound(p, LastCommit(prior)), AllBlocks(prior), leader);
    BlocksAreGrounded(p.size, u);
    forall r | r in NextCommit(u, p, prior, leader).blocks
      ensures r.round <= leader.round
    {
      if r != leader {
        LinkedLowersRound(u, leader, r);
      }
    }
  }

  lemma NextSucceeds(u: BlockMap, p: Parameters, prior: seq<TrustedCommit>, next: TrustedCommit, i: nat)
    requires Linearized(u, p, prior) && i < |prior| && next.leader.round > LastCommitRound(LastCommit(prior))
    requires forall r :: r in next.blocks ==> r !in AllBlocks(prior)
    ensures Succeeds(prior[i], next)
  {
    hide NoForwardLinks, AllBlocks, DoneIsClosed;
    AllBlocksMeans(prior);
    assert i < |prior| - 1 ==> Succeeds(prior[i], prior[|prior| - 1]);
    assert forall r :: r in prior[i].blocks ==> CommittedBy(prior, r);
  }

  lemma NextKeepsLinearized(u: BlockMap, p: Parameters, prior: seq<TrustedCommit>, leader: BlockRef)
    requires ProperBlocks(p.size, u) && Linearized(u, p, prior) && leader in u
    requires leader.round > LastCommitRound(LastCommit(prior))
    ensures Linearized(u, p, prior + [NextCommit(u, p, prior, leader)])
  {
    hide ProperBlocks, SubDag, NoRepeats, Linked, Reaches, ByRoundThenAuthor, ProperCommit, Succeeds, NoLinksBetween,
      DoneIsClosed;
    var next := NextCommit(u, p, prior, leader);
    var commits := prior + [next];
    NextIsProper(u, p, prior, leader);
    forall i | 0 <= i < |prior|
      ensures Succeeds(prior[i], next) && NoLinksBetween(u, prior[i], next)
    {
      NextSucceeds(u, p, prior, next, i);
      DoneLinksNowhere(u, p, prior, next, i);
    }
    assert commits[..|commits| - 1] == prior;
    assert LastCommitRound(LastCommit(prior)) <= leader.round;
    ClosedAboveHigherGc(u, GcRound(p, LastCommit(prior)), GcRound(p, LastCommit(commits)), AllBlocks(commits));
    RoundsUpToLeader(u, p, prior, leader);
  }

  lemma RoundsUpToLeader(u: BlockMap, p: Parameters, prior: seq<TrustedCommit>, leader: BlockRef)
    requires Linearized(u, p, prior) && leader.round > LastCommitRound(LastCommit(prior))
    requires ProperCommit(NextCommit(u, p, prior, leader))
    requires forall r :: r in NextCommit(u, p, prior, leader).blocks ==> r in u
    ensures var commits := prior + [NextCommit(u, p, prior, leader)];
            AllBlocks(commits) <= u.Keys && forall r :: r in AllBlocks(commits) ==> r.round <= leader.round
  {
    hide ProperCommits, NoForwardLinks, DoneIsClosed, SubDag;
    var commits := prior + [NextCommit(u, p, prior, leader)];
    assert commits[..|commits| - 1] == prior;
  }

  /** Every commit sequence of rising leaders is linearized: this is what the finalizer and the DAG state rely on. */
  lemma {:induction false} CommitsForMeans(u: BlockMap, p: Parameters, leaders: seq<BlockRef>)
    requires ProperBlocks(p.size, u) && Rising(u, leaders)
    ensures Linearized(u, p, CommitsFor(u, p, leaders))
    ensures forall i :: 0 <= i < |leaders| ==> CommitsFor(u, p, leaders)[i].leader == leaders[i]
  {
    hide Linearized, SubDag, GcRound;
    if leaders == [] {
      NothingLinearized(u, p);
    } else {
      var init, leader := leaders[..|leaders| - 1], leaders[|leaders| - 1];
      CommitsForMeans(u, p, init);
      var prior := CommitsFor(u, p, init);
      assert init != [] ==> prior[|prior| - 1].leader == leaders[|init| - 1];
      assert ProperBlock(p.size, leader, u[leader]);
      NextKeepsLinearized(u, p, prior, leader);
    }
  }

  lemma NothingLinearized(u: BlockMap, p: Parameters)
    ensures Linearized(u, p, [])
  {
  }

  /** More leaders only add commits. */
  lemma {:induction false} CommitsForPrefix(u: BlockMap, p: Parameters, leaders: seq<BlockRef>, k: nat)
    requires k <= |leaders|
    ensures CommitsFor(u, p, leaders[..k]) <= CommitsFor(u, p, leaders)
  {
    if k == |leaders| {
      assert leaders[..k] == leaders;
    } else {
      var init := leaders[..|leaders| - 1];
      assert init[..k] == leaders[..k];
      CommitsForPrefix(u, p, init, k);
    }
  }
  // ----- linearizing with the DAG state -------------------------------------------------

  /** Above the GC round, the commit marks in the cache are those of the set. */
  ghost predicate Marks(cache: Cache, gcRound: nat, marked: set<BlockRef>) {
    forall r :: r in cache && r.round > gcRound ==> (cache[r].committed <==> r in marked)
  }

  /** The marks say exactly what is committed. */
  ghost predicate MarksExact(p: Parameters, st: State) {
    Marks(st.cache, GcRound(p, st.last), AllBlocks(st.commits))
  }

  /** Recovery restores exact marks. */
  lemma RecoveredMarks(p: Parameters, st: State)
    requires Good(p, st) && forall r :: r in st.accepted && r.round > GcRound(p, st.last) ==>
               r in st.cache && (st.cache[r].committed <==> CommittedBy(st.commits, r))
    ensures MarksExact(p, st)
  {
    hide Consistent, GoodCommits, GoodLinks, Written, RefsMirror, Anchored, CachedAbove, AllBlocks, GcRound;
    AllBlocksMeans(st.commits);
  }

  /** A restarted DAG state can go on linearizing. */
  method Restart(p: Parameters, store: Store) returns (d: DagState)
    requires ProperParameters(p) && ProperStore(p, store)
    ensures fresh(d) && d.Valid() && MarksExact(d.p, d.Snapshot()) && d.p == p && d.accepted == store.blocks
    ensures d.commits == store.commits
  {
    hide Good, MarksExact, ProperStore, GcRound, LastCommit, RoundsAfter, CommittedBy, LinkedFromOwn;
    d := new DagState(p, store);
    RecoveredMarks(p, d.Snapshot());
  }

  lemma MarkedOneMore(cache: Cache, gcRound: nat, marked: set<BlockRef>, r: BlockRef)
    requires Marks(cache, gcRound, marked) && r in cache
    ensures Marks(cache[r := cache[r].(committed := true)], gcRound, marked + {r})
  {
  }

  /** Only the cache has changed. */
  ghost predicate SameButCache(st: State, st': State) {
    st' == st.(cache := st'.cache) && st'.cache.Keys == st.cache.Keys
  }

  /** Marks blocks as committed; none of them is marked already. */
  method MarkAll(d: DagState, next: seq<BlockRef>, ghost marked: set<BlockRef>)
    requires d.Valid() && Marks(d.recentBlocks, GcRound(d.p, d.lastCommit), marked) && NoRepeats(next)
    requires forall r :: r in next ==> r in d.recentBlocks && r.round > GcRound(d.p, d.lastCommit) && r !in marked
    modifies d`recentBlocks
    ensures d.Valid() && Marks(d.recentBlocks, GcRound(d.p, d.lastCommit), marked + Members(next))
    ensures SameButCache(old(d.Snapshot()), d.Snapshot())
  {
    hide Good, GcRound;
    ghost var gcRound := GcRound(d.p, d.lastCommit);
    assert marked + Members(next[..0]) == marked;
    for i := 0 to |next|
      invariant d.Valid() && Marks(d.recentBlocks, gcRound, marked + Members(next[..i]))
      invariant SameButCache(old(d.Snapshot()), d.Snapshot())
    {
      assert next[i] in next;
      assert next[i] !in next[..i];
      MarkedOneMore(d.recentBlocks, gcRound, marked + Members(next[..i]), next[i]);
      assert marked + Members(next[..i]) + {next[i]} == marked + Members(next[..i + 1]);
      var first := d.SetCommitted(next[i]);
      assert first;
    }
    assert next[..|next|] == next;
  }

  lemma AncestorIsCached(p: Parameters, st: State, x: BlockRef, i: nat)
    requires Good(p, st) && x in st.accepted && i < |st.accepted[x].ancestors|
    requires st.accepted[x].ancestors[i].round > GcRound(p, st.last)
    ensures st.accepted[x].ancestors[i] in st.accepted && st.accepted[x].ancestors[i] in st.cache
  {
    hide Cached, Written, GoodLinks, ProperCommits, ProperBlocks, RoundsAfter;
    LastAgrees(p, st);
    AboveGcIsCached(p, st, st.accepted[x].ancestors[i]);
  }

  /** The ancestors of a block that are to be committed with it. */
  method UnmarkedAncestors(d: DagState, block: Block, ghost marked: set<BlockRef>) returns (next: seq<BlockRef>)
    requires d.Valid() && block.ref in d.accepted && d.accepted[block.ref] == block
    requires Marks(d.recentBlocks, GcRound(d.p, d.lastCommit), marked)
    ensures next == Uncommitted(d.accepted, block.ancestors, GcRound(d.p, d.lastCommit), marked)
  {
    hide Good, GcRound;
    var gcRound := GcRound(d.p, d.lastCommit);
    next := [];
    for i := 0 to |block.ancestors|
      invariant next == Uncommitted(d.accepted, block.ancestors[..i], gcRound, marked)
    {
      assert block.ancestors[..i + 1][..i] == block.ancestors[..i];
      var a := block.ancestors[i];
      if a.round > gcRound {
        AncestorIsCached(d.p, d.Snapshot(), block.ref, i);
        if !d.recentBlocks[a].committed {
          next := next + [a];
        }
      }
    }
    assert block.ancestors[..|block.ancestors|] == block.ancestors;
  }

  lemma NextIsCached(p: Parameters, st: State, cache: Cache, x: BlockRef, marked: set<BlockRef>)
    requires Good(p, st) && x in st.accepted && cache.Keys == st.cache.Keys
    ensures forall r :: r in Uncommitted(st.accepted, st.accepted[x].ancestors, GcRound(p, st.last), marked) ==>
              r in cache && r.round > GcRound(p, st.last) && r !in marked
    ensures NoRepeats(Uncommitted(st.accepted, st.accepted[x].ancestors, GcRound(p, st.last), marked))
  {
    hide Cached, Written, GoodLinks, ProperCommits, CompleteAbove, RoundsAfter, Uncommitted, GcRound;
    var next := Uncommitted(st.accepted, st.accepted[x].ancestors, GcRound(p, st.last), marked);
    UncommittedMeans(st.accepted, st.accepted[x].ancestors, GcRound(p, st.last), marked);
    assert ProperBlock(p.size, x, st.accepted[x]);
    forall r | r in next
      ensures r in cache
    {
      AboveGcIsCached(p, st, r);
    }
  }

  /** One step of the walk: marks the ancestors of a block that are to be committed with it. */
  method CommitAncestors(d: DagState, x: BlockRef, ghost marked: set<BlockRef>) returns (next: seq<BlockRef>)
    requires d.Valid() && x in d.accepted && Marks(d.recentBlocks, GcRound(d.p, d.lastCommit), marked)
    modifies d`recentBlocks
    ensures d.Valid() && SameButCache(old(d.Snapshot()), d.Snapshot())
    ensures next == Uncommitted(d.accepted, d.accepted[x].ancestors, GcRound(d.p, d.lastCommit), marked)
    ensures Marks(d.recentBlocks, GcRound(d.p, d.lastCommit), marked + Members(next))
  {
    hide Good, GcRound, Marks, Uncommitted, NoRepeats;
    StoredIsFound(d.p, d.Snapshot(), x);
    var block := d.GetBlock(x);
    next := UnmarkedAncestors(d, block.value, marked);
    NextIsCached(d.p, d.Snapshot(), d.recentBlocks, x, marked);
    MarkAll(d, next, marked);
  }

  /** How far the walk from a leader has come. */
  ghost predicate Walked(dag: BlockMap, gcRound: nat, done: set<BlockRef>, leader: BlockRef, marked: set<BlockRef>,
                         buffer: seq<BlockRef>, collected: seq<BlockRef>) {
    && Walking(dag, marked, buffer) && marked == done + Members(collected) + Members(buffer)
    && collected + Collect(dag, gcRound, marked, buffer) == Collect(dag, gcRound, done + {leader}, [leader])
  }

  lemma WalkedStep(dag: BlockMap, gcRound: nat, done: set<BlockRef>, leader: BlockRef, marked: set<BlockRef>,
                   buffer: seq<BlockRef>, collected: seq<BlockRef>)
    requires Walked(dag, gcRound, done, leader, marked, buffer, collected) && buffer != []
    ensures var x := buffer[|buffer| - 1];
            && x in dag
            && var next := Uncommitted(dag, dag[x].ancestors, gcRound, marked);
            && Walked(dag, gcRound, done, leader, marked + Members(next), buffer[..|buffer| - 1] + next,
                      collected + [x])
            && (next == [] ==> marked + Members(next) == marked)
            && (next != [] ==> |dag.Keys - (marked + Members(next))| < |dag.Keys - marked|)
  {
    hide Collect, Uncommitted, NoRepeats;
    var x := buffer[|buffer| - 1];
    assert x in buffer;
    var next := Uncommitted(dag, dag[x].ancestors, gcRound, marked);
    MarkingShrinks(dag, dag[x].ancestors, gcRound, marked);
    WalkStep(dag, gcRound, marked, buffer);
    CollectStep(dag, gcRound, marked, buffer, collected);
    MembersMoved(buffer, collected, next, x);
  }

  lemma WalkEnds(dag: BlockMap, gcRound: nat, done: set<BlockRef>, leader: BlockRef, marked: set<BlockRef>,
                 collected: seq<BlockRef>)
    requires Walked(dag, gcRound, done, leader, marked, [], collected)
    ensures collected == Collect(dag, gcRound, done + {leader}, [leader]) && marked == done + Members(collected)
  {
    assert Collect(dag, gcRound, marked, []) == [];
    assert Members([]) == {};
  }

  /** Commits a leader: walks its history depth first, marks what is not committed yet, and orders it. */
  method LinearizeSubDag(d: DagState, leader: BlockRef) returns (toCommit: seq<BlockRef>)
    requires d.Valid() && MarksExact(d.p, d.Snapshot()) && leader in d.accepted
    requires leader !in AllBlocks(d.commits) && leader.round > GcRound(d.p, d.lastCommit)
    modifies d`recentBlocks
    ensures d.Valid() && SameButCache(old(d.Snapshot()), d.Snapshot())
    ensures toCommit == SubDag(d.accepted, d.p.size, GcRound(d.p, d.lastCommit), AllBlocks(d.commits), leader)
    ensures Marks(d.recentBlocks, GcRound(d.p, d.lastCommit), AllBlocks(d.commits) + Members(toCommit))
  {
    hide Good, GcRound, Marks, Walked, Uncommitted, AllBlocks, CommitKey, NoRepeats, Sorting.SortedBy,
      Sorting.StableSort, Collect;
    ghost var gcRound, dag, done := GcRound(d.p, d.lastCommit), d.accepted, AllBlocks(d.commits);
    AboveGcIsCached(d.p, d.Snapshot(), leader);
    StartWalk(d.p, d.Snapshot(), gcRound, done, leader);
    MarkAll(d, [leader], done);
    ghost var marked := done + Members([leader]);
    var buffer, collected := [leader], [];
    while buffer != []
      invariant d.Valid() && SameButCache(old(d.Snapshot()), d.Snapshot())
      invariant Walked(dag, gcRound, done, leader, marked, buffer, collected) && Marks(d.recentBlocks, gcRound, marked)
      decreases |dag.Keys - marked|, |buffer|
    {
      var x := buffer[|buffer| - 1];
      WalkedStep(dag, gcRound, done, leader, marked, buffer, collected);
      var next := CommitAncestors(d, x, marked);
      buffer, collected := buffer[..|buffer| - 1] + next, collected + [x];
      marked := marked + Members(next);
    }
    WalkEnds(dag, gcRound, done, leader, marked, collected);
    toCommit := Sorting.SortByKey(collected, CommitKey(d.p.size));
    SortedMembers(collected, toCommit);
  }

  lemma StartWalk(p: Parameters, st: State, gcRound: nat, done: set<BlockRef>, leader: BlockRef)
    requires Good(p, st) && leader in st.accepted
    ensures Walked(st.accepted, gcRound, done, leader, done + Members([leader]), [leader], []) && NoRepeats([leader])
  {
    hide Cached, Written, GoodLinks, ProperCommits, CompleteAbove, RoundsAfter, Collect;
    forall r | r in st.accepted
      ensures NoRepeats(st.accepted[r].ancestors)
    {
      assert ProperBlock(p.size, r, st.accepted[r]);
    }
    assert Members([leader]) == {leader};
    assert [] + Collect(st.accepted, gcRound, done + {leader}, [leader]) ==
      Collect(st.accepted, gcRound, done + {leader}, [leader]);
  }

  lemma StoredIsFound(p: Parameters, st: State, x: BlockRef)
    requires Good(p, st) && x in st.accepted
    ensures Lookup(p.genesis, st.accepted, x) == Some(st.accepted[x]) && st.accepted[x].ref == x
  {
    hide Cached, Written, GoodLinks, ProperCommits, CompleteAbove, RoundsAfter;
    assert ProperBlock(p.size, x, st.accepted[x]);
  }

  lemma CollectStep(dag: BlockMap, gcRound: nat, marked: set<BlockRef>, buffer: seq<BlockRef>, collected: seq<BlockRef>)
    requires buffer != [] && buffer[|buffer| - 1] in dag
    ensures var x := buffer[|buffer| - 1];
            var next := Uncommitted(dag, dag[x].ancestors, gcRound, marked);
            collected + Collect(dag, gcRound, marked, buffer) ==
              collected + [x] + Collect(dag, gcRound, marked + Members(next), buffer[..|buffer| - 1] + next)
  {
  }

  lemma MembersMoved(buffer: seq<BlockRef>, collected: seq<BlockRef>, next: seq<BlockRef>, x: BlockRef)
    requires buffer != [] && x == buffer[|buffer| - 1]
    ensures Members(collected + [x]) + Members(buffer[..|buffer| - 1] + next) == Members(collected) + Members(buffer) +
            Members(next)
  {
    assert buffer == buffer[..|buffer| - 1] + [x];
  }

  lemma SortedMembers(a: seq<BlockRef>, b: seq<BlockRef>)
    requires multiset(a) == multiset(b)
    ensures Members(a) == Members(b)
  {
    Sorting.SameElements(a, b);
  }
  // ----- a validator's commits are the network's ----------------------------------------

  /** The walk over the local DAG gives the commit that the blocks of the whole network give. */
  lemma NextIsLocal(p: Parameters, st: State, u: BlockMap, leader: BlockRef)
    requires Good(p, st) && PartOf(st.accepted, u) && leader in st.accepted
    ensures NextCommit(st.accepted, p, st.commits, leader) == NextCommit(u, p, st.commits, leader)
    ensures forall r :: r in NextCommit(u, p, st.commits, leader).blocks ==> r in st.accepted
  {
    hide Cached, Written, GoodLinks, ProperCommits, RoundsAfter, Collect, AllBlocks, GcRound, CompleteAbove, NoRepeats,
      Walking;
    var gcRound, done := GcRound(p, LastCommit(st.commits)), AllBlocks(st.commits);
    CollectIsLocal(st.accepted, u, gcRound, done + {leader}, [leader]);
    StartWalk(p, st, gcRound, done, leader);
    assert Members([leader]) == {leader};
    CollectMeans(st.accepted, gcRound, done + {leader}, [leader]);
    var got := Collect(st.accepted, gcRound, done + {leader}, [leader]);
    SortKeeps(got, p.size);
    assert forall r :: r in got ==> r in Members(got);
  }

  /** The next commit is what the DAG state may be given. */
  lemma NextIsCommittable(p: Parameters, st: State, u: BlockMap, leader: BlockRef)
    requires Good(p, st) && PartOf(st.accepted, u) && ProperBlocks(p.size, u) && Linearized(u, p, st.commits)
    requires leader in st.accepted && leader.round > LastCommitRound(st.last)
    ensures Committable(st, NextCommit(u, p, st.commits, leader))
    ensures leader !in AllBlocks(st.commits) && leader.round > GcRound(p, st.last) && st.last == LastCommit(st.commits)
  {
    hide Consistent, GoodCache, GoodLinks, Linearized, NextCommit, ProperCommit, Succeeds, AllBlocks, GcRound,
      LastCommitRound;
    NextIsLocal(p, st, u, leader);
    LeaderIsNew(u, p, st.commits, leader);
    NextKeepsLinearized(u, p, st.commits, leader);
    ProperIsCommittable(u, p, st, NextCommit(u, p, st.commits, leader));
  }

  lemma ProperIsCommittable(u: BlockMap, p: Parameters, st: State, next: TrustedCommit)
    requires Linearized(u, p, st.commits + [next]) && forall r :: r in next.blocks ==> r in st.accepted
    ensures Committable(st, next)
  {
    var commits := st.commits + [next];
    assert commits[|st.commits|] == next;
    assert ProperCommit(commits[|st.commits|]);
    forall i | 0 <= i < |st.commits|
      ensures Succeeds(st.commits[i], next)
    {
      assert Succeeds(commits[i], commits[|st.commits|]);
    }
  }

  lemma MarksAfterCommit(p: Parameters, st: State, next: TrustedCommit, cache: Cache)
    requires Marks(cache, GcRound(p, st.last), AllBlocks(st.commits) + Members(next.blocks))
    requires GcRound(p, st.last) <= GcRound(p, Some(next))
    ensures Marks(cache, GcRound(p, Some(next)), AllBlocks(st.commits + [next]))
  {
    hide GcRound;
    assert (st.commits + [next])[..|st.commits|] == st.commits;
  }

  /** Commits one leader. The result is the commit that all blocks of the network `u` define for it. */
  method CommitLeader(d: DagState, leader: BlockRef, ghost u: BlockMap) returns (commit: TrustedCommit)
    requires d.Valid() && MarksExact(d.p, d.Snapshot())
    requires PartOf(d.accepted, u) && ProperBlocks(d.p.size, u) && Linearized(u, d.p, d.commits)
    requires leader in d.accepted && leader.round > LastCommitRound(d.lastCommit)
    modifies d`recentBlocks, d`lastCommit, d`lastCommittedRounds, d`commitsToWrite, d`commits
    ensures d.Valid() && MarksExact(d.p, d.Snapshot()) && d.lastCommit == Some(commit)
    ensures commit == NextCommit(u, d.p, old(d.commits), leader) && d.commits == old(d.commits) + [commit]
  {
    hide Good, GcRound, Marks, Linearized, ProperBlocks, PartOf, SubDag, AllBlocks, Committable, Raised,
      LastCommitRound;
    ghost var st := d.Snapshot();
    NextIsCommittable(d.p, st, u, leader);
    NextIsLocal(d.p, st, u, leader);
    LastCommitIsLast(d.p, st);
    CommitRaisesGc(d.p, st, NextCommit(u, d.p, st.commits, leader));
    var blocks := LinearizeSubDag(d, leader);
    var index := if d.lastCommit.None? then 0 else d.lastCommit.value.index;
    commit := TrustedCommit(index + 1, leader, blocks);
    MarksAfterCommit(d.p, st, commit, d.recentBlocks);
    CommittableSame(st, d.Snapshot(), commit);
    d.AddCommit(commit);
  }

  lemma CommittableSame(st: State, st': State, commit: TrustedCommit)
    requires Committable(st, commit) && st'.accepted == st.accepted && st'.commits == st.commits
    ensures Committable(st', commit)
  {
  }

  /** Expands committed leaders into commits, one by one. A validator's commits are exactly those that its
      leaders define over all blocks of the network `u`, whatever part of the network it has seen. */
  method HandleCommit(d: DagState, leaders: seq<BlockRef>, ghost prior: seq<BlockRef>, ghost u: BlockMap)
    returns (commits: seq<TrustedCommit>)
    requires d.Valid() && MarksExact(d.p, d.Snapshot())
    requires PartOf(d.accepted, u) && ProperBlocks(d.p.size, u) && d.commits == CommitsFor(u, d.p, prior)
    requires Rising(u, prior + leaders) && forall r :: r in leaders ==> r in d.accepted
    modifies d`recentBlocks, d`lastCommit, d`lastCommittedRounds, d`commitsToWrite, d`commits
    ensures d.Valid() && MarksExact(d.p, d.Snapshot())
    ensures d.commits == CommitsFor(u, d.p, prior + leaders) && d.commits == old(d.commits) + commits
  {
    hide Good, MarksExact, PartOf, ProperBlocks, Rising, Linearized, NextCommit, LastCommitRound;
    commits := [];
    assert prior + leaders[..0] == prior;
    for i := 0 to |leaders|
      invariant d.Valid() && MarksExact(d.p, d.Snapshot())
      invariant d.commits == CommitsFor(u, d.p, prior + leaders[..i]) && d.commits == old(d.commits) + commits
    {
      LeadersSoFar(u, d.p, d.Snapshot(), prior, leaders, i);
      assert leaders[i] in leaders;
      var commit := CommitLeader(d, leaders[i], u);
      assert (prior + leaders[..i + 1])[..|prior| + i] == prior + leaders[..i];
      commits := commits + [commit];
    }
    assert leaders[..|leaders|] == leaders;
  }

  lemma LeadersSoFar(u: BlockMap, p: Parameters, st: State, prior: seq<BlockRef>, leaders: seq<BlockRef>, i: nat)
    requires Good(p, st) && ProperBlocks(p.size, u) && Rising(u, prior + leaders) && i < |leaders|
    requires st.commits == CommitsFor(u, p, prior + leaders[..i])
    ensures Linearized(u, p, st.commits) && leaders[i].round > LastCommitRound(st.last)
  {
    RisingSplit(u, p, prior, leaders, i);
    LastIsNewest(p, st);
    hide Good, Linearized, CommitsFor, Rising, ProperBlocks;
    CommitsForMeans(u, p, prior + leaders[..i]);
  }

  /** The leaders before are rising, and all of a lower round than the next one. */
  lemma RisingSplit(u: BlockMap, p: Parameters, prior: seq<BlockRef>, leaders: seq<BlockRef>, i: nat)
    requires ProperBlocks(p.size, u) && Rising(u, prior + leaders) && i < |leaders|
    ensures var so := prior + leaders[..i];
            Rising(u, so) && leaders[i].round > GENESIS_ROUND && (so != [] ==> so[|so| - 1].round < leaders[i].round)
  {
    var so, all := prior + leaders[..i], prior + leaders;
    assert so == all[..|so|];
    assert all[|so|] == leaders[i] && all[|so|] in u;
    assert ProperBlock(p.size, leaders[i], u[leaders[i]]);
    if so != [] {
      assert all[|so| - 1] == so[|so| - 1];
    }
  }

  lemma LastIsNewest(p: Parameters, st: State)
    requires Good(p, st)
    ensures LastCommitRound(st.last) == if st.commits == [] then GENESIS_ROUND
            else st.commits[|st.commits| - 1].leader.round
  {
    hide Consistent, GoodCache, GoodLinks;
  }

  // ----- agreement on the committed blocks ----------------------------------------------

  /** The blocks of the network other than genesis. */
  ghost function ProposedBlocks(n: Agreement.Network): BlockMap {
    map r | r in n.blocks && r.round > GENESIS_ROUND :: n.blocks[r]
  }

  lemma ProposedAreProper(n: Agreement.Network)
    requires Agreement.GoodNetwork(n)
    ensures ProperBlocks(|n.committee.stakes|, ProposedBlocks(n))
    ensures forall r :: r in ProposedBlocks(n) ==> WellLinked(n.committee, ProposedBlocks(n)[r])
  {
    forall r | r in ProposedBlocks(n)
      ensures ProperBlock(|n.committee.stakes|, r, n.blocks[r]) && WellLinked(n.committee, n.blocks[r])
    {
      assert Verified(n.committee, n.blocks[r]);
    }
  }

  /** The committed leaders in a log of decisions. */
  function CommittedLeaders(log: seq<CommitRules.LeaderStatus>): seq<BlockRef> {
    if log == [] then []
    else
      var init, last := CommittedLeaders(log[..|log| - 1]), log[|log| - 1];
      if last.Commit? then init + [last.leader] else init
  }

  /** Every committed decision has its leader in the list, at the place its number among the commits gives. */
  lemma {:induction false} EveryCommitListed(log: seq<CommitRules.LeaderStatus>, n: nat)
    requires n <= |log|
    ensures |CommittedLeaders(log[..n])| == CommitRules.CommitsBefore(log, n)
    ensures forall k :: 0 <= k < n && log[k].Commit? ==>
              var i := CommitRules.CommitsBefore(log, k);
              i < CommitRules.CommitsBefore(log, n) && CommittedLeaders(log[..n])[i] == log[k].leader
  {
    if n == 0 {
      CommitRules.NoCommitsBefore(log);
    } else {
      EveryCommitListed(log, n - 1);
      CommitRules.CommitsBeforeStep(log, n - 1);
      assert log[..n][..n - 1] == log[..n - 1];
      hide CommitRules.CommitsBefore;
    }
  }

  lemma {:induction false} LeadersPrefix(log: seq<CommitRules.LeaderStatus>, k: nat)
    requires k <= |log|
    ensures CommittedLeaders(log[..k]) <= CommittedLeaders(log)
  {
    if k == |log| {
      assert log[..k] == log;
    } else {
      var init := log[..|log| - 1];
      assert init[..k] == log[..k];
      LeadersPrefix(init, k);
    }
  }

  /** Agreement on content: for any two validators, over any runs, one sequence of commits, with all their
      blocks in order, is a prefix of the other. */
  lemma CommitSequencesAgree(n: Agreement.Network, p: Parameters, s: UniversalCommitters.Scheduling,
                             h1: UniversalCommitters.History, h2: UniversalCommitters.History)
    requires Agreement.GoodNetwork(n) && UniversalCommitters.Run(n, s, h1) && UniversalCommitters.Run(n, s, h2)
    ensures var c1 := CommitsFor(ProposedBlocks(n), p, CommittedLeaders(UniversalCommitters.LogOf(h1)));
            var c2 := CommitsFor(ProposedBlocks(n), p, CommittedLeaders(UniversalCommitters.LogOf(h2)));
            c1 <= c2 || c2 <= c1
  {
    UniversalCommitters.LogsAgree(n, s, h1, h2);
    var log1, log2 := UniversalCommitters.LogOf(h1), UniversalCommitters.LogOf(h2);
    hide UniversalCommitters.LogOf, UniversalCommitters.Run, Agreement.GoodNetwork;
    if log1 <= log2 {
      PrefixCommits(n, p, log1, log2);
    } else {
      PrefixCommits(n, p, log2, log1);
    }
  }

  lemma PrefixCommits(n: Agreement.Network, p: Parameters, log1: seq<CommitRules.LeaderStatus>,
                      log2: seq<CommitRules.LeaderStatus>)
    requires log1 <= log2
    ensures CommitsFor(ProposedBlocks(n), p, CommittedLeaders(log1)) <= CommitsFor(ProposedBlocks(n), p,
        CommittedLeaders(log2))
  {
    hide CommitsFor, ProposedBlocks, CommittedLeaders;
    assert log1 == log2[..|log1|];
    LeadersPrefix(log2, |log1|);
    var l1, l2 := CommittedLeaders(log1), CommittedLeaders(log2);
    assert l1 == l2[..|l1|];
    CommitsForPrefix(ProposedBlocks(n), p, l2, |l1|);
  }

  /** The leaders a run commits are known blocks in strictly increasing rounds, as linearization needs them. */
  lemma LeadersRise(n: Agreement.Network, s: UniversalCommitters.Scheduling, h: UniversalCommitters.History)
    requires Agreement.GoodNetwork(n) && UniversalCommitters.Run(n, s, h)
    ensures Rising(ProposedBlocks(n), CommittedLeaders(UniversalCommitters.LogOf(h)))
  {
    var log := UniversalCommitters.LogOf(h);
    UniversalCommitters.LogFollowsRounds(n, s, h);
    forall k | 0 <= k < |log| && log[k].Commit?
      ensures log[k].leader in ProposedBlocks(n) && log[k].leader.round == k + 1
    {
      UniversalCommitters.CommittedLeaderIsKnown(n, s, h, k);
    }
    LeadersInOrder(ProposedBlocks(n), log, |log|);
    assert log[..|log|] == log;
  }

  lemma {:induction false} LeadersInOrder(u: BlockMap, log: seq<CommitRules.LeaderStatus>, n: nat)
    requires n <= |log|
    requires forall k :: 0 <= k < |log| && log[k].Commit? ==> log[k].leader in u && log[k].leader.round == k + 1
    ensures Rising(u, CommittedLeaders(log[..n])) && forall r :: r in CommittedLeaders(log[..n]) ==> r.round <= n
  {
    if n > 0 {
      assert log[..n][..n - 1] == log[..n - 1];
      LeadersInOrder(u, log, n - 1);
      var init := CommittedLeaders(log[..n - 1]);
      assert forall i :: 0 <= i < |init| ==> init[i] in init;
    }
  }

  // ----- what the commit finalizer relies on --------------------------------------------

  /** A commit with the contents of its blocks, as it goes to the finalizer. */
  function SubDagOf(u: BlockMap, commit: TrustedCommit, local: bool): CommitGraphs.Commit
    requires forall r :: r in commit.blocks ==> r in u
  {
    CommitGraphs.Commit(commit.index, commit.leader,
                        seq(|commit.blocks|, i requires 0 <= i < |commit.blocks| =>
                          assert commit.blocks[i] in commit.blocks; u[commit.blocks[i]]), local)
  }

  lemma SubDagRefs(u: BlockMap, commit: TrustedCommit, local: bool)
    requires forall r :: r in u ==> u[r].ref == r
    requires forall r :: r in commit.blocks ==> r in u
    ensures var blocks := SubDagOf(u, commit, local).blocks;
            && |blocks| == |commit.blocks|
            && (forall i :: 0 <= i < |blocks| ==> blocks[i].ref == commit.blocks[i] && blocks[i] == u[commit.blocks[i]])
            && forall r :: r in RefsOf(blocks) <==> r in commit.blocks
    ensures SubDagFields(u, commit, local)
  {
    var blocks := SubDagOf(u, commit, local).blocks;
    forall i | 0 <= i < |blocks|
      ensures blocks[i].ref == commit.blocks[i]
    {
      assert commit.blocks[i] in commit.blocks;
    }
    forall r | r in commit.blocks
      ensures r in RefsOf(blocks)
    {
      var i :| 0 <= i < |commit.blocks| && commit.blocks[i] == r;
      assert blocks[i].ref == r;
    }
  }

  /** Linearized commits meet what the finalizer assumes of its input, in order. */
  lemma SubDagsFollow(c: Committee, u: BlockMap, p: Parameters, commits: seq<TrustedCommit>, i: nat, j: nat,
                      local1: bool, local2: bool)
    requires Linearized(u, p, commits) && i < j < |commits| && forall r :: r in u ==> u[r].ref == r
    requires (forall r :: r in commits[i].blocks ==> r in u) && forall r :: r in commits[j].blocks ==> r in u
    ensures CommitGraphs.Follows(SubDagOf(u, commits[i], local1), SubDagOf(u, commits[j], local2))
  {
    hide SubDagOf, RefsOf, AllBlocks, DoneIsClosed;
    var earlier, later := SubDagOf(u, commits[i], local1), SubDagOf(u, commits[j], local2);
    SubDagRefs(u, commits[i], local1);
    SubDagRefs(u, commits[j], local2);
    SameLeader(u, commits[i], local1);
    SameLeader(u, commits[j], local2);
    assert Succeeds(commits[i], commits[j]) && NoLinksBetween(u, commits[i], commits[j]);
    forall b, a | b in earlier.blocks && a in b.ancestors
      ensures a !in RefsOf(later.blocks)
    {
      var k :| 0 <= k < |earlier.blocks| && earlier.blocks[k] == b;
      assert commits[i].blocks[k] in commits[i].blocks;
    }
  }

  lemma SameLeader(u: BlockMap, commit: TrustedCommit, local: bool)
    requires forall r :: r in commit.blocks ==> r in u
    ensures SubDagOf(u, commit, local).leader == commit.leader
  {
  }

  lemma SubDagIsProper(c: Committee, u: BlockMap, p: Parameters, commits: seq<TrustedCommit>, i: nat, local: bool)
    requires Linearized(u, p, commits) && i < |commits| && forall r :: r in u ==> u[r].ref == r && WellLinked(c, u[r])
    requires forall r :: r in commits[i].blocks ==> r in u
    ensures CommitGraphs.ProperCommit(c, SubDagOf(u, commits[i], local))
  {
    hide SubDagOf, AllBlocks, DoneIsClosed;
    var blocks := SubDagOf(u, commits[i], local).blocks;
    SubDagRefs(u, commits[i], local);
    assert ProperCommit(commits[i]);
    forall b | b in blocks
      ensures VoteTraversals.ProperBlock(c, b)
    {
      var k :| 0 <= k < |blocks| && blocks[k] == b;
      assert commits[i].blocks[k] in commits[i].blocks;
    }
  }
  ghost predicate BlocksKnown(u: BlockMap, commits: seq<TrustedCommit>) {
    forall i, r :: 0 <= i < |commits| && r in commits[i].blocks ==> r in u
  }

  /** A sequence of commits with the contents of their blocks; some were decided locally, some fetched. */
  function SubDags(u: BlockMap, commits: seq<TrustedCommit>, local: nat -> bool): (dags: seq<CommitGraphs.Commit>)
    requires BlocksKnown(u, commits)
    ensures |dags| == |commits| && forall i :: 0 <= i < |commits| ==> dags[i] == SubDagOf(u, commits[i], local(i))
  {
    seq(|commits|, i requires 0 <= i < |commits| => SubDagOf(u, commits[i], local(i)))
  }

  /** What the finalizer is told of a commit. */
  ghost predicate SubDagFields(u: BlockMap, commit: TrustedCommit, local: bool)
    requires forall r :: r in commit.blocks ==> r in u
  {
    var dag := SubDagOf(u, commit, local);
    && dag.index == commit.index && dag.leader == commit.leader && dag.decidedLocally == local
    && Refs(dag.blocks) == commit.blocks
  }

  lemma IndexIsPosition(u: BlockMap, p: Parameters, commits: seq<TrustedCommit>, i: nat)
    requires Linearized(u, p, commits) && i < |commits|
    ensures commits[i].index == i + 1
  {
  }

  lemma LinearizedIsKnown(u: BlockMap, p: Parameters, commits: seq<TrustedCommit>)
    requires Linearized(u, p, commits)
    ensures BlocksKnown(u, commits)
  {
    AllBlocksMeans(commits);
    forall i, r | 0 <= i < |commits| && r in commits[i].blocks
      ensures r in u
    {
      assert CommittedBy(commits, r);
    }
  }

  /** The commits of rising leaders, with their blocks, are what the finalizer requires of its whole input. */
  lemma CommitsFeedFinalizer(c: Committee, u: BlockMap, p: Parameters, leaders: seq<BlockRef>, local: nat -> bool)
    requires ProperBlocks(p.size, u) && Rising(u, leaders) && forall r :: r in u ==> WellLinked(c, u[r])
    ensures var commits := CommitsFor(u, p, leaders);
            && BlocksKnown(u, commits) && CommitGraphs.Buffered(c, SubDags(u, commits, local))
            && forall i :: 0 <= i < |commits| ==>
                 var dag := SubDags(u, commits, local)[i];
                 && dag.index == i + 1 && dag.leader == leaders[i] && dag.decidedLocally == local(i)
                 && Refs(dag.blocks) == commits[i].blocks
  {
    hide CommitsFor, Linearized, CommitGraphs.Follows, CommitGraphs.ProperCommit, SubDagOf, WellLinked, Rising;
    var commits := CommitsFor(u, p, leaders);
    CommitsForMeans(u, p, leaders);
    LinearizedIsKnown(u, p, commits);
    forall r | r in u
      ensures u[r].ref == r
    {
      assert ProperBlock(p.size, r, u[r]);
    }
    forall i | 0 <= i < |commits|
      ensures CommitGraphs.ProperCommit(c, SubDagOf(u, commits[i], local(i)))
    {
      SubDagIsProper(c, u, p, commits, i, local(i));
    }
    forall i | 0 <= i < |commits|
      ensures commits[i].index == i + 1 && SubDagFields(u, commits[i], local(i))
    {
      SubDagRefs(u, commits[i], local(i));
      IndexIsPosition(u, p, commits, i);
    }
    forall i, j | 0 <= i < j < |commits|
      ensures CommitGraphs.Follows(SubDagOf(u, commits[i], local(i)), SubDagOf(u, commits[j], local(j)))
    {
      SubDagsFollow(c, u, p, commits, i, j, local(i), local(j));
    }
  }

  /** The same for the commits of any run. */
  lemma RunFeedsFinalizer(n: Agreement.Network, p: Parameters, s: UniversalCommitters.Scheduling,
                          h: UniversalCommitters.History, local: nat -> bool)
    requires Agreement.GoodNetwork(n) && UniversalCommitters.Run(n, s, h) && p.size == |n.committee.stakes|
    ensures var u := ProposedBlocks(n);
            var commits := CommitsFor(u, p, CommittedLeaders(UniversalCommitters.LogOf(h)));
            && BlocksKnown(u, commits) && CommitGraphs.Buffered(n.committee, SubDags(u, commits, local))
            && forall i :: 0 <= i < |commits| ==>
                 var dag := SubDags(u, commits, local)[i];
                 && dag.index == i + 1 && dag.leader == CommittedLeaders(UniversalCommitters.LogOf(h))[i]
                 && dag.decidedLocally == local(i) && Refs(dag.blocks) == commits[i].blocks
  {
    hide UniversalCommitters.LogOf, UniversalCommitters.Run, Agreement.GoodNetwork, CommitsFor, CommittedLeaders;
    ProposedAreProper(n);
    LeadersRise(n, s, h);
    CommitsFeedFinalizer(n.committee, ProposedBlocks(n), p, CommittedLeaders(UniversalCommitters.LogOf(h)), local);
  }

  /** A map that holds the blocks of consecutive commits holds those blocks of the network. */
  lemma HeldIsNetwork(u: BlockMap, commits: seq<TrustedCommit>, local: nat -> bool, lo: nat, hi: nat, m: BlockMap)
    requires BlocksKnown(u, commits) && (forall r :: r in u ==> u[r].ref == r) && lo <= hi <= |commits|
    requires CommitGraphs.HoldsExactly(m, SubDags(u, commits, local)[lo..hi])
    ensures forall r :: r in m <==> CommittedBy(commits[lo..hi], r)
    ensures forall r :: r in m ==> r in u && m[r] == u[r]
  {
    hide SubDagOf, RefsOf;
    var dags, part := SubDags(u, commits, local)[lo..hi], commits[lo..hi];
    forall i | 0 <= i < |part|
      ensures dags[i] == SubDagOf(u, part[i], local(lo + i))
      ensures forall r :: r in RefsOf(dags[i].blocks) <==> r in part[i].blocks
    {
      SubDagRefs(u, part[i], local(lo + i));
    }
    forall r
      ensures r in m <==> CommittedBy(part, r)
    {
      assert r in m <==> CommitGraphs.InSome(dags, r);
    }
    forall r | r in m
      ensures r in u && m[r] == u[r]
    {
      var i :| 0 <= i < |part| && r in part[i].blocks;
      SubDagRefs(u, part[i], local(lo + i));
      var k :| 0 <= k < |part[i].blocks| && part[i].blocks[k] == r;
      assert dags[i].blocks[k] in dags[i].blocks;
    }
  }

  // ----- unbroken chains ----------------------------------------------------------------

  /** Nothing was lost to garbage collection between the blocks of an authority in commits `lo` up to `hi`:
      whenever one of them was committed, its own ancestor was above the GC round. */
  ghost predicate OwnAncestorsKept(u: BlockMap, p: Parameters, commits: seq<TrustedCommit>, lo: nat, hi: nat,
                                   authority: nat) {
    forall k, x :: lo <= k < hi <= |commits| && x in commits[k].blocks && x.author == authority && x in u ==>
      OwnAncestorKept(u, GcRound(p, LastCommit(commits[..k])), x)
  }

  ghost predicate OwnAncestorKept(u: BlockMap, gcRound: nat, x: BlockRef)
    requires x in u
  {
    |u[x].ancestors| > 0 && u[x].ancestors[0] in u ==> u[x].ancestors[0].round > gcRound
  }

  /** After commit `k`, what it and the ones before committed is closed above the GC round before it. */
  lemma ClosedAfter(u: BlockMap, p: Parameters, leaders: seq<BlockRef>, k: nat)
    requires ProperBlocks(p.size, u) && Rising(u, leaders) && k < |leaders|
    ensures var commits := CommitsFor(u, p, leaders);
            && commits[..k] == CommitsFor(u, p, leaders[..k])
            && DoneIsClosed(u, GcRound(p, LastCommit(commits[..k])), AllBlocks(commits[..k + 1]))
            && forall r :: r in commits[k].blocks ==> r in u && r.round > GcRound(p, LastCommit(commits[..k]))
  {
    hide Linearized, DoneIsClosed, GcRound, CommitsFor, NextCommit, AllBlocks, Rising, ProperBlocks, Linked;
    var commits, leader := CommitsFor(u, p, leaders), leaders[k];
    var prior := CommitsFor(u, p, leaders[..k]);
    CommitAt(u, p, leaders, k);
    RisingPart(u, leaders, k);
    CommitsForMeans(u, p, leaders[..k]);
    LeaderComesNext(u, p, leaders, k);
    NextIsProper(u, p, prior, leader);
    AllBlocksOneMore(prior, commits[k]);
  }

  lemma RisingPart(u: BlockMap, leaders: seq<BlockRef>, k: nat)
    requires Rising(u, leaders) && k < |leaders|
    ensures Rising(u, leaders[..k]) && leaders[k] in u
  {
  }

  lemma AllBlocksOneMore(prior: seq<TrustedCommit>, commit: TrustedCommit)
    ensures AllBlocks(prior + [commit]) == AllBlocks(prior) + Members(commit.blocks)
  {
    assert (prior + [commit])[..|prior|] == prior;
  }

  /** Commit `k` is the next one after those of the first `k` leaders. */
  lemma CommitAt(u: BlockMap, p: Parameters, leaders: seq<BlockRef>, k: nat)
    requires k < |leaders|
    ensures var commits, prior := CommitsFor(u, p, leaders), CommitsFor(u, p, leaders[..k]);
            commits[..k] == prior && commits[k] == NextCommit(u, p, prior, leaders[k]) &&
              commits[..k + 1] == prior + [commits[k]]
  {
    hide NextCommit;
    CommitsForPrefix(u, p, leaders, k);
    CommitsForPrefix(u, p, leaders, k + 1);
    assert leaders[..k + 1][..k] == leaders[..k];
  }

  lemma LeaderComesNext(u: BlockMap, p: Parameters, leaders: seq<BlockRef>, k: nat)
    requires ProperBlocks(p.size, u) && Rising(u, leaders) && k < |leaders|
    requires forall i :: 0 <= i < k ==> CommitsFor(u, p, leaders[..k])[i].leader == leaders[..k][i]
    ensures leaders[k].round > LastCommitRound(LastCommit(CommitsFor(u, p, leaders[..k])))
  {
    hide CommitsFor;
    assert ProperBlock(p.size, leaders[k], u[leaders[k]]);
  }

  /** What commit `k` holds: the history of its leader above the GC round that was not committed before. */
  lemma CommitMeans(u: BlockMap, p: Parameters, leaders: seq<BlockRef>, k: nat)
    requires ProperBlocks(p.size, u) && Rising(u, leaders) && k < |leaders|
    ensures var commits := CommitsFor(u, p, leaders);
            && LastCommitRound(LastCommit(commits[..k])) == (if k == 0 then GENESIS_ROUND else leaders[k - 1].round)
            && forall r :: r in commits[k].blocks <==>
                 && r in u && r.round > GcRound(p, LastCommit(commits[..k])) && Reaches(u, leaders[k], r)
                 && !CommittedBy(commits[..k], r)
    ensures var commits := CommitsFor(u, p, leaders);
            forall r :: r in commits[k].blocks <==>
              && r in u && (k == 0 || r.round + p.gcDepth > leaders[k - 1].round) && Reaches(u, leaders[k], r)
              && forall i :: 0 <= i < k ==> r !in commits[i].blocks
  {
    hide Linearized, DoneIsClosed, GcRound, CommitsFor, NextCommit, AllBlocks, Rising, ProperBlocks, Linked;
    var commits, prior := CommitsFor(u, p, leaders), CommitsFor(u, p, leaders[..k]);
    CommitAt(u, p, leaders, k);
    RisingPart(u, leaders, k);
    CommitsForMeans(u, p, leaders[..k]);
    LeaderComesNext(u, p, leaders, k);
    NextIsProper(u, p, prior, leaders[k]);
    AllBlocksMeans(prior);
    forall r | r in u
      ensures r.round > GcRound(p, LastCommit(prior)) <==> k == 0 || r.round + p.gcDepth > leaders[k - 1].round
    {
      IsProposed(p.size, u, r);
      GcRoundIs(p, LastCommit(prior), r.round);
    }
    forall r
      ensures CommittedBy(prior, r) <==> exists i :: 0 <= i < k && r in commits[i].blocks
    {
      assert forall i :: 0 <= i < k ==> prior[i] == commits[i];
    }
  }

  lemma IsProposed(size: nat, u: BlockMap, r: BlockRef)
    requires ProperBlocks(size, u) && r in u
    ensures r.round > GENESIS_ROUND
  {
    assert ProperBlock(size, r, u[r]);
  }

  /** The GC round does not go down from commit to commit. */
  lemma GcRises(u: BlockMap, p: Parameters, leaders: seq<BlockRef>, k: nat, l: nat)
    requires ProperBlocks(p.size, u) && Rising(u, leaders) && k <= l <= |leaders|
    ensures GcRound(p, LastCommit(CommitsFor(u, p, leaders)[..k])) <= GcRound(p,
        LastCommit(CommitsFor(u, p, leaders)[..l]))
  {
    hide CommitsFor, Linearized, ProperBlocks;
    CommitsForMeans(u, p, leaders);
  }

  /** The own ancestor of a committed block that was above the GC round is committed no later. If a block
      further down the chain is still to come, it is itself no earlier than that one. */
  lemma OwnAncestorBuffered(u: BlockMap, p: Parameters, leaders: seq<BlockRef>, k: nat, l: nat, x: BlockRef,
                            y: BlockRef)
    requires ProperBlocks(p.size, u) && Rising(u, leaders) && k < |leaders| && l < |leaders|
    requires x in CommitsFor(u, p, leaders)[k].blocks && y in CommitsFor(u, p, leaders)[l].blocks
    requires x in u && |u[x].ancestors| > 0 && u[x].ancestors[0] in u && Reaches(u, u[x].ancestors[0], y)
    requires OwnAncestorKept(u, GcRound(p, LastCommit(CommitsFor(u, p, leaders)[..k])), x)
    ensures exists j :: l <= j <= k && u[x].ancestors[0] in CommitsFor(u, p, leaders)[j].blocks
  {
    hide CommitsFor, GcRound, NoRepeats, Linked, Linearized, ProperBlocks;
    var commits, own := CommitsFor(u, p, leaders), u[x].ancestors[0];
    ClosedAfter(u, p, leaders, k);
    AllBlocksMeans(commits[..k + 1]);
    assert CommittedBy(commits[..k + 1], x) by {
      assert x in commits[..k + 1][k].blocks;
    }
    assert Closed(u, GcRound(p, LastCommit(commits[..k])), AllBlocks(commits[..k + 1]), x);
    assert own in u[x].ancestors;
    var j :| 0 <= j < |commits[..k + 1]| && own in commits[..k + 1][j].blocks;
    if j < l {
      ClosedAfter(u, p, leaders, j);
      ClosedAfter(u, p, leaders, l);
      GcRises(u, p, leaders, j, l);
      NotCommittedYet(u, p, leaders, j, l, own, y);
    }
  }

  /** Once a block is committed, so is all its history above the GC round. */
  lemma NotCommittedYet(u: BlockMap, p: Parameters, leaders: seq<BlockRef>, j: nat, l: nat, own: BlockRef, y: BlockRef)
    requires ProperBlocks(p.size, u) && Rising(u, leaders) && j < l < |leaders|
    requires own in CommitsFor(u, p, leaders)[j].blocks && y in u && Reaches(u, own, y)
    requires var commits := CommitsFor(u, p, leaders);
             && DoneIsClosed(u, GcRound(p, LastCommit(commits[..j])), AllBlocks(commits[..j + 1]))
             && y.round > GcRound(p, LastCommit(commits[..j]))
    ensures y !in CommitsFor(u, p, leaders)[l].blocks
  {
    hide CommitsFor, GcRound, NoRepeats, Linked, DoneIsClosed;
    var commits := CommitsFor(u, p, leaders);
    AllBlocksMeans(commits[..j + 1]);
    assert own in commits[..j + 1][j].blocks;
    BlocksAreGrounded(p.size, u);
    if y != own {
      ClosedReachesAll(u, GcRound(p, LastCommit(commits[..j])), AllBlocks(commits[..j + 1]), own, y);
    }
    assert CommittedBy(commits[..j + 1], y);
    var i :| 0 <= i < |commits[..j + 1]| && y in commits[..j + 1][i].blocks;
    CommitsForMeans(u, p, leaders);
    assert Succeeds(commits[i], commits[l]);
  }

  /** For an authority whose blocks form one chain, they form one chain in the buffered commits as well, if
      no own ancestor was lost to garbage collection there. Then only its first descendant votes. */
  lemma ChainIsUnbroken(u: BlockMap, p: Parameters, leaders: seq<BlockRef>, local: nat -> bool,
                        lo: nat, hi: nat, authority: nat, m: BlockMap)
    requires ProperBlocks(p.size, u) && Rising(u, leaders) && lo <= hi <= |leaders|
    requires VoteTraversals.Unbroken(u, authority)
    requires OwnAncestorsKept(u, p, CommitsFor(u, p, leaders), lo, hi, authority)
    requires BlocksKnown(u, CommitsFor(u, p, leaders))
    requires CommitGraphs.HoldsExactly(m, SubDags(u, CommitsFor(u, p, leaders), local)[lo..hi])
    ensures VoteTraversals.Unbroken(m, authority)
  {
    hide CommitsFor, CommittedBy, ProperBlocks, OwnAncestorsKept, Rising, SubDags, CommitGraphs.HoldsExactly,
      BlocksKnown;
    UnderOwnRefs(p.size, u);
    HeldIsNetwork(u, CommitsFor(u, p, leaders), local, lo, hi, m);
    forall x, y | x in m && y in m && x.author == authority && y.author == authority && x != y && y.round <= x.round
      ensures m[x].ancestors[0] in m
    {
      StaysInBuffer(u, p, leaders, lo, hi, x, y);
    }
  }

  lemma UnderOwnRefs(size: nat, u: BlockMap)
    requires ProperBlocks(size, u)
    ensures forall r :: r in u ==> u[r].ref == r
  {
  }

  lemma StaysInBuffer(u: BlockMap, p: Parameters, leaders: seq<BlockRef>, lo: nat, hi: nat, x: BlockRef, y: BlockRef)
    requires ProperBlocks(p.size, u) && Rising(u, leaders) && lo <= hi <= |leaders|
    requires VoteTraversals.Unbroken(u, x.author) && OwnAncestorsKept(u, p, CommitsFor(u, p, leaders), lo, hi, x.author)
    requires CommittedBy(CommitsFor(u, p, leaders)[lo..hi], x) && CommittedBy(CommitsFor(u, p, leaders)[lo..hi], y)
    requires x in u && y in u && x.author == y.author && x != y && y.round <= x.round
    ensures |u[x].ancestors| > 0 && CommittedBy(CommitsFor(u, p, leaders)[lo..hi], u[x].ancestors[0])
  {
    hide CommitsFor, GcRound, Linked, ProperBlocks, OwnAncestorKept, Rising, Reaches, VoteTraversals.Unbroken;
    var commits := CommitsFor(u, p, leaders);
    var part := commits[lo..hi];
    var k :| 0 <= k < |part| && x in part[k].blocks;
    var l :| 0 <= l < |part| && y in part[l].blocks;
    assert x in commits[lo + k].blocks && y in commits[lo + l].blocks;
    OwnReaches(p.size, u, x, y);
    OwnAncestorBuffered(u, p, leaders, lo + k, lo + l, x, y);
    var j :| lo + l <= j <= lo + k && u[x].ancestors[0] in commits[j].blocks;
    assert part[j - lo] == commits[j];
  }

  lemma OwnReaches(size: nat, u: BlockMap, x: BlockRef, y: BlockRef)
    requires ProperBlocks(size, u) && VoteTraversals.Unbroken(u, x.author)
    requires x in u && y in u && x.author == y.author && x != y && y.round <= x.round
    ensures |u[x].ancestors| > 0 && u[x].ancestors[0] in u && Reaches(u, u[x].ancestors[0], y)
  {
    BlocksAreGrounded(size, u);
    VoteTraversals.UnbrokenChain(u, u[x].ancestors[0], y);
    ChainReaches(u, u[x].ancestors[0], y);
  }

  lemma {:induction false} ChainReaches(m: BlockMap, x: BlockRef, y: BlockRef)
    requires Grounded(m) && CommitRules.OwnChain(m, x, y)
    ensures Reaches(m, x, y)
    decreases x.round
  {
    if x != y {
      ChainReaches(m, m[x].ancestors[0], y);
    }
  }
}
