/** The committer of one wave pipeline stage: the loops that evaluate the commit rule. */
module Committers {
  import opened Committees
  import opened StakeAggregators
  import opened Dags
  import opened CommitRules
  import opened Agreement

  /** Which leaders a committer is responsible for. */
  datatype Options = Options(leaderOffset: nat, roundOffset: nat) {

    function WaveNumber(round: nat): nat {
      (if round < roundOffset then 0 else round - roundOffset) / WAVE_LENGTH
    }

    function LeaderRound(wave: nat): nat {
      wave * WAVE_LENGTH + roundOffset
    }

    function DecisionRound(wave: nat): nat {
      wave * WAVE_LENGTH + WAVE_LENGTH - 1 + roundOffset
    }

    /** The committer elects a leader only in the first round of a wave. */
    predicate HasLeader(round: nat) {
      LeaderRound(WaveNumber(round)) == round
    }
  }

  /** Whatever the offset, an elected leader is decided two rounds later. */
  lemma DecisionFollowsLeader(o: Options, round: nat)
    requires o.HasLeader(round)
    ensures o.DecisionRound(o.WaveNumber(round)) == round + 2
  {
  }

  /** From its round offset on, a committer elects a leader in every third round. */
  lemma ElectsEveryThirdRound(o: Options, round: nat)
    ensures o.HasLeader(round) <==> o.roundOffset <= round && (round - o.roundOffset) % 3 == 0
  {
  }

  // ----- certificates -------------------------------------------------------------------

  /** The cache holds answers about votes for one leader block. */
  ghost predicate CacheFor(dag: BlockMap, leader: BlockRef, cache: map<BlockRef, bool>)
    requires Grounded(dag) && CompleteAbove(dag, leader.round)
  {
    forall r :: r in cache ==> (cache[r] <==> IsVoteRef(dag, r, leader))
  }

  ghost function VotersUpTo(dag: BlockMap, cert: Block, leader: BlockRef, n: nat): set<nat>
    requires Grounded(dag) && CompleteAbove(dag, leader.round) && n <= |cert.ancestors|
  {
    set i | 0 <= i < n && IsVoteRef(dag, cert.ancestors[i], leader) :: cert.ancestors[i].author
  }

  /** Looks a vote up in the cache, or evaluates and remembers it. */
  method CachedVote(c: Committee, v: View, holder: BlockRef, i: nat, leader: BlockRef, allVotes: map<BlockRef, bool>)
    returns (isVote: bool, cache: map<BlockRef, bool>)
    requires Sees(c, v, leader.round) && Grounded(v.dag) && holder in v.dag && i < |v.dag[holder].ancestors|
    requires CacheFor(v.dag, leader, allVotes)
    ensures isVote <==> IsVoteRef(v.dag, v.dag[holder].ancestors[i], leader)
    ensures CacheFor(v.dag, leader, cache)
  {
    var reference := v.dag[holder].ancestors[i];
    cache := allVotes;
    if reference in cache {
      isVote := cache[reference];
    } else {
      if reference in v.dag {
        isVote := IsVote(v.dag, v.dag[reference], leader);
      } else {
        assert reference.round <= v.floor;
        isVote := false;
      }
      cache := cache[reference := isVote];
    }
  }

  /** Decides whether a block certifies the leader, sharing the vote cache and stopping as soon as
      a quorum of voters is seen. */
  method IsCertificate(c: Committee, v: View, cert: BlockRef, leader: BlockRef, allVotes: map<BlockRef, bool>)
    returns (certified: bool, cache: map<BlockRef, bool>)
    requires Sees(c, v, leader.round) && Grounded(v.dag) && cert in v.dag
    requires CacheFor(v.dag, leader, allVotes)
    ensures certified <==> Certifies(c, v, cert, leader)
    ensures CacheFor(v.dag, leader, cache)
  {
    cache := allVotes;
    var block := v.dag[cert];
    assert Verified(c, block);
    var aggregator := new StakeAggregator(c);
    NoStakeInNobody(c, |c.stakes|);
    for i := 0 to |block.ancestors|
      invariant CacheFor(v.dag, leader, cache)
      invariant aggregator.Valid() && aggregator.committee == c && fresh(aggregator)
      invariant aggregator.votes == VotersUpTo(v.dag, block, leader, i)
      invariant !c.IsQuorum(aggregator.votes)
    {
      var isVote;
      isVote, cache := CachedVote(c, v, cert, i, leader, cache);
      assert VotersUpTo(v.dag, block, leader, i + 1) ==
             VotersUpTo(v.dag, block, leader, i) + (if isVote then {block.ancestors[i].author} else {});
      if isVote {
        var reached := aggregator.Add(block.ancestors[i].author);
        if reached {
          StakeMonotone(c, aggregator.votes, VotersIn(v.dag, block, leader));
          return true, cache;
        }
      }
    }
    assert VotersUpTo(v.dag, block, leader, |block.ancestors|) == VotersIn(v.dag, block, leader);
    certified := false;
  }

  // ----- direct decision ----------------------------------------------------------------

  /** All blocks held at a round, in ascending order. */
  method BlocksAtRound(dag: BlockMap, round: nat) returns (q: seq<BlockRef>)
    ensures forall r :: r in q <==> r in dag && r.round == round
    ensures StrictlyAscending(q)
  {
    q := Ascending(set r | r in dag && r.round == round);
  }

  /** All blocks held at a slot, in ascending order; faulty leaders may have several. */
  method BlocksAtSlot(dag: BlockMap, slot: Slot) returns (q: seq<BlockRef>)
    ensures forall r :: r in dag && SlotOf(r) == slot ==> r in q
    ensures forall i :: 0 <= i < |q| ==> q[i] in dag && SlotOf(q[i]) == slot
    ensures StrictlyAscending(q)
  {
    q := Ascending(set r | r in dag && SlotOf(r) == slot);
    assert forall i :: 0 <= i < |q| ==> q[i] in q;
  }

  /** True exactly when authors of voting-round blocks without a link to the leader hold a quorum. */
  method EnoughLeaderBlame(c: Committee, v: View, slot: Slot) returns (blamed: bool)
    requires GoodView(c, v)
    ensures blamed <==> Blamed(c, v, slot)
    ensures blamed <==>
            c.IsQuorum(set r | r in v.dag && r.round == slot.round + 1
                         && (forall i :: 0 <= i < |v.dag[r].ancestors| ==>
                               v.dag[r].ancestors[i].author != slot.authority)
                         :: r.author)
  {
    BlamersAre(v, slot);
    var votingBlocks := BlocksAtRound(v.dag, slot.round + 1);
    var aggregator := new StakeAggregator(c);
    ghost var blames := Blames(v, slot);
    NoStakeInNobody(c, |c.stakes|);
    for i := 0 to |votingBlocks|
      invariant aggregator.Valid() && aggregator.committee == c && fresh(aggregator)
      invariant aggregator.votes == AuthorsIn(votingBlocks[..i], blames)
      invariant !c.IsQuorum(aggregator.votes)
    {
      var r := votingBlocks[i];
      assert r in v.dag && Verified(c, v.dag[r]);
      AuthorsInStep(votingBlocks, blames, i);
      if !LinksToAuthor(v.dag[r], slot.authority) {
        var reached := aggregator.Add(r.author);
        if reached {
          StakeMonotone(c, aggregator.votes, AuthorsOf(blames));
          return true;
        }
      }
    }
    AuthorsInWhole(votingBlocks, blames);
    blamed := false;
  }

  function StakeSum(c: Committee, q: seq<BlockRef>): nat
    requires forall i :: 0 <= i < |q| ==> c.IsValidIndex(q[i].author)
  {
    if q == [] then 0
    else
      var last := q[|q| - 1];
      assert c.IsValidIndex(last.author);
      StakeSum(c, q[..|q| - 1]) + c.stakes[last.author]
  }

  /** Counting every block bounds the stake of any set of their distinct authors. */
  lemma {:induction false} StakeSumBounds(c: Committee, q: seq<BlockRef>, keep: set<BlockRef>)
    requires forall i :: 0 <= i < |q| ==> c.IsValidIndex(q[i].author)
    ensures c.StakeOf(AuthorsIn(q, keep)) <= StakeSum(c, q)
  {
    if q == [] {
      NoStakeInNobody(c, |c.stakes|);
      assert AuthorsIn(q, keep) == {};
    } else {
      var n := |q| - 1;
      StakeSumBounds(c, q[..n], keep);
      AuthorsInStep(q, keep, n);
      assert q[..n + 1] == q;
      var before := AuthorsIn(q[..n], keep);
      if q[n] in keep && q[n].author !in before {
        StakeInsert(c, before, q[n].author);
      } else {
        assert AuthorsIn(q, keep) == before;
      }
    }
  }

  /** True exactly when distinct authors of decision-round certificates for the leader hold a
      quorum. Quickly rejects when all decision blocks together, equivocations included, cannot. */
  method EnoughLeaderSupport(c: Committee, v: View, decisionRound: nat, leader: BlockRef) returns (supported: bool)
    requires Sees(c, v, leader.round) && Grounded(v.dag) && decisionRound == leader.round + 2
    ensures supported <==> Supported(c, v, leader)
  {
    var decisionBlocks := BlocksAtRound(v.dag, decisionRound);
    ghost var certificates := Certificates(c, v, leader);
    AuthorsInWhole(decisionBlocks, certificates);
    forall i | 0 <= i < |decisionBlocks|
      ensures c.IsValidIndex(decisionBlocks[i].author)
    {
      assert decisionBlocks[i] in v.dag && Verified(c, v.dag[decisionBlocks[i]]);
    }
    if !c.ReachedQuorum(StakeSum(c, decisionBlocks)) {
      StakeSumBounds(c, decisionBlocks, certificates);
      assert decisionBlocks[..|decisionBlocks|] == decisionBlocks;
      return false;
    }
    supported := CountCertificates(c, v, decisionBlocks, leader, certificates);
  }

  method CountCertificates(c: Committee, v: View, decisionBlocks: seq<BlockRef>, leader: BlockRef,
                           ghost certificates: set<BlockRef>)
    returns (supported: bool)
    requires Sees(c, v, leader.round) && Grounded(v.dag)
    requires forall r :: r in decisionBlocks <==> r in v.dag && r.round == leader.round + 2
    requires forall i :: 0 <= i < |decisionBlocks| ==> c.IsValidIndex(decisionBlocks[i].author)
    requires certificates == Certificates(c, v, leader)
    ensures supported <==> Supported(c, v, leader)
  {
    AuthorsInWhole(decisionBlocks, certificates);
    var aggregator := new StakeAggregator(c);
    var allVotes := map[];
    NoStakeInNobody(c, |c.stakes|);
    for i := 0 to |decisionBlocks|
      invariant CacheFor(v.dag, leader, allVotes)
      invariant aggregator.Valid() && aggregator.committee == c && fresh(aggregator)
      invariant aggregator.votes == AuthorsIn(decisionBlocks[..i], certificates)
      invariant !c.IsQuorum(aggregator.votes)
    {
      var block := decisionBlocks[i];
      AuthorsInStep(decisionBlocks, certificates, i);
      var certified;
      certified, allVotes := IsCertificate(c, v, block, leader, allVotes);
      if certified {
        var reached := aggregator.Add(block.author);
        if reached {
          StakeMonotone(c, aggregator.votes, AuthorsOf(certificates));
          return true;
        }
      }
    }
    supported := false;
  }

  /** The direct rule. Under the fault bound at most one leader block has enough support, so the
      source's panic on several candidates is never reached. */
  method TryDirectDecide(ghost n: Network, c: Committee, v: View, options: Options, slot: Slot)
    returns (st: LeaderStatus)
    requires GoodNetwork(n) && c == n.committee && ViewOf(n, v, slot.round) && options.HasLeader(slot.round)
    ensures DirectlyDecides(c, v, slot, st)
    ensures st.Skip? <==>
            c.IsQuorum(set r | r in v.dag && r.round == slot.round + 1
                         && (forall i :: 0 <= i < |v.dag[r].ancestors| ==>
                               v.dag[r].ancestors[i].author != slot.authority)
                         :: r.author)
    ensures !st.Skip? ==>
            forall leader :: leader in v.dag && leader.round == slot.round && leader.author == slot.authority ==>
              (st == Commit(leader) <==>
               c.IsQuorum(set r | r in v.dag && r.round == slot.round + 2
                            && c.IsQuorum(set i | 0 <= i < |v.dag[r].ancestors| && v.dag[r].ancestors[i] in v.dag
                                            && v.dag[r].ancestors[i].round == slot.round + 1
                                            && leader in v.dag[v.dag[r].ancestors[i]].ancestors
                                            :: v.dag[r].ancestors[i].author)
                            :: r.author))
  {
    BlamersAre(v, slot);
    forall leader | leader in v.dag && leader.round == slot.round && leader.author == slot.authority
      ensures Supported(c, v, leader) <==>
              c.IsQuorum(set r | r in v.dag && r.round == slot.round + 2
                           && c.IsQuorum(set i | 0 <= i < |v.dag[r].ancestors| && v.dag[r].ancestors[i] in v.dag
                                           && v.dag[r].ancestors[i].round == slot.round + 1
                                           && leader in v.dag[v.dag[r].ancestors[i]].ancestors
                                           :: v.dag[r].ancestors[i].author)
                           :: r.author)
    {
      SupportIs(c, v, leader);
    }
    hide Supported, Blames;
    var blamed := EnoughLeaderBlame(c, v, slot);
    if blamed {
      return Skip(slot);
    }
    DecisionFollowsLeader(options, slot.round);
    WellFormedIsGrounded(c, v.dag);
    var decisionRound := options.DecisionRound(options.WaveNumber(slot.round));
    OneSupportedLeader(n, v, slot);
    st := PickSupported(c, v, decisionRound, slot);
    assert forall r :: IsCandidate(v, slot, r) && Supported(c, v, r) ==> r in SupportedLeaders(c, v, slot);
  }

  /** Collects the leader blocks with enough support. */
  method PickSupported(c: Committee, v: View, decisionRound: nat, slot: Slot) returns (st: LeaderStatus)
    requires Sees(c, v, slot.round) && Grounded(v.dag) && decisionRound == slot.round + 2
    requires AtMostOne(SupportedLeaders(c, v, slot))
    ensures match st
            case Commit(leader) => leader in SupportedLeaders(c, v, slot)
            case Undecided(s) => s == slot && SupportedLeaders(c, v, slot) == {}
            case Skip(_) => false
  {
    var leaderBlocks := BlocksAtSlot(v.dag, slot);
    ghost var good := SupportedLeaders(c, v, slot);
    var supported: seq<BlockRef> := [];
    for i := 0 to |leaderBlocks|
      invariant supported == [] || (|supported| == 1 && supported[0] in leaderBlocks[..i] && supported[0] in good)
      invariant forall k :: 0 <= k < i && leaderBlocks[k] in good ==> leaderBlocks[k] in supported
    {
      AscendingHasNoRepeats(leaderBlocks, i);
      var enough := EnoughLeaderSupport(c, v, decisionRound, leaderBlocks[i]);
      if enough {
        assert leaderBlocks[i] in good;
        supported := supported + [leaderBlocks[i]];
      }
    }
    assert |supported| <= 1;
    if |supported| == 1 {
      return Commit(supported[0]);
    }
    assert good == {};
    return Undecided(slot);
  }

  ghost predicate AtMostOne(s: set<BlockRef>) {
    forall a, b :: a in s && b in s ==> a == b
  }

  ghost function SupportedLeaders(c: Committee, v: View, slot: Slot): set<BlockRef>
    requires Sees(c, v, slot.round)
  {
    set r | r in v.dag && SlotOf(r) == slot && Supported(c, v, r)
  }

  lemma OneSupportedLeader(n: Network, v: View, slot: Slot)
    requires GoodNetwork(n) && ViewOf(n, v, slot.round)
    ensures AtMostOne(SupportedLeaders(n.committee, v, slot))
  {
    forall a, b | a in SupportedLeaders(n.committee, v, slot) && b in SupportedLeaders(n.committee, v, slot)
      ensures a == b
    {
      SupportedIsUnique(n, v, a, v, b);
    }
  }

  // ----- indirect decision --------------------------------------------------------------

  ghost predicate CertifiedAmong(c: Committee, v: View, potential: set<BlockRef>, leader: BlockRef)
    requires Sees(c, v, leader.round)
  {
    exists cert :: cert in potential && Certifies(c, v, cert, leader)
  }

  /** Is any of the potential certificates a certificate for the leader? */
  method AnyCertificate(c: Committee, v: View, potential: seq<BlockRef>, leader: BlockRef) returns (found: bool)
    requires Sees(c, v, leader.round) && Grounded(v.dag)
    requires forall i :: 0 <= i < |potential| ==> potential[i] in v.dag
    ensures found <==> CertifiedAmong(c, v, (set r | r in potential), leader)
  {
    var allVotes := map[];
    for i := 0 to |potential|
      invariant CacheFor(v.dag, leader, allVotes)
      invariant forall k :: 0 <= k < i ==> !Certifies(c, v, potential[k], leader)
    {
      var certified;
      certified, allVotes := IsCertificate(c, v, potential[i], leader, allVotes);
      if certified {
        assert potential[i] in set r | r in potential;
        return true;
      }
    }
    found := false;
  }

  /** Decides a slot from a committed anchor: commit the certified leader block if there is one,
      otherwise skip. The panic on several certified blocks is never reached. */
  method DecideLeaderFromAnchor(ghost n: Network, c: Committee, v: View, options: Options, anchor: BlockRef, slot: Slot)
    returns (st: LeaderStatus)
    requires GoodNetwork(n) && c == n.committee && ViewOf(n, v, slot.round)
    requires options.HasLeader(slot.round) && anchor in v.dag
    ensures AnchorDecides(c, v, anchor, slot, st)
    ensures st == Skip(slot) || st.Commit?
    ensures forall leader :: leader in v.dag && leader.round == slot.round && leader.author == slot.authority ==>
              (st == Commit(leader) <==>
               exists r :: r in v.dag && r.round == slot.round + 2 && Linked(v.dag, anchor, r)
                 && c.IsQuorum(set i | 0 <= i < |v.dag[r].ancestors| && v.dag[r].ancestors[i] in v.dag
                                 && v.dag[r].ancestors[i].round == slot.round + 1
                                 && leader in v.dag[v.dag[r].ancestors[i]].ancestors
                                 :: v.dag[r].ancestors[i].author))
  {
    hide Certifies;
    DecisionFollowsLeader(options, slot.round);
    WellFormedIsGrounded(c, v.dag);
    var decisionRound := options.DecisionRound(options.WaveNumber(slot.round));
    var found := AncestorsAtRound(v.dag, anchor, decisionRound);
    forall r | r in found
      ensures r in v.dag
    {
      LinkedAgrees(v.dag, v.dag, v.floor, anchor, r);
    }
    LinksAmongAncestors(c, v, anchor, slot, found);
    OneCertifiedLeader(n, v, anchor, slot, found);
    st := PickCertified(c, v, slot, found);
    AnchorDecisionIs(n, v, anchor, slot, st);
  }

  /** Deciding from an anchor spelled out: the one leader block with a certificate in the anchor's history. */
  lemma AnchorDecisionIs(n: Network, v: View, anchor: BlockRef, slot: Slot, st: LeaderStatus)
    requires GoodNetwork(n) && ViewOf(n, v, slot.round) && AnchorDecides(n.committee, v, anchor, slot, st)
    ensures st == Skip(slot) || st.Commit?
    ensures forall leader :: leader in v.dag && leader.round == slot.round && leader.author == slot.authority ==>
              (st == Commit(leader) <==>
               exists r :: r in v.dag && r.round == slot.round + 2 && Linked(v.dag, anchor, r)
                 && n.committee.IsQuorum(set i | 0 <= i < |v.dag[r].ancestors| && v.dag[r].ancestors[i] in v.dag
                                           && v.dag[r].ancestors[i].round == slot.round + 1
                                           && leader in v.dag[v.dag[r].ancestors[i]].ancestors
                                           :: v.dag[r].ancestors[i].author))
  {
    hide GoodNetwork, Linked, CertifiedLink, GoodView;
    forall leader | leader in v.dag && leader.round == slot.round && leader.author == slot.authority
      ensures st == Commit(leader) <==> CertifiedLink(n.committee, v, anchor, leader)
      ensures CertifiedLink(n.committee, v, anchor, leader) <==>
              exists r :: r in v.dag && r.round == slot.round + 2 && Linked(v.dag, anchor, r)
                && n.committee.IsQuorum(set i | 0 <= i < |v.dag[r].ancestors| && v.dag[r].ancestors[i] in v.dag
                                          && v.dag[r].ancestors[i].round == slot.round + 1
                                          && leader in v.dag[v.dag[r].ancestors[i]].ancestors
                                          :: v.dag[r].ancestors[i].author)
    {
      CertifiedLinkIs(n.committee, v, anchor, leader);
      assert IsCandidate(v, slot, leader);
      if st.Commit? && CertifiedLink(n.committee, v, anchor, leader) {
        CertifiedLinkIsUnique(n, v, anchor, leader, v, anchor, st.leader);
      }
    }
  }

  ghost function CertifiedLeaders(c: Committee, v: View, slot: Slot, potential: set<BlockRef>): set<BlockRef>
    requires Sees(c, v, slot.round)
  {
    set r | r in v.dag && SlotOf(r) == slot && CertifiedAmong(c, v, potential, r)
  }

  lemma LinksAmongAncestors(c: Committee, v: View, anchor: BlockRef, slot: Slot, found: set<BlockRef>)
    requires Sees(c, v, slot.round)
    requires forall x :: x in found <==> Linked(v.dag, anchor, x) && x.round == slot.round + 2
    ensures forall r :: IsCandidate(v, slot, r) ==>
      (CertifiedLink(c, v, anchor, r) <==> r in CertifiedLeaders(c, v, slot, found))
  {
    forall r | IsCandidate(v, slot, r)
      ensures CertifiedLink(c, v, anchor, r) <==> CertifiedAmong(c, v, found, r)
    {
    }
  }

  lemma OneCertifiedLeader(n: Network, v: View, anchor: BlockRef, slot: Slot, found: set<BlockRef>)
    requires GoodNetwork(n) && ViewOf(n, v, slot.round)
    requires forall r :: IsCandidate(v, slot, r) ==>
      (CertifiedLink(n.committee, v, anchor, r) <==> r in CertifiedLeaders(n.committee, v, slot, found))
    ensures AtMostOne(CertifiedLeaders(n.committee, v, slot, found))
  {
    var leaders := CertifiedLeaders(n.committee, v, slot, found);
    forall a, b | a in leaders && b in leaders
      ensures a == b
    {
      assert IsCandidate(v, slot, a) && IsCandidate(v, slot, b);
      CertifiedLinkIsUnique(n, v, anchor, a, v, anchor, b);
    }
  }

  /** Collects the leader blocks certified by one of the potential certificates. */
  method PickCertified(c: Committee, v: View, slot: Slot, found: set<BlockRef>) returns (st: LeaderStatus)
    requires Sees(c, v, slot.round) && Grounded(v.dag)
    requires forall r :: r in found ==> r in v.dag
    requires AtMostOne(CertifiedLeaders(c, v, slot, found))
    ensures match st
            case Commit(leader) => leader in CertifiedLeaders(c, v, slot, found)
            case Skip(s) => s == slot && CertifiedLeaders(c, v, slot, found) == {}
            case Undecided(_) => false
  {
    var leaderBlocks := BlocksAtSlot(v.dag, slot);
    var potential := Ascending(found);
    assert found == set r | r in potential;
    assert forall i :: 0 <= i < |potential| ==> potential[i] in potential;
    ghost var good := CertifiedLeaders(c, v, slot, found);
    var certified: seq<BlockRef> := [];
    for i := 0 to |leaderBlocks|
      invariant certified == [] || (|certified| == 1 && certified[0] in leaderBlocks[..i] && certified[0] in good)
      invariant forall k :: 0 <= k < i && leaderBlocks[k] in good ==> leaderBlocks[k] in certified
    {
      AscendingHasNoRepeats(leaderBlocks, i);
      var linked := AnyCertificate(c, v, potential, leaderBlocks[i]);
      if linked {
        assert leaderBlocks[i] in good;
        certified := certified + [leaderBlocks[i]];
      }
    }
    assert |certified| <= 1;
    if |certified| == 1 {
      return Commit(certified[0]);
    }
    assert good == {};
    return Skip(slot);
  }

  /** The indirect rule: scan later leaders for the anchor, stopping at an undecided one. */
  method TryIndirectDecide(ghost n: Network, c: Committee, v: View, options: Options, slot: Slot,
                           leaders: seq<LeaderStatus>)
    returns (st: LeaderStatus)
    requires GoodNetwork(n) && c == n.committee && ViewOf(n, v, slot.round) && options.HasLeader(slot.round)
    requires forall k :: 0 <= k < |leaders| && leaders[k].Commit? ==> leaders[k].leader in v.dag
    ensures IndirectlyDecides(c, v, slot, leaders, st)
    ensures forall p :: 0 <= p < |leaders| && leaders[p].Commit? && slot.round + 3 <= leaders[p].leader.round
              && (forall k :: 0 <= k < p ==> leaders[k].Skip? || leaders[k].Slot().round < slot.round + 3)
              ==> AnchorDecides(c, v, leaders[p].leader, slot, st)
    ensures (forall p :: 0 <= p < |leaders| && leaders[p].Commit? && slot.round + 3 <= leaders[p].leader.round ==>
               exists k :: 0 <= k < p && !leaders[k].Skip? && slot.round + 3 <= leaders[k].Slot().round)
            ==> st == Undecided(slot)
  {
    var minRound := slot.round + WAVE_LENGTH;
    for i := 0 to |leaders|
      invariant FindAnchor(leaders, minRound) == FindAnchor(leaders[i..], minRound)
      invariant forall k :: 0 <= k < i ==> leaders[k].Skip? || leaders[k].Slot().round < minRound
    {
      assert leaders[i..][0] == leaders[i] && leaders[i..][1..] == leaders[i + 1..];
      if minRound <= leaders[i].Slot().round {
        match leaders[i]
        case Commit(anchor) =>
          st := DecideLeaderFromAnchor(n, c, v, options, anchor, slot);
          return;
        case Skip(_) =>
        case Undecided(_) =>
          return Undecided(slot);
      }
    }
    return Undecided(slot);
  }
}
