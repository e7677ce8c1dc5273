/** The commit rule over a local view of the DAG: votes, certificates, blame, and what the direct
    and indirect decisions mean. */
module CommitRules {
  import opened Committees
  import opened Dags

  /** One leader round, one voting round and one decision round. */
  const WAVE_LENGTH: nat := 3

  datatype LeaderStatus = Commit(leader: BlockRef) | Skip(slot: Slot) | Undecided(slot: Slot) {
    function Slot(): Slot {
      match this
      case Commit(leader) => SlotOf(leader)
      case Skip(slot) => slot
      case Undecided(slot) => slot
    }

    predicate IsDecided() {
      !Undecided?
    }
  }

  /** How many of the first `k` decisions are commits. */
  ghost function CommitsBefore(log: seq<LeaderStatus>, k: nat): nat
    requires k <= |log|
  {
    |set j | 0 <= j < k && log[j].Commit?|
  }

  lemma NoCommitsBefore(log: seq<LeaderStatus>)
    ensures CommitsBefore(log, 0) == 0
  {
  }

  lemma CommitsBeforeStep(log: seq<LeaderStatus>, k: nat)
    requires k < |log|
    ensures CommitsBefore(log, k + 1) == CommitsBefore(log, k) + if log[k].Commit? then 1 else 0
  {
    var before, after := set j | 0 <= j < k && log[j].Commit?, set j | 0 <= j < k + 1 && log[j].Commit?;
    assert after == before + if log[k].Commit? then {k} else {};
  }

  /** The blocks an authority holds; everything at or below `floor` may be garbage collected. */
  datatype View = View(dag: BlockMap, floor: nat)

  ghost predicate GoodView(c: Committee, v: View) {
    WellFormed(c, v.dag) && CompleteAbove(v.dag, v.floor)
  }

  /** The committer reads only rounds from the leader's upward. */
  ghost predicate Sees(c: Committee, v: View, round: nat) {
    GoodView(c, v) && v.floor < round
  }

  lemma WellFormedIsGrounded(c: Committee, dag: BlockMap)
    requires WellFormed(c, dag)
    ensures Grounded(dag)
  {
    forall r | r in dag
      ensures LowerRounds(dag[r])
    {
      assert Verified(c, dag[r]);
    }
  }

  // ----- votes --------------------------------------------------------------------------

  /** The block at `slot` that `b` supports: the first one met when links are followed depth
      first, in the order the block lists them. */
  function FindSupportedBlock(dag: BlockMap, slot: Slot, b: Block): Option<BlockRef>
    requires Grounded(dag) && CompleteAbove(dag, slot.round) && b.ref in dag && dag[b.ref] == b
    decreases b.ref.round, |b.ancestors| + 1
  {
    if b.ref.round < slot.round then None else ScanAncestors(dag, slot, b, 0)
  }

  function ScanAncestors(dag: BlockMap, slot: Slot, b: Block, i: nat): Option<BlockRef>
    requires Grounded(dag) && CompleteAbove(dag, slot.round) && b.ref in dag && dag[b.ref] == b
    requires i <= |b.ancestors|
    decreases b.ref.round, |b.ancestors| - i
  {
    if i == |b.ancestors| then None
    else
      var a := b.ancestors[i];
      if SlotOf(a) == slot then Some(a)
      else if a.round <= slot.round then ScanAncestors(dag, slot, b, i + 1)
      else
        var support := FindSupportedBlock(dag, slot, dag[a]);
        if support.Some? then support else ScanAncestors(dag, slot, b, i + 1)
  }

  predicate IsVote(dag: BlockMap, b: Block, leader: BlockRef)
    requires Grounded(dag) && CompleteAbove(dag, leader.round) && b.ref in dag && dag[b.ref] == b
  {
    FindSupportedBlock(dag, SlotOf(leader), b) == Some(leader)
  }

  /** A vote by reference: a block that is no longer stored does not vote. */
  predicate IsVoteRef(dag: BlockMap, r: BlockRef, leader: BlockRef)
    requires Grounded(dag) && CompleteAbove(dag, leader.round)
  {
    r in dag && IsVote(dag, dag[r], leader)
  }

  /** `descendant` is reached from `b` by own-ancestor links only. */
  ghost predicate OwnChain(dag: BlockMap, descendant: BlockRef, b: BlockRef)
    requires Grounded(dag)
    decreases descendant.round
  {
    && descendant in dag
    && (descendant == b
        || (|dag[descendant].ancestors| > 0 && OwnChain(dag, dag[descendant].ancestors[0], b)))
  }

  lemma {:induction false} OwnChainRounds(dag: BlockMap, descendant: BlockRef, b: BlockRef)
    requires Grounded(dag) && OwnChain(dag, descendant, b)
    ensures b.round <= descendant.round && b in dag
    decreases descendant.round
  {
    if descendant != b {
      OwnChainRounds(dag, dag[descendant].ancestors[0], b);
    }
  }

  /** A way down through stored blocks along own ancestors only. */
  ghost predicate IsOwnPath(dag: BlockMap, path: seq<BlockRef>) {
    && |path| >= 1 && (forall i :: 0 <= i < |path| ==> path[i] in dag)
    && forall i :: 0 <= i < |path| - 1 ==> |dag[path[i]].ancestors| > 0 && dag[path[i]].ancestors[0] == path[i + 1]
  }

  /** A block builds on another exactly when first ancestors lead down to it. */
  lemma OwnChainIsPath(dag: BlockMap, x: BlockRef, z: BlockRef)
    requires Grounded(dag)
    ensures OwnChain(dag, x, z) <==> exists path :: IsOwnPath(dag, path) && path[0] == x && path[|path| - 1] == z
  {
    if OwnChain(dag, x, z) {
      var path := OwnPathTo(dag, x, z);
    }
    if path :| IsOwnPath(dag, path) && path[0] == x && path[|path| - 1] == z {
      OwnPathChains(dag, path);
    }
  }

  lemma {:induction false} OwnPathTo(dag: BlockMap, x: BlockRef, z: BlockRef) returns (path: seq<BlockRef>)
    requires Grounded(dag) && OwnChain(dag, x, z)
    ensures IsOwnPath(dag, path) && path[0] == x && path[|path| - 1] == z
    decreases x.round
  {
    if x == z {
      path := [x];
    } else {
      var rest := OwnPathTo(dag, dag[x].ancestors[0], z);
      path := [x] + rest;
    }
  }

  lemma {:induction false} OwnPathChains(dag: BlockMap, path: seq<BlockRef>)
    requires Grounded(dag) && IsOwnPath(dag, path)
    ensures OwnChain(dag, path[0], path[|path| - 1])
    decreases |path|
  {
    if |path| > 1 {
      assert IsOwnPath(dag, path[1..]);
      OwnPathChains(dag, path[1..]);
    }
  }

  /** Once a block supports a leader, every later block on its author's own chain supports the
      same leader, over any number of rounds. */
  lemma {:induction false} SupportPersists(dag: BlockMap, slot: Slot, descendant: BlockRef, b: BlockRef)
    requires Grounded(dag) && CompleteAbove(dag, slot.round) && OwnChain(dag, descendant, b)
    requires b in dag && FindSupportedBlock(dag, slot, dag[b]).Some?
    ensures FindSupportedBlock(dag, slot, dag[descendant]) == FindSupportedBlock(dag, slot, dag[b])
    decreases descendant.round
  {
    if descendant != b {
      var own := dag[descendant].ancestors[0];
      OwnChainRounds(dag, own, b);
      SupportNeedsHigherRound(dag, slot, dag[b], 0);
      SupportPersists(dag, slot, own, b);
    }
  }

  lemma {:induction false} SupportNeedsHigherRound(dag: BlockMap, slot: Slot, b: Block, i: nat)
    requires Grounded(dag) && CompleteAbove(dag, slot.round) && b.ref in dag && dag[b.ref] == b
    requires i <= |b.ancestors|
    ensures ScanAncestors(dag, slot, b, i).Some? ==> b.ref.round > slot.round
    decreases |b.ancestors| - i
  {
    if i < |b.ancestors| {
      SupportNeedsHigherRound(dag, slot, b, i + 1);
    }
  }

  lemma {:induction false} ScanAtNextRound(dag: BlockMap, leader: BlockRef, b: Block, i: nat)
    requires Grounded(dag) && CompleteAbove(dag, leader.round) && b.ref in dag && dag[b.ref] == b
    requires b.ref.round <= leader.round + 1 && DistinctAuthors(b.ancestors) && i <= |b.ancestors|
    ensures ScanAncestors(dag, SlotOf(leader), b, i) == Some(leader) <==> leader in b.ancestors[i..]
    decreases |b.ancestors| - i
  {
    if i < |b.ancestors| {
      ScanAtNextRound(dag, leader, b, i + 1);
      assert b.ancestors[i..] == [b.ancestors[i]] + b.ancestors[i + 1..];
    }
  }

  /** Up to the round after the leader's, voting for a leader is the same as linking to it. */
  lemma VoteIsLinkAtNextRound(c: Committee, v: View, leader: BlockRef, r: BlockRef)
    requires Sees(c, v, leader.round) && Grounded(v.dag) && r in v.dag && r.round <= leader.round + 1
    ensures IsVoteRef(v.dag, r, leader) <==> leader in v.dag[r].ancestors
  {
    var b := v.dag[r];
    assert Verified(c, b);
    ScanAtNextRound(v.dag, leader, b, 0);
    assert b.ancestors[0..] == b.ancestors;
  }

  // ----- certificates, support and blame ------------------------------------------------

  ghost function VotersIn(dag: BlockMap, cert: Block, leader: BlockRef): set<nat>
    requires Grounded(dag) && CompleteAbove(dag, leader.round)
  {
    set i | 0 <= i < |cert.ancestors| && IsVoteRef(dag, cert.ancestors[i], leader) :: cert.ancestors[i].author
  }

  /** A block whose ancestors include votes for the leader from a quorum of distinct authors. */
  ghost predicate Certifies(c: Committee, v: View, cert: BlockRef, leader: BlockRef)
    requires Sees(c, v, leader.round)
  {
    WellFormedIsGrounded(c, v.dag);
    cert in v.dag && c.IsQuorum(VotersIn(v.dag, v.dag[cert], leader))
  }

  /** In the decision round, a block certifies a leader exactly when the authors of its ancestors of the voting
      round that link to the leader hold a quorum. */
  lemma CertificateIs(c: Committee, v: View, cert: BlockRef, leader: BlockRef)
    requires Sees(c, v, leader.round) && cert in v.dag && cert.round == leader.round + 2
    ensures Certifies(c, v, cert, leader) <==>
            c.IsQuorum(set i | 0 <= i < |v.dag[cert].ancestors| && v.dag[cert].ancestors[i] in v.dag
                         && v.dag[cert].ancestors[i].round == leader.round + 1
                         && leader in v.dag[v.dag[cert].ancestors[i]].ancestors
                         :: v.dag[cert].ancestors[i].author)
  {
    WellFormedIsGrounded(c, v.dag);
    var links := v.dag[cert].ancestors;
    forall i | 0 <= i < |links|
      ensures IsVoteRef(v.dag, links[i], leader) <==>
              links[i] in v.dag && links[i].round == leader.round + 1 && leader in v.dag[links[i]].ancestors
    {
      if links[i] in v.dag {
        VoteIsLinkAtNextRound(c, v, leader, links[i]);
      }
    }
    hide IsVoteRef;
    assert VotersIn(v.dag, v.dag[cert], leader) ==
           set i | 0 <= i < |links| && links[i] in v.dag && links[i].round == leader.round + 1
             && leader in v.dag[links[i]].ancestors :: links[i].author;
  }

  ghost function Certificates(c: Committee, v: View, leader: BlockRef): set<BlockRef>
    requires Sees(c, v, leader.round)
  {
    set r | r in v.dag && r.round == leader.round + 2 && Certifies(c, v, r, leader)
  }

  /** Direct support: distinct authors of decision-round certificates hold a quorum. */
  ghost predicate Supported(c: Committee, v: View, leader: BlockRef)
    requires Sees(c, v, leader.round)
  {
    c.IsQuorum(AuthorsOf(Certificates(c, v, leader)))
  }

  /** Direct support spelled out: a quorum of authors of blocks two rounds up, each with a quorum of authors of
      blocks one round up that link to the leader among its ancestors. */
  lemma SupportIs(c: Committee, v: View, leader: BlockRef)
    requires Sees(c, v, leader.round)
    ensures Supported(c, v, leader) <==>
            c.IsQuorum(set r | r in v.dag && r.round == leader.round + 2
                         && c.IsQuorum(set i | 0 <= i < |v.dag[r].ancestors| && v.dag[r].ancestors[i] in v.dag
                                         && v.dag[r].ancestors[i].round == leader.round + 1
                                         && leader in v.dag[v.dag[r].ancestors[i]].ancestors
                                         :: v.dag[r].ancestors[i].author)
                         :: r.author)
  {
    forall r | r in v.dag && r.round == leader.round + 2
      ensures Certifies(c, v, r, leader) <==>
              c.IsQuorum(set i | 0 <= i < |v.dag[r].ancestors| && v.dag[r].ancestors[i] in v.dag
                           && v.dag[r].ancestors[i].round == leader.round + 1
                           && leader in v.dag[v.dag[r].ancestors[i]].ancestors
                           :: v.dag[r].ancestors[i].author)
    {
      CertificateIs(c, v, r, leader);
    }
    hide Certifies, Sees, Committee.IsQuorum;
    assert AuthorsOf(Certificates(c, v, leader)) ==
           set r | r in v.dag && r.round == leader.round + 2
             && c.IsQuorum(set i | 0 <= i < |v.dag[r].ancestors| && v.dag[r].ancestors[i] in v.dag
                             && v.dag[r].ancestors[i].round == leader.round + 1
                             && leader in v.dag[v.dag[r].ancestors[i]].ancestors
                             :: v.dag[r].ancestors[i].author)
             :: r.author;
  }

  predicate LinksToAuthor(b: Block, authority: nat) {
    exists i :: 0 <= i < |b.ancestors| && b.ancestors[i].author == authority
  }

  ghost function Blames(v: View, slot: Slot): set<BlockRef> {
    set r | r in v.dag && r.round == slot.round + 1 && !LinksToAuthor(v.dag[r], slot.authority)
  }

  /** A block that links to any block of the leader's author, of whatever round, does not blame. */
  lemma LinkIsNoBlame(v: View, slot: Slot, r: BlockRef, i: nat)
    requires r in v.dag && i < |v.dag[r].ancestors| && v.dag[r].ancestors[i].author == slot.authority
    ensures r !in Blames(v, slot)
  {
  }

  /** Direct blame: distinct authors of voting-round blocks without any link to the leader hold a quorum. */
  ghost predicate Blamed(c: Committee, v: View, slot: Slot) {
    c.IsQuorum(AuthorsOf(Blames(v, slot)))
  }

  /** Who blames, spelled out. */
  lemma BlamersAre(v: View, slot: Slot)
    ensures AuthorsOf(Blames(v, slot)) ==
            set r | r in v.dag && r.round == slot.round + 1
              && (forall i :: 0 <= i < |v.dag[r].ancestors| ==> v.dag[r].ancestors[i].author != slot.authority)
              :: r.author
  {
  }

  // ----- decisions ----------------------------------------------------------------------

  ghost predicate IsCandidate(v: View, slot: Slot, leader: BlockRef) {
    leader in v.dag && SlotOf(leader) == slot
  }

  /** The direct rule: skip on blame, otherwise commit the supported leader block if there is one. */
  ghost predicate DirectlyDecides(c: Committee, v: View, slot: Slot, st: LeaderStatus)
    requires Sees(c, v, slot.round)
  {
    && st.Slot() == slot
    && match st
       case Skip(_) => Blamed(c, v, slot)
       case Commit(leader) => !Blamed(c, v, slot) && IsCandidate(v, slot, leader) && Supported(c, v, leader)
       case Undecided(_) =>
         !Blamed(c, v, slot) && forall leader :: IsCandidate(v, slot, leader) ==> !Supported(c, v, leader)
  }

  /** A certificate for `leader` lies in the causal history of `anchor`. */
  ghost predicate CertifiedLink(c: Committee, v: View, anchor: BlockRef, leader: BlockRef)
    requires Sees(c, v, leader.round)
  {
    exists cert: BlockRef :: cert.round == leader.round + 2 && Linked(v.dag, anchor, cert) &&
      Certifies(c, v, cert, leader)
  }

  /** A certified link spelled out. */
  lemma CertifiedLinkIs(c: Committee, v: View, anchor: BlockRef, leader: BlockRef)
    requires Sees(c, v, leader.round)
    ensures CertifiedLink(c, v, anchor, leader) <==>
            exists r :: r in v.dag && r.round == leader.round + 2 && Linked(v.dag, anchor, r)
              && c.IsQuorum(set i | 0 <= i < |v.dag[r].ancestors| && v.dag[r].ancestors[i] in v.dag
                              && v.dag[r].ancestors[i].round == leader.round + 1
                              && leader in v.dag[v.dag[r].ancestors[i]].ancestors
                              :: v.dag[r].ancestors[i].author)
  {
    forall r | r in v.dag && r.round == leader.round + 2
      ensures Certifies(c, v, r, leader) <==>
              c.IsQuorum(set i | 0 <= i < |v.dag[r].ancestors| && v.dag[r].ancestors[i] in v.dag
                           && v.dag[r].ancestors[i].round == leader.round + 1
                           && leader in v.dag[v.dag[r].ancestors[i]].ancestors
                           :: v.dag[r].ancestors[i].author)
    {
      CertificateIs(c, v, r, leader);
    }
  }

  /** Deciding from an anchor: commit the leader block with a certified link, otherwise skip. */
  ghost predicate AnchorDecides(c: Committee, v: View, anchor: BlockRef, slot: Slot, st: LeaderStatus)
    requires Sees(c, v, slot.round)
  {
    && st.Slot() == slot
    && match st
       case Commit(leader) => IsCandidate(v, slot, leader) && CertifiedLink(c, v, anchor, leader)
       case Skip(_) => forall leader :: IsCandidate(v, slot, leader) ==> !CertifiedLink(c, v, anchor, leader)
       case Undecided(_) => false
  }

  /** The anchor: the first committed leader at or above `minRound`, unless an undecided one comes first. */
  function FindAnchor(leaders: seq<LeaderStatus>, minRound: nat): Option<BlockRef> {
    if leaders == [] then None
    else if leaders[0].Slot().round < minRound || leaders[0].Skip? then FindAnchor(leaders[1..], minRound)
    else if leaders[0].Commit? then Some(leaders[0].leader)
    else None
  }

  /** The anchor is the committed leader that only skipped leaders and leaders below the round come before; there
      is none exactly when there is no such leader. */
  lemma {:induction false} AnchorIsFirst(leaders: seq<LeaderStatus>, minRound: nat)
    ensures forall p :: 0 <= p < |leaders| && leaders[p].Commit? && minRound <= leaders[p].leader.round
              && (forall k :: 0 <= k < p ==> leaders[k].Skip? || leaders[k].Slot().round < minRound)
              ==> FindAnchor(leaders, minRound) == Some(leaders[p].leader)
    ensures FindAnchor(leaders, minRound).Some? ==>
              exists p :: 0 <= p < |leaders| && leaders[p].Commit? && minRound <= leaders[p].leader.round
                && FindAnchor(leaders, minRound) == Some(leaders[p].leader)
                && forall k :: 0 <= k < p ==> leaders[k].Skip? || leaders[k].Slot().round < minRound
  {
    if leaders != [] && (leaders[0].Slot().round < minRound || leaders[0].Skip?) {
      AnchorIsFirst(leaders[1..], minRound);
    }
  }

  ghost predicate IndirectlyDecides(c: Committee, v: View, slot: Slot, later: seq<LeaderStatus>, st: LeaderStatus)
    requires Sees(c, v, slot.round)
  {
    match FindAnchor(later, slot.round + WAVE_LENGTH)
    case Some(anchor) => AnchorDecides(c, v, anchor, slot, st)
    case None => st == Undecided(slot)
  }

  /** The full rule for one slot, given the statuses of the later slots: the indirect rule applies
      only when the direct rule leaves the slot undecided. */
  ghost predicate Decides(c: Committee, v: View, slot: Slot, later: seq<LeaderStatus>, st: LeaderStatus)
    requires Sees(c, v, slot.round)
  {
    || (st.IsDecided() && DirectlyDecides(c, v, slot, st))
    || (DirectlyDecides(c, v, slot, Undecided(slot)) && IndirectlyDecides(c, v, slot, later, st))
  }

  /** Statuses for consecutive slots, each decided from the ones after it. */
  ghost predicate DecidedList(c: Committee, v: View, slots: seq<Slot>, statuses: seq<LeaderStatus>)
    requires forall k :: 0 <= k < |slots| ==> Sees(c, v, slots[k].round)
  {
    && |statuses| == |slots|
    && forall k :: 0 <= k < |slots| ==> Decides(c, v, slots[k], statuses[k + 1..], statuses[k])
  }
}
