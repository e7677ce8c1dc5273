/** Safety of the commit rule: with faulty stake below the validity threshold, no two views of
    the same network ever decide a leader slot differently. */
module Agreement {
  import opened Committees
  import opened Dags
  import opened CommitRules

  /** All blocks ever produced. Signatures tie blocks to authors; honest authors sign at most one
      block per round; faulty authors are unconstrained within the fault bound. */
  datatype Network = Network(committee: Committee, honest: set<nat>, blocks: BlockMap)

  ghost predicate NoEquivocation(honest: set<nat>, blocks: BlockMap) {
    forall a, b :: a in blocks && b in blocks && a.author in honest && a.author == b.author && a.round == b.round
      ==> a == b
  }

  ghost predicate GoodNetwork(n: Network) {
    && WellFormed(n.committee, n.blocks)
    && n.committee.FaultsBounded(n.honest)
    && NoEquivocation(n.honest, n.blocks)
  }

  /** A view of the network that can decide leaders at `round`. */
  ghost predicate ViewOf(n: Network, v: View, round: nat) {
    PartOf(v.dag, n.blocks) && Sees(n.committee, v, round)
  }

  // ----- certificates across views ------------------------------------------------------

  /** Every vote a certificate counts is a stored block of the voting round that links to the leader. */
  lemma CountedVote(c: Committee, v: View, cert: BlockRef, leader: BlockRef, voter: nat) returns (vote: BlockRef)
    requires Sees(c, v, leader.round) && Grounded(v.dag) && cert in v.dag && cert.round == leader.round + 2
    requires voter in VotersIn(v.dag, v.dag[cert], leader)
    ensures vote in v.dag[cert].ancestors && vote.author == voter && vote.round == leader.round + 1
    ensures vote in v.dag && leader in v.dag[vote].ancestors && leader in v.dag
  {
    var ancestors := v.dag[cert].ancestors;
    var i :| 0 <= i < |ancestors| && IsVoteRef(v.dag, ancestors[i], leader) && ancestors[i].author == voter;
    vote := ancestors[i];
    VoteIsLinkAtNextRound(c, v, leader, vote);
    var k :| 0 <= k < |v.dag[vote].ancestors| && v.dag[vote].ancestors[k] == leader;
  }

  /** A certificate is a certificate in every view that holds it. */
  lemma CertificateIsPortable(n: Network, v1: View, v2: View, cert: BlockRef, leader: BlockRef)
    requires GoodNetwork(n) && ViewOf(n, v1, leader.round) && ViewOf(n, v2, leader.round)
    requires cert.round == leader.round + 2 && cert in v2.dag && Certifies(n.committee, v1, cert, leader)
    ensures Certifies(n.committee, v2, cert, leader)
  {
    var c := n.committee;
    WellFormedIsGrounded(c, v1.dag);
    WellFormedIsGrounded(c, v2.dag);
    var voters1, voters2 := VotersIn(v1.dag, v1.dag[cert], leader), VotersIn(v2.dag, v2.dag[cert], leader);
    forall voter | voter in voters1
      ensures voter in voters2
    {
      var vote := CountedVote(c, v1, cert, leader, voter);
      var i :| 0 <= i < |v2.dag[cert].ancestors| && v2.dag[cert].ancestors[i] == vote;
      VoteIsLinkAtNextRound(c, v2, leader, vote);
    }
    StakeMonotone(c, voters1, voters2);
  }

  /** A certified leader block is present wherever its certificate is. */
  lemma CertifiedIsPresent(n: Network, v: View, cert: BlockRef, leader: BlockRef)
    requires GoodNetwork(n) && ViewOf(n, v, leader.round)
    requires cert.round == leader.round + 2 && Certifies(n.committee, v, cert, leader)
    ensures leader in v.dag
  {
    WellFormedIsGrounded(n.committee, v.dag);
    var h := HonestInQuorum(n.committee, n.honest, VotersIn(v.dag, v.dag[cert], leader));
    var vote := CountedVote(n.committee, v, cert, leader, h);
  }

  /** At most one block per slot is ever certified, in any view. */
  lemma CertifiedIsUnique(n: Network, v1: View, cert1: BlockRef, leader1: BlockRef, v2: View, cert2: BlockRef,
                          leader2: BlockRef)
    requires GoodNetwork(n) && ViewOf(n, v1, leader1.round) && ViewOf(n, v2, leader2.round)
    requires SlotOf(leader1) == SlotOf(leader2)
    requires cert1.round == leader1.round + 2 && Certifies(n.committee, v1, cert1, leader1)
    requires cert2.round == leader2.round + 2 && Certifies(n.committee, v2, cert2, leader2)
    ensures leader1 == leader2
  {
    var c := n.committee;
    WellFormedIsGrounded(c, v1.dag);
    WellFormedIsGrounded(c, v2.dag);
    var h := HonestInBothQuorums(c, n.honest,
      VotersIn(v1.dag, v1.dag[cert1], leader1), VotersIn(v2.dag, v2.dag[cert2], leader2));
    var vote1 := CountedVote(c, v1, cert1, leader1, h);
    var vote2 := CountedVote(c, v2, cert2, leader2, h);
    assert vote1 in n.blocks && vote2 in n.blocks && vote1 == vote2;
    OneLinkPerAuthor(c, v1, vote1, leader1, leader2);
  }

  lemma OneLinkPerAuthor(c: Committee, v: View, r: BlockRef, a: BlockRef, b: BlockRef)
    requires WellFormed(c, v.dag) && r in v.dag && a in v.dag[r].ancestors && b in v.dag[r].ancestors
    requires a.author == b.author
    ensures a == b
  {
    var ancestors := v.dag[r].ancestors;
    assert Verified(c, v.dag[r]);
    var i :| 0 <= i < |ancestors| && ancestors[i] == a;
    var j :| 0 <= j < |ancestors| && ancestors[j] == b;
    assert i == j;
  }

  /** Once any view holds a blame quorum for a slot, no block of that slot is certified in any view. */
  lemma BlameExcludesCertificates(n: Network, v1: View, slot: Slot, v2: View, cert: BlockRef, leader: BlockRef)
    requires GoodNetwork(n) && ViewOf(n, v1, slot.round) && ViewOf(n, v2, slot.round)
    requires SlotOf(leader) == slot && Blamed(n.committee, v1, slot) && cert.round == leader.round + 2
    ensures !Certifies(n.committee, v2, cert, leader)
  {
    var c := n.committee;
    if Certifies(c, v2, cert, leader) {
      WellFormedIsGrounded(c, v2.dag);
      var h := HonestInBothQuorums(c, n.honest, AuthorsOf(Blames(v1, slot)), VotersIn(v2.dag, v2.dag[cert], leader));
      var blame :| blame in Blames(v1, slot) && blame.author == h;
      var vote := CountedVote(c, v2, cert, leader, h);
      assert false;
    }
  }

  // ----- a direct commit binds every later anchor ---------------------------------------

  ghost function Reached(dag: BlockMap, from: BlockRef, round: nat): set<BlockRef> {
    set x | x in dag && x.round == round && Linked(dag, from, x)
  }

  /** Every block has, at each lower round above the floor, a quorum of authors in its causal history. */
  lemma {:induction false} HistoryHoldsQuorums(c: Committee, v: View, from: BlockRef, round: nat)
    requires Sees(c, v, round) && from in v.dag && from.round > round
    ensures c.IsQuorum(AuthorsOf(Reached(v.dag, from, round)))
    decreases from.round
  {
    var b := v.dag[from];
    assert Verified(c, b);
    if from.round == round + 1 {
      forall i | 0 <= i < |b.ancestors| && b.ancestors[i].round + 1 == from.round
        ensures b.ancestors[i].author in AuthorsOf(Reached(v.dag, from, round))
      {
        assert b.ancestors[i] in v.dag && Linked(v.dag, from, b.ancestors[i]);
      }
      StakeMonotone(c, ParentAuthors(b), AuthorsOf(Reached(v.dag, from, round)));
    } else {
      NoStakeInNobody(c, |c.stakes|);
      assert ParentAuthors(b) != {};
      var i :| 0 <= i < |b.ancestors| && b.ancestors[i].round + 1 == from.round;
      var parent := b.ancestors[i];
      HistoryHoldsQuorums(c, v, parent, round);
      assert forall x :: Linked(v.dag, parent, x) ==> Linked(v.dag, from, x);
      StakeMonotone(c, AuthorsOf(Reached(v.dag, parent, round)), AuthorsOf(Reached(v.dag, from, round)));
    }
  }

  /** Above the next wave, every block has one of a supported leader's certificates in its history. */
  lemma SupportIsReached(n: Network, v1: View, leader: BlockRef, v2: View, anchor: BlockRef) returns (cert: BlockRef)
    requires GoodNetwork(n) && ViewOf(n, v1, leader.round) && ViewOf(n, v2, leader.round)
    requires Supported(n.committee, v1, leader)
    requires anchor in v2.dag && anchor.round >= leader.round + WAVE_LENGTH
    ensures cert.round == leader.round + 2 && Certifies(n.committee, v1, cert, leader)
    ensures cert in v2.dag && Linked(v2.dag, anchor, cert)
  {
    var c := n.committee;
    HistoryHoldsQuorums(c, v2, anchor, leader.round + 2);
    var h := HonestInBothQuorums(c, n.honest,
      AuthorsOf(Certificates(c, v1, leader)), AuthorsOf(Reached(v2.dag, anchor, leader.round + 2)));
    cert :| cert in Certificates(c, v1, leader) && cert.author == h;
    var x :| x in Reached(v2.dag, anchor, leader.round + 2) && x.author == h;
    assert cert in n.blocks && x in n.blocks && cert == x;
  }

  /** If one view directly supports a leader, every block of any view from the next wave on has a
      certificate for that leader in its causal history. */
  lemma SupportBindsAnchors(n: Network, v1: View, leader: BlockRef, v2: View, anchor: BlockRef)
    requires GoodNetwork(n) && ViewOf(n, v1, leader.round) && ViewOf(n, v2, leader.round)
    requires Supported(n.committee, v1, leader)
    requires anchor in v2.dag && anchor.round >= leader.round + WAVE_LENGTH
    ensures CertifiedLink(n.committee, v2, anchor, leader) && leader in v2.dag
  {
    var cert := SupportIsReached(n, v1, leader, v2, anchor);
    CertificateIsPortable(n, v1, v2, cert, leader);
    CertifiedIsPresent(n, v2, cert, leader);
  }

  // ----- one slot -----------------------------------------------------------------------

  /** A certified link seen in one view is seen in every view that holds the anchor. */
  lemma CertifiedLinkIsPortable(n: Network, v1: View, v2: View, anchor: BlockRef, leader: BlockRef)
    requires GoodNetwork(n) && ViewOf(n, v1, leader.round) && ViewOf(n, v2, leader.round)
    requires anchor in v1.dag && anchor in v2.dag && CertifiedLink(n.committee, v1, anchor, leader)
    ensures CertifiedLink(n.committee, v2, anchor, leader) && leader in v2.dag
  {
    var c := n.committee;
    WellFormedIsGrounded(c, n.blocks);
    var cert: BlockRef :| cert.round == leader.round + 2 && Linked(v1.dag, anchor, cert) &&
      Certifies(c, v1, cert, leader);
    LinkedAgrees(v1.dag, n.blocks, v1.floor, anchor, cert);
    LinkedAgrees(v2.dag, n.blocks, v2.floor, anchor, cert);
    CertificateIsPortable(n, v1, v2, cert, leader);
    CertifiedIsPresent(n, v2, cert, leader);
  }

  lemma CertifiedLinkIsUnique(n: Network, v1: View, anchor1: BlockRef, leader1: BlockRef, v2: View, anchor2: BlockRef,
                              leader2: BlockRef)
    requires GoodNetwork(n) && ViewOf(n, v1, leader1.round) && ViewOf(n, v2, leader2.round)
    requires SlotOf(leader1) == SlotOf(leader2)
    requires CertifiedLink(n.committee, v1, anchor1, leader1) && CertifiedLink(n.committee, v2, anchor2, leader2)
    ensures leader1 == leader2
  {
    var c := n.committee;
    var cert1: BlockRef :| cert1.round == leader1.round + 2 && Linked(v1.dag, anchor1, cert1) &&
      Certifies(c, v1, cert1, leader1);
    var cert2: BlockRef :| cert2.round == leader2.round + 2 && Linked(v2.dag, anchor2, cert2) &&
      Certifies(c, v2, cert2, leader2);
    CertifiedIsUnique(n, v1, cert1, leader1, v2, cert2, leader2);
  }

  /** Deciding a slot from the same anchor gives the same outcome in every view. */
  lemma AnchorDecisionsAgree(n: Network, v1: View, v2: View, anchor: BlockRef, slot: Slot, st1: LeaderStatus,
                             st2: LeaderStatus)
    requires GoodNetwork(n) && ViewOf(n, v1, slot.round) && ViewOf(n, v2, slot.round)
    requires anchor in v1.dag && anchor in v2.dag
    requires AnchorDecides(n.committee, v1, anchor, slot, st1) && AnchorDecides(n.committee, v2, anchor, slot, st2)
    ensures st1 == st2
  {
    if st1.Commit? {
      CertifiedLinkIsPortable(n, v1, v2, anchor, st1.leader);
      assert IsCandidate(v2, slot, st1.leader);
      CertifiedLinkIsUnique(n, v2, anchor, st1.leader, v2, anchor, st2.leader);
    } else if st2.Commit? {
      CertifiedLinkIsPortable(n, v2, v1, anchor, st2.leader);
      assert IsCandidate(v1, slot, st2.leader);
    }
  }

  lemma SupportIsCertified(n: Network, v: View, leader: BlockRef) returns (cert: BlockRef)
    requires GoodNetwork(n) && ViewOf(n, v, leader.round) && Supported(n.committee, v, leader)
    ensures cert.round == leader.round + 2 && Certifies(n.committee, v, cert, leader)
  {
    var h := HonestInQuorum(n.committee, n.honest, AuthorsOf(Certificates(n.committee, v, leader)));
    cert :| cert in Certificates(n.committee, v, leader);
  }

  /** At most one block per slot is ever directly supported, in any view. */
  lemma SupportedIsUnique(n: Network, v1: View, leader1: BlockRef, v2: View, leader2: BlockRef)
    requires GoodNetwork(n) && ViewOf(n, v1, leader1.round) && ViewOf(n, v2, leader2.round)
    requires SlotOf(leader1) == SlotOf(leader2)
    requires Supported(n.committee, v1, leader1) && Supported(n.committee, v2, leader2)
    ensures leader1 == leader2
  {
    var cert1 := SupportIsCertified(n, v1, leader1);
    var cert2 := SupportIsCertified(n, v2, leader2);
    CertifiedIsUnique(n, v1, cert1, leader1, v2, cert2, leader2);
  }

  /** Two direct decisions of one slot agree. */
  lemma DirectDecisionsAgree(n: Network, v1: View, v2: View, slot: Slot, st1: LeaderStatus, st2: LeaderStatus)
    requires GoodNetwork(n) && ViewOf(n, v1, slot.round) && ViewOf(n, v2, slot.round)
    requires st1.IsDecided() && DirectlyDecides(n.committee, v1, slot, st1)
    requires st2.IsDecided() && DirectlyDecides(n.committee, v2, slot, st2)
    ensures st1 == st2
  {
    if st1.Commit? && st2.Commit? {
      SupportedIsUnique(n, v1, st1.leader, v2, st2.leader);
    } else if st1.Commit? {
      var cert := SupportIsCertified(n, v1, st1.leader);
      BlameExcludesCertificates(n, v2, slot, v1, cert, st1.leader);
    } else if st2.Commit? {
      var cert := SupportIsCertified(n, v2, st2.leader);
      BlameExcludesCertificates(n, v1, slot, v2, cert, st2.leader);
    }
  }

  /** A direct decision in one view agrees with any anchor's decision in another. */
  lemma DirectAndAnchorAgree(n: Network, v1: View, v2: View, slot: Slot, st1: LeaderStatus, anchor: BlockRef,
                             st2: LeaderStatus)
    requires GoodNetwork(n) && ViewOf(n, v1, slot.round) && ViewOf(n, v2, slot.round)
    requires st1.IsDecided() && DirectlyDecides(n.committee, v1, slot, st1)
    requires anchor in v2.dag && anchor.round >= slot.round + WAVE_LENGTH
    requires AnchorDecides(n.committee, v2, anchor, slot, st2)
    ensures st1 == st2
  {
    if st1.Commit? {
      SupportBindsAnchors(n, v1, st1.leader, v2, anchor);
      assert IsCandidate(v2, slot, st1.leader);
      CertifiedLinkIsUnique(n, v2, anchor, st1.leader, v2, anchor, st2.leader);
    } else if st2.Commit? {
      var cert: BlockRef :| cert.round == st2.leader.round + 2 && Linked(v2.dag, anchor, cert)
                            && Certifies(n.committee, v2, cert, st2.leader);
      BlameExcludesCertificates(n, v1, slot, v2, cert, st2.leader);
    }
  }

  // ----- all slots ----------------------------------------------------------------------

  /** Statuses that view `v` holds for the consecutive slots from position `start`. */
  datatype Outcome = Outcome(view: View, start: nat, statuses: seq<LeaderStatus>)

  ghost predicate ValidOutcome(n: Network, slots: seq<Slot>, o: Outcome) {
    && o.start + |o.statuses| <= |slots|
    && (forall k :: o.start <= k < o.start + |o.statuses| ==> ViewOf(n, o.view, slots[k].round))
    && DecidedList(n.committee, o.view, slots[o.start..o.start + |o.statuses|], o.statuses)
  }

  ghost function StatusAt(o: Outcome, k: nat): LeaderStatus
    requires o.start <= k < o.start + |o.statuses|
  {
    o.statuses[k - o.start]
  }

  ghost predicate Covers(o: Outcome, k: nat) {
    o.start <= k < o.start + |o.statuses|
  }

  lemma OutcomeStep(n: Network, slots: seq<Slot>, o: Outcome, k: nat)
    requires ValidOutcome(n, slots, o) && Covers(o, k)
    ensures ViewOf(n, o.view, slots[k].round)
    ensures Decides(n.committee, o.view, slots[k], After(o, k), StatusAt(o, k))
    ensures StatusAt(o, k).Slot() == slots[k]
  {
    var mine := slots[o.start..o.start + |o.statuses|];
    assert mine[k - o.start] == slots[k];
    assert Decides(n.committee, o.view, mine[k - o.start], o.statuses[k - o.start + 1..], o.statuses[k - o.start]);
  }

  ghost predicate SlotsMatch(slots: seq<Slot>, o: Outcome) {
    && o.start + |o.statuses| <= |slots|
    && forall k: nat :: Covers(o, k) ==> StatusAt(o, k).Slot() == slots[k]
  }

  lemma OutcomeSlots(n: Network, slots: seq<Slot>, o: Outcome)
    requires ValidOutcome(n, slots, o)
    ensures SlotsMatch(slots, o)
  {
    forall k: nat | Covers(o, k)
      ensures StatusAt(o, k).Slot() == slots[k]
    {
      OutcomeStep(n, slots, o, k);
    }
  }

  ghost function After(o: Outcome, k: nat): seq<LeaderStatus>
    requires Covers(o, k)
  {
    o.statuses[k - o.start + 1..]
  }

  /** A chosen anchor is a committed status at some later position, and every eligible status
      before it is a skip. */
  lemma {:induction false} AnchorPosition(statuses: seq<LeaderStatus>, minRound: nat) returns (p: nat)
    requires FindAnchor(statuses, minRound).Some?
    ensures p < |statuses| && statuses[p] == Commit(FindAnchor(statuses, minRound).value)
    ensures statuses[p].Slot().round >= minRound
    ensures forall q :: 0 <= q < p && statuses[q].Slot().round >= minRound ==> statuses[q].Skip?
  {
    if statuses[0].Slot().round < minRound || statuses[0].Skip? {
      p := AnchorPosition(statuses[1..], minRound);
      p := p + 1;
      assert forall q :: 1 <= q < p ==> statuses[q] == statuses[1..][q - 1];
    } else {
      p := 0;
    }
  }

  lemma AnchorAmongLater(slots: seq<Slot>, o: Outcome, k: nat, minRound: nat) returns (p: nat)
    requires SlotsMatch(slots, o) && Covers(o, k) && FindAnchor(After(o, k), minRound).Some?
    ensures k < p && Covers(o, p) && StatusAt(o, p) == Commit(FindAnchor(After(o, k), minRound).value)
    ensures slots[p].round >= minRound
    ensures forall q :: k < q < p && slots[q].round >= minRound ==> StatusAt(o, q).Skip?
  {
    var later := After(o, k);
    var i := AnchorPosition(later, minRound);
    p := k + 1 + i;
    assert later[i] == StatusAt(o, p) && Covers(o, p);
    forall q | k < q < p && slots[q].round >= minRound
      ensures StatusAt(o, q).Skip?
    {
      assert later[q - k - 1] == StatusAt(o, q) && Covers(o, q);
    }
  }

  lemma IndirectAnchor(n: Network, slots: seq<Slot>, o: Outcome, k: nat) returns (anchor: BlockRef)
    requires ValidOutcome(n, slots, o) && Covers(o, k) && ViewOf(n, o.view, slots[k].round)
    requires StatusAt(o, k).IsDecided() && !DirectlyDecides(n.committee, o.view, slots[k], StatusAt(o, k))
    ensures FindAnchor(After(o, k), slots[k].round + WAVE_LENGTH) == Some(anchor)
    ensures AnchorDecides(n.committee, o.view, anchor, slots[k], StatusAt(o, k))
  {
    OutcomeStep(n, slots, o, k);
    anchor := FindAnchor(After(o, k), slots[k].round + WAVE_LENGTH).value;
  }

  lemma CommittedIsPresent(n: Network, slots: seq<Slot>, o: Outcome, k: nat)
    requires ValidOutcome(n, slots, o) && Covers(o, k) && StatusAt(o, k).Commit?
    ensures StatusAt(o, k).leader in o.view.dag && StatusAt(o, k).leader.round == slots[k].round
  {
    OutcomeStep(n, slots, o, k);
  }

  /** An indirect decision is taken from an anchor that the view itself committed in a later slot. */
  lemma AnchorOf(n: Network, slots: seq<Slot>, o: Outcome, k: nat) returns (p: nat)
    requires ValidOutcome(n, slots, o) && Covers(o, k) && ViewOf(n, o.view, slots[k].round)
    requires StatusAt(o, k).IsDecided() && !DirectlyDecides(n.committee, o.view, slots[k], StatusAt(o, k))
    ensures k < p && Covers(o, p) && StatusAt(o, p).Commit?
    ensures slots[p].round >= slots[k].round + WAVE_LENGTH
    ensures StatusAt(o, p).leader in o.view.dag && StatusAt(o, p).leader.round == slots[p].round
    ensures AnchorDecides(n.committee, o.view, StatusAt(o, p).leader, slots[k], StatusAt(o, k))
    ensures forall q :: k < q < p && slots[q].round >= slots[k].round + WAVE_LENGTH ==> StatusAt(o, q).Skip?
  {
    var anchor := IndirectAnchor(n, slots, o, k);
    OutcomeSlots(n, slots, o);
    p := AnchorAmongLater(slots, o, k, slots[k].round + WAVE_LENGTH);
    CommittedIsPresent(n, slots, o, p);
  }

  /** A slot one view decides directly and another indirectly. */
  lemma DirectAndIndirectAgree(n: Network, slots: seq<Slot>, o1: Outcome, o2: Outcome, k: nat)
    requires GoodNetwork(n) && ValidOutcome(n, slots, o1) && ValidOutcome(n, slots, o2)
    requires Covers(o1, k) && Covers(o2, k)
    requires StatusAt(o1, k).IsDecided() && StatusAt(o2, k).IsDecided()
    requires ViewOf(n, o1.view, slots[k].round) && DirectlyDecides(n.committee, o1.view, slots[k], StatusAt(o1, k))
    requires ViewOf(n, o2.view, slots[k].round) && !DirectlyDecides(n.committee, o2.view, slots[k], StatusAt(o2, k))
    ensures StatusAt(o1, k) == StatusAt(o2, k)
  {
    var p := AnchorOf(n, slots, o2, k);
    DirectAndAnchorAgree(n, o1.view, o2.view, slots[k], StatusAt(o1, k), StatusAt(o2, p).leader, StatusAt(o2, k));
  }

  /** A slot both views decide indirectly: agreement on later slots makes them use the same anchor. */
  lemma {:induction false} IndirectDecisionsAgree(n: Network, slots: seq<Slot>, o1: Outcome, o2: Outcome, k: nat)
    requires GoodNetwork(n) && ValidOutcome(n, slots, o1) && ValidOutcome(n, slots, o2)
    requires Covers(o1, k) && Covers(o2, k)
    requires StatusAt(o1, k).IsDecided() && StatusAt(o2, k).IsDecided()
    requires ViewOf(n, o1.view, slots[k].round) && !DirectlyDecides(n.committee, o1.view, slots[k], StatusAt(o1, k))
    requires ViewOf(n, o2.view, slots[k].round) && !DirectlyDecides(n.committee, o2.view, slots[k], StatusAt(o2, k))
    ensures StatusAt(o1, k) == StatusAt(o2, k)
    decreases |slots| - k, 0
  {
    var p := AnchorOf(n, slots, o1, k);
    var q := AnchorOf(n, slots, o2, k);
    DecisionsAgree(n, slots, o1, o2, if p < q then p else q);
    assert p == q;
    AnchorDecisionsAgree(n, o1.view, o2.view, StatusAt(o1, p).leader, slots[k], StatusAt(o1, k), StatusAt(o2, k));
  }

  /** Agreement: whenever two views both decide a slot, by any mix of direct and indirect
      decisions, they decide it the same way. */
  lemma {:induction false} DecisionsAgree(n: Network, slots: seq<Slot>, o1: Outcome, o2: Outcome, k: nat)
    requires GoodNetwork(n) && ValidOutcome(n, slots, o1) && ValidOutcome(n, slots, o2)
    requires Covers(o1, k) && Covers(o2, k)
    requires StatusAt(o1, k).IsDecided() && StatusAt(o2, k).IsDecided()
    ensures StatusAt(o1, k) == StatusAt(o2, k)
    decreases |slots| - k, 1
  {
    OutcomeStep(n, slots, o1, k);
    OutcomeStep(n, slots, o2, k);
    if DirectlyDecides(n.committee, o1.view, slots[k], StatusAt(o1, k)) {
      if DirectlyDecides(n.committee, o2.view, slots[k], StatusAt(o2, k)) {
        DirectDecisionsAgree(n, o1.view, o2.view, slots[k], StatusAt(o1, k), StatusAt(o2, k));
      } else {
        DirectAndIndirectAgree(n, slots, o1, o2, k);
      }
    } else if DirectlyDecides(n.committee, o2.view, slots[k], StatusAt(o2, k)) {
      DirectAndIndirectAgree(n, slots, o2, o1, k);
    } else {
      IndirectDecisionsAgree(n, slots, o1, o2, k);
    }
  }
}
