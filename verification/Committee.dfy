/** The committee of authorities, its stake thresholds, and the quorum arithmetic on
    which the safety of the protocol rests. */
module Committees {

  /** Stake per authority; the position is the authority index. */
  datatype Committee = Committee(stakes: seq<nat>) {

    predicate IsValidIndex(authority: nat) {
      authority < |stakes|
    }

    function TotalStake(): nat {
      Sum(stakes)
    }

    /** 2f+1 by stake. */
    function QuorumThreshold(): nat {
      2 * TotalStake() / 3 + 1
    }

    /** f+1 by stake. */
    function ValidityThreshold(): nat {
      (TotalStake() + 2) / 3
    }

    predicate ReachedQuorum(stake: nat) {
      stake >= QuorumThreshold()
    }

    predicate ReachedValidity(stake: nat) {
      stake >= ValidityThreshold()
    }

    /** Stake held together by a set of authorities; indices outside the committee hold none. */
    function StakeOf(authorities: set<nat>): nat {
      StakeUpTo(authorities, |stakes|)
    }

    function StakeUpTo(authorities: set<nat>, n: nat): nat
      requires n <= |stakes|
    {
      if n == 0 then 0
      else StakeUpTo(authorities, n - 1) + (if n - 1 in authorities then stakes[n - 1] else 0)
    }

    predicate IsQuorum(authorities: set<nat>) {
      ReachedQuorum(StakeOf(authorities))
    }

    ghost function Everyone(): set<nat> {
      set i | 0 <= i < |stakes| && IsValidIndex(i)
    }

    /** The fault assumption: authorities outside `honest` hold less than the validity threshold. */
    ghost predicate FaultsBounded(honest: set<nat>) {
      StakeOf(Everyone() - honest) < ValidityThreshold()
    }
  }

  function Sum(s: seq<nat>): nat {
    if s == [] then 0 else Sum(s[..|s| - 1]) + s[|s| - 1]
  }

  lemma {:induction false} NoStakeInNobody(c: Committee, n: nat)
    requires n <= |c.stakes|
    ensures c.StakeUpTo({}, n) == 0
  {
    if n > 0 {
      NoStakeInNobody(c, n - 1);
    }
  }

  lemma {:induction false} StakeUpToMonotone(c: Committee, a: set<nat>, b: set<nat>, n: nat)
    requires n <= |c.stakes|
    requires forall i :: 0 <= i < n && i in a ==> i in b
    ensures c.StakeUpTo(a, n) <= c.StakeUpTo(b, n)
  {
    if n > 0 {
      StakeUpToMonotone(c, a, b, n - 1);
    }
  }

  /** More authorities never hold less stake. */
  lemma StakeMonotone(c: Committee, a: set<nat>, b: set<nat>)
    requires forall i :: i in a && c.IsValidIndex(i) ==> i in b
    ensures c.StakeOf(a) <= c.StakeOf(b)
  {
    StakeUpToMonotone(c, a, b, |c.stakes|);
  }

  lemma {:induction false} StakeUpToInsert(c: Committee, a: set<nat>, x: nat, n: nat)
    requires n <= |c.stakes| && x !in a && x < |c.stakes|
    ensures c.StakeUpTo(a + {x}, n) == c.StakeUpTo(a, n) + (if x < n then c.stakes[x] else 0)
  {
    if n > 0 {
      StakeUpToInsert(c, a, x, n - 1);
    }
  }

  /** A new authority adds exactly its own stake. */
  lemma StakeInsert(c: Committee, a: set<nat>, x: nat)
    requires x !in a && c.IsValidIndex(x)
    ensures c.StakeOf(a + {x}) == c.StakeOf(a) + c.stakes[x]
  {
    StakeUpToInsert(c, a, x, |c.stakes|);
  }

  lemma {:induction false} StakeUpToUnion(c: Committee, a: set<nat>, b: set<nat>, n: nat)
    requires n <= |c.stakes|
    ensures c.StakeUpTo(a, n) + c.StakeUpTo(b, n) == c.StakeUpTo(a + b, n) + c.StakeUpTo(a * b, n)
  {
    if n > 0 {
      StakeUpToUnion(c, a, b, n - 1);
    }
  }

  lemma {:induction false} StakeUpToTotal(c: Committee, a: set<nat>, n: nat)
    requires n <= |c.stakes|
    ensures c.StakeUpTo(a, n) <= Sum(c.stakes[..n])
    ensures (forall i: nat :: i < n ==> i in a) ==> c.StakeUpTo(a, n) == Sum(c.stakes[..n])
  {
    if n > 0 {
      StakeUpToTotal(c, a, n - 1);
      assert c.stakes[..n][..n - 1] == c.stakes[..n - 1];
    }
  }

  /** No set holds more than the total stake, and the whole committee holds exactly that. */
  lemma StakeTotal(c: Committee, a: set<nat>)
    ensures c.StakeOf(a) <= c.TotalStake()
    ensures c.StakeOf(c.Everyone()) == c.TotalStake()
  {
    assert c.stakes[..|c.stakes|] == c.stakes;
    StakeUpToTotal(c, a, |c.stakes|);
    StakeUpToTotal(c, c.Everyone(), |c.stakes|);
  }

  /** Any two quorums share at least the validity threshold of stake. */
  lemma QuorumOverlap(c: Committee, a: set<nat>, b: set<nat>)
    requires c.IsQuorum(a) && c.IsQuorum(b)
    ensures c.ReachedValidity(c.StakeOf(a * b))
  {
    StakeUpToUnion(c, a, b, |c.stakes|);
    StakeTotal(c, a + b);
  }

  /** Stake is a quorum exactly when it is more than two thirds of the total. */
  lemma QuorumIsTwoThirds(c: Committee, stake: nat)
    ensures c.ReachedQuorum(stake) <==> 3 * stake > 2 * c.TotalStake()
  {
  }

  /** Stake reaches validity exactly when it is a third of the total or more. */
  lemma ValidityIsOneThird(c: Committee, stake: nat)
    ensures c.ReachedValidity(stake) <==> 3 * stake >= c.TotalStake()
  {
  }

  /** The two thresholds meet: what is left beside less than validity stake is just a quorum. */
  lemma ThresholdsMeet(c: Committee)
    ensures c.QuorumThreshold() + c.ValidityThreshold() == c.TotalStake() + 1
    ensures c.TotalStake() > 0 ==> 3 * (c.ValidityThreshold() - 1) < c.TotalStake() <= 3 * c.ValidityThreshold()
  {
  }

  /** A quorum is always within reach: the honest authorities alone are one. */
  lemma HonestAreQuorum(c: Committee, honest: set<nat>)
    requires c.FaultsBounded(honest)
    ensures c.IsQuorum(c.Everyone() * honest)
  {
    var all := c.Everyone();
    StakeUpToUnion(c, all * honest, all - honest, |c.stakes|);
    assert all * honest + (all - honest) == all && (all * honest) * (all - honest) == {};
    NoStakeInNobody(c, |c.stakes|);
    StakeTotal(c, all);
    ThresholdsMeet(c);
  }

  /** A set with validity stake contains an honest member of the committee. */
  lemma HonestMember(c: Committee, honest: set<nat>, a: set<nat>) returns (h: nat)
    requires c.FaultsBounded(honest) && c.ReachedValidity(c.StakeOf(a))
    ensures h in a && h in honest && c.IsValidIndex(h)
  {
    if forall i :: i in a && c.IsValidIndex(i) ==> i !in honest {
      StakeMonotone(c, a, c.Everyone() - honest);
      assert false;
    }
    h :| h in a && c.IsValidIndex(h) && h in honest;
  }

  /** Any two quorums have an honest authority in common. */
  lemma HonestInBothQuorums(c: Committee, honest: set<nat>, a: set<nat>, b: set<nat>) returns (h: nat)
    requires c.FaultsBounded(honest) && c.IsQuorum(a) && c.IsQuorum(b)
    ensures h in a && h in b && h in honest && c.IsValidIndex(h)
  {
    QuorumOverlap(c, a, b);
    h := HonestMember(c, honest, a * b);
  }

  /** A quorum always contains an honest authority. */
  lemma HonestInQuorum(c: Committee, honest: set<nat>, a: set<nat>) returns (h: nat)
    requires c.FaultsBounded(honest) && c.IsQuorum(a)
    ensures h in a && h in honest && c.IsValidIndex(h)
  {
    h := HonestInBothQuorums(c, honest, a, a);
  }
}
