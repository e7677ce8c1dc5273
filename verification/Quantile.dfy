/** Weighted quantiles: how far a quorum of stake has come. */
module Quantiles {
  import opened Committees
  import opened Dags
  import Sorting

  const GENESIS_COMMIT_INDEX: nat := 0

  /** Authorities at or above, and at or below, a value. */
  ghost function AtLeast(values: seq<nat>, bound: nat): set<nat> {
    set i | 0 <= i < |values| && values[i] >= bound
  }

  ghost function AtMost(values: seq<nat>, bound: nat): set<nat> {
    set i | 0 <= i < |values| && values[i] <= bound
  }

  ghost function Listed(s: seq<nat>): set<nat> {
    set i | 0 <= i < |s| :: s[i]
  }

  function Indices(n: nat): (s: seq<nat>)
    ensures |s| == n && forall i :: 0 <= i < n ==> s[i] == i
  {
    seq(n, i => i)
  }

  function ValueAt(values: seq<nat>, i: nat): int {
    if i < |values| then values[i] else 0
  }

  /** Keys that sort authorities by value, ascending and descending. */
  function Up(values: seq<nat>): nat -> int {
    (i: nat) => ValueAt(values, i)
  }

  function Down(values: seq<nat>): nat -> int {
    (i: nat) => -ValueAt(values, i)
  }

  /** The order lists every authority below `n`. */
  ghost predicate ListsAll(order: seq<nat>, n: nat) {
    && |order| == n && (forall i :: 0 <= i < n ==> order[i] < n)
    && forall x :: 0 <= x < n ==> x in order
  }

  /** The first position in an order of authorities at which their stake reaches a quorum; the length if none. */
  method QuorumPosition(c: Committee, order: seq<nat>) returns (k: nat)
    requires Sorting.Distinct(order) && forall i :: 0 <= i < |order| ==> c.IsValidIndex(order[i])
    ensures k <= |order| && !c.IsQuorum(Listed(order[..k]))
    ensures k < |order| ==> c.IsQuorum(Listed(order[..k + 1]))
  {
    var total := 0;
    k := 0;
    NoStakeInNobody(c, |c.stakes|);
    assert Listed(order[..0]) == {};
    while k < |order|
      invariant k <= |order| && total == c.StakeOf(Listed(order[..k])) && !c.IsQuorum(Listed(order[..k]))
    {
      MembersStep(order, k);
      StakeInsert(c, Listed(order[..k]), order[k]);
      total := total + c.stakes[order[k]];
      if total >= c.QuorumThreshold() {
        return;
      }
      k := k + 1;
    }
  }

  lemma MembersStep(order: seq<nat>, k: nat)
    requires k < |order| && Sorting.Distinct(order)
    ensures Listed(order[..k + 1]) == Listed(order[..k]) + {order[k]} && order[k] !in Listed(order[..k])
  {
    var before, after := order[..k], order[..k + 1];
    assert after[k] == order[k];
    forall x | x in Listed(before)
      ensures x in Listed(after)
    {
      var i :| 0 <= i < |before| && before[i] == x;
      assert after[i] == x;
    }
    forall x | x in Listed(after)
      ensures x in Listed(before) || x == order[k]
    {
      var i :| 0 <= i < |after| && after[i] == x;
      assert i < k ==> before[i] == x;
    }
  }

  /** Authorities sorted by a key, each once. */
  method Order(n: nat, key: nat -> int) returns (order: seq<nat>)
    ensures Sorting.SortedBy(order, key) && Sorting.Distinct(order)
    ensures ListsAll(order, n)
  {
    order := Sorting.SortByKey(Indices(n), key);
    Sorting.SameElements(order, Indices(n));
    assert Sorting.Distinct(Indices(n));
    Sorting.DistinctPermuted(Indices(n), order);
    forall x | 0 <= x < n
      ensures x in order
    {
      assert Indices(n)[x] == x;
    }
    forall i | 0 <= i < n
      ensures order[i] < n
    {
      assert order[i] in order;
    }
  }

  // ----- the highest commit voted for by a quorum ---------------------------------------

  /** `index` is the largest for which the authorities voting at or above it hold a quorum; with no
      stake in the committee there is none, and the index is that of genesis. */
  ghost predicate IsQuorumIndex(c: Committee, voted: seq<nat>, index: nat) {
    && (c.IsQuorum(AtLeast(voted, index)) || index == GENESIS_COMMIT_INDEX)
    && forall s: nat :: c.IsQuorum(AtLeast(voted, s)) ==> s <= index
  }

  lemma PrefixAtLeast(order: seq<nat>, voted: seq<nat>, k: nat, bound: nat)
    requires Sorting.SortedBy(order, Down(voted))
    requires ListsAll(order, |voted|) && k < |order|
    ensures bound <= voted[order[k]] ==> Listed(order[..k + 1]) <= AtLeast(voted, bound)
    ensures bound > voted[order[k]] ==> AtLeast(voted, bound) <= Listed(order[..k])
  {
    var key := Down(voted);
    forall x | x in Listed(order[..k + 1]) && bound <= voted[order[k]]
      ensures x in AtLeast(voted, bound)
    {
      var i :| 0 <= i < k + 1 && order[..k + 1][i] == x;
      assert key(order[i]) <= key(order[k]);
    }
    forall x | x in AtLeast(voted, bound) && bound > voted[order[k]]
      ensures x in Listed(order[..k])
    {
      assert x in order;
      var i :| 0 <= i < |order| && order[i] == x;
      assert order[..k][i] == x;
    }
  }

  lemma EveryoneListed(order: seq<nat>, voted: seq<nat>, bound: nat)
    requires ListsAll(order, |voted|)
    ensures AtLeast(voted, bound) <= Listed(order) && AtMost(voted, bound) <= Listed(order)
  {
    forall x | 0 <= x < |voted|
      ensures x in Listed(order)
    {
      assert x in order;
    }
  }

  /** Later votes only raise the quorum index. */
  lemma QuorumIndexMonotone(c: Committee, voted: seq<nat>, voted': seq<nat>, index: nat, index': nat)
    requires |voted| == |voted'| && forall i :: 0 <= i < |voted| ==> voted[i] <= voted'[i]
    requires IsQuorumIndex(c, voted, index) && IsQuorumIndex(c, voted', index')
    ensures index <= index'
  {
    if index != GENESIS_COMMIT_INDEX {
      StakeMonotone(c, AtLeast(voted, index), AtLeast(voted', index));
    }
  }

  /** With some stake in the committee, the quorum index is always backed by a quorum. */
  lemma QuorumIndexIsBacked(c: Committee, voted: seq<nat>, index: nat)
    requires IsQuorumIndex(c, voted, index) && |voted| == |c.stakes| && c.TotalStake() >= 1
    ensures c.IsQuorum(AtLeast(voted, index))
  {
    if index == GENESIS_COMMIT_INDEX {
      assert AtLeast(voted, 0) == c.Everyone();
      StakeTotal(c, {});
    }
  }

  class CommitVoteMonitor {
    const committee: Committee
    // Highest commit index voted for by each authority.
    var highestVoted: seq<nat>

    ghost predicate Valid()
      reads this
    {
      |highestVoted| == |committee.stakes|
    }

    constructor (committee: Committee)
      ensures Valid() && this.committee == committee && forall i :: 0 <= i < |highestVoted| ==> highestVoted[i] == 0
    {
      this.committee := committee;
      highestVoted := seq(|committee.stakes|, _ => 0);
    }

    /** Keeps the highest commit voted for by the author of the block. */
    method ObserveBlock(block: Block)
      requires Valid() && committee.IsValidIndex(block.ref.author)
      modifies this
      ensures Valid() && highestVoted == old(highestVoted)[block.ref.author := highestVoted[block.ref.author]]
      ensures old(highestVoted)[block.ref.author] <= highestVoted[block.ref.author]
      ensures forall v :: v in block.commitVotes ==> v.index <= highestVoted[block.ref.author]
      ensures highestVoted[block.ref.author] == old(highestVoted)[block.ref.author]
              || exists v :: v in block.commitVotes && v.index == highestVoted[block.ref.author]
      ensures forall i :: 0 <= i < |highestVoted| ==> old(highestVoted)[i] <= highestVoted[i]
    {
      var author := block.ref.author;
      for k := 0 to |block.commitVotes|
        invariant Valid() && highestVoted == old(highestVoted)[author := highestVoted[author]]
        invariant old(highestVoted)[author] <= highestVoted[author]
        invariant forall j :: 0 <= j < k ==> block.commitVotes[j].index <= highestVoted[author]
        invariant highestVoted[author] == old(highestVoted)[author]
               || exists v :: v in block.commitVotes && v.index == highestVoted[author]
      {
        if block.commitVotes[k].index > highestVoted[author] {
          highestVoted := highestVoted[author := block.commitVotes[k].index];
        }
      }
    }

    /** The highest commit index certified by a quorum. */
    method QuorumCommitIndex() returns (index: nat)
      requires Valid()
      ensures IsQuorumIndex(committee, highestVoted, index)
    {
      var voted := highestVoted;
      var order := Order(|voted|, Down(voted));
      var k := QuorumPosition(committee, order);
      if k == |order| {
        assert order[..k] == order;
        forall s: nat | committee.IsQuorum(AtLeast(voted, s))
          ensures false
        {
          EveryoneListed(order, voted, s);
          StakeMonotone(committee, AtLeast(voted, s), Listed(order));
        }
        return GENESIS_COMMIT_INDEX;
      }
      index := voted[order[k]];
      PrefixAtLeast(order, voted, k, index);
      StakeMonotone(committee, Listed(order[..k + 1]), AtLeast(voted, index));
      forall s: nat | s > index
        ensures !committee.IsQuorum(AtLeast(voted, s))
      {
        PrefixAtLeast(order, voted, k, s);
        StakeMonotone(committee, AtLeast(voted, s), Listed(order[..k]));
      }
    }
  }

  // ----- the lowest round a quorum has not gone beyond ----------------------------------

  /** `round` is the least for which the authorities at or below it hold a quorum, or 0 when all
      authorities with a known round hold none. */
  ghost predicate IsHighQuorumRound(c: Committee, rounds: seq<nat>, round: nat) {
    if exists r: nat :: c.IsQuorum(AtMost(rounds, r))
    then c.IsQuorum(AtMost(rounds, round)) && forall r: nat :: c.IsQuorum(AtMost(rounds, r)) ==> round <= r
    else round == 0
  }

  lemma PrefixAtMost(order: seq<nat>, rounds: seq<nat>, k: nat, bound: nat)
    requires Sorting.SortedBy(order, Up(rounds))
    requires ListsAll(order, |rounds|) && k < |order|
    ensures bound >= rounds[order[k]] ==> Listed(order[..k + 1]) <= AtMost(rounds, bound)
    ensures bound < rounds[order[k]] ==> AtMost(rounds, bound) <= Listed(order[..k])
  {
    var key := Up(rounds);
    forall x | x in Listed(order[..k + 1]) && bound >= rounds[order[k]]
      ensures x in AtMost(rounds, bound)
    {
      var i :| 0 <= i < k + 1 && order[..k + 1][i] == x;
      assert key(order[i]) <= key(order[k]);
    }
    forall x | x in AtMost(rounds, bound) && bound < rounds[order[k]]
      ensures x in Listed(order[..k])
    {
      assert x in order;
      var i :| 0 <= i < |order| && order[i] == x;
      assert order[..k][i] == x;
    }
  }

  /** The network high quorum round: the high quorum round of the authorities' high quorum rounds. */
  method CalculateNetworkHighQuorumRound(c: Committee, accepted: seq<(nat, nat)>) returns (round: nat)
    ensures IsHighQuorumRound(c, HighRounds(|c.stakes|, accepted), round)
  {
    var rounds := HighRounds(|c.stakes|, accepted);
    var order := Order(|rounds|, Up(rounds));
    var k := QuorumPosition(c, order);
    if k == |order| {
      assert order[..k] == order;
      forall r: nat | c.IsQuorum(AtMost(rounds, r))
        ensures false
      {
        EveryoneListed(order, rounds, r);
        StakeMonotone(c, AtMost(rounds, r), Listed(order));
      }
      return 0;
    }
    round := rounds[order[k]];
    PrefixAtMost(order, rounds, k, round);
    StakeMonotone(c, Listed(order[..k + 1]), AtMost(rounds, round));
    forall r: nat | r < round
      ensures !c.IsQuorum(AtMost(rounds, r))
    {
      PrefixAtMost(order, rounds, k, r);
      StakeMonotone(c, AtMost(rounds, r), Listed(order[..k]));
    }
  }

  /** The high rounds of the authorities of a committee of size `n`, as far as they are given. */
  function HighRounds(n: nat, accepted: seq<(nat, nat)>): (rounds: seq<nat>)
    ensures |rounds| == (if |accepted| < n then |accepted| else n)
    ensures forall i :: 0 <= i < |rounds| ==> rounds[i] == accepted[i].1
  {
    seq(if |accepted| < n then |accepted| else n, i requires 0 <= i < |accepted| => accepted[i].1)
  }
}
