/** Accumulates the stake of distinct voters against the quorum threshold. */
module StakeAggregators {
  import opened Committees

  class StakeAggregator {
    const committee: Committee
    var votes: set<nat>
    var stake: nat

    /** The running counter is the stake of the distinct voters. */
    ghost predicate Valid()
      reads this
    {
      stake == committee.StakeOf(votes)
    }

    constructor (committee: Committee)
      ensures Valid() && this.committee == committee && votes == {}
    {
      this.committee := committee;
      votes, stake := {}, 0;
      new;
      NoStakeInNobody(committee, |committee.stakes|);
    }

    /** Counts a vote once per authority; true when the voters so far hold a quorum. */
    method Add(vote: nat) returns (reached: bool)
      requires Valid() && committee.IsValidIndex(vote)
      modifies this
      ensures Valid() && votes == old(votes) + {vote}
      ensures reached <==> committee.IsQuorum(votes)
    {
      var counted := AddUnique(vote);
      reached := committee.ReachedQuorum(stake);
    }

    /** Counts a vote once per authority; true when the voter is new. */
    method AddUnique(vote: nat) returns (counted: bool)
      requires Valid() && committee.IsValidIndex(vote)
      modifies this
      ensures Valid() && votes == old(votes) + {vote}
      ensures counted <==> vote !in old(votes)
    {
      counted := vote !in votes;
      if counted {
        StakeInsert(committee, votes, vote);
        votes, stake := votes + {vote}, stake + committee.stakes[vote];
      } else {
        assert votes + {vote} == votes;
      }
    }

    method ReachedThreshold() returns (reached: bool)
      requires Valid()
      ensures reached <==> committee.IsQuorum(votes)
    {
      reached := committee.ReachedQuorum(stake);
    }

    method Clear()
      modifies this
      ensures Valid() && votes == {}
    {
      votes, stake := {}, 0;
      NoStakeInNobody(committee, |committee.stakes|);
    }
  }
}
