/** Which authorities' blocks are included as ancestors: poorly propagating authorities are excluded, up
    to a stake budget, and a changed state is locked for a while. */
module AncestorStates {
  import opened Committees
  import opened Quantiles
  import Sorting

  const STATE_LOCK_CLOCK_ROUNDS: nat := 450
  const SCORE_EXCLUSION_THRESHOLD_PERCENTAGE: nat := 20

  datatype AncestorState = Include | Exclude(score: nat)

  datatype AncestorInfo = AncestorInfo(state: AncestorState, lockUntilRound: nat) {
    predicate IsLocked(clockRound: nat) {
      lockUntilRound >= clockRound
    }
  }

  /** A state change of an authority at a clock round. */
  datatype Change = Change(authority: nat, round: nat)

  type Infos = seq<AncestorInfo>

  ghost function Excluded(infos: Infos): set<nat> {
    set i | 0 <= i < |infos| && infos[i].state.Exclude?
  }

  /** The budget: the excluded stake is tracked exactly and stays within the threshold. */
  ghost predicate WithinBudget(c: Committee, infos: Infos, total: nat, threshold: nat) {
    |infos| == |c.stakes| && total == c.StakeOf(Excluded(infos)) && total <= threshold
  }

  /** Every change in the log has locked its authority at least that long. */
  ghost predicate Locked(infos: Infos, log: seq<Change>) {
    forall k :: 0 <= k < |log| ==>
      log[k].authority < |infos| && log[k].round + STATE_LOCK_CLOCK_ROUNDS <= infos[log[k].authority].lockUntilRound
  }

  /** Two changes of one authority are more than the lock length apart. */
  ghost predicate Spaced(log: seq<Change>) {
    forall k, l :: 0 <= k < l < |log| && log[k].authority == log[l].authority ==>
      log[k].round + STATE_LOCK_CLOCK_ROUNDS < log[l].round
  }

  lemma ExcludedWithout(infos: Infos, a: nat, lock: nat)
    requires a < |infos| && infos[a].state.Exclude?
    ensures Excluded(infos) == Excluded(infos[a := AncestorInfo(Include, lock)]) + {a}
    ensures a !in Excluded(infos[a := AncestorInfo(Include, lock)])
  {
  }

  lemma ExcludedWith(infos: Infos, a: nat, score: nat, lock: nat)
    requires a < |infos| && infos[a].state.Include?
    ensures Excluded(infos[a := AncestorInfo(Exclude(score), lock)]) == Excluded(infos) + {a} && a !in Excluded(infos)
  {
  }

  lemma ChangeIsSpaced(infos: Infos, log: seq<Change>, a: nat, state: AncestorState, clock: nat)
    requires Locked(infos, log) && Spaced(log) && a < |infos| && !infos[a].IsLocked(clock)
    ensures Spaced(log + [Change(a, clock)])
    ensures Locked(infos[a := AncestorInfo(state, clock + STATE_LOCK_CLOCK_ROUNDS)], log + [Change(a, clock)])
  {
  }

  /** The log has grown by exactly one entry, of this clock round, for each authority whose state changed. */
  ghost predicate Logged(before: Infos, after: Infos, log: seq<Change>, log': seq<Change>, clock: nat) {
    && |before| == |after| && log <= log'
    && (forall k :: |log| <= k < |log'| ==> log'[k].round == clock && log'[k].authority < |after|)
    && (forall k, l :: |log| <= k < l < |log'| ==> log'[k].authority != log'[l].authority)
    && (forall i :: 0 <= i < |after| ==> (after[i].state != before[i].state <==> LoggedFor(log, log', i)))
  }

  ghost predicate LoggedFor(log: seq<Change>, log': seq<Change>, i: nat) {
    exists k :: |log| <= k < |log'| && log'[k].authority == i
  }

  lemma NothingLogged(infos: Infos, log: seq<Change>, clock: nat)
    ensures Logged(infos, infos, log, log, clock)
  {
  }

  lemma LogOne(before: Infos, now: Infos, log: seq<Change>, log': seq<Change>, clock: nat, a: nat, info: AncestorInfo)
    requires Logged(before, now, log, log', clock)
    requires a < |now| && now[a].state == before[a].state && info.state != before[a].state
    ensures Logged(before, now[a := info], log, log' + [Change(a, clock)], clock)
  {
    var log'' := log' + [Change(a, clock)];
    forall i | 0 <= i < |now|
      ensures LoggedFor(log, log'', i) <==> i == a || LoggedFor(log, log', i)
    {
      if LoggedFor(log, log', i) {
        var k :| |log| <= k < |log'| && log'[k].authority == i;
        assert log''[k].authority == i;
      }
      assert log''[|log'|].authority == a;
    }
  }

  // ----- who may change -----------------------------------------------------------------

  /** What an update looks at. */
  datatype Inputs = Inputs(infos: Infos, scores: seq<nat>, rounds: seq<(nat, nat)>, clock: nat, low: nat, network: nat)

  /** An excluded authority comes back when its score recovers or its blocks reach as far as the network's. */
  predicate MovesIn(x: Inputs, i: nat) {
    && i < |x.scores| && i < |x.infos| && i < |x.rounds| && !x.infos[i].IsLocked(x.clock) && x.infos[i].state.Exclude?
    && (x.scores[i] > x.low || x.rounds[i].1 >= x.network)
  }

  /** An included authority with a low score is a candidate for exclusion. */
  predicate MovesOut(x: Inputs, i: nat) {
    && i < |x.scores| && i < |x.infos| && !x.infos[i].IsLocked(x.clock) && x.infos[i].state.Include? &&
      x.scores[i] <= x.low
  }

  /** Excluded authorities that take precedence over candidate `i`: those excluded before, and candidates
      with a score no better. */
  ghost function Preceding(x: Inputs, after: Infos, i: nat): set<nat> {
    set j | 0 <= j < |after| && after[j].state.Exclude?
      && (!MovesOut(x, j) || (j < |x.scores| && i < |x.scores| && x.scores[j] <= x.scores[i]))
  }

  /** The outcome of an update. */
  ghost predicate Updated(c: Committee, threshold: nat, x: Inputs, after: Infos) {
    && |after| == |x.infos| == |c.stakes|
    && (forall i :: 0 <= i < |after| && !MovesIn(x, i) && !MovesOut(x, i) ==> after[i] == x.infos[i])
    && (forall i :: 0 <= i < |after| && MovesIn(x, i) ==>
          after[i] == AncestorInfo(Include, x.clock + STATE_LOCK_CLOCK_ROUNDS))
    && (forall i :: 0 <= i < |after| && MovesOut(x, i) ==>
          || after[i] == AncestorInfo(Exclude(x.scores[i]), x.clock + STATE_LOCK_CLOCK_ROUNDS)
          || (after[i] == x.infos[i] && c.StakeOf(Preceding(x, after, i)) + c.stakes[i] > threshold))
  }

  /** Halfway: the authorities in `done` have come back, nothing else has changed. */
  ghost predicate Included(x: Inputs, now: Infos, done: set<nat>) {
    && |now| == |x.infos|
    && forall i :: 0 <= i < |now| ==>
         now[i] == if i in done then AncestorInfo(Include, x.clock + STATE_LOCK_CLOCK_ROUNDS) else x.infos[i]
  }

  /** The candidates in `done` have been considered. */
  ghost predicate Considered(c: Committee, threshold: nat, x: Inputs, now: Infos, done: set<nat>) {
    && |now| == |x.infos| == |c.stakes|
    && (forall i :: 0 <= i < |now| && !MovesOut(x, i) ==>
          now[i] == if MovesIn(x, i) then AncestorInfo(Include, x.clock + STATE_LOCK_CLOCK_ROUNDS) else x.infos[i])
    && (forall i :: 0 <= i < |now| && MovesOut(x, i) && i !in done ==> now[i] == x.infos[i])
    && (forall i :: 0 <= i < |now| && MovesOut(x, i) && i in done ==>
          || now[i] == AncestorInfo(Exclude(x.scores[i]), x.clock + STATE_LOCK_CLOCK_ROUNDS)
          || (now[i] == x.infos[i] && c.StakeOf(Preceding(x, now, i)) + c.stakes[i] > threshold))
  }
  /** Candidates, each once, worst scores first. */
  ghost predicate WorstFirst(x: Inputs, order: seq<nat>) {
    && Sorting.Distinct(order) && (forall i :: 0 <= i < |order| ==> MovesOut(x, order[i]))
    && forall i, j :: 0 <= i < j < |order| ==> ValueAt(x.scores, order[i]) <= ValueAt(x.scores, order[j])
  }

  lemma PrecedingGrows(x: Inputs, now: Infos, a: nat, info: AncestorInfo, i: nat)
    requires a < |now| && now[a].state.Include?
    ensures Preceding(x, now, i) <= Preceding(x, now[a := info], i)
  {
  }

  /** Everything excluded so far precedes the candidate whose turn it is. */
  lemma ExcludedPrecede(c: Committee, threshold: nat, x: Inputs, now: Infos, order: seq<nat>, k: nat)
    requires k < |order| && WorstFirst(x, order) && Considered(c, threshold, x, now, Listed(order[..k]))
    ensures Excluded(now) <= Preceding(x, now, order[k])
  {
    forall j | j in Excluded(now) && MovesOut(x, j)
      ensures x.scores[j] <= x.scores[order[k]]
    {
      assert j in Listed(order[..k]);
      var i :| 0 <= i < |order[..k]| && order[..k][i] == j;
      assert order[i] == j;
    }
  }

  /** Considering one candidate: it is excluded if the budget allows. */
  lemma ConsiderStep(c: Committee, threshold: nat, x: Inputs, now: Infos, order: seq<nat>, k: nat)
    requires k < |order| && WorstFirst(x, order) && Considered(c, threshold, x, now, Listed(order[..k]))
    ensures order[k] < |now|
    ensures now[order[k]] == x.infos[order[k]]
    ensures var a := order[k];
            var fits := c.StakeOf(Excluded(now)) + c.stakes[a] <= threshold;
            Considered(c, threshold, x,
                       if fits then now[a := AncestorInfo(Exclude(x.scores[a]), x.clock + STATE_LOCK_CLOCK_ROUNDS)]
                         else now,
                       Listed(order[..k + 1]))
  {
    hide Excluded, Preceding, Listed;
    var a := order[k];
    MembersStep(order, k);
    ExcludedPrecede(c, threshold, x, now, order, k);
    StakeMonotone(c, Excluded(now), Preceding(x, now, a));
    var info := AncestorInfo(Exclude(x.scores[a]), x.clock + STATE_LOCK_CLOCK_ROUNDS);
    forall i | 0 <= i < |now|
      ensures c.StakeOf(Preceding(x, now, i)) <= c.StakeOf(Preceding(x, now[a := info], i))
    {
      PrecedingGrows(x, now, a, info, i);
      StakeMonotone(c, Preceding(x, now, i), Preceding(x, now[a := info], i));
    }
  }

  /** The authorities that come back, and the candidates for exclusion, each once and in index order. */
  method CollectTransitions(x: Inputs) returns (ins: seq<nat>, outs: seq<nat>)
    requires |x.scores| <= |x.infos| && |x.scores| <= |x.rounds|
    ensures Sorting.Distinct(ins) && forall i :: i in ins <==> 0 <= i && MovesIn(x, i)
    ensures Sorting.Distinct(outs) && forall i :: i in outs <==> 0 <= i && MovesOut(x, i)
  {
    ins, outs := [], [];
    for idx := 0 to |x.scores|
      invariant Sorting.Distinct(ins) && forall i :: i in ins <==> 0 <= i < idx && MovesIn(x, i)
      invariant Sorting.Distinct(outs) && forall i :: i in outs <==> 0 <= i < idx && MovesOut(x, i)
    {
      var info := x.infos[idx];
      assert forall k :: 0 <= k < |ins| ==> ins[k] in ins;
      assert forall k :: 0 <= k < |outs| ==> outs[k] in outs;
      if !info.IsLocked(x.clock) {
        match info.state
        case Include =>
          if x.scores[idx] <= x.low {
            outs := outs + [idx];
          }
        case Exclude(_) =>
          if x.scores[idx] > x.low || x.rounds[idx].1 >= x.network {
            ins := ins + [idx];
          }
      }
    }
  }

  function HighestScore(scores: seq<nat>): (h: nat)
    ensures forall i :: 0 <= i < |scores| ==> scores[i] <= h
    ensures h == 0 || h in scores
  {
    if scores == [] then 0
    else
      var rest := HighestScore(scores[..|scores| - 1]);
      assert forall i :: 0 <= i < |scores| - 1 ==> scores[i] == scores[..|scores| - 1][i];
      if rest < scores[|scores| - 1] then scores[|scores| - 1] else rest
  }

  /** The score up to which an authority propagates poorly. */
  function LowScore(scores: seq<nat>): nat {
    HighestScore(scores) * SCORE_EXCLUSION_THRESHOLD_PERCENTAGE / 100
  }

  lemma SortedWorstFirst(x: Inputs, order: seq<nat>)
    requires Sorting.SortedBy(order, Up(x.scores)) && Sorting.Distinct(order)
    requires forall i :: i in order ==> MovesOut(x, i)
    ensures WorstFirst(x, order)
  {
    assert forall i :: 0 <= i < |order| ==> order[i] in order;
    forall i, j | 0 <= i < j < |order|
      ensures ValueAt(x.scores, order[i]) <= ValueAt(x.scores, order[j])
    {
      assert Up(x.scores)(order[i]) <= Up(x.scores)(order[j]);
    }
  }

  class AncestorStateManager {
    const committee: Committee
    // Stake that may be excluded.
    const threshold: nat
    var infos: Infos
    // Running total of the excluded stake.
    var totalExcludedStake: nat
    var propagationScores: seq<nat>

    // All state changes so far.
    ghost var log: seq<Change>

    ghost predicate Valid()
      reads this
    {
      WithinBudget(committee, infos, totalExcludedStake, threshold) && Locked(infos, log) && Spaced(log)
    }

    /** All ancestors start included. The budget is two thirds of the bad-node percentage, in stake. */
    constructor (committee: Committee, badNodesStakeThreshold: nat)
      ensures Valid() && this.committee == committee && log == [] && Excluded(infos) == {}
      ensures threshold == 2 * badNodesStakeThreshold / 3 * committee.TotalStake() / 100
    {
      this.committee := committee;
      threshold := 2 * badNodesStakeThreshold / 3 * committee.TotalStake() / 100;
      infos := seq(|committee.stakes|, _ => AncestorInfo(Include, 0));
      totalExcludedStake, propagationScores, log := 0, [], [];
      new;
      NoStakeInNobody(committee, |committee.stakes|);
      assert Excluded(infos) == {};
    }

    method SetPropagationScores(scores: seq<nat>)
      modifies this`propagationScores
      ensures propagationScores == scores
    {
      propagationScores := scores;
    }

    /** Changes the state of an unlocked authority and locks it. The subtraction cannot underflow. */
    method ApplyStateChange(a: nat, state: AncestorState, clock: nat)
      requires Valid() && a < |infos| && !infos[a].IsLocked(clock) && infos[a].state.Include? != state.Include?
      requires state.Exclude? ==> totalExcludedStake + committee.stakes[a] <= threshold
      modifies this`infos, this`totalExcludedStake, this`log
      ensures Valid() && infos == old(infos)[a := AncestorInfo(state, clock + STATE_LOCK_CLOCK_ROUNDS)]
      ensures log == old(log) + [Change(a, clock)]
    {
      ChangeIsSpaced(infos, log, a, state, clock);
      var lock := clock + STATE_LOCK_CLOCK_ROUNDS;
      match state {
        case Include =>
          ExcludedWithout(infos, a, lock);
          StakeInsert(committee, Excluded(infos[a := AncestorInfo(Include, lock)]), a);
          totalExcludedStake := totalExcludedStake - committee.stakes[a];
        case Exclude(score) =>
          ExcludedWith(infos, a, score, lock);
          StakeInsert(committee, Excluded(infos), a);
          totalExcludedStake := totalExcludedStake + committee.stakes[a];
      }
      infos := infos[a := AncestorInfo(state, lock)];
      log := log + [Change(a, clock)];
    }

    /** Brings the given excluded authorities back. */
    method IncludeAll(x: Inputs, ins: seq<nat>)
      requires Valid() && infos == x.infos && Sorting.Distinct(ins) && forall i :: i in ins <==> 0 <= i && MovesIn(x, i)
      modifies this`infos, this`totalExcludedStake, this`log
      ensures Valid() && Considered(committee, threshold, x, infos, {})
      ensures Logged(x.infos, infos, old(log), log, x.clock)
    {
      hide WithinBudget, Locked, Spaced, Logged;
      assert Listed(ins[..0]) == {};
      NothingLogged(infos, log, x.clock);
      for k := 0 to |ins|
        invariant Valid() && Included(x, infos, Listed(ins[..k])) && Logged(x.infos, infos, old(log), log, x.clock)
      {
        MembersStep(ins, k);
        assert ins[k] in ins;
        LogOne(x.infos, infos, old(log), log, x.clock, ins[k],
               AncestorInfo(Include, x.clock + STATE_LOCK_CLOCK_ROUNDS));
        ApplyStateChange(ins[k], Include, x.clock);
      }
      assert ins[..|ins|] == ins;
      SizesAgree(committee, infos, totalExcludedStake, threshold);
      forall i | 0 <= i < |infos|
        ensures i in Listed(ins) <==> MovesIn(x, i)
      {
        InListed(ins, i);
      }
    }

    /** Excludes candidates, worst scores first, as far as the budget allows. */
    method ExcludeWorst(x: Inputs, order: seq<nat>, ghost before: seq<Change>)
      requires Valid() && Considered(committee, threshold, x, infos, {})
      requires WorstFirst(x, order) && forall i :: 0 <= i && MovesOut(x, i) ==> i in order
      requires Logged(x.infos, infos, before, log, x.clock)
      modifies this`infos, this`totalExcludedStake, this`log
      ensures Valid() && Updated(committee, threshold, x, infos) && Logged(x.infos, infos, before, log, x.clock)
    {
      hide Considered, Locked, Spaced, Logged;
      assert Listed(order[..0]) == {};
      for k := 0 to |order|
        invariant Valid() && Considered(committee, threshold, x, infos, Listed(order[..k]))
        invariant Logged(x.infos, infos, before, log, x.clock)
      {
        ConsiderStep(committee, threshold, x, infos, order, k);
        SizesAgree(committee, infos, totalExcludedStake, threshold);
        var a := order[k];
        if totalExcludedStake + committee.stakes[a] <= threshold {
          LogOne(x.infos, infos, before, log, x.clock, a,
                 AncestorInfo(Exclude(x.scores[a]), x.clock + STATE_LOCK_CLOCK_ROUNDS));
          ApplyStateChange(a, Exclude(x.scores[a]), x.clock);
        }
      }
      assert order[..|order|] == order;
      AllConsidered(committee, threshold, x, infos, order);
    }

    /** Updates the state of all ancestors from the latest scores and quorum rounds. */
    method UpdateAllAncestorsState(rounds: seq<(nat, nat)>, clock: nat) returns (ghost network: nat)
      requires Valid() && |propagationScores| <= |rounds| && |propagationScores| <= |infos|
      modifies this`infos, this`totalExcludedStake, this`log
      ensures Valid() && Logged(old(infos), infos, old(log), log, clock)
      ensures IsHighQuorumRound(committee, HighRounds(|committee.stakes|, rounds), network)
      ensures Updated(committee, threshold,
                      Inputs(old(infos), propagationScores, rounds, clock, LowScore(propagationScores), network), infos)
      ensures |infos| == |old(infos)|
      ensures forall i :: 0 <= i < |infos| && old(infos)[i].state.Exclude? ==>
                infos[i] ==
                if i < |propagationScores| && old(infos)[i].lockUntilRound < clock
                   && (propagationScores[i] > HighestScore(propagationScores) * 20 / 100 || rounds[i].1 >= network)
                then AncestorInfo(Include, clock + 450) else old(infos)[i]
      ensures forall i :: 0 <= i < |infos| && old(infos)[i].state.Include? && infos[i] != old(infos)[i] ==>
                && i < |propagationScores| && old(infos)[i].lockUntilRound < clock
                && propagationScores[i] <= HighestScore(propagationScores) * 20 / 100
                && infos[i] == AncestorInfo(Exclude(propagationScores[i]), clock + 450)
      ensures forall i :: 0 <= i < |propagationScores| && old(infos)[i].state.Include?
                && old(infos)[i].lockUntilRound < clock && infos[i].state.Include?
                && propagationScores[i] <= HighestScore(propagationScores) * 20 / 100
                ==> totalExcludedStake + committee.stakes[i] > threshold
    {
      hide WithinBudget, Locked, Spaced, Logged, Considered, Updated, IsHighQuorumRound, Sorting.StableSort;
      SizesAgree(committee, infos, totalExcludedStake, threshold);
      var high := CalculateNetworkHighQuorumRound(committee, rounds);
      network := high;
      var low := LowScore(propagationScores);
      var x := Inputs(infos, propagationScores, rounds, clock, low, high);
      var ins, outs := CollectTransitions(x);
      IncludeAll(x, ins);
      var order := Sorting.SortByKey(outs, Up(propagationScores));
      Sorting.SameElements(order, outs);
      Sorting.DistinctPermuted(outs, order);
      SortedWorstFirst(x, order);
      ExcludeWorst(x, order, old(log));
      UpdateIs(committee, threshold, x, infos, totalExcludedStake);
    }
  }

  /** An update spelled out. A candidate that stays included would not fit beside all that is excluded. */
  lemma UpdateIs(c: Committee, threshold: nat, x: Inputs, after: Infos, total: nat)
    requires Updated(c, threshold, x, after) && WithinBudget(c, after, total, threshold)
    requires |x.scores| <= |x.infos| && |x.scores| <= |x.rounds|
    ensures |after| == |x.infos|
    ensures forall i :: 0 <= i < |after| && x.infos[i].state.Exclude? ==>
              after[i] ==
              if i < |x.scores| && x.infos[i].lockUntilRound < x.clock
                 && (x.scores[i] > x.low || x.rounds[i].1 >= x.network)
              then AncestorInfo(Include, x.clock + 450) else x.infos[i]
    ensures forall i :: 0 <= i < |after| && x.infos[i].state.Include? && after[i] != x.infos[i] ==>
              && i < |x.scores| && x.infos[i].lockUntilRound < x.clock && x.scores[i] <= x.low
              && after[i] == AncestorInfo(Exclude(x.scores[i]), x.clock + 450)
    ensures forall i :: 0 <= i < |x.scores| && x.infos[i].state.Include? && x.infos[i].lockUntilRound < x.clock
              && after[i].state.Include? && x.scores[i] <= x.low
              ==> total + c.stakes[i] > threshold
  {
    hide Preceding;
    forall i | 0 <= i < |x.scores| && x.infos[i].state.Include? && x.infos[i].lockUntilRound < x.clock
      && after[i].state.Include? && x.scores[i] <= x.low
      ensures total + c.stakes[i] > threshold
    {
      assert MovesOut(x, i);
      PrecedingExcluded(x, after, i);
      StakeMonotone(c, Preceding(x, after, i), Excluded(after));
    }
  }

  lemma PrecedingExcluded(x: Inputs, after: Infos, i: nat)
    ensures Preceding(x, after, i) <= Excluded(after)
  {
  }

  lemma SizesAgree(c: Committee, infos: Infos, total: nat, threshold: nat)
    requires WithinBudget(c, infos, total, threshold)
    ensures |infos| == |c.stakes|
  {
  }

  lemma InListed(s: seq<nat>, i: nat)
    ensures i in Listed(s) <==> i in s
  {
  }

  lemma AllConsidered(c: Committee, threshold: nat, x: Inputs, now: Infos, order: seq<nat>)
    requires Considered(c, threshold, x, now, Listed(order)) && forall i :: 0 <= i && MovesOut(x, i) ==> i in order
    ensures Updated(c, threshold, x, now)
  {
    hide Preceding;
    forall i | 0 <= i < |now| && MovesOut(x, i)
      ensures i in Listed(order)
    {
      InListed(order, i);
    }
  }
}
