/** Deciding a sequence of leaders with a pipeline of committers, and total order of the decided
    sequences over whole runs of all authorities. */
module UniversalCommitters {
  import opened Committees
  import opened Dags
  import opened CommitRules
  import opened Agreement
  import opened Committers

  /** The leader authority elected for a round and leader offset; shared by all authorities. */
  type Schedule = (nat, nat) -> nat

  /** The slots the committers elect for one round, in committer order. */
  function SlotsAt(committers: seq<Options>, schedule: Schedule, round: nat): seq<Slot> {
    if committers == [] then []
    else
      (if committers[0].HasLeader(round) then [Slot(round, schedule(round, committers[0].leaderOffset))] else [])
      + SlotsAt(committers[1..], schedule, round)
  }

  /** All leader slots of the rounds from `lo` up to but not including `hi`, in order. */
  function SlotsFrom(committers: seq<Options>, schedule: Schedule, lo: nat, hi: nat): seq<Slot>
    decreases hi - lo
  {
    if lo >= hi then [] else SlotsAt(committers, schedule, lo) + SlotsFrom(committers, schedule, lo + 1, hi)
  }

  lemma {:induction false} SlotsFromSplit(committers: seq<Options>, schedule: Schedule, lo: nat, mid: nat, hi: nat)
    requires lo <= mid <= hi
    ensures SlotsFrom(committers, schedule, lo, hi) ==
            SlotsFrom(committers, schedule, lo, mid) + SlotsFrom(committers, schedule, mid, hi)
    decreases mid - lo
  {
    hide SlotsAt;
    if lo < mid {
      SlotsFromSplit(committers, schedule, lo + 1, mid, hi);
      assert SlotsAt(committers, schedule, lo) +
        (SlotsFrom(committers, schedule, lo + 1, mid) + SlotsFrom(committers, schedule, mid, hi))
          == SlotsAt(committers, schedule, lo) + SlotsFrom(committers, schedule, lo + 1, mid) +
            SlotsFrom(committers, schedule, mid, hi);
    }
  }

  /** The longest prefix of decided leaders. */
  function DecidedPrefix(statuses: seq<LeaderStatus>): seq<LeaderStatus> {
    if statuses == [] || statuses[0].Undecided? then []
    else [statuses[0]] + DecidedPrefix(statuses[1..])
  }

  lemma {:induction false} DecidedPrefixMeans(statuses: seq<LeaderStatus>)
    ensures var d := DecidedPrefix(statuses);
            && d <= statuses
            && (forall k :: 0 <= k < |d| ==> d[k].IsDecided())
            && (|d| < |statuses| ==> statuses[|d|].Undecided?)
  {
    if statuses != [] && !statuses[0].Undecided? {
      DecidedPrefixMeans(statuses[1..]);
    }
  }

  // ----- deciding -----------------------------------------------------------------------

  /** `statuses` is what the commit rule gives for `slots` in view `v`. */
  ghost predicate Evaluated(c: Committee, v: View, slots: seq<Slot>, statuses: seq<LeaderStatus>) {
    && (forall k :: 0 <= k < |slots| ==> Sees(c, v, slots[k].round))
    && DecidedList(c, v, slots, statuses)
  }

  lemma EvaluatedCons(c: Committee, v: View, slot: Slot, slots: seq<Slot>, st: LeaderStatus,
                      statuses: seq<LeaderStatus>)
    requires Evaluated(c, v, slots, statuses) && Sees(c, v, slot.round) && Decides(c, v, slot, statuses, st)
    ensures Evaluated(c, v, [slot] + slots, [st] + statuses)
  {
    var slots', statuses' := [slot] + slots, [st] + statuses;
    forall k | 0 <= k < |slots'|
      ensures Sees(c, v, slots'[k].round) && Decides(c, v, slots'[k], statuses'[k + 1..], statuses'[k])
    {
      if k == 0 {
        assert statuses'[1..] == statuses;
      } else {
        assert slots'[k] == slots[k - 1] && statuses'[k] == statuses[k - 1] && statuses'[k + 1..] == statuses[k..];
      }
    }
  }

  /** The rule for slot `k` of a list, spelled out: a slot the direct rule leaves open is decided from the first
      committed leader at least three rounds up that only skipped leaders and leaders below that come before. */
  ghost predicate FollowsRule(c: Committee, v: View, statuses: seq<LeaderStatus>, k: nat)
    requires k < |statuses|
  {
    var slot := statuses[k].Slot();
    Sees(c, v, slot.round) &&
    var open := DirectlyDecides(c, v, slot, Undecided(slot));
    && (open || DirectlyDecides(c, v, slot, statuses[k]))
    && (forall p :: k < p < |statuses| && open && statuses[p].Commit? && slot.round + 3 <= statuses[p].leader.round
          && (forall j :: k < j < p ==> statuses[j].Skip? || statuses[j].Slot().round < slot.round + 3)
          ==> AnchorDecides(c, v, statuses[p].leader, slot, statuses[k]))
    && (open && (forall p :: k < p < |statuses| && statuses[p].Commit? && slot.round + 3 <= statuses[p].leader.round ==>
                   exists j :: k < j < p && !statuses[j].Skip? && slot.round + 3 <= statuses[j].Slot().round)
        ==> statuses[k] == Undecided(slot))
  }

  lemma OneSlot(c: Committee, v: View, slots: seq<Slot>, statuses: seq<LeaderStatus>, k: nat)
    requires Evaluated(c, v, slots, statuses) && k < |slots|
    ensures |statuses| == |slots| && FollowsRule(c, v, statuses, k)
  {
    EvaluatedSlot(c, v, slots, statuses, k);
    assert Decides(c, v, slots[k], statuses[k + 1..], statuses[k]);
    hide GoodView, Blamed, Supported, CertifiedLink, FindAnchor;
    var slot, later := slots[k], statuses[k + 1..];
    AnchorIsFirst(later, slot.round + 3);
    forall p | k < p < |statuses|
      ensures statuses[p] == later[p - k - 1]
    {
    }
    forall p | k < p < |statuses| && statuses[p].Commit? && slot.round + 3 <= statuses[p].leader.round
      && (forall j :: k < j < p ==> statuses[j].Skip? || statuses[j].Slot().round < slot.round + 3)
      ensures FindAnchor(later, slot.round + 3) == Some(statuses[p].leader)
    {
      assert later[p - k - 1] == statuses[p];
      assert forall j :: 0 <= j < p - k - 1 ==> later[j] == statuses[j + k + 1];
    }
    if FindAnchor(later, slot.round + 3).Some? {
      var q :| 0 <= q < |later| && later[q].Commit? && slot.round + 3 <= later[q].leader.round
        && FindAnchor(later, slot.round + 3) == Some(later[q].leader)
        && forall j :: 0 <= j < q ==> later[j].Skip? || later[j].Slot().round < slot.round + 3;
      assert statuses[q + k + 1] == later[q];
      assert forall j :: k < j < q + k + 1 ==> statuses[j] == later[j - k - 1];
    }
  }

  lemma RuleFollowed(c: Committee, v: View, slots: seq<Slot>, statuses: seq<LeaderStatus>)
    requires Evaluated(c, v, slots, statuses)
    ensures forall k :: 0 <= k < |statuses| ==> FollowsRule(c, v, statuses, k)
  {
    hide FollowsRule;
    forall k | 0 <= k < |statuses|
      ensures FollowsRule(c, v, statuses, k)
    {
      OneSlot(c, v, slots, statuses, k);
    }
  }

  lemma CommittedArePresent(c: Committee, v: View, slots: seq<Slot>, statuses: seq<LeaderStatus>)
    requires Evaluated(c, v, slots, statuses)
    ensures forall k :: 0 <= k < |statuses| && statuses[k].Commit? ==> statuses[k].leader in v.dag
  {
    forall k | 0 <= k < |statuses| && statuses[k].Commit?
      ensures statuses[k].leader in v.dag
    {
      assert Decides(c, v, slots[k], statuses[k + 1..], statuses[k]);
    }
  }

  /** One slot: the direct rule, then the indirect rule if the direct rule does not decide. */
  method DecideSlot(ghost n: Network, c: Committee, v: View, options: Options, slot: Slot, leaders: seq<LeaderStatus>,
                    ghost slots: seq<Slot>)
    returns (st: LeaderStatus)
    requires GoodNetwork(n) && c == n.committee && ViewOf(n, v, slot.round) && options.HasLeader(slot.round)
    requires Evaluated(c, v, slots, leaders)
    ensures Evaluated(c, v, [slot] + slots, [st] + leaders)
  {
    st := TryDirectDecide(n, c, v, options, slot);
    if !st.IsDecided() {
      CommittedArePresent(c, v, slots, leaders);
      st := TryIndirectDecide(n, c, v, options, slot, leaders);
    }
    EvaluatedCons(c, v, slot, slots, st, leaders);
  }

  lemma SlotsAtStep(committers: seq<Options>, schedule: Schedule, round: nat, i: nat, slots: seq<Slot>)
    requires i < |committers|
    ensures SlotsAt(committers[i..], schedule, round) + slots ==
            if committers[i].HasLeader(round)
            then [Slot(round, schedule(round, committers[i].leaderOffset))] +
              (SlotsAt(committers[i + 1..], schedule, round) + slots)
            else SlotsAt(committers[i + 1..], schedule, round) + slots
  {
    assert committers[i..][0] == committers[i] && committers[i..][1..] == committers[i + 1..];
  }

  ghost function ElectedBefore(committers: seq<Options>, round: nat, n: nat): nat
    requires n <= |committers|
  {
    |set j | 0 <= j < n && committers[j].HasLeader(round)|
  }

  lemma {:induction false} SlotsAtAppend(committers: seq<Options>, o: Options, schedule: Schedule, round: nat)
    ensures SlotsAt(committers + [o], schedule, round) ==
            SlotsAt(committers, schedule, round) +
            if o.HasLeader(round) then [Slot(round, schedule(round, o.leaderOffset))] else []
  {
    if committers == [] {
      assert SlotsAt([o][1..], schedule, round) == [];
    } else {
      SlotsAtAppend(committers[1..], o, schedule, round);
      assert (committers + [o])[1..] == committers[1..] + [o] && (committers + [o])[0] == committers[0];
    }
  }

  /** Every committer whose wave starts in the round has its slot, in committer order, and there are no others. */
  lemma {:induction false} SlotsAtAre(committers: seq<Options>, schedule: Schedule, round: nat, n: nat)
    requires n <= |committers|
    ensures |SlotsAt(committers[..n], schedule, round)| == ElectedBefore(committers, round, n)
    ensures forall i :: 0 <= i < n && committers[i].HasLeader(round) ==>
              var k := ElectedBefore(committers, round, i);
              && k < ElectedBefore(committers, round, n)
              && SlotsAt(committers[..n], schedule, round)[k] ==
                 Slot(round, schedule(round, committers[i].leaderOffset))
  {
    if n == 0 {
      assert committers[..0] == [];
    } else {
      SlotsAtAre(committers, schedule, round, n - 1);
      SlotsAtAppend(committers[..n - 1], committers[n - 1], schedule, round);
      assert committers[..n] == committers[..n - 1] + [committers[n - 1]];
      ElectedStep(committers, round, n - 1);
    }
  }

  lemma ElectedStep(committers: seq<Options>, round: nat, n: nat)
    requires n < |committers|
    ensures ElectedBefore(committers, round, n + 1) ==
            ElectedBefore(committers, round, n) + if committers[n].HasLeader(round) then 1 else 0
  {
    var before, after := set j | 0 <= j < n && committers[j].HasLeader(round),
      set j | 0 <= j < n + 1 && committers[j].HasLeader(round);
    assert after == before + if committers[n].HasLeader(round) then {n} else {};
  }

  /** Evaluates all leaders of one round on top of the later leaders, last committer first. */
  method DecideRound(ghost n: Network, c: Committee, v: View, committers: seq<Options>, schedule: Schedule, round: nat,
                     leaders: seq<LeaderStatus>, ghost slots: seq<Slot>)
    returns (statuses: seq<LeaderStatus>)
    requires GoodNetwork(n) && c == n.committee && ViewOf(n, v, round)
    requires Evaluated(c, v, slots, leaders)
    ensures Evaluated(c, v, SlotsAt(committers, schedule, round) + slots, statuses)
  {
    statuses := leaders;
    assert SlotsAt(committers[|committers|..], schedule, round) + slots == slots;
    for i := |committers| downto 0
      invariant Evaluated(c, v, SlotsAt(committers[i..], schedule, round) + slots, statuses)
    {
      SlotsAtStep(committers, schedule, round, i, slots);
      if committers[i].HasLeader(round) {
        var slot := Slot(round, schedule(round, committers[i].leaderOffset));
        var st := DecideSlot(n, c, v, committers[i], slot, statuses,
                             SlotsAt(committers[i + 1..], schedule, round) + slots);
        statuses := [st] + statuses;
      }
    }
    assert committers[0..] == committers;
  }

  /** One past the highest round whose leaders can be decided: deciding takes two more rounds. */
  function Horizon(highestAcceptedRound: nat): nat {
    (if highestAcceptedRound < 2 then 0 else highestAcceptedRound - 2) + 1
  }

  /** Tries to decide all leaders after the last decided round, highest round first, and returns
      the longest decided prefix. */
  method TryDecide(ghost n: Network, c: Committee, v: View, committers: seq<Options>, schedule: Schedule,
                   lastDecided: Slot, highestAcceptedRound: nat)
    returns (decided: seq<LeaderStatus>, ghost statuses: seq<LeaderStatus>)
    requires GoodNetwork(n) && c == n.committee && ViewOf(n, v, lastDecided.round + 1)
    ensures decided == DecidedPrefix(statuses)
    ensures Evaluated(c, v, SlotsFrom(committers, schedule, lastDecided.round + 1, Horizon(highestAcceptedRound)),
                      statuses)
  {
    var lo, hi := lastDecided.round + 1, Horizon(highestAcceptedRound);
    var leaders: seq<LeaderStatus> := [];
    var round := if hi < lo then lo else hi;
    while round > lo
      invariant lo <= round && (lo <= hi ==> round <= hi)
      invariant Evaluated(c, v, SlotsFrom(committers, schedule, round, hi), leaders)
    {
      round := round - 1;
      leaders := DecideRound(n, c, v, committers, schedule, round, leaders,
                             SlotsFrom(committers, schedule, round + 1, hi));
    }
    statuses := leaders;
    decided := TakeDecided(leaders);
  }

  method TakeDecided(leaders: seq<LeaderStatus>) returns (decided: seq<LeaderStatus>)
    ensures decided == DecidedPrefix(leaders)
  {
    decided := [];
    for i := 0 to |leaders|
      invariant DecidedPrefix(leaders) == decided + DecidedPrefix(leaders[i..])
    {
      assert leaders[i..][0] == leaders[i] && leaders[i..][1..] == leaders[i + 1..];
      if !leaders[i].IsDecided() {
        break;
      }
      decided := decided + [leaders[i]];
    }
    DecidedPrefixMeans(leaders);
  }

  // ----- whole runs ---------------------------------------------------------------------

  /** The production configuration: one leader per round, one committer per wave offset. */
  const PIPELINE: seq<Options> := [Options(0, 0), Options(0, 1), Options(0, 2)]

  lemma LeaderEveryThirdRound(o: Options, round: nat)
    requires o.roundOffset < WAVE_LENGTH
    ensures o.HasLeader(round) <==> round % WAVE_LENGTH == o.roundOffset
  {
  }

  /** The pipeline elects exactly one leader in every round. */
  lemma PipelineElectsOnePerRound(schedule: Schedule, round: nat)
    ensures SlotsAt(PIPELINE, schedule, round) == [Slot(round, schedule(round, 0))]
  {
    LeaderEveryThirdRound(PIPELINE[0], round);
    LeaderEveryThirdRound(PIPELINE[1], round);
    LeaderEveryThirdRound(PIPELINE[2], round);
    var later, last := [PIPELINE[1], PIPELINE[2]], [PIPELINE[2]];
    assert PIPELINE[1..] == later && later[1..] == last && last[1..] == [];
    assert SlotsAt(last, schedule, round) == if round % 3 == 2 then [Slot(round, schedule(round, 0))] else [];
    assert SlotsAt(later, schedule, round) == if round % 3 != 0 then [Slot(round, schedule(round, 0))] else [];
  }

  /** One slot per round, with the authority the schedule elects. */
  lemma {:induction false} PipelineSlots(schedule: Schedule, lo: nat, hi: nat)
    requires lo <= hi
    ensures var slots := SlotsFrom(PIPELINE, schedule, lo, hi);
            |slots| == hi - lo && forall k :: 0 <= k < |slots| ==> slots[k] == Slot(lo + k, schedule(lo + k, 0))
    decreases hi - lo
  {
    if lo < hi {
      PipelineElectsOnePerRound(schedule, lo);
      PipelineSlots(schedule, lo + 1, hi);
    }
  }

  // The leader schedule changes with what is committed: after every so many commits, to one computed from
  // the commits so far. All authorities compute it in the same way.

  /** How leaders are elected: commits per schedule, and the schedule for the decisions up to its last change. */
  datatype Scheduling = Scheduling(period: nat, elect: seq<LeaderStatus> -> Schedule)

  /** Commits since the last change of schedule. */
  function SinceChange(period: nat, log: seq<LeaderStatus>): (commits: nat)
    requires period >= 1
    ensures commits < period
  {
    if log == [] then 0
    else
      var before := SinceChange(period, log[..|log| - 1]);
      if !log[|log| - 1].Commit? then before else if before + 1 == period then 0 else before + 1
  }

  /** The decisions up to the last change of schedule. */
  function UpToChange(period: nat, log: seq<LeaderStatus>): seq<LeaderStatus>
    requires period >= 1
  {
    if log == [] || (log[|log| - 1].Commit? && SinceChange(period, log) == 0) then log
    else UpToChange(period, log[..|log| - 1])
  }

  /** Commits since the last change are all commits, modulo the period. */
  lemma {:induction false} SinceChangeIs(period: nat, log: seq<LeaderStatus>, n: nat)
    requires period >= 1 && n <= |log|
    ensures SinceChange(period, log[..n]) == CommitsBefore(log, n) % period
  {
    if n == 0 {
      NoCommitsBefore(log);
    } else {
      SinceChangeIs(period, log, n - 1);
      assert log[..n][..n - 1] == log[..n - 1];
      CommitsBeforeStep(log, n - 1);
      hide CommitsBefore;
      OneMore(CommitsBefore(log, n - 1), period);
    }
  }

  lemma OneMore(commits: nat, period: nat)
    requires period >= 1
    ensures (commits + 1) % period == if commits % period + 1 == period then 0 else commits % period + 1
  {
    var q, r := commits / period, commits % period;
    assert commits == period * q + r;
    if r + 1 == period {
      assert period * (q + 1) == period * q + period;
      RemainderIs(commits + 1, period, q + 1, 0);
    } else {
      RemainderIs(commits + 1, period, q, r + 1);
    }
  }

  lemma RemainderIs(n: nat, period: nat, q: nat, r: nat)
    requires period >= 1 && r < period && n == period * q + r
    ensures n % period == r
  {
    var q', r' := n / period, n % period;
    assert n == period * q' + r';
    if q != q' {
      var lo, hi := if q < q' then q else q', if q < q' then q' else q;
      Apart(period, lo, hi);
    }
  }

  lemma {:induction false} Apart(period: nat, lo: nat, hi: nat)
    requires lo < hi
    ensures period * lo + period <= period * hi
  {
    assert period * hi == period * (hi - 1) + period;
    if lo < hi - 1 {
      Apart(period, lo, hi - 1);
    }
  }

  /** The schedule last changed at the commit that completed a period: the decisions up to then end with it, and
      all but less than a period of the commits are among them. */
  lemma {:induction false} ChangesEveryPeriod(period: nat, log: seq<LeaderStatus>, n: nat) returns (k: nat)
    requires period >= 1 && n <= |log|
    ensures k <= n && UpToChange(period, log[..n]) == log[..k] && (k == 0 || log[k - 1].Commit?)
    ensures CommitsBefore(log, k) == CommitsBefore(log, n) - CommitsBefore(log, n) % period
  {
    SinceChangeIs(period, log, n);
    if n == 0 {
      NoCommitsBefore(log);
      k := 0;
    } else {
      CommitsBeforeStep(log, n - 1);
      hide CommitsBefore;
      assert log[..n][..n - 1] == log[..n - 1];
      if log[n - 1].Commit? && SinceChange(period, log[..n]) == 0 {
        k := n;
      } else {
        k := ChangesEveryPeriod(period, log, n - 1);
        OneMore(CommitsBefore(log, n - 1), period);
      }
    }
  }

  function ScheduleAfter(s: Scheduling, log: seq<LeaderStatus>): Schedule
    requires s.period >= 1
  {
    s.elect(UpToChange(s.period, log))
  }

  /** Commits until the schedule changes next. */
  function CommitsLeft(s: Scheduling, log: seq<LeaderStatus>): (left: nat)
    requires s.period >= 1
    ensures left >= 1
  {
    s.period - SinceChange(s.period, log)
  }

  /** With `m` commits so far, the schedule is the one elected from the decisions up to commit `m - m % period`, and
      as many commits are left for it as complete the period. */
  lemma ScheduleIs(s: Scheduling, log: seq<LeaderStatus>) returns (k: nat)
    requires s.period >= 1
    ensures k <= |log| && ScheduleAfter(s, log) == s.elect(log[..k]) && (k == 0 || log[k - 1].Commit?)
    ensures var m := |set j | 0 <= j < |log| && log[j].Commit?|;
            && |set j | 0 <= j < k && log[j].Commit?| == m - m % s.period
            && CommitsLeft(s, log) == s.period - m % s.period
  {
    k := ChangesEveryPeriod(s.period, log, |log|);
    SinceChangeIs(s.period, log, |log|);
    assert log[..|log|] == log;
    assert CommitsBefore(log, k) == |set j | 0 <= j < k && log[j].Commit?|;
  }

  /** Fewer decisions than commits are left do not change the schedule. */
  lemma {:induction false} SameSchedule(s: Scheduling, log: seq<LeaderStatus>, l: nat, k: nat)
    requires s.period >= 1 && l <= k <= |log| && k - l < CommitsLeft(s, log[..l])
    ensures UpToChange(s.period, log[..k]) == UpToChange(s.period, log[..l])
    ensures SinceChange(s.period, log[..k]) <= SinceChange(s.period, log[..l]) + (k - l)
    decreases k
  {
    if k > l {
      SameSchedule(s, log, l, k - 1);
      assert log[..k][..k - 1] == log[..k - 1];
    }
  }

  /** One call to `TryDecide` by some authority: its view at the time, one past the highest round
      considered, the resulting statuses, and how many decisions are taken at most. */
  datatype Call = Call(view: View, horizon: nat, statuses: seq<LeaderStatus>, limit: nat)

  /** What one authority has done, oldest first: calls to the committer, and certified commits taken over
      from others, which lie within the first `length` decisions of some other authority. */
  datatype History = Start | Then(prior: History, call: Call) | Adopt(prior: History, other: History, length: nat)

  function Truncated(decided: seq<LeaderStatus>, limit: nat): seq<LeaderStatus> {
    if |decided| >= limit then decided[..limit] else decided
  }

  /** What a call adds to the log. */
  function Output(call: Call): seq<LeaderStatus> {
    Truncated(DecidedPrefix(call.statuses), call.limit)
  }

  /** The sequence of decided leaders an authority has output after some calls. */
  function LogOf(h: History): seq<LeaderStatus> {
    match h
    case Start => []
    case Then(prior, call) => LogOf(prior) + Output(call)
    case Adopt(_, other, length) => Truncated(LogOf(other), length)
  }

  function LastDecided(log: seq<LeaderStatus>): Slot {
    if log == [] then Slot(GENESIS_ROUND, 0) else log[|log| - 1].Slot()
  }

  /** A call that continues after `log`, with the schedule as of then, any view of the network and any horizon.
      It takes no more decisions than commits are left for the schedule. */
  ghost predicate ContinuesFrom(n: Network, s: Scheduling, log: seq<LeaderStatus>, call: Call) {
    var lo := LastDecided(log).round + 1;
    && s.period >= 1 && call.limit == CommitsLeft(s, log) && ViewOf(n, call.view, lo)
    && Evaluated(n.committee, call.view, SlotsFrom(PIPELINE, ScheduleAfter(s, log), lo, call.horizon), call.statuses)
  }

  /** A run of one authority: every call continues where the log ended. */
  ghost predicate Run(n: Network, s: Scheduling, h: History) {
    match h
    case Start => true
    case Then(prior, call) => Run(n, s, prior) && ContinuesFrom(n, s, LogOf(prior), call)
    case Adopt(prior, other, length) =>
      Run(n, s, prior) && Run(n, s, other) && |LogOf(prior)| <= length <= |LogOf(other)|
  }

  /** Every call of the pipelined committer that continues from the last decided leader, with the current
      schedule and cut to the commits left for it, extends a run. */
  method Advance(ghost n: Network, ghost s: Scheduling, c: Committee, v: View, schedule: Schedule, left: nat,
                 lastDecided: Slot, highestAcceptedRound: nat, ghost h: History)
    returns (decided: seq<LeaderStatus>, ghost h': History)
    requires GoodNetwork(n) && c == n.committee && Run(n, s, h) && s.period >= 1
    requires schedule == ScheduleAfter(s, LogOf(h)) && left == CommitsLeft(s, LogOf(h))
    requires lastDecided == LastDecided(LogOf(h)) && ViewOf(n, v, lastDecided.round + 1)
    ensures Run(n, s, h') && LogOf(h') == LogOf(h) + decided
    ensures h'.Then? && h'.prior == h && h'.call.view == v && h'.call.limit == left
    ensures |h'.call.statuses| ==
            if lastDecided.round + 3 <= highestAcceptedRound then highestAcceptedRound - 2 - lastDecided.round else 0
    ensures forall k :: 0 <= k < |h'.call.statuses| ==>
              h'.call.statuses[k].Slot() == Slot(lastDecided.round + 1 + k, schedule(lastDecided.round + 1 + k, 0))
    ensures forall k :: 0 <= k < |h'.call.statuses| ==> FollowsRule(c, v, h'.call.statuses, k)
    ensures decided <= h'.call.statuses && |decided| <= left
    ensures forall k :: 0 <= k < |decided| ==> !decided[k].Undecided?
    ensures |decided| == left || |decided| == |h'.call.statuses| || h'.call.statuses[|decided|].Undecided?
    ensures forall i :: 0 <= i < |decided| && decided[i].Commit? ==> decided[i].leader in v.dag
    ensures |LogOf(h)| < Horizon(highestAcceptedRound) || decided == []
    ensures |LogOf(h')| < Horizon(highestAcceptedRound) || decided == []
  {
    hide SlotsFrom, Evaluated, DecidedPrefix, GoodView, PartOf, ScheduleAfter, CommitsLeft, LogOf, FollowsRule;
    ghost var statuses;
    decided, statuses := TryDecide(n, c, v, PIPELINE, schedule, lastDecided, highestAcceptedRound);
    h' := Then(h, Call(v, Horizon(highestAcceptedRound), statuses, left));
    OutputIsPresent(n, s, LogOf(h), h'.call);
    LogFollowsRounds(n, s, h);
    CallFollowsRounds(n, s, LogOf(h), h'.call);
    LogStep(h, h'.call);
    OutputIsDecided(h'.call);
    RuleFollowed(c, v, SlotsFrom(PIPELINE, schedule, lastDecided.round + 1, h'.call.horizon), statuses);
    if |decided| >= left {
      decided := decided[..left];
    }
  }

  lemma OutputIsDecided(call: Call)
    ensures |Output(call)| <= |call.statuses| && |Output(call)| <= call.limit
    ensures forall i :: 0 <= i < |Output(call)| ==> Output(call)[i] == call.statuses[i] && call.statuses[i].IsDecided()
    ensures || |Output(call)| == call.limit || |Output(call)| == |call.statuses|
            || call.statuses[|Output(call)|].Undecided?
  {
    DecidedPrefixMeans(call.statuses);
  }

  lemma LogStep(h: History, call: Call)
    ensures LogOf(Then(h, call)) == LogOf(h) + Output(call)
  {
  }

  lemma OutputIsPresent(n: Network, s: Scheduling, log: seq<LeaderStatus>, call: Call)
    requires ContinuesFrom(n, s, log, call)
    ensures forall i :: 0 <= i < |Output(call)| && Output(call)[i].Commit? ==> Output(call)[i].leader in call.view.dag
    ensures |Output(call)| <= |call.statuses|
  {
    hide Evaluated, SlotsFrom, ScheduleAfter;
    CommittedArePresent(n.committee, call.view,
                        SlotsFrom(PIPELINE, ScheduleAfter(s, log), LastDecided(log).round + 1,
                                  call.horizon), call.statuses);
    DecidedPrefixMeans(call.statuses);
  }

  lemma EvaluatedSlot(c: Committee, v: View, slots: seq<Slot>, statuses: seq<LeaderStatus>, k: nat)
    requires Evaluated(c, v, slots, statuses) && k < |slots|
    ensures |statuses| == |slots| && statuses[k].Slot() == slots[k]
  {
    assert Decides(c, v, slots[k], statuses[k + 1..], statuses[k]);
  }

  /** A call decides the rounds right after the log, one entry per round. */
  lemma CallFollowsRounds(n: Network, s: Scheduling, log: seq<LeaderStatus>, call: Call)
    requires ContinuesFrom(n, s, log, call) && LastDecided(log).round == |log|
    ensures forall k :: 0 <= k < |call.statuses| ==>
              call.statuses[k].Slot() == Slot(|log| + 1 + k, ScheduleAfter(s, log)(|log| + 1 + k, 0))
    ensures |call.statuses| == if |log| + 1 < call.horizon then call.horizon - |log| - 1 else 0
  {
    hide ScheduleAfter, CommitsLeft;
    var slots := SlotsFrom(PIPELINE, ScheduleAfter(s, log), |log| + 1, call.horizon);
    if |log| + 1 <= call.horizon {
      PipelineSlots(ScheduleAfter(s, log), |log| + 1, call.horizon);
    }
    forall k | 0 <= k < |call.statuses|
      ensures call.statuses[k].Slot() == slots[k]
    {
      EvaluatedSlot(n.committee, call.view, slots, call.statuses, k);
    }
  }

  /** The log holds one entry per round, in order. */
  lemma {:induction false} LogFollowsRounds(n: Network, s: Scheduling, h: History)
    requires Run(n, s, h)
    ensures var log := LogOf(h);
            LastDecided(log).round == |log| && forall k :: 0 <= k < |log| ==> log[k].Slot().round == k + 1
  {
    hide ContinuesFrom;
    if h.Then? {
      LogFollowsRounds(n, s, h.prior);
      CallFollowsRounds(n, s, LogOf(h.prior), h.call);
      DecidedPrefixMeans(h.call.statuses);
    } else if h.Adopt? {
      LogFollowsRounds(n, s, h.other);
    }
  }

  /** A call's statuses as an outcome over the slots of all rounds. */
  lemma OutcomeOfCall(n: Network, s: Scheduling, log: seq<LeaderStatus>, call: Call, last: nat)
    requires ContinuesFrom(n, s, log, call) && LastDecided(log).round == |log|
    requires |log| + 1 <= call.horizon <= last
    ensures ValidOutcome(n, SlotsFrom(PIPELINE, ScheduleAfter(s, log), 1, last),
                         Outcome(call.view, |log|, call.statuses))
  {
    hide SlotsFrom, SlotsAt, Decides, GoodView, ScheduleAfter, CommitsLeft;
    var lo, schedule := |log| + 1, ScheduleAfter(s, log);
    var slots, mine := SlotsFrom(PIPELINE, schedule, 1, last), SlotsFrom(PIPELINE, schedule, lo, call.horizon);
    SlotsFromSplit(PIPELINE, schedule, 1, lo, last);
    SlotsFromSplit(PIPELINE, schedule, lo, call.horizon, last);
    PipelineSlots(schedule, 1, lo);
    PipelineSlots(schedule, lo, call.horizon);
    PipelineSlots(schedule, 1, last);
    assert |call.statuses| == |mine|;
    assert slots[|log|..|log| + |mine|] == mine;
  }

  /** Entry `k` of the decisions `all` was decided by a call that continued after `log`, before the schedule
      changed. */
  ghost predicate DecidedBy(n: Network, s: Scheduling, all: seq<LeaderStatus>, k: nat, log: seq<LeaderStatus>,
                            call: Call) {
    && s.period >= 1 && ContinuesFrom(n, s, log, call) && LastDecided(log).round == |log| <= k < |all| &&
      k < |log| + |call.statuses|
    && log == all[..|log|] && call.statuses[k - |log|] == all[k] && all[k].IsDecided()
    && |log| + 1 <= call.horizon && k - |log| < CommitsLeft(s, log)
  }

  lemma DecidedNow(n: Network, s: Scheduling, log: seq<LeaderStatus>, call: Call, k: nat)
    requires ContinuesFrom(n, s, log, call) && LastDecided(log).round == |log| <= k < |log| + |Output(call)|
    ensures DecidedBy(n, s, log + Output(call), k, log, call)
  {
    assert s.period >= 1 && call.limit == CommitsLeft(s, log);
    OutputIsDecided(call);
    CallFollowsRounds(n, s, log, call);
    hide ContinuesFrom, CommitsLeft, Output, LastDecided;
    assert (log + Output(call))[..|log|] == log;
  }

  /** Only the decisions up to the entry matter. */
  lemma DecidedBefore(n: Network, s: Scheduling, all: seq<LeaderStatus>, all': seq<LeaderStatus>, k: nat,
                      log: seq<LeaderStatus>, call: Call)
    requires DecidedBy(n, s, all, k, log, call) && k < |all'| && all[..k + 1] == all'[..k + 1]
    ensures DecidedBy(n, s, all', k, log, call)
  {
    assert s.period >= 1;
    hide ContinuesFrom, CommitsLeft, LastDecided;
    assert all[k] == all[..k + 1][k] && all'[k] == all'[..k + 1][k];
    assert all[..|log|] == all[..k + 1][..|log|] && all'[..|log|] == all'[..k + 1][..|log|];
  }

  /** Every log entry was decided by a call, of this authority or another. */
  lemma {:induction false} LogEntryOrigin(n: Network, s: Scheduling, h: History, k: nat)
    returns (log: seq<LeaderStatus>, call: Call)
    requires Run(n, s, h) && k < |LogOf(h)|
    ensures DecidedBy(n, s, LogOf(h), k, log, call)
  {
    hide DecidedBy, ContinuesFrom, Output;
    if h.Adopt? {
      log, call := LogEntryOrigin(n, s, h.other, k);
      assert LogOf(h)[..k + 1] == LogOf(h.other)[..k + 1];
      DecidedBefore(n, s, LogOf(h.other), LogOf(h), k, log, call);
    } else if k < |LogOf(h.prior)| {
      log, call := LogEntryOrigin(n, s, h.prior, k);
      assert LogOf(h)[..k + 1] == LogOf(h.prior)[..k + 1];
      DecidedBefore(n, s, LogOf(h.prior), LogOf(h), k, log, call);
    } else {
      log, call := LogOf(h.prior), h.call;
      LogFollowsRounds(n, s, h.prior);
      DecidedNow(n, s, log, call, k);
    }
  }

  lemma LogEntryOutcome(n: Network, s: Scheduling, h: History, k: nat) returns (o: Outcome, horizon: nat)
    requires Run(n, s, h) && k < |LogOf(h)|
    ensures s.period >= 1 && Covers(o, k) && StatusAt(o, k) == LogOf(h)[k] && LogOf(h)[k].IsDecided()
    ensures forall last: nat :: last >= horizon ==>
              ValidOutcome(n, SlotsFrom(PIPELINE, ScheduleAfter(s, LogOf(h)[..k]), 1, last), o)
  {
    hide ContinuesFrom, SlotsFrom, ValidOutcome, LogOf, Run, LastDecided, CommitsLeft, UpToChange;
    var log, call := LogEntryOrigin(n, s, h, k);
    o, horizon := Outcome(call.view, |log|, call.statuses), call.horizon;
    SameSchedule(s, LogOf(h), |log|, k);
    forall last: nat | last >= horizon
      ensures ValidOutcome(n, SlotsFrom(PIPELINE, ScheduleAfter(s, LogOf(h)[..k]), 1, last), o)
    {
      OutcomeOfCall(n, s, log, call, last);
    }
  }

  /** A committed leader in a log is a block of the network, in the round of its entry. */
  lemma CommittedLeaderIsKnown(n: Network, s: Scheduling, h: History, k: nat)
    requires Run(n, s, h) && k < |LogOf(h)| && LogOf(h)[k].Commit?
    ensures LogOf(h)[k].leader in n.blocks && LogOf(h)[k].leader.round == k + 1
  {
    hide ContinuesFrom, SlotsFrom, LogOf, Run, LastDecided, DecidedPrefix, ScheduleAfter;
    var o, horizon := LogEntryOutcome(n, s, h, k);
    var last := if horizon < k + 2 then k + 2 else horizon;
    var schedule := ScheduleAfter(s, LogOf(h)[..k]);
    CommittedIsPresent(n, SlotsFrom(PIPELINE, schedule, 1, last), o, k);
    PipelineSlots(schedule, 1, last);
    OutcomeStep(n, SlotsFrom(PIPELINE, schedule, 1, last), o, k);
  }

  /** After equal decisions, and so with the same schedule, two runs decide alike. */
  lemma LogEntriesAgree(n: Network, s: Scheduling, h1: History, h2: History, k: nat)
    requires GoodNetwork(n) && Run(n, s, h1) && Run(n, s, h2)
    requires k < |LogOf(h1)| && k < |LogOf(h2)| && LogOf(h1)[..k] == LogOf(h2)[..k]
    ensures LogOf(h1)[k] == LogOf(h2)[k]
  {
    hide GoodNetwork, SlotsFrom, LogOf, Run, ValidOutcome, ScheduleAfter;
    var o1, horizon1 := LogEntryOutcome(n, s, h1, k);
    var o2, horizon2 := LogEntryOutcome(n, s, h2, k);
    var last := if horizon1 < horizon2 then horizon2 else horizon1;
    DecisionsAgree(n, SlotsFrom(PIPELINE, ScheduleAfter(s, LogOf(h1)[..k]), 1, last), o1, o2, k);
  }

  lemma {:induction false} LogPrefixesAgree(n: Network, s: Scheduling, h1: History, h2: History, k: nat)
    requires GoodNetwork(n) && Run(n, s, h1) && Run(n, s, h2)
    requires k <= |LogOf(h1)| && k <= |LogOf(h2)|
    ensures LogOf(h1)[..k] == LogOf(h2)[..k]
  {
    hide GoodNetwork, Run, LogOf;
    if k > 0 {
      LogPrefixesAgree(n, s, h1, h2, k - 1);
      LogEntriesAgree(n, s, h1, h2, k - 1);
      assert LogOf(h1)[..k] == LogOf(h1)[..k - 1] + [LogOf(h1)[k - 1]];
      assert LogOf(h2)[..k] == LogOf(h2)[..k - 1] + [LogOf(h2)[k - 1]];
    }
  }

  lemma AdoptRuns(n: Network, s: Scheduling, prior: History, other: History, length: nat)
    requires Run(n, s, prior) && Run(n, s, other) && |LogOf(prior)| <= length <= |LogOf(other)|
    ensures Run(n, s, Adopt(prior, other, length))
  {
    hide ContinuesFrom, Output;
  }

  lemma AdoptMeans(n: Network, s: Scheduling, prior: History, other: History, length: nat)
    requires Run(n, s, Adopt(prior, other, length))
    ensures Run(n, s, prior) && Run(n, s, other) && |LogOf(prior)| <= length <= |LogOf(other)|
    ensures LogOf(Adopt(prior, other, length)) == LogOf(other)[..length]
  {
    hide ContinuesFrom, Output;
  }

  /** Taking over certified commits only adds to the log. */
  lemma AdoptExtends(n: Network, s: Scheduling, prior: History, other: History, length: nat)
    requires GoodNetwork(n) && Run(n, s, Adopt(prior, other, length))
    ensures LogOf(prior) <= LogOf(Adopt(prior, other, length))
  {
    hide LogOf, Run, GoodNetwork;
    AdoptMeans(n, s, prior, other, length);
    LogPrefixesAgree(n, s, prior, other, |LogOf(prior)|);
  }

  /** Total order: over any two runs, by any two authorities with any views taken at any times, through all
      changes of the leader schedule, the shorter decided sequence is a prefix of the longer one. */
  lemma LogsAgree(n: Network, s: Scheduling, h1: History, h2: History)
    requires GoodNetwork(n) && Run(n, s, h1) && Run(n, s, h2)
    ensures LogOf(h1) <= LogOf(h2) || LogOf(h2) <= LogOf(h1)
  {
    hide GoodNetwork, Run, LogOf;
    var k := if |LogOf(h1)| < |LogOf(h2)| then |LogOf(h1)| else |LogOf(h2)|;
    LogPrefixesAgree(n, s, h1, h2, k);
  }
}
