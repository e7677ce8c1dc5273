/** The commit syncer: schedules ranges of commits to fetch, and hands fetched ranges on without gaps. */
module CommitSyncers {

  /** A nonempty range of commit indices, both ends included. */
  datatype Range = Range(start: nat, end: nat) {
    predicate Has(i: nat) {
      start <= i <= end
    }
  }

  /** The order of ranges in ordered collections: by start, then by end. */
  predicate Before(a: Range, b: Range) {
    a.start < b.start || (a.start == b.start && a.end < b.end)
  }

  ghost predicate IsFirst(m: Range, s: set<Range>) {
    m in s && forall x :: x in s ==> x == m || Before(m, x)
  }

  lemma {:induction false} FirstExists(s: set<Range>) returns (m: Range)
    requires s != {}
    ensures IsFirst(m, s)
    decreases |s|
  {
    var x :| x in s;
    m := x;
    assert forall y :: y in s ==> y == x || y in s - {x};
    if s - {x} != {} {
      var rest := FirstExists(s - {x});
      if Before(rest, m) {
        m := rest;
      }
    }
  }

  method FirstRange(s: set<Range>) returns (m: Range)
    requires s != {}
    ensures IsFirst(m, s)
  {
    ghost var w := FirstExists(s);
    m :| m in s && forall x :: x in s ==> x == m || Before(m, x);
  }

  // ----- invariants ---------------------------------------------------------------------

  ghost predicate Disjoint(all: set<Range>) {
    forall a, b :: a in all && b in all && a != b ==> a.end < b.start || b.end < a.start
  }

  ghost predicate Bounded(all: set<Range>, highest: nat) {
    forall r :: r in all ==> 1 <= r.start <= r.end <= highest
  }

  ghost predicate InSome(all: set<Range>, i: nat) {
    exists r :: r in all && r.Has(i)
  }

  /** Every index scheduled so far is synced, or in a range that is pending, in flight or fetched. */
  ghost predicate Covers(all: set<Range>, highest: nat, synced: nat) {
    forall i :: 1 <= i <= highest && i > synced ==> InSome(all, i)
  }

  ghost predicate Tracked(all: set<Range>, highest: nat, synced: nat) {
    Disjoint(all) && Bounded(all, highest) && Covers(all, highest, synced)
  }

  /** One batch handed to Core, and the synced index at that time. */
  datatype Batch = Batch(range: Range, syncedBefore: nat)

  /** Batches leave no gap: each starts at or below the index after the synced one, and brings something new. */
  ghost predicate NoGaps(sent: seq<Batch>) {
    forall k :: 0 <= k < |sent| ==>
      sent[k].range.start <= sent[k].syncedBefore + 1 && sent[k].syncedBefore < sent[k].range.end
  }

  ghost predicate SentIn(sent: seq<Batch>, i: nat) {
    exists k :: 0 <= k < |sent| && sent[k].range.Has(i)
  }

  /** Everything up to the synced index was committed locally or handed to Core. */
  ghost predicate Delivered(sent: seq<Batch>, local: nat, synced: nat) {
    local <= synced && forall i :: local < i <= synced ==> SentIn(sent, i)
  }

  /** No index is handed to Core twice: batches are in ascending order, and what is tracked overlaps none. */
  ghost predicate SentOnce(sent: seq<Batch>, all: set<Range>, highest: nat) {
    && (forall j, k :: 0 <= j < k < |sent| ==> sent[j].range.end < sent[k].range.start)
    && (forall k, r :: 0 <= k < |sent| && r in all ==> sent[k].range.end < r.start || r.end < sent[k].range.start)
    && (forall k :: 0 <= k < |sent| ==> sent[k].range.start <= sent[k].range.end <= highest)
  }

  /** Only results of fetches are kept or handed on. */
  ghost predicate FromResults(sent: seq<Batch>, fetched: set<Range>, results: set<Range>) {
    fetched <= results && forall k :: 0 <= k < |sent| ==> sent[k].range in results
  }

  /** The synced index after the first `k` batches. */
  function SyncedAfter(batches: seq<Batch>, from: nat, k: nat): nat
    requires k <= |batches|
  {
    if k == 0 then from else batches[k - 1].range.end
  }

  /** Batches hand on from the synced index `from` to the synced index `to`, each where the one before ended. */
  ghost predicate Chained(batches: seq<Batch>, from: nat, to: nat) {
    && (forall k :: 0 <= k < |batches| ==> batches[k].syncedBefore == SyncedAfter(batches, from, k))
    && to == SyncedAfter(batches, from, |batches|)
  }

  ghost predicate BatchOf(batches: seq<Batch>, r: Range) {
    exists k :: 0 <= k < |batches| && batches[k].range == r
  }

  /** The batches are fetched ranges, and every range that is gone was handed on, or synced from the start. */
  ghost predicate HandedOn(fetched: set<Range>, from: nat, batches: seq<Batch>, left: set<Range>, to: nat) {
    && left <= fetched && Chained(batches, from, to)
    && (forall k :: 0 <= k < |batches| ==> batches[k].range in fetched)
    && (forall r :: r in fetched - left ==> r.end <= to && (r.end <= from || BatchOf(batches, r)))
  }

  lemma RaiseSynced(all: set<Range>, highest: nat, synced: nat, synced': nat)
    requires Tracked(all, highest, synced) && synced <= synced'
    ensures Tracked(all, highest, synced')
  {
  }

  lemma RaiseLocal(sent: seq<Batch>, local: nat, synced: nat, seen: nat)
    requires Delivered(sent, local, synced)
    ensures Delivered(sent, if local < seen then seen else local, if synced < seen then seen else synced)
  {
  }

  /** A new range right after everything scheduled. */
  lemma ScheduleOne(all: set<Range>, highest: nat, synced: nat, prevEnd: nat, end: nat)
    requires Tracked(all, highest, synced) && prevEnd < end && highest <= prevEnd
    requires prevEnd <= Max(synced, highest)
    ensures Range(prevEnd + 1, end) !in all && Tracked(all + {Range(prevEnd + 1, end)}, end, synced)
  {
    var r := Range(prevEnd + 1, end);
    var all' := all + {r};
    assert Disjoint(all');
    forall i | 1 <= i <= end && i > synced
      ensures InSome(all', i)
    {
      if i <= highest {
        assert InSome(all, i);
        var x :| x in all && x.Has(i);
        assert x in all';
      } else {
        assert r.Has(i);
      }
    }
  }

  /** A range that is split in two, with one part dropped when it is synced. */
  lemma SplitRange(all: set<Range>, highest: nat, synced: nat, r: Range, end: nat, parts: set<Range>)
    requires Tracked(all, highest, synced) && r in all && r.start <= end <= r.end
    requires parts == (if end < r.end then {Range(end + 1, r.end)} else {}) + Unsynced(r.start, end, synced)
    ensures Tracked(all - {r} + parts, highest, synced)
    ensures forall x :: x in parts && x in all ==> x == r
  {
    var all' := all - {r} + parts;
    assert Disjoint(all') by {
      forall a, b | a in all' && b in all' && a != b
        ensures a.end < b.start || b.end < a.start
      {
        assert a in all - {r} ==> a.end < r.start || r.end < a.start;
        assert b in all - {r} ==> b.end < r.start || r.end < b.start;
      }
    }
    forall i | 1 <= i <= highest && i > synced
      ensures InSome(all', i)
    {
      assert InSome(all, i);
      var x :| x in all && x.Has(i);
      if x == r {
        var part := if i <= end then Range(r.start, end) else Range(end + 1, r.end);
        assert part in all' && part.Has(i);
      } else {
        assert x in all';
      }
    }
    forall x | x in parts && x in all
      ensures x == r
    {
      assert x == r || x.end < r.start || r.end < x.start;
    }
  }

  /** A range is done when everything up to its end is synced. */
  lemma DropRange(all: set<Range>, highest: nat, synced: nat, r: Range)
    requires Tracked(all, highest, synced) && r.end <= synced
    ensures Tracked(all - {r}, highest, synced)
  {
    forall i | 1 <= i <= highest && i > synced
      ensures InSome(all - {r}, i)
    {
      assert InSome(all, i);
      var x :| x in all && x.Has(i);
      assert x in all - {r};
    }
  }

  lemma SendOne(sent: seq<Batch>, local: nat, synced: nat, r: Range)
    requires NoGaps(sent) && Delivered(sent, local, synced) && r.start <= synced + 1 && synced < r.end
    ensures NoGaps(sent + [Batch(r, synced)]) && Delivered(sent + [Batch(r, synced)], local, r.end)
  {
    var sent' := sent + [Batch(r, synced)];
    forall i | local < i <= r.end
      ensures SentIn(sent', i)
    {
      if i <= synced {
        assert SentIn(sent, i);
        var k :| 0 <= k < |sent| && sent[k].range.Has(i);
        assert sent'[k].range.Has(i);
      } else {
        assert sent'[|sent|].range.Has(i);
      }
    }
  }

  lemma SendKeepsOnce(sent: seq<Batch>, all: set<Range>, highest: nat, local: nat, synced: nat, r: Range)
    requires SentOnce(sent, all, highest) && Tracked(all, highest, synced) && r in all && synced < r.end
    requires forall k :: 0 <= k < |sent| ==> sent[k].range.end <= synced
    ensures SentOnce(sent + [Batch(r, synced)], all - {r}, highest)
  {
    var sent' := sent + [Batch(r, synced)];
    forall j, k | 0 <= j < k < |sent'|
      ensures sent'[j].range.end < sent'[k].range.start
    {
      assert sent[j] == sent'[j] && (k < |sent| ==> sent[k] == sent'[k]);
    }
  }

  lemma ScheduleKeepsOnce(sent: seq<Batch>, all: set<Range>, highest: nat, prevEnd: nat, end: nat)
    requires SentOnce(sent, all, highest) && highest <= prevEnd < end
    ensures SentOnce(sent, all + {Range(prevEnd + 1, end)}, end)
  {
  }

  lemma SplitKeepsOnce(sent: seq<Batch>, all: set<Range>, highest: nat, r: Range, all': set<Range>)
    requires SentOnce(sent, all, highest) && r in all
    requires forall x :: x in all' ==> x in all || (r.start <= x.start <= x.end <= r.end)
    ensures SentOnce(sent, all', highest)
  {
  }

  /** What comes after the first of disjoint ranges starts above its end. */
  lemma LaterRanges(all: set<Range>, highest: nat, synced: nat, fetched: set<Range>, first: Range)
    requires Tracked(all, highest, synced) && fetched <= all && IsFirst(first, fetched)
    ensures first.start <= first.end && forall r :: r in fetched && r != first ==> first.end < r.start
  {
    forall r | r in fetched && r != first
      ensures first.end < r.start
    {
      assert first in all && r in all;
    }
  }

  /** A range, unless all of it is synced. */
  function Unsynced(start: nat, end: nat, synced: nat): set<Range> {
    if synced < end then {Range(start, end)} else {}
  }

  lemma NothingHandedOn(fetched: set<Range>, synced: nat)
    ensures HandedOn(fetched, synced, [], fetched, synced)
  {
  }

  /** One more range is handed on, or dropped because all of it was synced from the start. */
  lemma HandOneOn(fetched: set<Range>, from: nat, batches: seq<Batch>, left: set<Range>, to: nat, r: Range)
    requires HandedOn(fetched, from, batches, left, to) && r in left && from <= to
    requires to < r.end || to == from
    ensures var more := if to < r.end then [Batch(r, to)] else [];
            HandedOn(fetched, from, batches + more, left - {r}, Max(to, r.end))
  {
    var more := if to < r.end then [Batch(r, to)] else [];
    var batches' := batches + more;
    forall k | 0 <= k < |batches'|
      ensures batches'[k].syncedBefore == SyncedAfter(batches', from, k)
    {
      assert k < |batches| ==> batches'[k] == batches[k];
      assert k > 0 ==> batches'[k - 1] == batches[k - 1];
    }
    forall x | x in fetched - (left - {r})
      ensures x.end <= Max(to, r.end) && (x.end <= from || BatchOf(batches', x))
    {
      if x != r && x.end > from {
        var k :| 0 <= k < |batches| && batches[k].range == x;
        assert batches'[k].range == x;
      } else if x == r && to < r.end {
        assert batches'[|batches|].range == r;
      }
    }
  }

  /** Nothing is lost: when no range is left, everything ever scheduled is synced. */
  lemma NothingLost(highest: nat, synced: nat)
    requires Tracked({}, highest, synced)
    ensures highest <= synced
  {
    assert synced < highest ==> InSome({}, highest);
  }

  /** Ranges of exactly one batch, after everything scheduled or synced and within the limit. */
  ghost predicate FullBatches(ranges: set<Range>, after: nat, size: nat, limit: nat) {
    forall r :: r in ranges ==> after < r.start && r.end == r.start + size - 1 && r.end <= limit
  }

  lemma AllWithin(ranges: set<Range>, after: nat, size: nat, limit: nat)
    requires FullBatches(ranges, after, size, limit)
    ensures forall r :: r in ranges ==> r.end <= limit
  {
  }

  lemma NoBatches(pending: set<Range>, after: nat, size: nat, limit: nat)
    ensures FullBatches(pending - pending, after, size, limit)
  {
  }

  lemma OneBatch(pending: set<Range>, before: set<Range>, after: nat, size: nat, limit: nat, r: Range)
    requires FullBatches(pending - before, after, size, limit)
    requires after < r.start && r.end == r.start + size - 1 && r.end <= limit
    ensures FullBatches(pending + {r} - before, after, size, limit)
  {
  }

  class CommitSyncer {
    const batchSize: nat
    const batchesAhead: nat
    const parallelFetches: nat
    const committeeSize: nat

    // Ranges being fetched, waiting to be fetched, and fetched but not handed on.
    var inflight: set<Range>
    var pending: set<Range>
    var fetched: set<Range>
    // End of the last scheduled range.
    var highestScheduled: nat
    // The higher of the local commit index and what was handed to Core.
    var synced: nat

    // Every batch handed to Core, and the highest local commit index seen.
    ghost var sent: seq<Batch>
    ghost var local: nat
    // Every range a fetch has returned.
    ghost var results: set<Range>

    ghost function All(): set<Range>
      reads this
    {
      pending + inflight + fetched
    }

    ghost predicate Valid()
      reads this
    {
      && batchSize >= 1
      && pending !! inflight && pending !! fetched && inflight !! fetched
      && Tracked(All(), highestScheduled, synced)
      && NoGaps(sent) && Delivered(sent, local, synced)
      && SentOnce(sent, All(), highestScheduled) && FromResults(sent, fetched, results)
      && (forall k :: 0 <= k < |sent| ==> sent[k].range.end <= synced)
    }

    constructor (batchSize: nat, batchesAhead: nat, parallelFetches: nat, committeeSize: nat, localIndex: nat)
      requires batchSize >= 1
      ensures Valid() && All() == {} && synced == localIndex && sent == [] && results == {}
    {
      this.batchSize, this.batchesAhead := batchSize, batchesAhead;
      this.parallelFetches, this.committeeSize := parallelFetches, committeeSize;
      inflight, pending, fetched := {}, {}, {};
      highestScheduled, synced := 0, localIndex;
      sent, local, results := [], localIndex, {};
    }

    /** How far scheduling may run ahead of the commits handled. */
    function UnhandledThreshold(): nat {
      batchSize * batchesAhead
    }

    /** No range is scheduled beyond this index. */
    ghost function Limit(quorumIndex: nat, handledIndex: nat): nat {
      Min(quorumIndex, handledIndex + UnhandledThreshold())
    }

    /** When behind the quorum, schedules full batches after everything scheduled or synced, as long as
        they end within the quorum index and the handler keeps up. */
    method TryScheduleOnce(quorumIndex: nat, localIndex: nat, handledIndex: nat)
      requires Valid()
      modifies this`pending, this`highestScheduled, this`synced, this`local
      ensures Valid() && synced == Max(old(synced), localIndex)
      ensures old(pending) <= pending && old(highestScheduled) <= highestScheduled
      ensures FullBatches(pending - old(pending), Max(synced, old(highestScheduled)), batchSize,
                          Limit(quorumIndex, handledIndex))
      ensures Limit(quorumIndex, handledIndex) < Max(synced, highestScheduled) + batchSize
      ensures highestScheduled != old(highestScheduled) ==> synced < highestScheduled
      ensures forall r :: r in pending - old(pending) ==>
                r.end <= quorumIndex && r.end <= handledIndex + batchSize * batchesAhead
      ensures || quorumIndex < Max(synced, highestScheduled) + batchSize
              || handledIndex + batchSize * batchesAhead < Max(synced, highestScheduled) + batchSize
    {
      assert batchSize >= 1;
      hide Valid, UnhandledThreshold, FullBatches;
      SeeLocal(localIndex);
      var limit := handledIndex + UnhandledThreshold();
      var prevEnd := Max(synced, highestScheduled);
      ghost var before, start := pending, prevEnd;
      NoBatches(pending, start, batchSize, Limit(quorumIndex, handledIndex));
      while prevEnd <= quorumIndex
        invariant Valid() && before <= pending
        invariant FullBatches(pending - before, start, batchSize, Limit(quorumIndex, handledIndex))
        invariant start <= prevEnd == Max(synced, highestScheduled)
        invariant highestScheduled == old(highestScheduled) || start < prevEnd == highestScheduled
        modifies this`pending, this`highestScheduled
        decreases quorumIndex + 1 - prevEnd
      {
        var rangeEnd := prevEnd + batchSize;
        if quorumIndex < rangeEnd {
          break;
        }
        if limit < rangeEnd {
          break;
        }
        var range := Range(prevEnd + 1, rangeEnd);
        OneBatch(pending, before, start, batchSize, Limit(quorumIndex, handledIndex), range);
        Schedule(range);
        prevEnd := rangeEnd;
      }
      LimitIs(quorumIndex, handledIndex);
      AllWithin(pending - before, start, batchSize, Limit(quorumIndex, handledIndex));
    }

    lemma LimitIs(quorumIndex: nat, handledIndex: nat)
      ensures Limit(quorumIndex, handledIndex) == Min(quorumIndex, handledIndex + batchSize * batchesAhead)
    {
    }

    /** Takes in the local commit index. */
    method SeeLocal(localIndex: nat)
      requires Valid()
      modifies this`synced, this`local
      ensures Valid() && synced == Max(old(synced), localIndex) && local == Max(old(local), localIndex)
    {
      hide Tracked, NoGaps, Delivered, SentOnce, FromResults;
      RaiseSynced(All(), highestScheduled, synced, Max(synced, localIndex));
      RaiseLocal(sent, local, synced, localIndex);
      local := Max(local, localIndex);
      synced := Max(synced, localIndex);
    }

    /** Schedules the range right after everything scheduled or synced. */
    method Schedule(range: Range)
      requires Valid() && range.start == Max(synced, highestScheduled) + 1 && range.start <= range.end
      modifies this`pending, this`highestScheduled
      ensures Valid() && pending == old(pending) + {range} && highestScheduled == range.end
    {
      hide Tracked, NoGaps, Delivered, SentOnce, FromResults;
      ScheduleOne(All(), highestScheduled, synced, range.start - 1, range.end);
      ScheduleKeepsOnce(sent, All(), highestScheduled, range.start - 1, range.end);
      assert pending + {range} + inflight + fetched == All() + {range};
      pending := pending + {range};
      highestScheduled := range.end;
    }

    /** Hands one fetched range to Core, unless all of it is synced. */
    method DeliverRange(range: Range)
      requires Valid() && range in fetched && range.start <= synced + 1
      modifies this`fetched, this`synced, this`sent
      ensures Valid() && fetched == old(fetched) - {range} && synced == Max(old(synced), range.end)
      ensures sent == old(sent) + if old(synced) < range.end then [Batch(range, old(synced))] else []
    {
      hide Tracked, NoGaps, Delivered, SentOnce;
      ghost var all := All();
      fetched := fetched - {range};
      assert All() == all - {range};
      if range.end > synced {
        SendOne(sent, local, synced, range);
        SendKeepsOnce(sent, all, highestScheduled, local, synced, range);
        RaiseSynced(all, highestScheduled, synced, range.end);
        sent := sent + [Batch(range, synced)];
        synced := range.end;
      } else {
        SplitKeepsOnce(sent, all, highestScheduled, range, All());
      }
      DropRange(all, highestScheduled, synced, range);
    }

    lemma OthersStartLater(first: Range)
      requires Valid() && IsFirst(first, fetched)
      ensures first.start <= first.end && forall r :: r in fetched && r != first ==> first.end < r.start
    {
      LaterRanges(All(), highestScheduled, synced, fetched, first);
    }

    /** Hands fetched ranges to Core in order, up to the first gap. The batches are fetched ranges, each
        starting where the one before ended; what stays fetched is beyond a gap. */
    method ProcessFetched()
      requires Valid()
      modifies this`fetched, this`synced, this`sent
      ensures Valid() && old(sent) <= sent
      ensures HandedOn(old(fetched), old(synced), sent[|old(sent)|..], fetched, synced)
      ensures forall r :: r in fetched ==> synced + 1 < r.start
    {
      hide Valid, HandedOn;
      ghost var batches := [];
      NothingHandedOn(fetched, synced);
      while fetched != {}
        invariant Valid() && sent == old(sent) + batches && old(synced) <= synced
        invariant HandedOn(old(fetched), old(synced), batches, fetched, synced)
        invariant synced == old(synced) || forall r :: r in fetched ==> synced < r.start
        decreases |fetched|
      {
        var range := FirstRange(fetched);
        if range.start > synced + 1 {
          break;
        }
        ghost var more := if synced < range.end then [Batch(range, synced)] else [];
        OthersStartLater(range);
        HandOneOn(old(fetched), old(synced), batches, fetched, synced, range);
        DeliverRange(range);
        assert old(sent) + batches + more == old(sent) + (batches + more);
        batches := batches + more;
      }
      assert sent[|old(sent)|..] == batches;
    }

    /** Takes the result of a fetch: a prefix of the range, at least one commit long. The rest is
        scheduled again, and as much as possible is handed to Core. */
    method HandleFetchResult(range: Range, end: nat, localIndex: nat)
      requires Valid() && range in inflight && range.start <= end <= range.end
      modifies this`inflight, this`pending, this`fetched, this`synced, this`sent, this`local, this`results
      ensures Valid() && inflight == old(inflight) - {range} && results == old(results) + {Range(range.start, end)}
      ensures pending == old(pending) + if end < range.end then {Range(end + 1, range.end)} else {}
      ensures old(sent) <= sent && local == Max(old(local), localIndex)
      ensures var from := Max(old(synced), localIndex);
              HandedOn(old(fetched) + Unsynced(range.start, end, from), from, sent[|old(sent)|..], fetched, synced)
      ensures forall r :: r in fetched ==> synced + 1 < r.start
    {
      hide Valid, HandedOn;
      TakeResult(range, end, localIndex);
      ProcessFetched();
    }

    /** Keeps a result that is not all synced, and schedules the rest of the range again. */
    method TakeResult(range: Range, end: nat, localIndex: nat)
      requires Valid() && range in inflight && range.start <= end <= range.end
      modifies this`inflight, this`pending, this`fetched, this`synced, this`local, this`results
      ensures Valid() && inflight == old(inflight) - {range} && results == old(results) + {Range(range.start, end)}
      ensures pending == old(pending) + if end < range.end then {Range(end + 1, range.end)} else {}
      ensures synced == Max(old(synced), localIndex) && local == Max(old(local), localIndex)
      ensures fetched == old(fetched) + Unsynced(range.start, end, synced)
    {
      hide Tracked, NoGaps, Delivered, SentOnce;
      SeeLocal(localIndex);
      ghost var all := All();
      ghost var parts := (if end < range.end then {Range(end + 1, range.end)} else {}) +
        Unsynced(range.start, end, synced);
      SplitRange(all, highestScheduled, synced, range, end, parts);
      SplitKeepsOnce(sent, all, highestScheduled, range, all - {range} + parts);
      results := results + {Range(range.start, end)};
      inflight := inflight - {range};
      if end < range.end {
        pending := pending + {Range(end + 1, range.end)};
      }
      if synced < end {
        fetched := fetched + {Range(range.start, end)};
      }
      assert All() == all - {range} + parts;
    }

    /** How many fetches may run at once: fewer while fetched batches pile up, but always one. */
    function TargetParallelFetches(): (n: nat)
      reads this`fetched
      ensures n >= 1
    {
      Max(1,
          Min(Min(parallelFetches, committeeSize * 2 / 3), if |fetched| < batchesAhead then batchesAhead - |fetched|
            else 0))
    }

    /** The number is the largest that respects the configured limit, two thirds of the committee, and the batches
        that may be fetched ahead of an unfinished one; but at least one. */
    lemma TargetIs(m: nat)
      ensures m <= TargetParallelFetches() <==>
              m <= 1 || (m <= parallelFetches && m <= committeeSize * 2 / 3 && m + |fetched| <= batchesAhead)
    {
    }

    /** Starts the fetch of a pending range. */
    method StartFetch(range: Range)
      requires Valid() && range in pending
      modifies this`pending, this`inflight
      ensures Valid() && pending == old(pending) - {range} && inflight == old(inflight) + {range}
      ensures range !in old(inflight)
    {
      hide Tracked, NoGaps, Delivered, SentOnce;
      assert pending - {range} + (inflight + {range}) + fetched == All();
      pending := pending - {range};
      inflight := inflight + {range};
    }

    /** Starts fetches for the lowest pending ranges while there are free slots. */
    method TryStartFetches()
      requires Valid()
      modifies this`pending, this`inflight
      ensures Valid() && pending + inflight == old(pending + inflight) && old(inflight) <= inflight
      ensures pending != {} ==> |inflight| >= TargetParallelFetches()
      ensures |inflight| <= Max(|old(inflight)|, TargetParallelFetches())
      ensures pending != {} ==>
                && |inflight| >= 1
                && (|| |inflight| >= parallelFetches || |inflight| >= committeeSize * 2 / 3
                    || |inflight| + |fetched| >= batchesAhead)
      ensures |inflight| > |old(inflight)| && |inflight| > 1 ==>
                && |inflight| <= parallelFetches && |inflight| <= committeeSize * 2 / 3
                && |inflight| + |fetched| <= batchesAhead
      ensures forall r, x :: r in inflight - old(inflight) && x in pending ==> Before(r, x)
    {
      hide Valid, TargetParallelFetches;
      var target := TargetParallelFetches();
      TargetIs(target + 1);
      while |inflight| < target && pending != {}
        invariant Valid() && pending + inflight == old(pending + inflight) && old(inflight) <= inflight
        invariant |inflight| <= Max(|old(inflight)|, target)
        invariant forall r, x :: r in inflight - old(inflight) && x in pending ==> Before(r, x)
        decreases |pending|
      {
        var range := FirstRange(pending);
        StartFetch(range);
      }
      TargetIs(|inflight|);
    }
  }

  function Max(a: nat, b: nat): nat {
    if a < b then b else a
  }

  function Min(a: nat, b: nat): nat {
    if a < b then a else b
  }
}
