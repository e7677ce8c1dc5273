/** What becomes of every transaction with reject votes, as a function of the commits put in and of the
    vote information at each call: the reference for the commit finalizer. */
module Settlements {
  import opened Committees
  import opened Dags
  import opened VoteTraversals
  import opened CommitGraphs
  import CommitRules

  /** A transaction that is still not finalized when a leader this many rounds later commits is rejected. */
  const INDIRECT_REJECT_DEPTH: nat := 3

  /** Stake of the reject votes seen so far, per block and transaction. */
  type Votes = map<BlockRef, map<nat, nat>>

  /** A transaction: its block and its index in the block. */
  type Transaction = (BlockRef, nat)

  /** Transactions of `blocks` with reject votes; those short of the threshold are undecided. */
  ghost function VotedIn(blocks: set<BlockRef>, votes: Votes): set<Transaction> {
    set b, i | b in blocks && b in votes && i in votes[b] :: (b, i)
  }

  ghost function Undecided(blocks: set<BlockRef>, votes: Votes, threshold: nat): set<Transaction> {
    set b, i | b in blocks && b in votes && i in votes[b] && votes[b][i] < threshold :: (b, i)
  }

  predicate IsShort(votes: Votes, x: Transaction, threshold: nat) {
    x.0 in votes && x.1 in votes[x.0] && votes[x.0][x.1] < threshold
  }

  /** After a late check, what is left pending has reject votes short of the threshold. */
  ghost function StillPending(pending: set<Transaction>, votes: Votes, threshold: nat): set<Transaction> {
    set x | x in pending && IsShort(votes, x, threshold)
  }

  /** The blocks of the map accept the transaction with a quorum. */
  ghost predicate IsAccepted(c: Committee, m: BlockMap, x: Transaction) {
    Grounded(m) && c.IsQuorum(Accepting(m, x.0, x.1))
  }

  ghost function AcceptedIn(c: Committee, m: BlockMap, pending: set<Transaction>): set<Transaction> {
    set x | x in pending && IsAccepted(c, m, x)
  }

  // ----- the run ------------------------------------------------------------------------

  /** A run of the finalizer: the commits put in, and the vote information at each call. Call `k` puts in
      commit `k`. */
  datatype Trace = Trace(committee: Committee, inputs: seq<Commit>, calls: seq<Votes>) {
    predicate Has(k: nat) {
      k < |inputs| && k < |calls|
    }
  }

  function Max(a: nat, b: nat): nat {
    if a < b then b else a
  }

  /** At call `k`, a leader certificate for commit `i` is known to be in the local DAG. */
  predicate MayFinalize(t: Trace, i: nat, k: nat) {
    && t.Has(i) && t.Has(k)
    && (|| t.inputs[i].decidedLocally
        || t.inputs[i].leader.round + CommitRules.WAVE_LENGTH <= t.inputs[k].leader.round)
  }

  /** At call `k`, the newest leader is deep enough above commit `i` to reject what is left of it. */
  predicate IsDeep(t: Trace, i: nat, k: nat) {
    t.Has(i) && t.Has(k) && t.inputs[i].leader.round + INDIRECT_REJECT_DEPTH <= t.inputs[k].leader.round
  }

  function BlocksOf(blocks: seq<Block>): BlockMap {
    if blocks == [] then map[] else BlocksOf(blocks[..|blocks| - 1])[blocks[|blocks| - 1].ref := blocks[|blocks| - 1]]
  }

  function BlocksIn(commits: seq<Commit>): BlockMap {
    if commits == [] then map[] else BlocksIn(commits[..|commits| - 1]) + BlocksOf(commits[|commits| - 1].blocks)
  }

  /** The blocks buffered at call `k` when commit `i` is first in the buffer. */
  ghost function BufferedAt(t: Trace, i: nat, k: nat): BlockMap {
    if i <= k && t.Has(k) then BlocksIn(t.inputs[i..k + 1]) else map[]
  }

  /** Where the reject-voted transactions of a commit are. */
  datatype Books = Books(pending: set<Transaction>, rejected: set<Transaction>, finalized: set<Transaction>)

  /** Direct finalization of commit `i` at call `k`: a quorum of reject votes rejects. */
  ghost function DirectBooks(t: Trace, i: nat, k: nat): Books {
    if t.Has(i) && t.Has(k) then
      var voted, short := VotedIn(RefsOf(t.inputs[i].blocks), t.calls[k]),
                          Undecided(RefsOf(t.inputs[i].blocks), t.calls[k], t.committee.QuorumThreshold());
      Books(short, voted - short, {})
    else Books({}, {}, {})
  }

  /** The check of commit `i` at call `k`: a quorum of reject votes rejects, else a quorum of accepting
      authorities finalizes, else a deep leader rejects. */
  ghost function Checked(t: Trace, i: nat, k: nat, b: Books): Books {
    if t.Has(k) then
      var left := StillPending(b.pending, t.calls[k], t.committee.QuorumThreshold());
      var accepted := AcceptedIn(t.committee, BufferedAt(t, i, k), left);
      var deep := IsDeep(t, i, k);
      Books(if deep then {} else left - accepted,
            b.rejected + (b.pending - left) + (if deep then left - accepted else {}),
            b.finalized + accepted)
    else b
  }

  /** The checks at the calls from `from` up to, but not including, `n`. */
  ghost function CheckedFrom(t: Trace, i: nat, from: nat, n: nat, b: Books): Books {
    if n <= from then b else Checked(t, i, n - 1, CheckedFrom(t, i, from, n - 1, b))
  }

  /** The first call from `from` on, within the first `n`, at which commit `i` may be finalized; `n` if none. */
  function FirstAllowed(t: Trace, i: nat, from: nat, n: nat): (k: nat)
    ensures k <= n
  {
    if n <= from then n
    else
      var k := FirstAllowed(t, i, from, n - 1);
      if k < n - 1 then k else if MayFinalize(t, i, n - 1) then n - 1 else n
  }

  /** The call that directly finalizes commit `i`: the first allowed one after it and its predecessors. The
      result is `n` if it is not among the first `n` calls. */
  function DirectCall(t: Trace, i: nat, n: nat): (k: nat)
    ensures k <= n
  {
    FirstAllowed(t, i, Max(i, if i == 0 then 0 else DirectCall(t, i - 1, n)), n)
  }

  /** The first call from `from` on, within the first `n`, after which commit `i` has nothing pending. */
  ghost function FirstSettled(t: Trace, i: nat, from: nat, checks: nat, b: Books, n: nat): (k: nat)
    ensures k <= n
  {
    if n <= from then n
    else
      var k := FirstSettled(t, i, from, checks, b, n - 1);
      if k < n - 1 then k else if CheckedFrom(t, i, checks, n, b).pending == {} then n - 1 else n
  }

  /** The call that lets commit `i` go: the first one, when it is first in the buffer and directly finalized,
      after which it has nothing pending. The result is `n` if it is not among the first `n` calls. */
  ghost function ExitCall(t: Trace, i: nat, n: nat): (k: nat)
    ensures k <= n
    decreases i, 1
  {
    var start := Max(PriorExit(t, i, n), DirectCall(t, i, n));
    FirstSettled(t, i, Max(i, start), Max(i + 1, start), DirectBooks(t, i, DirectCall(t, i, n)), n)
  }

  ghost function PriorExit(t: Trace, i: nat, n: nat): (k: nat)
    ensures k <= n
    decreases i, 0
  {
    if i == 0 then 0 else ExitCall(t, i - 1, n)
  }

  /** The first call at which commit `i` is checked: it is first in the buffer, and not the newest commit. */
  ghost function ChecksFrom(t: Trace, i: nat, n: nat): nat {
    Max(i + 1, Max(PriorExit(t, i, n), DirectCall(t, i, n)))
  }

  /** The books of commit `i` after the first `n` calls, if one of them has directly finalized it. */
  ghost function BooksAt(t: Trace, i: nat, n: nat): Books {
    CheckedFrom(t, i, ChecksFrom(t, i, n), n, DirectBooks(t, i, DirectCall(t, i, n)))
  }

  /** The same books in the middle of call `n`, before commit `i` is checked in it. */
  ghost function BooksDuring(t: Trace, i: nat, n: nat): Books {
    CheckedFrom(t, i, ChecksFrom(t, i, n + 1), n, DirectBooks(t, i, DirectCall(t, i, n + 1)))
  }

  // ----- one more call ------------------------------------------------------------------

  lemma DirectStep(t: Trace, i: nat, n: nat)
    ensures DirectCall(t, i, n) < n ==> DirectCall(t, i, n + 1) == DirectCall(t, i, n)
    ensures DirectCall(t, i, n) == n ==>
              DirectCall(t, i, n + 1) ==
                if i <= n && (i == 0 || DirectCall(t, i - 1, n + 1) <= n) && MayFinalize(t, i, n) then n else n + 1
    decreases i
  {
    hide FirstAllowed, MayFinalize, DirectCall;
    var before, after := 0, 0;
    if i > 0 {
      DirectStep(t, i - 1, n);
      before, after := DirectCall(t, i - 1, n), DirectCall(t, i - 1, n + 1);
    }
    DirectIs(t, i, n);
    DirectIs(t, i, n + 1);
    if n <= Max(i, before) {
      FirstAllowedLate(t, i, Max(i, before), n);
      FirstAllowedLate(t, i, Max(i, after), n);
    } else {
      FirstAllowedStep(t, i, Max(i, before), n);
    }
  }

  lemma DirectIs(t: Trace, i: nat, n: nat)
    ensures DirectCall(t, i, n) == FirstAllowed(t, i, Max(i, if i == 0 then 0 else DirectCall(t, i - 1, n)), n)
  {
  }

  lemma FirstAllowedStep(t: Trace, i: nat, from: nat, n: nat)
    requires from <= n
    ensures FirstAllowed(t, i, from, n) < n ==> FirstAllowed(t, i, from, n + 1) == FirstAllowed(t, i, from, n)
    ensures FirstAllowed(t, i, from, n) == n ==>
              FirstAllowed(t, i, from, n + 1) == if MayFinalize(t, i, n) then n else n + 1
  {
  }

  lemma FirstAllowedLate(t: Trace, i: nat, from: nat, n: nat)
    requires n <= from
    ensures FirstAllowed(t, i, from, n) == n
    ensures FirstAllowed(t, i, from, n + 1) == if n == from && MayFinalize(t, i, n) then n else n + 1
  {
  }

  /** A commit is directly finalized no earlier than the one before it, and not before it is put in. */
  lemma DirectInOrder(t: Trace, i: nat, n: nat)
    ensures DirectCall(t, i, n) == n || i <= DirectCall(t, i, n)
    ensures i > 0 ==> DirectCall(t, i - 1, n) <= DirectCall(t, i, n)
  {
    FirstAllowedFrom(t, i, Max(i, if i == 0 then 0 else DirectCall(t, i - 1, n)), n);
  }

  lemma {:induction false} FirstAllowedFrom(t: Trace, i: nat, from: nat, n: nat)
    ensures FirstAllowed(t, i, from, n) == n || from <= FirstAllowed(t, i, from, n)
    ensures from <= n ==> from <= FirstAllowed(t, i, from, n)
  {
    if n > from {
      FirstAllowedFrom(t, i, from, n - 1);
    }
  }

  lemma {:induction false} FirstIsAllowed(t: Trace, i: nat, from: nat, n: nat)
    requires FirstAllowed(t, i, from, n) < n
    ensures MayFinalize(t, i, FirstAllowed(t, i, from, n))
  {
    if n > from && FirstAllowed(t, i, from, n - 1) < n - 1 {
      FirstIsAllowed(t, i, from, n - 1);
    }
  }

  /** With leader rounds that do not go down, what was allowed at an earlier call still is. */
  lemma DirectWhenAllowed(t: Trace, i: nat, n: nat)
    requires i <= n && t.Has(n) && forall k :: i <= k <= n ==> t.inputs[k].leader.round <= t.inputs[n].leader.round
    ensures DirectCall(t, i, n + 1) <= n <==> (i == 0 || DirectCall(t, i - 1, n + 1) <= n) && MayFinalize(t, i, n)
  {
    hide DirectCall, FirstAllowed;
    DirectInOrder(t, i, n + 1);
    DirectStep(t, i, n);
    var d := DirectCall(t, i, n + 1);
    if d <= n {
      DirectIs(t, i, n + 1);
      FirstIsAllowed(t, i, Max(i, if i == 0 then 0 else DirectCall(t, i - 1, n + 1)), n + 1);
    }
  }

  /** Direct finalization waits for nothing else: a commit is still to be directly finalized after a call exactly
      when it or one before it in the buffer was not decided locally and the newest leader is less than three
      rounds above. */
  lemma {:induction false} DirectUnless(t: Trace, base: nat, i: nat, n: nat)
    requires base <= i <= n && t.Has(n) && (base == 0 || DirectCall(t, base - 1, n + 1) <= n)
    requires forall j, k :: base <= j <= k <= n ==> t.inputs[j].leader.round <= t.inputs[k].leader.round
    ensures DirectCall(t, i, n + 1) > n <==>
            exists j :: base <= j <= i && !t.inputs[j].decidedLocally
              && t.inputs[n].leader.round < t.inputs[j].leader.round + 3
    decreases i
  {
    hide DirectCall;
    DirectWhenAllowed(t, i, n);
    if i > base {
      DirectUnless(t, base, i - 1, n);
    }
  }

  lemma NothingChecked(t: Trace, i: nat, k: nat, b: Books)
    requires b.pending == {}
    ensures Checked(t, i, k, b) == b
  {
    if t.Has(k) {
      var left := StillPending(b.pending, t.calls[k], t.committee.QuorumThreshold());
      assert left == {} && AcceptedIn(t.committee, BufferedAt(t, i, k), left) == {};
    }
  }

  /** The check of call `n`, if commit `i` has one, takes the books during the call to those after it. */
  lemma BooksStep(t: Trace, i: nat, n: nat)
    ensures BooksAt(t, i, n + 1) ==
            if ChecksFrom(t, i, n + 1) <= n then Checked(t, i, n, BooksDuring(t, i, n)) else BooksDuring(t, i, n)
  {
  }

  lemma {:induction false} FirstSettledFrom(t: Trace, i: nat, from: nat, checks: nat, b: Books, n: nat)
    ensures FirstSettled(t, i, from, checks, b, n) == n || from <= FirstSettled(t, i, from, checks, b, n)
  {
    if n > from {
      FirstSettledFrom(t, i, from, checks, b, n - 1);
    }
  }

  lemma ExitInOrder(t: Trace, i: nat, n: nat)
    requires ExitCall(t, i, n) < n
    ensures i <= ExitCall(t, i, n) && PriorExit(t, i, n) <= ExitCall(t, i, n)
    ensures DirectCall(t, i, n) <= ExitCall(t, i, n)
  {
    var start := Max(PriorExit(t, i, n), DirectCall(t, i, n));
    FirstSettledFrom(t, i, Max(i, start), Max(i + 1, start), DirectBooks(t, i, DirectCall(t, i, n)), n);
  }

  /** When commit `i` is let go by call `n`. */
  ghost predicate Leaves(t: Trace, i: nat, n: nat) {
    i <= n && PriorExit(t, i, n + 1) <= n && DirectCall(t, i, n + 1) <= n && BooksAt(t, i, n + 1).pending == {}
  }

  lemma {:induction false} ExitStep(t: Trace, i: nat, n: nat)
    ensures ExitCall(t, i, n) < n ==> ExitCall(t, i, n + 1) == ExitCall(t, i, n)
    ensures ExitCall(t, i, n) == n ==> ExitCall(t, i, n + 1) == if Leaves(t, i, n) then n else n + 1
    decreases i
  {
    hide CheckedFrom, DirectBooks, DirectCall;
    DirectStep(t, i, n);
    if i > 0 {
      ExitStep(t, i - 1, n);
    }
    if ExitCall(t, i, n) < n {
      ExitInOrder(t, i, n);
    } else {
      ExitLate(t, i, n);
    }
  }

  lemma ExitLate(t: Trace, i: nat, n: nat)
    requires ExitCall(t, i, n) == n
    requires PriorExit(t, i, n) < n ==> PriorExit(t, i, n + 1) == PriorExit(t, i, n)
    requires PriorExit(t, i, n) == n && i > 0 ==> PriorExit(t, i, n + 1) >= n
    requires DirectCall(t, i, n) < n ==> DirectCall(t, i, n + 1) == DirectCall(t, i, n)
    requires DirectCall(t, i, n) == n ==> DirectCall(t, i, n + 1) >= n
    ensures ExitCall(t, i, n + 1) == if Leaves(t, i, n) then n else n + 1
  {
    hide CheckedFrom, DirectBooks, DirectCall;
    var start := Max(PriorExit(t, i, n + 1), DirectCall(t, i, n + 1));
    var b := DirectBooks(t, i, DirectCall(t, i, n + 1));
    var from, checks := Max(i, start), Max(i + 1, start);
    assert FirstSettled(t, i, from, checks, b, n) == n by {
      if from < n {
        assert from == Max(i, Max(PriorExit(t, i, n), DirectCall(t, i, n)));
      }
    }
  }

  /** The books during call `n` of a commit directly finalized before are those after the calls before. */
  lemma BooksUnchanged(t: Trace, i: nat, n: nat)
    requires DirectCall(t, i, n) < n
    ensures BooksDuring(t, i, n) == BooksAt(t, i, n) && DirectCall(t, i, n + 1) == DirectCall(t, i, n)
  {
    DirectStep(t, i, n);
    if i > 0 {
      ExitStep(t, i - 1, n);
    }
  }

  /** A commit directly finalized by call `n` has its first books during it. */
  lemma BooksNew(t: Trace, i: nat, n: nat)
    requires DirectCall(t, i, n + 1) == n
    ensures BooksDuring(t, i, n) == DirectBooks(t, i, n)
  {
  }

  /** Once a commit is let go, its books are closed. */
  lemma {:induction false} ExitMeans(t: Trace, i: nat, n: nat)
    requires ExitCall(t, i, n) < n
    ensures BooksAt(t, i, n).pending == {} && BooksAt(t, i, n + 1) == BooksAt(t, i, n)
    decreases n
  {
    hide DirectBooks, DirectCall, ExitCall;
    ExitInOrder(t, i, n);
    ExitStep(t, i, n - 1);
    if ExitCall(t, i, n - 1) < n - 1 {
      ExitMeans(t, i, n - 1);
    }
    BooksUnchanged(t, i, n);
    BooksStep(t, i, n);
    NothingChecked(t, i, n, BooksAt(t, i, n));
  }

  // ----- a longer run -------------------------------------------------------------------

  /** `t'` continues `t`. */
  ghost predicate Continues(t: Trace, t': Trace) {
    t.committee == t'.committee && t.inputs <= t'.inputs && t.calls <= t'.calls && |t.inputs| == |t.calls|
  }

  lemma {:induction false} FirstAllowedSame(t: Trace, t': Trace, i: nat, from: nat, n: nat)
    requires Continues(t, t') && n <= |t.inputs| && i <= from
    ensures FirstAllowed(t, i, from, n) == FirstAllowed(t', i, from, n)
  {
    if n > from {
      FirstAllowedSame(t, t', i, from, n - 1);
    }
  }

  lemma {:induction false} DirectSame(t: Trace, t': Trace, i: nat, n: nat)
    requires Continues(t, t') && n <= |t.inputs|
    ensures DirectCall(t, i, n) == DirectCall(t', i, n)
  {
    if i > 0 {
      DirectSame(t, t', i - 1, n);
    }
    FirstAllowedSame(t, t', i, Max(i, if i == 0 then 0 else DirectCall(t, i - 1, n)), n);
  }

  lemma CheckedSame(t: Trace, t': Trace, i: nat, k: nat, b: Books)
    requires Continues(t, t') && k < |t.inputs| && i <= k
    ensures Checked(t, i, k, b) == Checked(t', i, k, b)
  {
    hide StillPending, AcceptedIn, BlocksIn;
    assert t.inputs[i..k + 1] == t'.inputs[i..k + 1];
  }

  lemma {:induction false} CheckedFromSame(t: Trace, t': Trace, i: nat, from: nat, n: nat, b: Books)
    requires Continues(t, t') && n <= |t.inputs| && i <= from
    ensures CheckedFrom(t, i, from, n, b) == CheckedFrom(t', i, from, n, b)
  {
    hide Checked;
    if n > from {
      CheckedFromSame(t, t', i, from, n - 1, b);
      CheckedSame(t, t', i, n - 1, CheckedFrom(t, i, from, n - 1, b));
    }
  }

  lemma {:induction false} FirstSettledSame(t: Trace, t': Trace, i: nat, from: nat, checks: nat, b: Books, n: nat)
    requires Continues(t, t') && n <= |t.inputs| && i <= checks
    ensures FirstSettled(t, i, from, checks, b, n) == FirstSettled(t', i, from, checks, b, n)
  {
    hide CheckedFrom;
    if n > from {
      FirstSettledSame(t, t', i, from, checks, b, n - 1);
      CheckedFromSame(t, t', i, checks, n, b);
    }
  }

  lemma DirectBooksSame(t: Trace, t': Trace, i: nat, k: nat)
    requires Continues(t, t') && k < |t.inputs| && i <= k
    ensures DirectBooks(t, i, k) == DirectBooks(t', i, k)
  {
    hide VotedIn, Undecided, RefsOf;
  }

  /** What the first calls have decided does not depend on the later ones. */
  lemma {:induction false} ExitSame(t: Trace, t': Trace, i: nat, n: nat)
    requires Continues(t, t') && n <= |t.inputs|
    ensures ExitCall(t, i, n) == ExitCall(t', i, n)
    decreases i
  {
    hide DirectBooks, DirectCall, CheckedFrom;
    if i > 0 {
      ExitSame(t, t', i - 1, n);
    }
    DirectSame(t, t', i, n);
    var start, direct := Max(PriorExit(t, i, n), DirectCall(t, i, n)), DirectCall(t, i, n);
    if Max(i, start) < n {
      DirectInOrder(t, i, n);
      DirectBooksSame(t, t', i, direct);
      FirstSettledSame(t, t', i, Max(i, start), Max(i + 1, start), DirectBooks(t, i, direct), n);
    }
  }

  lemma BooksSame(t: Trace, t': Trace, i: nat, n: nat)
    requires Continues(t, t') && n <= |t.inputs| && DirectCall(t, i, n) < n
    ensures BooksAt(t, i, n) == BooksAt(t', i, n)
  {
    hide DirectBooks, DirectCall, CheckedFrom, ExitCall;
    if i > 0 {
      ExitSame(t, t', i - 1, n);
    }
    DirectSame(t, t', i, n);
    DirectInOrder(t, i, n);
    DirectBooksSame(t, t', i, DirectCall(t, i, n));
    CheckedFromSame(t, t', i, ChecksFrom(t, i, n), n, DirectBooks(t, i, DirectCall(t, i, n)));
  }

  // ----- every transaction is settled once, and why -------------------------------------

  /** Every one of `all` is in exactly one place. */
  ghost predicate Partition(all: set<Transaction>, b: Books) {
    && all == b.pending + b.rejected + b.finalized
    && b.pending !! b.rejected && b.pending !! b.finalized && b.rejected !! b.finalized
  }

  lemma {:induction false} CheckedPartition(t: Trace, i: nat, from: nat, n: nat, b: Books, all: set<Transaction>)
    requires Partition(all, b)
    ensures Partition(all, CheckedFrom(t, i, from, n, b))
  {
    if n > from {
      CheckedPartition(t, i, from, n - 1, b, all);
    }
  }

  /** The transactions of a commit with reject votes at direct finalization, and no others, are at all times in
      exactly one place: pending, rejected or finalized. */
  lemma BooksPartition(t: Trace, i: nat, n: nat)
    requires DirectCall(t, i, n) < n && t.Has(i) && t.Has(DirectCall(t, i, n))
    ensures Partition(VotedIn(RefsOf(t.inputs[i].blocks), t.calls[DirectCall(t, i, n)]), BooksAt(t, i, n))
  {
    hide CheckedFrom;
    var k := DirectCall(t, i, n);
    CheckedPartition(t, i, ChecksFrom(t, i, n), n, DirectBooks(t, i, k),
                     VotedIn(RefsOf(t.inputs[i].blocks), t.calls[k]));
  }

  /** There are reject votes, of no more than two thirds of the total stake. */
  ghost predicate VotesShort(votes: Votes, x: Transaction, total: nat) {
    x.0 in votes && x.1 in votes[x.0] && 3 * votes[x.0][x.1] <= 2 * total
  }

  lemma ShortIs(c: Committee, votes: Votes, x: Transaction)
    ensures IsShort(votes, x, c.QuorumThreshold()) <==> VotesShort(votes, x, c.TotalStake())
  {
    if x.0 in votes && x.1 in votes[x.0] {
      QuorumIsTwoThirds(c, votes[x.0][x.1]);
    }
  }

  /** A check at call `k` rejects a pending transaction: a quorum rejects it by then, or no quorum accepts it
      while a deep leader is newest. */
  ghost predicate RejectedBy(t: Trace, i: nat, k: nat, x: Transaction) {
    && i <= k && t.Has(k)
    && (|| !VotesShort(t.calls[k], x, t.committee.TotalStake())
        || (&& t.inputs[i].leader.round + 3 <= t.inputs[k].leader.round
            && !(Grounded(BlocksIn(t.inputs[i..k + 1])) &&
                 t.committee.IsQuorum(Accepting(BlocksIn(t.inputs[i..k + 1]), x.0, x.1)))))
  }

  /** A check at call `k` finalizes a pending transaction: no quorum rejects it by then, and a quorum of the
      authorities with buffered blocks accepts it. */
  ghost predicate FinalizedBy(t: Trace, i: nat, k: nat, x: Transaction) {
    && i <= k && t.Has(k) && VotesShort(t.calls[k], x, t.committee.TotalStake())
    && Grounded(BlocksIn(t.inputs[i..k + 1])) && t.committee.IsQuorum(Accepting(BlocksIn(t.inputs[i..k + 1]), x.0, x.1))
  }

  /** Neither has happened at the checks from `from` up to `n`. */
  ghost predicate OpenUntil(t: Trace, i: nat, from: nat, n: nat, x: Transaction) {
    forall k :: from <= k < n ==> !RejectedBy(t, i, k, x) && !FinalizedBy(t, i, k, x)
  }

  /** The first check from `from` on that settles the transaction rejects it. */
  ghost predicate EverRejected(t: Trace, i: nat, from: nat, n: nat, x: Transaction) {
    exists k :: from <= k < n && OpenUntil(t, i, from, k, x) && RejectedBy(t, i, k, x)
  }

  /** The first check from `from` on that settles the transaction finalizes it. */
  ghost predicate EverFinalized(t: Trace, i: nat, from: nat, n: nat, x: Transaction) {
    exists k :: from <= k < n && OpenUntil(t, i, from, k, x) && FinalizedBy(t, i, k, x)
  }

  lemma {:induction false} WhyMoved(t: Trace, i: nat, from: nat, n: nat, b: Books, x: Transaction)
    requires n <= |t.inputs| == |t.calls| && i <= from
    ensures var a := CheckedFrom(t, i, from, n, b);
            && (x in a.pending <==> x in b.pending && OpenUntil(t, i, from, n, x))
            && (x in a.rejected <==> x in b.rejected || (x in b.pending && EverRejected(t, i, from, n, x)))
            && (x in a.finalized <==> x in b.finalized || (x in b.pending && EverFinalized(t, i, from, n, x)))
  {
    hide RejectedBy, FinalizedBy, OpenUntil, EverRejected, EverFinalized, Checked, CheckedFrom;
    CheckedFromStep(t, i, from, n, b);
    if n <= from {
      NoChecks(t, i, from, n, x);
    } else {
      WhyMoved(t, i, from, n - 1, b, x);
      WhyMovedOnce(t, i, n - 1, CheckedFrom(t, i, from, n - 1, b), x);
      OneMoreCheck(t, i, from, n - 1, x);
    }
  }

  lemma CheckedFromStep(t: Trace, i: nat, from: nat, n: nat, b: Books)
    ensures n <= from ==> CheckedFrom(t, i, from, n, b) == b
    ensures n > from ==> CheckedFrom(t, i, from, n, b) == Checked(t, i, n - 1, CheckedFrom(t, i, from, n - 1, b))
  {
    hide Checked;
  }

  lemma NoChecks(t: Trace, i: nat, from: nat, n: nat, x: Transaction)
    requires n <= from
    ensures OpenUntil(t, i, from, n, x) && !EverRejected(t, i, from, n, x) && !EverFinalized(t, i, from, n, x)
  {
  }

  lemma OneMoreCheck(t: Trace, i: nat, from: nat, n: nat, x: Transaction)
    requires from <= n
    ensures OpenUntil(t, i, from, n + 1, x) <==>
            OpenUntil(t, i, from, n, x) && !RejectedBy(t, i, n, x) && !FinalizedBy(t, i, n, x)
    ensures EverRejected(t, i, from, n + 1, x) <==>
            EverRejected(t, i, from, n, x) || (OpenUntil(t, i, from, n, x) && RejectedBy(t, i, n, x))
    ensures EverFinalized(t, i, from, n + 1, x) <==>
            EverFinalized(t, i, from, n, x) || (OpenUntil(t, i, from, n, x) && FinalizedBy(t, i, n, x))
  {
    hide RejectedBy, FinalizedBy;
  }

  lemma WhyMovedOnce(t: Trace, i: nat, k: nat, b: Books, x: Transaction)
    requires i <= k && t.Has(k)
    ensures var a := Checked(t, i, k, b);
            && (x in a.pending <==> x in b.pending && !RejectedBy(t, i, k, x) && !FinalizedBy(t, i, k, x))
            && (x in a.rejected <==> x in b.rejected || (x in b.pending && RejectedBy(t, i, k, x)))
            && (x in a.finalized <==> x in b.finalized || (x in b.pending && FinalizedBy(t, i, k, x)))
  {
    ShortIs(t.committee, t.calls[k], x);
    hide IsShort, VotesShort, BlocksIn, Accepting, Grounded;
  }

  lemma ChecksLater(t: Trace, i: nat, n: nat)
    ensures i <= ChecksFrom(t, i, n)
  {
  }

  /** Exactly why a transaction of commit `i` is rejected or finalized by the first `n` calls, or still pending. */
  lemma WhySettled(t: Trace, i: nat, n: nat, x: Transaction)
    requires n <= |t.inputs| == |t.calls| && i < n && DirectCall(t, i, n) < n
    requires x in VotedIn(RefsOf(t.inputs[i].blocks), t.calls[DirectCall(t, i, n)])
    ensures var short := VotesShort(t.calls[DirectCall(t, i, n)], x, t.committee.TotalStake());
            var from, books := ChecksFrom(t, i, n), BooksAt(t, i, n);
            && (x in books.pending <==> short && OpenUntil(t, i, from, n, x))
            && (x in books.rejected <==> !short || EverRejected(t, i, from, n, x))
            && (x in books.finalized <==> short && EverFinalized(t, i, from, n, x))
  {
    hide CheckedFrom, OpenUntil, EverRejected, EverFinalized, ChecksFrom, DirectCall;
    var d := DirectCall(t, i, n);
    ShortIs(t.committee, t.calls[d], x);
    ChecksLater(t, i, n);
    WhyMoved(t, i, ChecksFrom(t, i, n), n, DirectBooks(t, i, d), x);
    assert x in DirectBooks(t, i, d).pending <==> IsShort(t.calls[d], x, t.committee.QuorumThreshold());
  }

  // ----- the buffered blocks ------------------------------------------------------------

  lemma {:induction false} BlocksOfMeans(blocks: seq<Block>)
    requires DistinctRefs(blocks)
    ensures BlocksOf(blocks).Keys == RefsOf(blocks)
    ensures forall b :: b in blocks ==> b.ref in BlocksOf(blocks) && BlocksOf(blocks)[b.ref] == b
  {
    if blocks == [] {
      NoRefs();
    } else {
      var init, last := blocks[..|blocks| - 1], blocks[|blocks| - 1];
      BlocksOfMeans(init);
      LastRefIsNew(blocks);
      hide RefsOf, DistinctRefs;
    }
  }

  lemma LastRefIsNew(blocks: seq<Block>)
    requires DistinctRefs(blocks) && blocks != []
    ensures var init, last := blocks[..|blocks| - 1], blocks[|blocks| - 1];
            && (forall b :: b in blocks <==> b in init || b == last)
            && (forall b :: b in init ==> b.ref != last.ref)
            && RefsOf(blocks) == RefsOf(init) + {last.ref}
  {
    var init, last := blocks[..|blocks| - 1], blocks[|blocks| - 1];
    assert blocks == init + [last];
    RefsOfAppend(init, last);
  }

  /** A map that holds exactly the blocks of the commits is the one the reference uses. */
  lemma {:induction false} HoldsBlocksIn(c: Committee, commits: seq<Commit>)
    requires Buffered(c, commits)
    ensures HoldsExactly(BlocksIn(commits), commits)
  {
    hide BlocksOf, RefsOf, HoldsExactly, Stored;
    if commits == [] {
      NothingHeld();
    } else {
      var init, last := commits[..|commits| - 1], commits[|commits| - 1];
      assert Buffered(c, init);
      HoldsBlocksIn(c, init);
      LastIsNew(c, commits, BlocksIn(init));
      assert ProperCommit(c, last);
      BlocksOfMeans(last.blocks);
      JoinStored(BlocksIn(init), BlocksOf(last.blocks), last.blocks);
      LastAdded(commits, BlocksIn(init), BlocksIn(commits), last.blocks);
    }
  }

  lemma NothingHeld()
    ensures HoldsExactly(map[], [])
  {
  }

  lemma JoinStored(m: BlockMap, added: BlockMap, blocks: seq<Block>)
    requires added.Keys == RefsOf(blocks) && m.Keys !! added.Keys
    requires forall b :: b in blocks ==> b.ref in added && added[b.ref] == b
    ensures Stored(m, m + added, blocks)
  {
    hide RefsOf;
    assert forall i :: 0 <= i < |blocks| ==> blocks[i] in blocks;
  }

  lemma LastIsNew(c: Committee, commits: seq<Commit>, m: BlockMap)
    requires Buffered(c, commits) && commits != [] && HoldsExactly(m, commits[..|commits| - 1])
    ensures m.Keys !! RefsOf(commits[|commits| - 1].blocks)
  {
    hide RefsOf, ProperCommit;
    var init, last := commits[..|commits| - 1], commits[|commits| - 1];
    forall r | r in m
      ensures r !in RefsOf(last.blocks)
    {
      assert InSome(init, r);
      var i :| 0 <= i < |init| && r in RefsOf(init[i].blocks);
      assert Follows(commits[i], last);
    }
  }

  lemma HoldsUnique(m: BlockMap, m': BlockMap, commits: seq<Commit>)
    requires HoldsExactly(m, commits) && HoldsExactly(m', commits)
    ensures m == m'
  {
    forall r | r in m
      ensures r in m' && m'[r] == m[r]
    {
      assert InSome(commits, r);
      var i :| 0 <= i < |commits| && r in RefsOf(commits[i].blocks);
      var b := RefIsInBlocks(commits[i].blocks, r);
      assert m[b.ref] == b && m'[b.ref] == b;
    }
  }

  /** The graph that holds the buffered commits is the map of the reference. */
  lemma BufferedIsHeld(t: Trace, m: BlockMap, i: nat, k: nat)
    requires i <= k && t.Has(k) && Buffered(t.committee, t.inputs[i..k + 1]) && HoldsExactly(m, t.inputs[i..k + 1])
    ensures m == BufferedAt(t, i, k)
  {
    HoldsBlocksIn(t.committee, t.inputs[i..k + 1]);
    HoldsUnique(m, BlocksIn(t.inputs[i..k + 1]), t.inputs[i..k + 1]);
  }
}
