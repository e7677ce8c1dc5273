/** The commit finalizer: buffers commits in order, and settles every transaction with reject votes as
    finalized or rejected before it lets a commit go. */
module CommitFinalizers {
  import opened Committees
  import opened Dags
  import opened VoteTraversals
  import opened CommitGraphs
  import opened Settlements
  import CommitRules
  import Sorting

  type Transactions = map<BlockRef, set<nat>>

  datatype CommitState = CommitState(commit: Commit, pendingBlocks: set<BlockRef>, pending: Transactions,
                                     rejected: Transactions) {
    predicate IsFinalized() {
      pendingBlocks == {} && pending == map[]
    }
  }

  datatype FinalizedCommit = FinalizedCommit(commit: Commit, rejected: Transactions)

  // ----- transactions -------------------------------------------------------------------

  ghost function Pairs(t: Transactions): set<Transaction> {
    set b, i | b in t && i in t[b] :: (b, i)
  }

  ghost function Tagged(b: BlockRef, transactions: set<nat>): set<Transaction> {
    set i | i in transactions :: (b, i)
  }

  ghost predicate NoEmpty(t: Transactions) {
    forall b :: b in t ==> t[b] != {}
  }

  /** Removes transactions of a block, and the block's entry when none is left. */
  function Without(t: Transactions, b: BlockRef, transactions: set<nat>): Transactions {
    if b !in t then t
    else
      var left := t[b] - transactions;
      if left == {} then t - {b} else t[b := left]
  }

  function Adding(t: Transactions, b: BlockRef, transactions: set<nat>): Transactions {
    t[b := (if b in t then t[b] else {}) + transactions]
  }

  lemma PairsWithout(t: Transactions, b: BlockRef, transactions: set<nat>)
    ensures Pairs(Without(t, b, transactions)) == Pairs(t) - Tagged(b, transactions)
  {
    forall x, i
      ensures (x, i) in Pairs(Without(t, b, transactions)) <==> (x, i) in Pairs(t) && (x, i) !in Tagged(b, transactions)
    {
      assert b in t && i in t[b] - transactions ==> t[b] - transactions != {};
    }
  }

  lemma PairsAdding(t: Transactions, b: BlockRef, transactions: set<nat>)
    ensures Pairs(Adding(t, b, transactions)) == Pairs(t) + Tagged(b, transactions)
  {
  }

  function ShortOf(votes: map<nat, nat>, threshold: nat): set<nat> {
    set i | i in votes && votes[i] < threshold
  }

  lemma UndecidedStep(blocks: set<BlockRef>, votes: Votes, threshold: nat, b: BlockRef)
    requires b in votes
    ensures Undecided(blocks + {b}, votes, threshold) == Undecided(blocks, votes, threshold) +
            Tagged(b, ShortOf(votes[b], threshold))
    ensures VotedIn(blocks + {b}, votes) == VotedIn(blocks, votes) + Tagged(b, votes[b].Keys)
  {
  }

  lemma DecidedStep(blocks: set<BlockRef>, votes: Votes, threshold: nat, b: BlockRef)
    requires b in votes
    ensures VotedIn(blocks + {b}, votes) - Undecided(blocks + {b}, votes, threshold) ==
            VotedIn(blocks, votes) - Undecided(blocks, votes, threshold) +
              Tagged(b, votes[b].Keys - ShortOf(votes[b], threshold))
  {
  }

  /** Sorts the reject-voted transactions of blocks: pending while the reject votes are short of the
      threshold, rejected otherwise. */
  method SortVoted(blocks: set<BlockRef>, votes: Votes, threshold: nat)
    returns (pending: Transactions, rejected: Transactions)
    requires blocks <= votes.Keys
    ensures Pairs(pending) == Undecided(blocks, votes, threshold) && pending.Keys <= blocks
    ensures Pairs(rejected) == VotedIn(blocks, votes) - Undecided(blocks, votes, threshold)
    ensures NoEmpty(pending) && NoEmpty(rejected)
  {
    hide Pairs, Undecided, VotedIn, Tagged;
    pending, rejected := map[], map[];
    NoPairs(votes, threshold);
    var rest := blocks;
    assert blocks - rest == {};
    while rest != {}
      invariant rest <= blocks && pending.Keys <= blocks && NoEmpty(pending) && NoEmpty(rejected)
      invariant Pairs(pending) == Undecided(blocks - rest, votes, threshold)
      invariant Pairs(rejected) == VotedIn(blocks - rest, votes) - Undecided(blocks - rest, votes, threshold)
    {
      var b := First(rest);
      var low := ShortOf(votes[b], threshold);
      var high := votes[b].Keys - low;
      assert blocks - (rest - {b}) == blocks - rest + {b};
      UndecidedStep(blocks - rest, votes, threshold, b);
      DecidedStep(blocks - rest, votes, threshold, b);
      NothingTagged(b);
      if low != {} {
        PairsAdding(pending, b, low);
        pending := Adding(pending, b, low);
      }
      if high != {} {
        PairsAdding(rejected, b, high);
        rejected := Adding(rejected, b, high);
      }
      rest := rest - {b};
    }
    assert blocks - rest == blocks;
  }

  lemma NoPairs(votes: Votes, threshold: nat)
    ensures Pairs(map[]) == {} && Undecided({}, votes, threshold) == {} && VotedIn({}, votes) == {}
  {
  }

  lemma NothingTagged(b: BlockRef)
    ensures Tagged(b, {}) == {}
  {
  }

  // ----- the buffer against the reference -----------------------------------------------

  function NewCommit(commit: Commit): CommitState {
    CommitState(commit, RefsOf(commit.blocks), map[], map[])
  }

  function CommitsOf(pending: seq<CommitState>): (commits: seq<Commit>)
    ensures |commits| == |pending| && forall i :: 0 <= i < |pending| ==> commits[i] == pending[i].commit
  {
    seq(|pending|, i requires 0 <= i < |pending| => pending[i].commit)
  }

  /** Vote information is kept for everything that is still pending. */
  ghost predicate Covers(votes: Votes, cs: CommitState) {
    && cs.pendingBlocks <= votes.Keys
    && forall b :: b in cs.pending ==> b in votes && cs.pending[b] <= votes[b].Keys
  }

  ghost predicate CoversAll(votes: Votes, pending: seq<CommitState>) {
    forall i :: 0 <= i < |pending| ==> Covers(votes, pending[i])
  }

  lemma UndecidedIsCovered(votes: Votes, blocks: set<BlockRef>, threshold: nat, pending: Transactions)
    requires Pairs(pending) == Undecided(blocks, votes, threshold) && pending.Keys <= blocks <= votes.Keys
    ensures forall b :: b in pending ==> b in votes && pending[b] <= votes[b].Keys
  {
    forall b, i | b in pending && i in pending[b]
      ensures i in votes[b]
    {
      assert (b, i) in Pairs(pending);
    }
  }

  /** The state of a directly finalized commit is what the books say. */
  ghost predicate Reflects(cs: CommitState, b: Books) {
    && cs.pendingBlocks == {} && cs.pending.Keys <= RefsOf(cs.commit.blocks)
    && Pairs(cs.pending) == b.pending && Pairs(cs.rejected) == b.rejected
    && NoEmpty(cs.pending) && NoEmpty(cs.rejected)
  }

  /** The state of commit `i` after the first `n` calls. */
  ghost predicate StatusAt(t: Trace, i: nat, n: nat, cs: CommitState) {
    && i < |t.inputs| && cs.commit == t.inputs[i]
    && if DirectCall(t, i, n) < n then Reflects(cs, BooksAt(t, i, n)) else cs == NewCommit(cs.commit)
  }

  /** The state of commit `i` in the middle of call `n`: direct finalization is done, the check is not. */
  ghost predicate StatusDuring(t: Trace, i: nat, n: nat, cs: CommitState) {
    && i < |t.inputs| && cs.commit == t.inputs[i]
    && if DirectCall(t, i, n + 1) <= n then Reflects(cs, BooksDuring(t, i, n)) else cs == NewCommit(cs.commit)
  }

  /** Commit `i` was let go by one of the first `n` calls, with the transactions the books reject. */
  ghost predicate LetGo(t: Trace, i: nat, n: nat, out: FinalizedCommit) {
    && i < |t.inputs| && out.commit == t.inputs[i] && ExitCall(t, i, n) < n
    && Pairs(out.rejected) == BooksAt(t, i, n).rejected && NoEmpty(out.rejected)
  }

  ghost predicate AllLetGo(t: Trace, n: nat, outputs: seq<FinalizedCommit>) {
    forall j :: 0 <= j < |outputs| ==> LetGo(t, j, n, outputs[j])
  }

  /** Between calls: exactly the commits the reference lets go are gone, in order, and the others are in the
      state the reference gives. */
  ghost predicate AtRest(t: Trace, pending: seq<CommitState>, outputs: seq<FinalizedCommit>) {
    && |outputs| + |pending| == |t.inputs| == |t.calls|
    && AllLetGo(t, |t.inputs|, outputs) && ExitCall(t, |outputs|, |t.inputs|) == |t.inputs|
    && forall j :: 0 <= j < |pending| ==> StatusAt(t, |outputs| + j, |t.inputs|, pending[j])
  }

  /** A call has begun: its commit is put in, nothing is finalized yet. */
  ghost predicate Begun(t: Trace, pending: seq<CommitState>, outputs: seq<FinalizedCommit>) {
    && |outputs| + |pending| == |t.inputs| == |t.calls| && t.inputs != []
    && AllLetGo(t, |t.inputs|, outputs) && ExitCall(t, |outputs|, |t.inputs| - 1) == |t.inputs| - 1
    && forall j :: 0 <= j < |pending| ==> StatusAt(t, |outputs| + j, |t.inputs| - 1, pending[j])
  }

  /** Direct finalization is done, and the first commit in the buffer is checked or not. */
  ghost predicate Midway(t: Trace, pending: seq<CommitState>, outputs: seq<FinalizedCommit>, checked: bool) {
    && |outputs| + |pending| == |t.inputs| == |t.calls| && t.inputs != []
    && AllLetGo(t, |t.inputs|, outputs) && ExitCall(t, |outputs|, |t.inputs| - 1) == |t.inputs| - 1
    && (pending != [] ==>
          if checked then StatusAt(t, |outputs|, |t.inputs|, pending[0])
          else StatusDuring(t, |outputs|, |t.inputs| - 1, pending[0]))
    && forall j :: 0 < j < |pending| ==> StatusDuring(t, |outputs| + j, |t.inputs| - 1, pending[j])
  }

  // ----- one call -----------------------------------------------------------------------

  lemma StillLetGo(t: Trace, t': Trace, j: nat, out: FinalizedCommit)
    requires Continues(t, t') && |t'.inputs| == |t.inputs| + 1 && LetGo(t, j, |t.inputs|, out)
    ensures LetGo(t', j, |t'.inputs|, out)
  {
    hide DirectCall, ExitCall, BooksAt, Pairs;
    var n := |t.inputs|;
    ExitInOrder(t, j, n);
    ExitSame(t, t', j, n);
    BooksSame(t, t', j, n);
    ExitStep(t', j, n);
    ExitMeans(t', j, n);
  }

  lemma SameStatus(t: Trace, t': Trace, i: nat, cs: CommitState)
    requires Continues(t, t') && StatusAt(t, i, |t.inputs|, cs)
    ensures StatusAt(t', i, |t.inputs|, cs)
  {
    hide DirectCall, ExitCall, BooksAt, Reflects, NewCommit;
    DirectSame(t, t', i, |t.inputs|);
    if DirectCall(t, i, |t.inputs|) < |t.inputs| {
      BooksSame(t, t', i, |t.inputs|);
    }
  }

  function Extended(t: Trace, commit: Commit, votes: Votes): Trace {
    Trace(t.committee, t.inputs + [commit], t.calls + [votes])
  }

  lemma BeginCall(t: Trace, pending: seq<CommitState>, outputs: seq<FinalizedCommit>, commit: Commit, votes: Votes)
    requires AtRest(t, pending, outputs)
    ensures Begun(Extended(t, commit, votes), pending + [NewCommit(commit)], outputs)
  {
    hide StatusAt, LetGo, DirectCall, ExitCall;
    var t', n := Extended(t, commit, votes), |t.inputs|;
    forall j | 0 <= j < |outputs|
      ensures LetGo(t', j, n + 1, outputs[j])
    {
      StillLetGo(t, t', j, outputs[j]);
    }
    ExitSame(t, t', |outputs|, n);
    forall j | 0 <= j < |pending|
      ensures StatusAt(t', |outputs| + j, n, pending[j])
    {
      SameStatus(t, t', |outputs| + j, pending[j]);
    }
    NewStatus(t', n, commit);
  }

  lemma NewStatus(t: Trace, n: nat, commit: Commit)
    requires n < |t.inputs| && t.inputs[n] == commit
    ensures StatusAt(t, n, n, NewCommit(commit))
  {
    DirectInOrder(t, n, n);
  }

  /** A commit that is already directly finalized is passed over. */
  lemma AlreadyDirect(t: Trace, i: nat, n: nat, cs: CommitState)
    requires StatusAt(t, i, n, cs) && cs.pendingBlocks == {} && RefsOf(cs.commit.blocks) != {}
    ensures DirectCall(t, i, n + 1) <= n && StatusDuring(t, i, n, cs)
  {
    hide DirectCall, BooksAt, BooksDuring, Reflects;
    BooksUnchanged(t, i, n);
  }

  /** The books when direct finalization sorts the reject votes. */
  ghost function Sorted(c: Committee, commit: Commit, votes: Votes): Books {
    var blocks := RefsOf(commit.blocks);
    var short := Undecided(blocks, votes, c.QuorumThreshold());
    Books(short, VotedIn(blocks, votes) - short, {})
  }

  lemma NowDirect(t: Trace, i: nat, n: nat, cs: CommitState, cs': CommitState)
    requires StatusAt(t, i, n, cs) && cs.pendingBlocks != {} && i <= n && t.Has(n)
    requires (i == 0 || DirectCall(t, i - 1, n + 1) <= n) && MayFinalize(t, i, n)
    requires cs'.commit == cs.commit && Reflects(cs', Sorted(t.committee, cs.commit, t.calls[n]))
    ensures DirectCall(t, i, n + 1) <= n && StatusDuring(t, i, n, cs')
  {
    hide DirectCall, BooksAt, Reflects, RefsOf, Undecided, VotedIn;
    assert DirectCall(t, i, n) == n by {
      if DirectCall(t, i, n) < n {
        ReflectsDone(cs, BooksAt(t, i, n));
      }
    }
    DirectStep(t, i, n);
    BooksNew(t, i, n);
  }

  lemma ReflectsDone(cs: CommitState, b: Books)
    requires Reflects(cs, b)
    ensures cs.pendingBlocks == {}
  {
  }

  /** The direct calls come in the order of the commits. */
  lemma {:induction false} DirectLater(t: Trace, i: nat, j: nat, n: nat)
    requires i <= j
    ensures DirectCall(t, i, n) <= DirectCall(t, j, n)
  {
    if i < j {
      DirectLater(t, i, j - 1, n);
      DirectInOrder(t, j, n);
    }
  }

  /** When a commit may not be directly finalized yet, it and all later ones stay as they are. */
  lemma NotYetDirect(t: Trace, i: nat, n: nat, j: nat, cs: CommitState)
    requires i <= j && StatusAt(t, j, n, cs) && DirectCall(t, i, n) == n && !MayFinalize(t, i, n)
    ensures StatusDuring(t, j, n, cs)
  {
    hide DirectCall, NewCommit;
    DirectLater(t, i, j, n);
    DirectStep(t, i, n);
    DirectLater(t, i, j, n + 1);
  }

  /** A commit with nothing pending is let go, checked in this call or not. */
  lemma LeavesNow(t: Trace, i: nat, n: nat, cs: CommitState)
    requires StatusDuring(t, i, n, cs) || StatusAt(t, i, n + 1, cs)
    requires cs.IsFinalized() && RefsOf(cs.commit.blocks) != {}
    requires i <= n && PriorExit(t, i, n + 1) <= n && ExitCall(t, i, n) == n
    ensures LetGo(t, i, n + 1, FinalizedCommit(cs.commit, cs.rejected))
  {
    NoPairs(map[], 0);
    hide Pairs, DirectCall, DirectBooks, CheckedFrom, ExitCall, RefsOf;
    if !StatusAt(t, i, n + 1, cs) {
      BooksStep(t, i, n);
      NothingChecked(t, i, n, BooksDuring(t, i, n));
    }
    ExitStep(t, i, n);
  }

  lemma PopOne(t: Trace, pending: seq<CommitState>, outputs: seq<FinalizedCommit>, checked: bool)
    requires Midway(t, pending, outputs, checked) && pending != []
    requires pending[0].IsFinalized() && RefsOf(pending[0].commit.blocks) != {}
    ensures Midway(t, pending[1..], outputs + [FinalizedCommit(pending[0].commit, pending[0].rejected)], false)
  {
    hide StatusAt, StatusDuring, LetGo, ExitCall, DirectCall, CommitState.IsFinalized, RefsOf;
    var i, n := |outputs|, |t.inputs| - 1;
    assert PriorExit(t, i, n + 1) <= n by {
      if i > 0 {
        GoneBefore(t, i - 1, n + 1, outputs[i - 1]);
      }
    }
    LeavesNow(t, i, n, pending[0]);
    StaysLater(t, i, i + 1, n);
  }

  lemma GoneBefore(t: Trace, i: nat, n: nat, out: FinalizedCommit)
    requires LetGo(t, i, n, out)
    ensures ExitCall(t, i, n) < n
  {
  }

  /** Commits are let go in order. */
  lemma {:induction false} StaysLater(t: Trace, i: nat, j: nat, n: nat)
    requires i <= j && ExitCall(t, i, n) == n
    ensures ExitCall(t, j, n) == n
  {
    hide ExitCall, DirectCall;
    if i < j {
      StaysLater(t, i, j - 1, n);
      if ExitCall(t, j, n) < n {
        ExitInOrder(t, j, n);
      }
    }
  }

  /** What is not first in the buffer at the end of a call has not been checked in it. */
  lemma UncheckedStatus(t: Trace, i: nat, n: nat, cs: CommitState)
    requires StatusDuring(t, i, n, cs) && (i == n || PriorExit(t, i, n + 1) == n + 1)
    ensures StatusAt(t, i, n + 1, cs)
  {
    hide DirectCall, CheckedFrom, ExitCall, Reflects, DirectBooks;
    BooksStep(t, i, n);
  }

  lemma UnsettledStays(t: Trace, i: nat, n: nat, cs: CommitState)
    requires StatusAt(t, i, n + 1, cs) && !cs.IsFinalized() && ExitCall(t, i, n) == n
    ensures ExitCall(t, i, n + 1) == n + 1
  {
    hide DirectCall, ExitCall, BooksAt, NewCommit, Pairs;
    ExitStep(t, i, n);
    if DirectCall(t, i, n + 1) <= n {
      SomePending(cs.pending);
    }
  }

  lemma SomePending(pending: Transactions)
    requires NoEmpty(pending) && pending != map[]
    ensures Pairs(pending) != {}
  {
    var b :| b in pending;
    var i :| i in pending[b];
    assert (b, i) in Pairs(pending);
  }

  /** The call ends when the first commit left is checked, or not directly finalized, or the newest. */
  lemma EndCall(t: Trace, pending: seq<CommitState>, outputs: seq<FinalizedCommit>, checked: bool)
    requires Midway(t, pending, outputs, checked)
    requires pending != [] ==> !pending[0].IsFinalized()
    requires pending == [] || |pending| == 1 || checked || pending[0].pendingBlocks != {}
    ensures AtRest(t, pending, outputs)
  {
    hide StatusAt, StatusDuring, LetGo, ExitCall, CommitState.IsFinalized;
    var i, n := |outputs|, |t.inputs| - 1;
    if pending == [] {
      LastExit(t, n + 1);
    } else {
      if !checked {
        if pending[0].pendingBlocks == {} {
          UncheckedStatus(t, i, n, pending[0]);
        } else {
          UntouchedStatus(t, i, n, pending[0]);
        }
      }
      UnsettledStays(t, i, n, pending[0]);
      forall j | 0 < j < |pending|
        ensures StatusAt(t, i + j, n + 1, pending[j])
      {
        StaysLater(t, i, i + j - 1, n + 1);
        UncheckedStatus(t, i + j, n, pending[j]);
      }
    }
  }

  lemma UntouchedStatus(t: Trace, i: nat, n: nat, cs: CommitState)
    requires StatusDuring(t, i, n, cs) && cs.pendingBlocks != {}
    ensures StatusAt(t, i, n + 1, cs)
  {
    hide DirectCall, BooksAt, BooksDuring, NewCommit;
  }

  lemma LastExit(t: Trace, n: nat)
    ensures ExitCall(t, n, n) == n
  {
    hide ExitCall, DirectCall;
    if ExitCall(t, n, n) < n {
      ExitInOrder(t, n, n);
    }
  }

  /** The check of the first commit takes its state to the one after the call. */
  lemma CheckedStatus(t: Trace, i: nat, n: nat, cs: CommitState, cs': CommitState)
    requires StatusDuring(t, i, n, cs) && cs.pendingBlocks == {} && RefsOf(cs.commit.blocks) != {}
    requires i < n && PriorExit(t, i, n + 1) <= n && cs'.commit == cs.commit
    requires Reflects(cs', Checked(t, i, n, Books(Pairs(cs.pending), Pairs(cs.rejected), {})))
    ensures StatusAt(t, i, n + 1, cs')
  {
    hide DirectCall, ExitCall, CheckedFrom, DirectBooks, RefsOf, Pairs, NoEmpty;
    BooksStep(t, i, n);
    CheckedOf(t, i, n, BooksDuring(t, i, n), {});
  }

  /** The record of what was finalized before plays no part in a check. */
  lemma CheckedOf(t: Trace, i: nat, k: nat, b: Books, finalized: set<Transaction>)
    ensures var a, a' := Checked(t, i, k, b), Checked(t, i, k, b.(finalized := finalized));
            a.pending == a'.pending && a.rejected == a'.rejected
  {
  }

  /** Bounded backlog: whatever is first in the buffer after a call has a leader less than three rounds
      below the newest one. */
  lemma BacklogIsShallow(t: Trace, i: nat, n: nat)
    requires t.Has(n) && i <= n && PriorExit(t, i, n + 1) <= n && ExitCall(t, i, n + 1) == n + 1
    ensures !IsDeep(t, i, n)
  {
    hide ExitCall, DirectCall, CheckedFrom, DirectBooks;
    ExitStep(t, i, n);
    if ExitCall(t, i, n) < n {
      assert false;
    }
    if DirectCall(t, i, n + 1) == n + 1 {
      assert i == 0 || DirectCall(t, i - 1, n + 1) <= n by {
        if i > 0 {
          ExitInOrder(t, i - 1, n + 1);
        }
      }
      DirectStep(t, i, n);
      assert DirectCall(t, i, n) == n;
      assert !MayFinalize(t, i, n);
    } else {
      BooksStep(t, i, n);
    }
  }

  // ----- moving transactions out of pending ---------------------------------------------

  /** What has left pending is rejected. */
  ghost predicate Moved(pending: set<Transaction>, rejected: set<Transaction>, pending': Transactions,
                        rejected': Transactions) {
    && Pairs(pending') <= pending && Pairs(rejected') == rejected + (pending - Pairs(pending'))
    && NoEmpty(pending') && NoEmpty(rejected')
  }

  lemma NothingMoved(pending: Transactions, rejected: Transactions)
    requires NoEmpty(pending) && NoEmpty(rejected)
    ensures Moved(Pairs(pending), Pairs(rejected), pending, rejected)
  {
    hide Pairs;
  }

  lemma MoveSome(pending: set<Transaction>, rejected: set<Transaction>, pending': Transactions, rejected': Transactions,
                 b: BlockRef, transactions: set<nat>)
    requires Moved(pending, rejected, pending', rejected')
    requires b in pending' && transactions <= pending'[b] && transactions != {}
    ensures Moved(pending, rejected, Without(pending', b, transactions), Adding(rejected', b, transactions))
  {
    TaggedPending(pending', b, transactions);
    PairsWithout(pending', b, transactions);
    PairsAdding(rejected', b, transactions);
    hide Pairs, Tagged;
  }

  /** The three steps of a check, one after the other, are the check of the reference. */
  lemma ChecksCompose(t: Trace, i: nat, k: nat, cs0: CommitState, cs1: CommitState, cs2: CommitState, cs3: CommitState)
    requires t.Has(k)
    requires Pairs(cs1.pending) == StillPending(Pairs(cs0.pending), t.calls[k], t.committee.QuorumThreshold())
    requires Moved(Pairs(cs0.pending), Pairs(cs0.rejected), cs1.pending, cs1.rejected)
    requires Pairs(cs2.pending) == Pairs(cs1.pending) - AcceptedIn(t.committee, BufferedAt(t, i, k), Pairs(cs1.pending))
    requires cs2.rejected == cs1.rejected && Moved(Pairs(cs2.pending), Pairs(cs2.rejected), cs3.pending, cs3.rejected)
    requires if IsDeep(t, i, k) then cs3.pending == map[] else cs3 == cs2
    ensures var b := Checked(t, i, k, Books(Pairs(cs0.pending), Pairs(cs0.rejected), {}));
            Pairs(cs3.pending) == b.pending && Pairs(cs3.rejected) == b.rejected && NoEmpty(cs3.pending) &&
              NoEmpty(cs3.rejected)
  {
    NoPairs(t.calls[k], 0);
    hide Pairs, StillPending, AcceptedIn, BufferedAt, IsDeep;
  }

  lemma TaggedPending(t: Transactions, b: BlockRef, transactions: set<nat>)
    requires b in t && transactions <= t[b]
    ensures Tagged(b, transactions) <= Pairs(t)
  {
  }

  /** The newest leader is deep enough above the first commit to reject what is left of it. */
  predicate FirstIsDeep(pending: seq<CommitState>)
    requires pending != []
  {
    pending[0].commit.leader.round + INDIRECT_REJECT_DEPTH <= pending[|pending| - 1].commit.leader.round
  }

  /** Only the first commit has changed, and it stays directly finalized. */
  ghost predicate OnlyFirst(pending: seq<CommitState>, pending': seq<CommitState>) {
    && pending != [] && |pending'| == |pending| && pending' == pending[0 := pending'[0]]
    && pending'[0].commit == pending[0].commit && pending'[0].pendingBlocks == {}
    && pending'[0].pending.Keys <= pending[0].pending.Keys
  }

  /** Bounded backlog, in number: with strictly increasing leader rounds at most three commits stay
      buffered. */
  lemma AtMostThreeBuffered(commits: seq<Commit>, last: nat)
    requires forall i :: 0 <= i < |commits| ==>
               commits[i].leader.round <= last < commits[i].leader.round + INDIRECT_REJECT_DEPTH
    requires Rising(commits)
    ensures |commits| <= 3
  {
    if commits != [] {
      LeadersSpread(commits, |commits| - 1);
    }
  }

  lemma {:induction false} LeadersSpread(commits: seq<Commit>, k: nat)
    requires k < |commits| && Rising(commits)
    ensures commits[0].leader.round + k <= commits[k].leader.round
  {
    if k > 0 {
      LeadersSpread(commits, k - 1);
    }
  }

  /** Leader rounds strictly increase. */
  predicate Rising(commits: seq<Commit>) {
    forall i, j :: 0 <= i < j < |commits| ==> commits[i].leader.round < commits[j].leader.round
  }

  class CommitFinalizer {
    const committee: Committee

    // Index of the last commit processed.
    var lastProcessed: Option<nat>
    // Commits pending finalization, in commit order.
    var pending: seq<CommitState>
    // Blocks in the pending commits.
    var blocks: Graph

    // The whole run: the commits put in, the vote information at each call, and the commits let go.
    ghost var inputs: seq<Commit>
    ghost var calls: seq<Votes>
    ghost var outputs: seq<FinalizedCommit>

    ghost function Run(): Trace
      reads this
    {
      Trace(committee, inputs, calls)
    }

    ghost predicate InOrder()
      reads this
    {
      Buffered(committee, CommitsOf(pending))
    }

    /** The graph is exact and holds the blocks of the first `n` pending commits. */
    ghost predicate Holds(n: nat)
      reads this
    {
      n <= |pending| && GraphOk(committee, blocks) && HoldsExactly(Bodies(blocks), CommitsOf(pending)[..n])
    }

    ghost predicate Valid()
      reads this
    {
      && AtRest(Run(), pending, outputs) && InOrder() && Holds(|pending|)
      && lastProcessed == if inputs == [] then None else Some(inputs[|inputs| - 1].index)
    }

    constructor (committee: Committee)
      ensures Valid() && this.committee == committee && inputs == [] && calls == [] && outputs == []
    {
      this.committee := committee;
      lastProcessed, pending, blocks := None, [], map[];
      inputs, calls, outputs := [], [], [];
    }

    /** Settles what the reject votes decide at once: no reject votes means finalized, a quorum means
        rejected, anything between stays pending. */
    method TryDirectFinalizeCommit(k: nat, votes: Votes)
      requires k < |pending| && pending[k] == NewCommit(pending[k].commit) && Covers(votes, pending[k])
      modifies this`pending
      ensures |pending| == |old(pending)| && pending == old(pending)[k := pending[k]]
      ensures pending[k].commit == old(pending)[k].commit && Covers(votes, pending[k])
      ensures Reflects(pending[k], Sorted(committee, pending[k].commit, votes))
    {
      hide Pairs, VotedIn, Undecided, RefsOf, NoEmpty;
      var cs := pending[k];
      var waiting, rejected := SortVoted(cs.pendingBlocks, votes, committee.QuorumThreshold());
      UndecidedIsCovered(votes, cs.pendingBlocks, committee.QuorumThreshold(), waiting);
      pending := pending[k := cs.(pendingBlocks := {}, pending := waiting, rejected := rejected)];
    }

    /** Direct finalization of all buffered commits it may run on. A commit that was not decided with
        local blocks waits until the newest leader is a wave above it; so does everything after it. */
    method DirectFinalization(votes: Votes)
      requires Begun(Run(), pending, outputs) && InOrder() && CoversAll(votes, pending) && pending != []
      requires calls[|calls| - 1] == votes
      modifies this`pending
      ensures Midway(Run(), pending, outputs, false) && CoversAll(votes, pending)
      ensures CommitsOf(pending) == old(CommitsOf(pending))
    {
      hide StatusAt, StatusDuring, AllLetGo, DirectCall, ExitCall, CoversAll, Reflects, Sorted, Buffered, NewCommit,
        RefsOf, CommitsOf;
      ghost var t, base, n := Run(), |outputs|, |inputs| - 1;
      FirstMayBeDirect(t, outputs);
      NewestIs(t, pending, outputs);
      var i := 0;
      while i < |pending|
        invariant i <= |pending| == |old(pending)|
        invariant CoversAll(votes, pending) && CommitsOf(pending) == old(CommitsOf(pending))
        invariant base + i == 0 || DirectCall(t, base + i - 1, n + 1) <= n
        invariant forall j :: 0 <= j < i ==> StatusDuring(t, base + j, n, pending[j])
        invariant forall j :: i <= j < |pending| ==> pending[j] == old(pending)[j]
      {
        var cs := pending[i];
        BlocksOfCommit(committee, CommitsOf(pending), i);
        CommitIs(t, base + i, n, cs);
        if cs.pendingBlocks != {} {
          IsNew(t, base + i, n, cs);
          if !cs.commit.decidedLocally {
            if cs.commit.leader.round + CommitRules.WAVE_LENGTH > pending[|pending| - 1].commit.leader.round {
              forall j | i <= j < |pending|
                ensures StatusDuring(t, base + j, n, pending[j])
              {
                NotYetDirect(t, base + i, n, base + j, pending[j]);
              }
              return;
            }
          }
          ghost var before := pending;
          OneCovered(votes, pending, i);
          TryDirectFinalizeCommit(i, votes);
          OneChanged(votes, before, pending, i);
          NowDirect(t, base + i, n, cs, pending[i]);
        } else {
          AlreadyDirect(t, base + i, n, cs);
        }
        i := i + 1;
      }
    }

    /** Lets the finalized commits at the front of the buffer go, with their rejected transactions, and
        removes their blocks from the graph, which holds the first `linked` commits. */
    method PopFinalizedCommits(ghost linked: nat, ghost checked: bool) returns (finalized: seq<FinalizedCommit>)
      requires Midway(Run(), pending, outputs, checked) && InOrder() && Holds(linked)
      modifies this`pending, this`blocks, this`outputs
      ensures Midway(Run(), pending, outputs, checked && finalized == []) && InOrder()
      ensures outputs == old(outputs) + finalized
      ensures |finalized| <= |old(pending)| && pending == old(pending)[|finalized|..]
      ensures Holds(if |finalized| <= linked then linked - |finalized| else 0)
      ensures pending != [] ==> !pending[0].IsFinalized()
    {
      hide Midway, Buffered, GraphOk, HoldsExactly, CommitsOf;
      finalized := [];
      while pending != []
        invariant Midway(Run(), pending, outputs, checked && finalized == []) && InOrder()
        invariant outputs == old(outputs) + finalized
        invariant |finalized| <= |old(pending)| && pending == old(pending)[|finalized|..]
        invariant Holds(if |finalized| <= linked then linked - |finalized| else 0)
        decreases |pending|
      {
        if !pending[0].IsFinalized() {
          break;
        }
        var cs := pending[0];
        ghost var left := if |finalized| <= linked then linked - |finalized| else 0;
        FirstHasBlocks(committee, pending);
        PopOne(Run(), pending, outputs, checked && finalized == []);
        PopHolds(committee, blocks, pending, left);
        finalized := finalized + [FinalizedCommit(cs.commit, cs.rejected)];
        outputs := outputs + [FinalizedCommit(cs.commit, cs.rejected)];
        pending := pending[1..];
        blocks := blocks - RefsOf(cs.commit.blocks);
      }
    }

    /** Links a block from those of its ancestors that are in the graph, and adds it. */
    method LinkBlock(b: Block)
      requires b.ref !in blocks
      modifies this`blocks
      ensures blocks == LinkedIn(old(blocks), b)
    {
      hide WithChild;
      WithoutChildren(blocks, b);
      for k := 0 to |b.ancestors|
        invariant blocks == WithChild(old(blocks), b, k)
      {
        var a := b.ancestors[k];
        OneMoreChild(old(blocks), b, k);
        if a in blocks {
          blocks := blocks[a := blocks[a].(children := blocks[a].children + {b.ref})];
        }
      }
      blocks := blocks[b.ref := BlockState(b, {}, {})];
    }

    /** Adds the blocks of the newest commit to the graph, in round order. */
    method LinkBlocksInLastCommit()
      requires InOrder() && pending != [] && Holds(|pending| - 1)
      modifies this`blocks
      ensures Partly(committee, blocks, RefsOf(pending[|pending| - 1].commit.blocks))
      ensures HoldsExactly(Bodies(blocks), CommitsOf(pending))
    {
      hide GraphOk, Partly, HoldsExactly, Stored, Buffered, Sorting.SortedBy, Sorting.StableSort, RefsOf, LinkedIn;
      var commit := pending[|pending| - 1].commit;
      var sorted := Sorting.SortByKey(commit.blocks, (b: Block) => b.ref.round);
      Sorting.SameElements(sorted, commit.blocks);
      RefsOfSame(sorted, commit.blocks);
      ghost var m := Bodies(blocks);
      PartlyNone(committee, blocks);
      NoRefs();
      AddsNothing(m);
      for i := 0 to |sorted|
        invariant Partly(committee, blocks, RefsOf(sorted[..i])) && Stored(m, Bodies(blocks), sorted[..i])
      {
        FreshBlock(committee, CommitsOf(pending), m, Bodies(blocks), sorted, i);
        LinkStep(committee, blocks, RefsOf(sorted[..i]), sorted[i]);
        BodiesLinked(blocks, sorted[i]);
        StoredOneMore(m, Bodies(blocks), sorted, i);
        LinkBlock(sorted[i]);
      }
      assert sorted[..|sorted|] == sorted;
      LastAdded(CommitsOf(pending), m, Bodies(blocks), sorted);
    }

    /** Records `y` as an origin descendant along its own chain, as far as that stays in the graph. */
    method AppendOrigins(y: BlockRef, ghost undone: set<BlockRef>)
      requires Partly(committee, blocks, undone) && y in undone && y in blocks
      modifies this`blocks
      ensures Partly(committee, blocks, undone - {y}) && Bodies(blocks) == old(Bodies(blocks))
    {
      hide Partly, Grounded, Onwards, Origins, WithOrigin, Bodies, CommitRules.OwnChain;
      ghost var g, m := blocks, Bodies(blocks);
      ProperOwn(committee, blocks, undone, y);
      OnwardsStep(m, y);
      ghost var marked := {};
      NothingMarked(blocks, y);
      var origin := blocks[y].block.ancestors[0];
      while origin.author == y.author && origin in blocks
        invariant blocks == WithOrigin(g, y, marked) && blocks.Keys == g.Keys
        invariant marked + Onwards(m, origin) == Origins(m, y) && marked !! Onwards(m, origin)
        invariant origin.author == y.author
        decreases origin.round
      {
        ProperOwn(committee, g, undone, origin);
        OnwardsStep(m, origin);
        MarkOne(g, y, marked, origin);
        var state := blocks[origin];
        blocks := blocks[origin := state.(originDescendants := state.originDescendants + {y})];
        marked := marked + {origin};
        origin := state.block.ancestors[0];
      }
      OutsideMap(g, origin);
      OnwardsStep(m, origin);
      BodiesMarked(g, y, marked);
      AppendStep(committee, g, undone, y);
    }

    /** Records the newest blocks as origin descendants of the earlier blocks they build on. */
    method AppendOriginDescendantsFromLastCommit()
      requires InOrder() && pending != []
      requires Partly(committee, blocks, RefsOf(pending[|pending| - 1].commit.blocks))
      requires HoldsExactly(Bodies(blocks), CommitsOf(pending))
      modifies this`blocks
      ensures Holds(|pending|)
    {
      hide Buffered, Partly, HoldsExactly, GraphOk, Bodies, Sorting.SortedBy, Sorting.StableSort;
      var commit := pending[|pending| - 1].commit;
      var sorted := Sorting.SortByKey(commit.blocks, (b: Block) => b.ref.round);
      Sorting.SameElements(sorted, commit.blocks);
      RefsOfSame(sorted, commit.blocks);
      SortedDistinct(committee, CommitsOf(pending), sorted);
      LastIsHeld(committee, blocks, CommitsOf(pending), sorted);
      NoRefs();
      assert RefsOf(sorted) - RefsOf(sorted[..0]) == RefsOf(commit.blocks);
      for i := 0 to |sorted|
        invariant Partly(committee, blocks, RefsOf(sorted) - RefsOf(sorted[..i]))
        invariant Bodies(blocks) == old(Bodies(blocks)) && blocks.Keys == old(blocks).Keys
      {
        NotYetDone(sorted, i);
        AppendOrigins(sorted[i].ref, RefsOf(sorted) - RefsOf(sorted[..i]));
        SameKeys(blocks, old(blocks));
      }
      assert sorted[..|sorted|] == sorted;
      assert RefsOf(sorted) - RefsOf(sorted) == {};
      PartlyNone(committee, blocks);
      assert CommitsOf(pending)[..|pending|] == CommitsOf(pending);
    }

    /** Rejects pending transactions of the first commit whose reject votes have reached a quorum since. */
    method CheckPendingTransactionsInFirstCommit(votes: Votes)
      requires pending != [] && pending[0].pendingBlocks == {} && Covers(votes, pending[0])
      requires NoEmpty(pending[0].pending) && NoEmpty(pending[0].rejected)
      modifies this`pending
      ensures OnlyFirst(old(pending), pending) && Covers(votes, pending[0])
      ensures Pairs(pending[0].pending) ==
              StillPending(old(Pairs(pending[0].pending)), votes, committee.QuorumThreshold())
      ensures Moved(old(Pairs(pending[0].pending)), old(Pairs(pending[0].rejected)), pending[0].pending,
                    pending[0].rejected)
    {
      hide Pairs, StillPending, Tagged, Without, Adding, RefsOf, ShortOf, Moved;
      var threshold := committee.QuorumThreshold();
      var before := pending[0].pending;
      ghost var all, gone := Pairs(pending[0].pending), Pairs(pending[0].rejected);
      var rest := before.Keys;
      PendingSplits(before, votes, threshold);
      NothingMoved(before, pending[0].rejected);
      while rest != {}
        invariant rest <= before.Keys && OnlyFirst(old(pending), pending)
        invariant Moved(all, gone, pending[0].pending, pending[0].rejected)
        invariant Pairs(pending[0].pending) == LateChecked(before, rest, votes, threshold)
        invariant forall b :: b in rest ==> b in pending[0].pending && pending[0].pending[b] == before[b]
        invariant forall b :: b in pending[0].pending ==> b in before && pending[0].pending[b] <= before[b]
      {
        var b := First(rest);
        var cs := pending[0];
        var over := cs.pending[b] - ShortOf(votes[b], threshold);
        LateStep(before, rest, votes, threshold, b, over);
        if over != {} {
          MoveSome(all, gone, cs.pending, cs.rejected, b, over);
          PairsWithout(cs.pending, b, over);
          WithoutOthers(cs.pending, b, over);
          pending := pending[0 := cs.(pending := Without(cs.pending, b, over),
                                      rejected := Adding(cs.rejected, b, over))];
        }
        rest := rest - {b};
      }
      AllChecked(before, votes, threshold);
    }

    /** Finalizes exactly the pending transactions of the first commit that a quorum accepts. */
    method TryIndirectFinalizePendingTransactionsInFirstCommit(ghost votes: Votes)
      requires Holds(|pending|) && pending != [] && pending[0].pending.Keys <= RefsOf(pending[0].commit.blocks)
      requires pending[0].pendingBlocks == {} && Covers(votes, pending[0]) && NoEmpty(pending[0].pending)
      modifies this`pending
      ensures OnlyFirst(old(pending), pending) && Covers(votes, pending[0]) && NoEmpty(pending[0].pending)
      ensures pending[0].rejected == old(pending)[0].rejected
      ensures Pairs(pending[0].pending) ==
              old(Pairs(pending[0].pending)) - AcceptedIn(committee, Bodies(blocks), old(Pairs(pending[0].pending)))
    {
      hide Pairs, AcceptedIn, Accepting, Tagged, Without, RefsOf, GraphOk, HoldsExactly, Grounded, Bodies;
      ghost var m := Bodies(blocks);
      GraphIsGrounded(committee, blocks);
      var before := pending[0].pending;
      PendingIsHeld(blocks, pending);
      var rest := before.Keys;
      NothingAccepted(committee, m, before);
      while rest != {}
        invariant rest <= before.Keys && OnlyFirst(old(pending), pending)
        invariant pending[0].rejected == old(pending)[0].rejected && NoEmpty(pending[0].pending)
        invariant Pairs(pending[0].pending) == Pairs(before) - AcceptedIn(committee, m, PairsExcept(before, rest))
        invariant forall b :: b in rest ==> b in pending[0].pending && pending[0].pending[b] == before[b]
        invariant forall b :: b in pending[0].pending ==> b in before && pending[0].pending[b] <= before[b]
      {
        var b := First(rest);
        var cs := pending[0];
        var accepted := TryIndirectFinalizePendingTransactionsInBlock(committee, blocks, b, cs.pending[b]);
        AcceptedStep(committee, m, before, rest, b, accepted);
        PairsWithout(cs.pending, b, accepted);
        WithoutOthers(cs.pending, b, accepted);
        pending := pending[0 := cs.(pending := Without(cs.pending, b, accepted))];
        rest := rest - {b};
      }
      AllExcept(before);
    }

    /** Rejects everything still pending in the first commit once the newest leader is deep enough. */
    method TryIndirectRejectPendingTransactionsInFirstCommit()
      requires pending != [] && pending[0].pendingBlocks == {}
      requires NoEmpty(pending[0].pending) && NoEmpty(pending[0].rejected)
      modifies this`pending
      ensures OnlyFirst(old(pending), pending) && FirstIsDeep(pending) == old(FirstIsDeep(pending))
      ensures if FirstIsDeep(pending) then pending[0].pending == map[] else pending == old(pending)
      ensures Moved(old(Pairs(pending[0].pending)), old(Pairs(pending[0].rejected)), pending[0].pending,
                    pending[0].rejected)
    {
      hide Pairs, Tagged, Without, Adding, RefsOf, Moved;
      ghost var all, gone := Pairs(pending[0].pending), Pairs(pending[0].rejected);
      NothingMoved(pending[0].pending, pending[0].rejected);
      if FirstIsDeep(pending) {
        ghost var last := pending[|pending| - 1].commit;
        while pending[0].pending != map[]
          invariant OnlyFirst(old(pending), pending) && pending[|pending| - 1].commit == last
          invariant Moved(all, gone, pending[0].pending, pending[0].rejected)
          decreases |pending[0].pending.Keys|
        {
          var cs := pending[0];
          var b := First(cs.pending.Keys);
          StillNoEmpty(all, gone, cs.pending, cs.rejected);
          MoveSome(all, gone, cs.pending, cs.rejected, b, cs.pending[b]);
          WithoutAll(cs.pending, b);
          ProperSubsetIsSmaller(cs.pending.Keys - {b}, cs.pending.Keys);
          pending := pending[0 := cs.(pending := Without(cs.pending, b, cs.pending[b]),
                                      rejected := Adding(cs.rejected, b, cs.pending[b]))];
        }
      }
    }

    /** Tries to settle the first commit from the commits after it: the check of the reference. */
    method TryIndirectFinalizeFirstCommit(votes: Votes, ghost t: Trace, ghost i: nat, ghost k: nat)
      requires Holds(|pending|) && pending != [] && Covers(votes, pending[0])
      requires Reflects(pending[0], Books(Pairs(pending[0].pending), Pairs(pending[0].rejected), {}))
      requires t.committee == committee && t.Has(k) && t.calls[k] == votes
      requires BufferedAt(t, i, k) == Bodies(blocks) && IsDeep(t, i, k) == FirstIsDeep(pending)
      modifies this`pending
      ensures OnlyFirst(old(pending), pending) && Covers(votes, pending[0])
      ensures Reflects(pending[0],
                       Checked(t, i, k, old(Books(Pairs(pending[0].pending), Pairs(pending[0].rejected), {}))))
    {
      hide Pairs, Covers, AcceptedIn, Bodies, StillPending, GraphOk, HoldsExactly, RefsOf, BufferedAt, IsDeep,
        CommitsOf, Checked, Moved;
      ghost var before := pending;
      CheckPendingTransactionsInFirstCommit(votes);
      SameCommits(before, pending);
      StillNoEmpty(Pairs(before[0].pending), Pairs(before[0].rejected), pending[0].pending, pending[0].rejected);
      ghost var p1 := pending;
      TryIndirectFinalizePendingTransactionsInFirstCommit(votes);
      SameCommits(p1, pending);
      ghost var p2 := pending;
      TryIndirectRejectPendingTransactionsInFirstCommit();
      SameCommits(p2, pending);
      NothingIsCovered(votes, pending[0]);
      ChecksCompose(t, i, k, before[0], p1[0], p2[0], pending[0]);
    }

    /** Puts the next commit at the end of the buffer; its blocks are not in the graph yet. In a run with
        strictly increasing leaders at most four commits are then in the buffer. */
    method PushCommit(commit: Commit, ghost votes: Votes)
      requires Valid() && Buffered(committee, CommitsOf(pending) + [commit])
      requires lastProcessed.Some? ==> commit.index == lastProcessed.value + 1
      modifies this`lastProcessed, this`pending, this`inputs, this`calls
      ensures pending == old(pending) + [NewCommit(commit)] && lastProcessed == Some(commit.index)
      ensures Begun(Run(), pending, outputs) && InOrder() && Holds(|pending| - 1)
      ensures inputs == old(inputs) + [commit] && calls == old(calls) + [votes]
      ensures Rising(inputs) ==> |pending| <= 4
    {
      hide AtRest, Begun, Buffered, GraphOk, HoldsExactly, NewCommit, Rising;
      BeginCall(Run(), pending, outputs, commit, votes);
      RisingPrefix(inputs, commit);
      AtMostThreePending(Run(), pending, outputs);
      PushHolds(pending, commit);
      lastProcessed := Some(commit.index);
      pending := pending + [NewCommit(commit)];
      inputs, calls := inputs + [commit], calls + [votes];
    }

    /** Direct finalization, and what it lets go. */
    method DirectPhase(votes: Votes) returns (finalized: seq<FinalizedCommit>)
      requires pending != [] && Begun(Run(), pending, outputs) && InOrder() && Holds(|pending| - 1)
      requires CoversAll(votes, pending) && calls[|calls| - 1] == votes
      modifies this`pending, this`blocks, this`outputs
      ensures Midway(Run(), pending, outputs, false) && InOrder() && CoversAll(votes, pending)
      ensures outputs == old(outputs) + finalized && (pending != [] ==> !pending[0].IsFinalized())
      ensures Holds(if pending == [] then 0 else |pending| - 1)
    {
      hide Midway, Begun, Buffered, GraphOk, HoldsExactly, Covers, CommitsOf, CommitState.IsFinalized;
      ghost var before := pending;
      DirectFinalization(votes);
      SameCommitsHold(before, pending);
      ghost var p := pending;
      finalized := PopFinalizedCommits(|pending| - 1, false);
      RestCovered(votes, p, |finalized|);
    }

    /** Buffers the next commit and returns the commits that are now finalized, in order. `votes` is the
        reject-vote information at this time. What is let go, when, and with which rejected transactions is
        what the reference says of the commits put in and the votes so far. Afterwards every buffered commit
        has a leader less than three rounds below the newest one. */
    method ProcessCommit(commit: Commit, votes: Votes) returns (finalized: seq<FinalizedCommit>)
      requires Valid() && Buffered(committee, CommitsOf(pending) + [commit])
      requires lastProcessed.Some? ==> commit.index == lastProcessed.value + 1
      requires CoversAll(votes, pending + [NewCommit(commit)])
      modifies this
      ensures Valid() && outputs == old(outputs) + finalized
      ensures inputs == old(inputs) + [commit] && calls == old(calls) + [votes]
      ensures forall i :: 0 <= i < |pending| ==> commit.leader.round < pending[i].commit.leader.round + 3
      ensures Rising(inputs) ==> |pending| <= 3
      ensures forall i :: 0 <= i < |pending| ==>
                (pending[i].pendingBlocks != {} <==>
                 exists j :: 0 <= j <= i && !pending[j].commit.decidedLocally
                   && commit.leader.round < pending[j].commit.leader.round + 3)
      ensures pending != [] ==> pending[0].pendingBlocks != {} || pending[0].pending != map[]
      ensures Grounded(Bodies(blocks))
      ensures |pending| > 1 && pending[0].pendingBlocks == {} ==>
                forall b, i :: b in pending[0].pending && i in pending[0].pending[b] ==>
                  && b in votes && i in votes[b] && 3 * votes[b][i] <= 2 * committee.TotalStake()
                  && !committee.IsQuorum(Accepting(Bodies(blocks), b, i))
      ensures old(pending) == [] && commit.decidedLocally
              && (forall b :: b in commit.blocks && b.ref in votes ==> votes[b.ref] == map[])
              ==> finalized == [FinalizedCommit(commit, map[])]
    {
      hide AtRest, Buffered, GraphOk, HoldsExactly, CoversAll, CommitsOf, Rising, Bodies, Grounded, Accepting,
        NewCommit;
      EmptyBefore(Run(), pending, outputs);
      finalized := RunPhases(commit, votes);
      AllShallow(Run(), pending, outputs);
      AtMostThreePending(Run(), pending, outputs);
      AfterCall(Run(), blocks, pending, outputs);
      RunOf(Run(), pending, outputs, old(outputs), finalized, commit, votes);
    }

    /** The phases of a call: buffer the commit, finalize directly, extend the graph, finalize indirectly. */
    method RunPhases(commit: Commit, votes: Votes) returns (finalized: seq<FinalizedCommit>)
      requires Valid() && Buffered(committee, CommitsOf(pending) + [commit])
      requires lastProcessed.Some? ==> commit.index == lastProcessed.value + 1
      requires CoversAll(votes, pending + [NewCommit(commit)])
      modifies this
      ensures Valid() && outputs == old(outputs) + finalized
      ensures inputs == old(inputs) + [commit] && calls == old(calls) + [votes]
    {
      hide AtRest, Begun, Midway, Buffered, GraphOk, HoldsExactly, CoversAll, CommitsOf, Rising;
      PushCommit(commit, votes);
      finalized := DirectPhase(votes);
      if pending != [] {
        LinkBlocksInLastCommit();
        AppendOriginDescendantsFromLastCommit();
        var more := IndirectFinalization(votes);
        assert old(outputs) + finalized + more == old(outputs) + (finalized + more);
        finalized := finalized + more;
      } else {
        EndCall(Run(), pending, outputs, false);
      }
    }

    /** Checks the first commit, and lets go what is finalized. */
    method SettleFirst(votes: Votes) returns (more: seq<FinalizedCommit>)
      requires Midway(Run(), pending, outputs, false) && InOrder() && Holds(|pending|)
      requires CoversAll(votes, pending) && calls[|calls| - 1] == votes
      requires |pending| > 1 && pending[0].pendingBlocks == {}
      modifies this`pending, this`blocks, this`outputs
      ensures Midway(Run(), pending, outputs, more == []) && InOrder() && Holds(|pending|)
      ensures CoversAll(votes, pending) && (pending != [] ==> !pending[0].IsFinalized())
      ensures outputs == old(outputs) + more && |more| + |pending| == |old(pending)|
    {
      hide Midway, Buffered, GraphOk, HoldsExactly, CoversAll, CommitsOf, Pairs, Reflects, Checked;
      ghost var before, t, i, k := pending, Run(), |outputs|, |inputs| - 1;
      OneCovered(votes, pending, 0);
      FirstHasBlocks(committee, pending);
      FirstReflects(t, pending, outputs);
      BufferIsReference(t, blocks, pending, outputs);
      TryIndirectFinalizeFirstCommit(votes, t, i, k);
      SameCommits(before, pending);
      FirstChanged(votes, before, pending);
      CheckedMidway(t, before, pending, outputs);
      ghost var p := pending;
      more := PopFinalizedCommits(|pending|, true);
      RestCovered(votes, p, |more|);
    }

    /** Settles a prefix of the buffered commits from the commits after them. The newest commit alone
        has none after it. */
    method IndirectFinalization(votes: Votes) returns (finalized: seq<FinalizedCommit>)
      requires Midway(Run(), pending, outputs, false) && InOrder() && Holds(|pending|)
      requires CoversAll(votes, pending) && calls[|calls| - 1] == votes
      requires pending != [] ==> !pending[0].IsFinalized()
      modifies this`pending, this`blocks, this`outputs
      ensures AtRest(Run(), pending, outputs) && InOrder() && Holds(|pending|) && outputs == old(outputs) + finalized
    {
      hide Midway, AtRest, InOrder, Holds, CoversAll, CommitState.IsFinalized;
      finalized := [];
      while |pending| > 1
        invariant Midway(Run(), pending, outputs, false) && InOrder() && Holds(|pending|) && CoversAll(votes, pending)
        invariant pending != [] ==> !pending[0].IsFinalized()
        invariant outputs == old(outputs) + finalized
        decreases |pending|
      {
        if pending[0].pendingBlocks != {} {
          break;
        }
        var more := SettleFirst(votes);
        assert old(outputs) + finalized + more == old(outputs) + (finalized + more);
        finalized := finalized + more;
        if more == [] {
          EndCall(Run(), pending, outputs, true);
          return;
        }
      }
      EndCall(Run(), pending, outputs, false);
    }
  }

  lemma FirstMayBeDirect(t: Trace, outputs: seq<FinalizedCommit>)
    requires AllLetGo(t, |t.inputs|, outputs)
    ensures outputs == [] || DirectCall(t, |outputs| - 1, |t.inputs|) < |t.inputs|
  {
    hide DirectCall, ExitCall;
    if outputs != [] {
      assert LetGo(t, |outputs| - 1, |t.inputs|, outputs[|outputs| - 1]);
      ExitInOrder(t, |outputs| - 1, |t.inputs|);
    }
  }

  lemma BlocksOfCommit(c: Committee, commits: seq<Commit>, i: nat)
    requires Buffered(c, commits) && i < |commits|
    ensures RefsOf(commits[i].blocks) != {}
  {
    assert ProperCommit(c, commits[i]);
    assert commits[i].blocks[0].ref in RefsOf(commits[i].blocks);
  }

  lemma FirstHasBlocks(c: Committee, pending: seq<CommitState>)
    requires Buffered(c, CommitsOf(pending)) && pending != []
    ensures RefsOf(pending[0].commit.blocks) != {}
  {
    BlocksOfCommit(c, CommitsOf(pending), 0);
  }

  lemma CommitIs(t: Trace, i: nat, n: nat, cs: CommitState)
    requires StatusAt(t, i, n, cs)
    ensures i < |t.inputs| && cs.commit == t.inputs[i]
  {
  }

  lemma NewestIs(t: Trace, pending: seq<CommitState>, outputs: seq<FinalizedCommit>)
    requires Begun(t, pending, outputs) && pending != []
    ensures CommitsOf(pending)[|pending| - 1] == t.inputs[|t.inputs| - 1]
  {
    hide DirectCall, ExitCall, BooksAt, AllLetGo;
    assert StatusAt(t, |outputs| + (|pending| - 1), |t.inputs| - 1, pending[|pending| - 1]);
  }

  /** A commit with blocks pending is as it was put in. */
  lemma IsNew(t: Trace, i: nat, n: nat, cs: CommitState)
    requires StatusAt(t, i, n, cs) && cs.pendingBlocks != {}
    ensures DirectCall(t, i, n) == n && cs == NewCommit(cs.commit)
  {
    hide DirectCall, BooksAt, NewCommit;
  }

  lemma FirstReflects(t: Trace, pending: seq<CommitState>, outputs: seq<FinalizedCommit>)
    requires Midway(t, pending, outputs, false) && pending != [] && pending[0].pendingBlocks == {}
    requires RefsOf(pending[0].commit.blocks) != {}
    ensures Reflects(pending[0], Books(Pairs(pending[0].pending), Pairs(pending[0].rejected), {}))
  {
    hide DirectCall, ExitCall, BooksDuring, Pairs, RefsOf, AllLetGo;
  }

  /** The buffered commits are the last ones put in. */
  lemma BufferIsSuffix(t: Trace, pending: seq<CommitState>, outputs: seq<FinalizedCommit>)
    requires Midway(t, pending, outputs, false) || AtRest(t, pending, outputs)
    ensures CommitsOf(pending) == t.inputs[|outputs|..]
  {
    hide DirectCall, ExitCall, BooksDuring, BooksAt, Reflects, AllLetGo;
  }

  lemma BufferIsReference(t: Trace, g: Graph, pending: seq<CommitState>, outputs: seq<FinalizedCommit>)
    requires Midway(t, pending, outputs, false) && pending != [] && Buffered(t.committee, CommitsOf(pending))
    requires HoldsExactly(Bodies(g), CommitsOf(pending)[..|pending|])
    ensures var i, k := |outputs|, |t.inputs| - 1;
            |t.calls| == |t.inputs| && t.Has(k) && i <= k && BufferedAt(t, i, k) == Bodies(g) &&
              IsDeep(t, i, k) == FirstIsDeep(pending)
  {
    BufferIsSuffix(t, pending, outputs);
    hide Midway, Buffered, HoldsExactly, Bodies, BufferedAt;
    var i, k := |outputs|, |t.inputs| - 1;
    assert CommitsOf(pending)[..|pending|] == CommitsOf(pending) == t.inputs[i..k + 1];
    assert CommitsOf(pending)[0] == t.inputs[i] && CommitsOf(pending)[|pending| - 1] == t.inputs[k];
    BufferedIsHeld(t, Bodies(g), i, k);
  }

  lemma CheckedMidway(t: Trace, before: seq<CommitState>, after: seq<CommitState>, outputs: seq<FinalizedCommit>)
    requires Midway(t, before, outputs, false) && |before| > 1 && before[0].pendingBlocks == {}
    requires RefsOf(before[0].commit.blocks) != {} && OnlyFirst(before, after)
    requires Reflects(after[0],
                      Checked(t, |outputs|, |t.inputs| - 1,
                              Books(Pairs(before[0].pending), Pairs(before[0].rejected), {})))
    ensures Midway(t, after, outputs, true)
  {
    hide StatusAt, StatusDuring, LetGo, ExitCall, RefsOf, Reflects, Pairs, Checked;
    var i, n := |outputs|, |t.inputs| - 1;
    assert PriorExit(t, i, n + 1) <= n by {
      if i > 0 {
        GoneBefore(t, i - 1, n + 1, outputs[i - 1]);
      }
    }
    CheckedStatus(t, i, n, before[0], after[0]);
  }

  lemma SameCommits(before: seq<CommitState>, after: seq<CommitState>)
    requires OnlyFirst(before, after)
    ensures CommitsOf(after) == CommitsOf(before) && FirstIsDeep(after) == FirstIsDeep(before)
  {
  }

  lemma StillNoEmpty(pending: set<Transaction>, rejected: set<Transaction>, pending': Transactions,
                     rejected': Transactions)
    requires Moved(pending, rejected, pending', rejected')
    ensures NoEmpty(pending') && NoEmpty(rejected')
  {
  }

  /** All commits in the buffer after a call have a leader less than three rounds below the newest one. */
  lemma AllShallow(t: Trace, pending: seq<CommitState>, outputs: seq<FinalizedCommit>)
    requires AtRest(t, pending, outputs) && Buffered(t.committee, CommitsOf(pending)) && t.inputs != []
    ensures forall j :: 0 <= j < |pending| ==>
              t.inputs[|t.inputs| - 1].leader.round < pending[j].commit.leader.round + INDIRECT_REJECT_DEPTH
  {
    hide StatusAt, LetGo, ExitCall, Buffered;
    if pending != [] {
      var i, n := |outputs|, |t.inputs| - 1;
      assert PriorExit(t, i, n + 1) <= n by {
        if i > 0 {
          GoneBefore(t, i - 1, n + 1, outputs[i - 1]);
        }
      }
      BacklogIsShallow(t, i, n);
      BufferIsSuffix(t, pending, outputs);
      hide AtRest;
      assert CommitsOf(pending)[0] == t.inputs[i];
      LeadersFrom(t.committee, pending);
    }
  }

  lemma AtMostThreePending(t: Trace, pending: seq<CommitState>, outputs: seq<FinalizedCommit>)
    requires AtRest(t, pending, outputs) && Buffered(t.committee, CommitsOf(pending))
    ensures Rising(t.inputs) ==> |pending| <= 3
  {
    hide StatusAt, AllLetGo, ExitCall, Buffered;
    if Rising(t.inputs) && t.inputs != [] {
      AllShallow(t, pending, outputs);
      BufferIsSuffix(t, pending, outputs);
      AtMostThreeBuffered(t.inputs[|outputs|..], t.inputs[|t.inputs| - 1].leader.round);
    }
  }

  /** Exactly why a transaction goes out as rejected: it had reject votes when its commit was directly
      finalized, and they were a quorum then, or the first check that settled it found a quorum of them or a
      deep leader without an accepting quorum. Every other transaction with reject votes was finalized by a
      check that found an accepting quorum. */
  lemma WhyLetGo(t: Trace, pending: seq<CommitState>, outputs: seq<FinalizedCommit>, j: nat, x: Transaction)
    requires AtRest(t, pending, outputs) && j < |outputs|
    ensures var n, d := |t.inputs|, DirectCall(t, j, |t.inputs|);
            && j <= d <= ExitCall(t, j, n) < n
            && var voted := x.0 in RefsOf(t.inputs[j].blocks) && x.0 in t.calls[d] && x.1 in t.calls[d][x.0];
               var short := VotesShort(t.calls[d], x, t.committee.TotalStake());
               var from := ChecksFrom(t, j, n);
               && (x in Pairs(outputs[j].rejected) <==> voted && (!short || EverRejected(t, j, from, n, x)))
               && (voted && x !in Pairs(outputs[j].rejected) ==> short && EverFinalized(t, j, from, n, x))
  {
    hide DirectCall, ExitCall, CheckedFrom, EverRejected, EverFinalized, ChecksFrom, VotedIn, RefsOf, Pairs, VotesShort,
      DirectBooks, StatusAt;
    var n := |t.inputs|;
    assert LetGo(t, j, n, outputs[j]);
    ExitInOrder(t, j, n);
    ExitMeans(t, j, n);
    DirectInOrder(t, j, n);
    BooksPartition(t, j, n);
    VotedMeans(RefsOf(t.inputs[j].blocks), t.calls[DirectCall(t, j, n)], x);
    if x in VotedIn(RefsOf(t.inputs[j].blocks), t.calls[DirectCall(t, j, n)]) {
      WhySettled(t, j, n, x);
    }
  }

  lemma VotedMeans(blocks: set<BlockRef>, votes: Votes, x: Transaction)
    ensures x in VotedIn(blocks, votes) <==> x.0 in blocks && x.0 in votes && x.1 in votes[x.0]
  {
    assert x == (x.0, x.1);
  }

  lemma PriorGone(t: Trace, outputs: seq<FinalizedCommit>, n: nat)
    requires AllLetGo(t, n, outputs)
    ensures outputs != [] ==> ExitCall(t, |outputs| - 1, n) < n && DirectCall(t, |outputs| - 1, n) < n
    ensures n > 0 ==> PriorExit(t, |outputs|, n) < n
  {
    hide DirectCall, ExitCall;
    if outputs != [] {
      GoneBefore(t, |outputs| - 1, n, outputs[|outputs| - 1]);
      ExitInOrder(t, |outputs| - 1, n);
    }
  }

  /** Which buffered commits still wait for direct finalization after a call. */
  lemma StillWaiting(t: Trace, pending: seq<CommitState>, outputs: seq<FinalizedCommit>, i: nat)
    requires AtRest(t, pending, outputs) && Buffered(t.committee, CommitsOf(pending)) && i < |pending|
    ensures pending[i].pendingBlocks != {} <==>
            exists j :: 0 <= j <= i && !pending[j].commit.decidedLocally
              && t.inputs[|t.inputs| - 1].leader.round < pending[j].commit.leader.round + 3
  {
    hide DirectCall, ExitCall, StatusAt, AllLetGo, Buffered, RefsOf;
    var base, n := |outputs|, |t.inputs| - 1;
    assert StatusAt(t, base + i, n + 1, pending[i]);
    BlocksOfCommit(t.committee, CommitsOf(pending), i);
    WaitsIff(t, base + i, n, pending[i]);
    PriorGone(t, outputs, n + 1);
    InputsRise(t, pending, outputs);
    hide AtRest;
    DirectUnless(t, base, base + i, n);
    if j :| base <= j <= base + i && !t.inputs[j].decidedLocally
            && t.inputs[n].leader.round < t.inputs[j].leader.round + 3 {
      assert pending[j - base].commit == t.inputs[j];
    }
  }

  lemma InputsRise(t: Trace, pending: seq<CommitState>, outputs: seq<FinalizedCommit>)
    requires AtRest(t, pending, outputs) && Buffered(t.committee, CommitsOf(pending))
    ensures forall j :: 0 <= j < |pending| ==> pending[j].commit == t.inputs[|outputs| + j]
    ensures forall j, k :: |outputs| <= j <= k < |t.inputs| ==> t.inputs[j].leader.round <= t.inputs[k].leader.round
  {
    BufferIsSuffix(t, pending, outputs);
    hide Buffered, StatusAt, AllLetGo, ExitCall;
    var base, commits := |outputs|, CommitsOf(pending);
    forall j | 0 <= j < |pending|
      ensures pending[j].commit == t.inputs[base + j]
    {
      assert commits[j] == t.inputs[base..][j];
    }
    forall j, k | base <= j <= k < |t.inputs|
      ensures t.inputs[j].leader.round <= t.inputs[k].leader.round
    {
      assert commits[j - base] == t.inputs[j] && commits[k - base] == t.inputs[k];
      LaterLeaders(t.committee, commits, j - base);
    }
  }

  lemma WaitsIff(t: Trace, i: nat, n: nat, cs: CommitState)
    requires StatusAt(t, i, n + 1, cs) && RefsOf(cs.commit.blocks) != {}
    ensures cs.pendingBlocks != {} <==> DirectCall(t, i, n + 1) > n
  {
    hide DirectCall, BooksAt;
  }

  /** What is pending in the first commit after a call is really open: its reject votes are no quorum, and no
      quorum of the buffered blocks accepts it. */
  lemma StillOpen(t: Trace, g: Graph, pending: seq<CommitState>, outputs: seq<FinalizedCommit>, b: BlockRef, i: nat)
    requires AtRest(t, pending, outputs) && Buffered(t.committee, CommitsOf(pending)) && |pending| > 1
    requires HoldsExactly(Bodies(g), CommitsOf(pending)[..|pending|]) && pending[0].pendingBlocks == {}
    requires b in pending[0].pending && i in pending[0].pending[b] && Grounded(Bodies(g))
    ensures var votes := t.calls[|t.calls| - 1];
            && b in votes && i in votes[b] && 3 * votes[b][i] <= 2 * t.committee.TotalStake()
            && !t.committee.IsQuorum(Accepting(Bodies(g), b, i))
  {
    hide DirectCall, ExitCall, StatusAt, AllLetGo, Buffered, RefsOf, HoldsExactly, Bodies, Grounded, Accepting;
    var base, n := |outputs|, |t.inputs| - 1;
    assert StatusAt(t, base, n + 1, pending[0]) && |t.calls| == |t.inputs|;
    FirstHasBlocks(t.committee, pending);
    PriorGone(t, outputs, n + 1);
    BufferIsSuffix(t, pending, outputs);
    assert CommitsOf(pending)[..|pending|] == CommitsOf(pending) == t.inputs[base..n + 1];
    BufferedIsHeld(t, Bodies(g), base, n);
    hide AtRest, BufferedAt;
    OpenAfterCheck(t, base, n, pending[0], (b, i));
    ShortIs(t.committee, t.calls[n], (b, i));
  }

  lemma OpenAfterCheck(t: Trace, i: nat, n: nat, cs: CommitState, x: Transaction)
    requires StatusAt(t, i, n + 1, cs) && cs.pendingBlocks == {} && RefsOf(cs.commit.blocks) != {}
    requires i < n && t.Has(n) && PriorExit(t, i, n + 1) <= n && x.0 in cs.pending && x.1 in cs.pending[x.0]
    ensures IsShort(t.calls[n], x, t.committee.QuorumThreshold()) && !IsAccepted(t.committee, BufferedAt(t, i, n), x)
  {
    hide DirectCall, ExitCall, CheckedFrom, DirectBooks, RefsOf, IsShort, IsAccepted, BufferedAt;
    assert x == (x.0, x.1) && x in Pairs(cs.pending);
    BooksStep(t, i, n);
  }

  /** A locally decided commit without reject votes that comes to an empty buffer leaves at once. */
  lemma LeavesAtOnce(t: Trace, pending: seq<CommitState>, outputs: seq<FinalizedCommit>)
    requires AtRest(t, pending, outputs) && t.inputs != [] && |outputs| >= |t.inputs| - 1
    requires t.inputs[|t.inputs| - 1].decidedLocally
    requires VotedIn(RefsOf(t.inputs[|t.inputs| - 1].blocks), t.calls[|t.calls| - 1]) == {}
    ensures pending == [] && outputs[|t.inputs| - 1] == FinalizedCommit(t.inputs[|t.inputs| - 1], map[])
  {
    var n := |t.inputs| - 1;
    assert n > 0 ==> LetGo(t, n - 1, n + 1, outputs[n - 1]);
    hide AllLetGo, StatusAt, ExitCall, DirectCall;
    if n > 0 {
      GoneBefore(t, n - 1, n + 1, outputs[n - 1]);
      ExitInOrder(t, n - 1, n + 1);
    }
    NoBooks(t, n);
    assert |outputs| == n + 1;
    assert LetGo(t, n, n + 1, outputs[n]) by {
      assert AllLetGo(t, n + 1, outputs);
      LetGoAt(t, n + 1, outputs, n);
    }
    NothingIn(outputs[n].rejected);
  }

  lemma LetGoAt(t: Trace, n: nat, outputs: seq<FinalizedCommit>, j: nat)
    requires AllLetGo(t, n, outputs) && j < |outputs|
    ensures LetGo(t, j, n, outputs[j])
  {
  }

  lemma NothingIn(transactions: Transactions)
    requires Pairs(transactions) == {} && NoEmpty(transactions)
    ensures transactions == map[]
  {
    if transactions != map[] {
      SomePending(transactions);
    }
  }

  lemma NoBooks(t: Trace, n: nat)
    requires t.Has(n) && t.inputs[n].decidedLocally && (n == 0 || DirectCall(t, n - 1, n + 1) <= n)
    requires PriorExit(t, n, n + 1) <= n
    requires VotedIn(RefsOf(t.inputs[n].blocks), t.calls[n]) == {}
    ensures ExitCall(t, n, n + 1) == n && BooksAt(t, n, n + 1) == Books({}, {}, {})
  {
    var blocks := RefsOf(t.inputs[n].blocks);
    assert Undecided(blocks, t.calls[n], t.committee.QuorumThreshold()) <= VotedIn(blocks, t.calls[n]);
    hide ExitCall, DirectCall, VotedIn, Undecided, RefsOf;
    DirectInOrder(t, n, n);
    DirectStep(t, n, n);
    LastExit(t, n);
    BooksStep(t, n, n);
    BooksNew(t, n, n);
    ExitStep(t, n, n);
  }

  /** The state after a call, in terms of the buffer alone. */
  lemma AfterCall(t: Trace, g: Graph, pending: seq<CommitState>, outputs: seq<FinalizedCommit>)
    requires AtRest(t, pending, outputs) && Buffered(t.committee, CommitsOf(pending)) && t.inputs != []
    requires GraphOk(t.committee, g) && HoldsExactly(Bodies(g), CommitsOf(pending)[..|pending|])
    ensures forall i :: 0 <= i < |pending| ==>
              (pending[i].pendingBlocks != {} <==>
               exists j :: 0 <= j <= i && !pending[j].commit.decidedLocally
                 && t.inputs[|t.inputs| - 1].leader.round < pending[j].commit.leader.round + 3)
    ensures pending != [] ==> pending[0].pendingBlocks != {} || pending[0].pending != map[]
    ensures Grounded(Bodies(g)) && |t.calls| == |t.inputs|
    ensures |pending| > 1 && pending[0].pendingBlocks == {} ==>
              var votes := t.calls[|t.calls| - 1];
              forall b, i :: b in pending[0].pending && i in pending[0].pending[b] ==>
                && b in votes && i in votes[b] && 3 * votes[b][i] <= 2 * t.committee.TotalStake()
                && !t.committee.IsQuorum(Accepting(Bodies(g), b, i))
  {
    GraphIsGrounded(t.committee, g);
    assert |t.calls| == |t.inputs|;
    hide AtRest, Buffered, GraphOk, HoldsExactly, Grounded, CommitsOf;
    forall i | 0 <= i < |pending|
      ensures pending[i].pendingBlocks != {} <==>
              exists j :: 0 <= j <= i && !pending[j].commit.decidedLocally
                && t.inputs[|t.inputs| - 1].leader.round < pending[j].commit.leader.round + 3
    {
      StillWaiting(t, pending, outputs, i);
    }
    if pending != [] {
      FrontStays(t, pending, outputs);
    }
    if |pending| > 1 && pending[0].pendingBlocks == {} {
      forall b, i | b in pending[0].pending && i in pending[0].pending[b]
        ensures var votes := t.calls[|t.calls| - 1];
                && b in votes && i in votes[b] && 3 * votes[b][i] <= 2 * t.committee.TotalStake()
                && !t.committee.IsQuorum(Accepting(Bodies(g), b, i))
      {
        StillOpen(t, g, pending, outputs, b, i);
      }
    }
  }

  /** The first commit in the buffer is not settled. */
  lemma FrontStays(t: Trace, pending: seq<CommitState>, outputs: seq<FinalizedCommit>)
    requires AtRest(t, pending, outputs) && Buffered(t.committee, CommitsOf(pending)) && pending != []
    ensures !pending[0].IsFinalized()
  {
    var i, n := |outputs|, |t.inputs| - 1;
    assert StatusAt(t, i, n + 1, pending[0]);
    FirstHasBlocks(t.committee, pending);
    PriorGone(t, outputs, n + 1);
    hide Buffered, StatusAt, ExitCall;
    if pending[0].IsFinalized() {
      SettledLeaves(t, i, n, pending[0]);
    }
  }

  lemma SettledLeaves(t: Trace, i: nat, n: nat, cs: CommitState)
    requires StatusAt(t, i, n + 1, cs) && cs.IsFinalized() && RefsOf(cs.commit.blocks) != {}
    requires i <= n && PriorExit(t, i, n + 1) <= n
    ensures ExitCall(t, i, n + 1) <= n
  {
    NoPairs(map[], 0);
    hide Pairs, DirectCall, ExitCall, CheckedFrom, DirectBooks, RefsOf;
    ExitStep(t, i, n);
  }

  lemma EmptyBefore(t: Trace, pending: seq<CommitState>, outputs: seq<FinalizedCommit>)
    requires AtRest(t, pending, outputs)
    ensures pending == [] <==> |outputs| == |t.inputs|
  {
  }

  /** What a call returns when the buffer was empty. */
  lemma RunOf(t: Trace, pending: seq<CommitState>, outputs: seq<FinalizedCommit>, before: seq<FinalizedCommit>,
              finalized: seq<FinalizedCommit>, commit: Commit, votes: Votes)
    requires AtRest(t, pending, outputs) && outputs == before + finalized && t.inputs != [] && t.calls != []
    requires t.inputs[|t.inputs| - 1] == commit && t.calls[|t.calls| - 1] == votes
    ensures |before| == |t.inputs| - 1 && commit.decidedLocally
            && (forall b :: b in commit.blocks && b.ref in votes ==> votes[b.ref] == map[])
            ==> finalized == [FinalizedCommit(commit, map[])]
  {
    if |before| == |t.inputs| - 1 && commit.decidedLocally
       && forall b :: b in commit.blocks && b.ref in votes ==> votes[b.ref] == map[] {
      forall r, i | (r, i) in VotedIn(RefsOf(commit.blocks), votes)
        ensures false
      {
        var b := RefIsInBlocks(commit.blocks, r);
      }
      LeavesAtOnce(t, pending, outputs);
    }
  }

  lemma RisingPrefix(commits: seq<Commit>, commit: Commit)
    ensures Rising(commits + [commit]) ==> Rising(commits)
  {
    if Rising(commits + [commit]) {
      forall i, j | 0 <= i < j < |commits|
        ensures commits[i].leader.round < commits[j].leader.round
      {
        assert (commits + [commit])[i] == commits[i] && (commits + [commit])[j] == commits[j];
      }
    }
  }

  lemma OneCovered(votes: Votes, pending: seq<CommitState>, k: nat)
    requires CoversAll(votes, pending) && k < |pending|
    ensures Covers(votes, pending[k])
  {
  }

  lemma OneChanged(votes: Votes, before: seq<CommitState>, after: seq<CommitState>, k: nat)
    requires CoversAll(votes, before) && k < |before| == |after| && after == before[k := after[k]]
    requires after[k].commit == before[k].commit && Covers(votes, after[k])
    ensures CoversAll(votes, after) && CommitsOf(after) == CommitsOf(before)
  {
  }

  /** A change of the first commit that keeps it covered keeps the buffer covered. */
  lemma FirstChanged(votes: Votes, before: seq<CommitState>, after: seq<CommitState>)
    requires CoversAll(votes, before) && OnlyFirst(before, after) && Covers(votes, after[0])
    ensures CoversAll(votes, after)
  {
  }

  lemma LaterLeaders(c: Committee, commits: seq<Commit>, k: nat)
    requires Buffered(c, commits) && k < |commits|
    ensures forall j :: k <= j < |commits| ==> commits[k].leader.round <= commits[j].leader.round
  {
    forall j | k < j < |commits|
      ensures commits[k].leader.round <= commits[j].leader.round
    {
      assert Follows(commits[k], commits[j]);
    }
  }

  lemma LeadersFrom(c: Committee, pending: seq<CommitState>)
    requires Buffered(c, CommitsOf(pending)) && pending != []
    ensures forall j :: 0 <= j < |pending| ==> pending[0].commit.leader.round <= pending[j].commit.leader.round
  {
    LaterLeaders(c, CommitsOf(pending), 0);
    assert forall j :: 0 <= j < |pending| ==> CommitsOf(pending)[j] == pending[j].commit;
  }

  lemma BufferedPart(c: Committee, commits: seq<Commit>, i: nat, j: nat)
    requires Buffered(c, commits) && i <= j <= |commits|
    ensures Buffered(c, commits[i..j])
  {
  }

  lemma PopHolds(c: Committee, g: Graph, pending: seq<CommitState>, n: nat)
    requires Buffered(c, CommitsOf(pending)) && pending != [] && n <= |pending|
    requires GraphOk(c, g) && HoldsExactly(Bodies(g), CommitsOf(pending)[..n])
    ensures Buffered(c, CommitsOf(pending[1..]))
    ensures var g' := g - RefsOf(pending[0].commit.blocks);
            GraphOk(c, g') && HoldsExactly(Bodies(g'), CommitsOf(pending[1..])[..if n == 0 then 0 else n - 1])
  {
    hide GraphOk, Buffered, HoldsExactly;
    var commits := CommitsOf(pending);
    BufferedPart(c, commits, 1, |commits|);
    assert commits[1..|commits|] == CommitsOf(pending[1..]);
    if n == 0 {
      HoldsNothing(g, commits);
      assert g - RefsOf(pending[0].commit.blocks) == g;
      assert commits[..0] == CommitsOf(pending[1..])[..0];
    } else {
      BufferedPart(c, commits, 0, n);
      assert commits[0..n] == commits[..n];
      PopKeepsGraph(c, g, commits[..n]);
      assert commits[..n][1..] == CommitsOf(pending[1..])[..n - 1];
    }
  }

  lemma HoldsNothing(g: Graph, commits: seq<Commit>)
    requires HoldsExactly(Bodies(g), commits[..0])
    ensures g == map[]
  {
    forall r
      ensures r !in g
    {
      assert r in g ==> r in Bodies(g);
    }
  }

  lemma WithoutChildren(g: Graph, b: Block)
    ensures WithChild(g, b, 0) == g
  {
  }

  lemma OneMoreChild(g: Graph, b: Block, k: nat)
    requires k < |b.ancestors|
    ensures var g', a := WithChild(g, b, k), b.ancestors[k];
            WithChild(g, b, k + 1) == if a in g' then g'[a := g'[a].(children := g'[a].children + {b.ref})] else g'
  {
    assert b.ancestors[..k + 1] == b.ancestors[..k] + [b.ancestors[k]];
    var g', g'', a := WithChild(g, b, k), WithChild(g, b, k + 1), b.ancestors[k];
    forall x | x in g
      ensures g''[x] == if x == a then g'[x].(children := g'[x].children + {b.ref}) else g'[x]
    {
    }
  }

  lemma AddsNothing(m: BlockMap)
    ensures Stored(m, m, [])
  {
  }

  lemma StoredOneMore(m: BlockMap, m': BlockMap, blocks: seq<Block>, i: nat)
    requires i < |blocks| && Stored(m, m', blocks[..i]) && blocks[i].ref !in m'
    ensures Stored(m, m'[blocks[i].ref := blocks[i]], blocks[..i + 1])
    ensures RefsOf(blocks[..i + 1]) == RefsOf(blocks[..i]) + {blocks[i].ref}
  {
    assert blocks[..i + 1] == blocks[..i] + [blocks[i]];
    RefsOfAppend(blocks[..i], blocks[i]);
  }

  /** The next block of the newest commit, in round order, is new, and nothing links to it yet. */
  lemma FreshBlock(c: Committee, commits: seq<Commit>, m0: BlockMap, m: BlockMap, sorted: seq<Block>, i: nat)
    requires Buffered(c, commits) && commits != [] && HoldsExactly(m0, commits[..|commits| - 1]) && i < |sorted|
    requires forall b :: b in sorted <==> b in commits[|commits| - 1].blocks
    requires multiset(sorted) == multiset(commits[|commits| - 1].blocks)
    requires Sorting.SortedBy(sorted, (b: Block) => b.ref.round)
    requires Stored(m0, m, sorted[..i])
    ensures ProperBlock(c, sorted[i]) && sorted[i].ref !in m && forall z :: !LinksTo(m, z, sorted[i].ref)
  {
    hide ProperBlock, HoldsExactly, InSome, Sorting.SortedBy, Sorting.StableSort;
    var last := commits[|commits| - 1];
    var r := sorted[i].ref;
    assert sorted[i] in sorted && ProperCommit(c, last);
    SortedDistinct(c, commits, sorted);
    RefListed(last.blocks, sorted[i]);
    if r in m {
      if r in m0 {
        EarlierBlock(c, commits, m0, r);
      }
      assert false;
    }
    forall z
      ensures !LinksTo(m, z, r)
    {
      if LinksTo(m, z, r) {
        if z in m0 {
          EarlierBlock(c, commits, m0, z);
        } else {
          SortedLinksDown(c, last, sorted, i, m, z);
        }
      }
    }
  }

  lemma RefListed(blocks: seq<Block>, b: Block)
    requires b in blocks
    ensures b.ref in RefsOf(blocks)
  {
    var k :| 0 <= k < |blocks| && blocks[k] == b;
  }

  /** A block of an earlier commit is not in the newest one, and links to nothing in it. */
  lemma EarlierBlock(c: Committee, commits: seq<Commit>, m0: BlockMap, z: BlockRef)
    requires Buffered(c, commits) && commits != [] && HoldsExactly(m0, commits[..|commits| - 1]) && z in m0
    ensures z !in RefsOf(commits[|commits| - 1].blocks)
    ensures forall a :: a in m0[z].ancestors ==> a !in RefsOf(commits[|commits| - 1].blocks)
  {
    var earlier := commits[..|commits| - 1];
    assert InSome(earlier, z);
    var k :| 0 <= k < |earlier| && z in RefsOf(earlier[k].blocks);
    assert Follows(commits[k], commits[|commits| - 1]);
    var b := RefIsInBlocks(earlier[k].blocks, z);
    assert m0[b.ref] == b;
  }

  /** In round order, no block links to itself or a later one. */
  lemma SortedLinksDown(c: Committee, last: Commit, sorted: seq<Block>, i: nat, m: BlockMap, z: BlockRef)
    requires ProperCommit(c, last) && i < |sorted| && forall b :: b in sorted <==> b in last.blocks
    requires Sorting.SortedBy(sorted, (b: Block) => b.ref.round)
    requires z in m && z in RefsOf(sorted[..i])
    requires forall k :: 0 <= k < i ==> sorted[k].ref in m && m[sorted[k].ref] == sorted[k]
    ensures sorted[i].ref !in m[z].ancestors
  {
    var k :| 0 <= k < i && sorted[..i][k].ref == z;
    var key := (b: Block) => b.ref.round;
    assert key(sorted[k]) <= key(sorted[i]);
    assert sorted[k] in last.blocks;
    assert LowerRounds(sorted[k]);
  }

  lemma SortedDistinct(c: Committee, commits: seq<Commit>, sorted: seq<Block>)
    requires Buffered(c, commits) && commits != []
    requires multiset(sorted) == multiset(commits[|commits| - 1].blocks)
    ensures DistinctRefs(sorted)
  {
    var blocks := commits[|commits| - 1].blocks;
    assert ProperCommit(c, commits[|commits| - 1]);
    DistinctRefsPermuted(blocks, sorted);
  }

  lemma DistinctRefsPermuted(a: seq<Block>, b: seq<Block>)
    requires DistinctRefs(a) && multiset(a) == multiset(b)
    ensures DistinctRefs(b)
  {
    Sorting.SameElements(a, b);
    Sorting.DistinctPermuted(a, b);
    forall i, j | 0 <= i < j < |b|
      ensures b[i].ref != b[j].ref
    {
      assert b[i] in b && b[j] in b;
    }
  }

  lemma ProperOwn(c: Committee, g: Graph, undone: set<BlockRef>, y: BlockRef)
    requires Partly(c, g, undone)
    ensures Grounded(Bodies(g))
    ensures y in g ==> y in Bodies(g) && Bodies(g)[y] == g[y].block && |g[y].block.ancestors| > 0
    ensures y in g ==> g[y].block.ancestors[0].author == y.author && g[y].block.ancestors[0].round < y.round
  {
    if y in g {
      assert ProperBlock(c, Bodies(g)[y]);
    }
  }

  lemma NothingMarked(g: Graph, y: BlockRef)
    ensures WithOrigin(g, y, {}) == g
  {
  }

  lemma MarkOne(g: Graph, y: BlockRef, marked: set<BlockRef>, x: BlockRef)
    requires x in g && x !in marked
    ensures var g' := WithOrigin(g, y, marked);
            && x in g' && g'[x].block == g[x].block
            && WithOrigin(g, y, marked + {x}) == g'[x := g'[x].(originDescendants := g'[x].originDescendants + {y})]
  {
  }

  lemma OutsideMap(g: Graph, r: BlockRef)
    ensures r !in g ==> r !in Bodies(g)
  {
  }

  lemma SameKeys(g: Graph, g': Graph)
    requires Bodies(g) == Bodies(g')
    ensures g.Keys == g'.Keys
  {
    assert Bodies(g).Keys == g.Keys && Bodies(g').Keys == g'.Keys;
  }

  lemma LastIsHeld(c: Committee, g: Graph, commits: seq<Commit>, sorted: seq<Block>)
    requires HoldsExactly(Bodies(g), commits) && commits != []
    requires forall b :: b in sorted <==> b in commits[|commits| - 1].blocks
    ensures forall i :: 0 <= i < |sorted| ==> sorted[i].ref in g
  {
    forall i | 0 <= i < |sorted|
      ensures sorted[i].ref in g
    {
      assert sorted[i] in sorted;
      assert sorted[i].ref in Bodies(g);
    }
  }

  lemma NotYetDone(sorted: seq<Block>, i: nat)
    requires DistinctRefs(sorted) && i < |sorted|
    ensures sorted[i].ref in RefsOf(sorted) - RefsOf(sorted[..i])
    ensures RefsOf(sorted) - RefsOf(sorted[..i]) - {sorted[i].ref} == RefsOf(sorted) - RefsOf(sorted[..i + 1])
  {
    assert sorted[..i + 1] == sorted[..i] + [sorted[i]];
    RefsOfAppend(sorted[..i], sorted[i]);
  }

  // ----- moving all transactions of a commit --------------------------------------------

  ghost function PairsExcept(t: Transactions, rest: set<BlockRef>): set<Transaction> {
    set b, i | b in t && b !in rest && i in t[b] :: (b, i)
  }

  /** Pending transactions when all blocks but those in `rest` have been checked again. */
  ghost function LateChecked(t: Transactions, rest: set<BlockRef>, votes: Votes, threshold: nat): set<Transaction> {
    set b, i | b in t && i in t[b] && (b in rest || IsShort(votes, (b, i), threshold)) :: (b, i)
  }

  lemma PendingSplits(t: Transactions, votes: Votes, threshold: nat)
    ensures LateChecked(t, t.Keys, votes, threshold) == Pairs(t)
  {
  }

  lemma LateStep(t: Transactions, rest: set<BlockRef>, votes: Votes, threshold: nat, b: BlockRef, over: set<nat>)
    requires b in rest && b in t && b in votes && t[b] <= votes[b].Keys && over == t[b] - ShortOf(votes[b], threshold)
    ensures LateChecked(t, rest - {b}, votes, threshold) == LateChecked(t, rest, votes, threshold) - Tagged(b, over)
    ensures over == {} ==> Tagged(b, over) == {}
  {
    var all := LateChecked(t, rest, votes, threshold);
    forall x, i
      ensures (x, i) in LateChecked(t, rest - {b}, votes, threshold) <==> (x, i) in all && (x, i) !in Tagged(b, over)
    {
    }
  }

  lemma AllChecked(t: Transactions, votes: Votes, threshold: nat)
    ensures LateChecked(t, {}, votes, threshold) == StillPending(Pairs(t), votes, threshold)
  {
    forall b, i
      ensures (b, i) in LateChecked(t, {}, votes, threshold) <==> (b, i) in StillPending(Pairs(t), votes, threshold)
    {
    }
  }

  lemma WithoutOthers(t: Transactions, b: BlockRef, transactions: set<nat>)
    ensures Without(t, b, transactions).Keys <= t.Keys
    ensures forall x :: x in t && x != b ==> x in Without(t, b, transactions) && Without(t, b, transactions)[x] == t[x]
    ensures b in Without(t, b, transactions) ==> Without(t, b, transactions)[b] <= t[b]
    ensures NoEmpty(t) ==> NoEmpty(Without(t, b, transactions))
  {
  }

  lemma WithoutAll(t: Transactions, b: BlockRef)
    requires b in t
    ensures Without(t, b, t[b]).Keys == t.Keys - {b}
  {
  }

  lemma NothingAccepted(c: Committee, m: BlockMap, t: Transactions)
    ensures AcceptedIn(c, m, PairsExcept(t, t.Keys)) == {}
  {
  }

  lemma AllExcept(t: Transactions)
    ensures PairsExcept(t, {}) == Pairs(t)
  {
  }

  lemma AcceptedStep(c: Committee, m: BlockMap, t: Transactions, rest: set<BlockRef>, b: BlockRef, accepted: set<nat>)
    requires Grounded(m) && b in rest && b in t
    requires accepted == set i | i in t[b] && c.IsQuorum(Accepting(m, b, i))
    ensures AcceptedIn(c, m, PairsExcept(t, rest - {b})) == AcceptedIn(c, m, PairsExcept(t, rest)) + Tagged(b, accepted)
  {
    hide Accepting;
    forall x, i
      ensures (x, i) in AcceptedIn(c, m, PairsExcept(t, rest - {b})) <==>
              (x, i) in AcceptedIn(c, m, PairsExcept(t, rest)) || (x, i) in Tagged(b, accepted)
    {
      assert (x, i) in PairsExcept(t, rest - {b}) <==> (x, i) in PairsExcept(t, rest) || (x == b && i in t[b]);
    }
  }

  lemma GraphIsGrounded(c: Committee, g: Graph)
    requires GraphOk(c, g)
    ensures Grounded(Bodies(g))
  {
  }

  lemma PendingIsHeld(g: Graph, pending: seq<CommitState>)
    requires pending != [] && pending[0].pending.Keys <= RefsOf(pending[0].commit.blocks)
    requires HoldsExactly(Bodies(g), CommitsOf(pending)[..|pending|])
    ensures pending[0].pending.Keys <= g.Keys
  {
    var commits := CommitsOf(pending)[..|pending|];
    forall b | b in pending[0].pending
      ensures b in g
    {
      assert b in RefsOf(commits[0].blocks);
      assert InSome(commits, b);
      assert b in Bodies(g);
    }
  }

  lemma NothingIsCovered(votes: Votes, cs: CommitState)
    ensures cs.IsFinalized() ==> Covers(votes, cs)
  {
  }

  // ----- the buffer as a whole ----------------------------------------------------------

  lemma PushHolds(pending: seq<CommitState>, commit: Commit)
    ensures CommitsOf(pending + [NewCommit(commit)]) == CommitsOf(pending) + [commit]
    ensures CommitsOf(pending + [NewCommit(commit)])[..|pending|] == CommitsOf(pending)[..|pending|]
  {
  }

  lemma SameCommitsHold(before: seq<CommitState>, after: seq<CommitState>)
    requires CommitsOf(after) == CommitsOf(before)
    ensures |after| == |before| && (after != [] ==> after[|after| - 1].commit == before[|before| - 1].commit)
  {
    assert |after| == |CommitsOf(after)|;
    if after != [] {
      assert CommitsOf(after)[|after| - 1] == CommitsOf(before)[|after| - 1];
    }
  }

  lemma RestCovered(votes: Votes, pending: seq<CommitState>, k: nat)
    requires CoversAll(votes, pending) && k <= |pending|
    ensures CoversAll(votes, pending[k..])
  {
  }
}
