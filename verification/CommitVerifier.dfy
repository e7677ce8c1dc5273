/** Certification of fetched commits: a digest chain whose last commit has votes from a quorum. */
module CommitVerifiers {
  import opened Committees
  import opened Dags
  import opened CommitSyncers
  import opened StakeAggregators

  /** A commit; `content` stands for everything the digest covers beside the index and the link. */
  datatype Commit = Commit(index: nat, previousDigest: nat, content: nat)

  datatype Error =
    MalformedCommit | UnexpectedStartCommit | UnexpectedCommitSequence | NoCommitReceived | MalformedBlock |
    NotEnoughCommitVotes

  datatype Result = Ok(commits: seq<Commit>, voteBlocks: seq<Block>) | Err(error: Error)

  // ----- what counts as a verified fetch ------------------------------------------------

  /** `commit` is what must come at position `i` after the commits of the chain so far. */
  ghost predicate ComesNext(so: seq<Commit>, start: nat, digest: Commit -> nat, commit: Commit) {
    commit.index == start + |so| && (so != [] ==> commit.previousDigest == digest(so[|so| - 1]))
  }

  /** Consecutive commits from `start`, each linking to the digest of the one before. */
  ghost predicate Chained(commits: seq<Commit>, start: nat, digest: Commit -> nat) {
    forall i :: 0 <= i < |commits| ==> ComesNext(commits[..i], start, digest, commits[i])
  }

  ghost predicate Parses(serialized: seq<Option<Commit>>, commits: seq<Commit>) {
    |commits| <= |serialized| && forall i :: 0 <= i < |commits| ==> serialized[i] == Some(commits[i])
  }

  predicate Within(range: Range, commits: seq<Commit>) {
    commits == [] || range.start + |commits| <= range.end + 1
  }

  /** The commits a response yields: a chained prefix inside the range, which is the whole response or
      is followed by the chained commit right after the range. */
  ghost predicate Yields(serialized: seq<Option<Commit>>, range: Range, digest: Commit -> nat, commits: seq<Commit>) {
    && Parses(serialized, commits) && Chained(commits, range.start, digest) && Within(range, commits)
    && (|commits| < |serialized| ==>
          && serialized[|commits|].Some? && ComesNext(commits, range.start, digest, serialized[|commits|].value)
          && serialized[|commits|].value.index > range.end)
  }

  ghost function Voters(blocks: seq<Option<Block>>, ref: CommitRef): set<nat> {
    set i | 0 <= i < |blocks| && blocks[i].Some? && ref in blocks[i].value.commitVotes :: blocks[i].value.ref.author
  }

  ghost predicate AllVerified(blocks: seq<Option<Block>>) {
    forall i :: 0 <= i < |blocks| ==> blocks[i].Some?
  }

  ghost predicate Certified(c: Committee, blocks: seq<Option<Block>>, digest: Commit -> nat, commits: seq<Commit>)
    requires commits != []
  {
    AllVerified(blocks) && c.IsQuorum(Voters(blocks, RefOf(digest, commits[|commits| - 1])))
  }

  function RefOf(digest: Commit -> nat, commit: Commit): CommitRef {
    CommitRef(commit.index, digest(commit))
  }

  // ----- the checks ---------------------------------------------------------------------

  lemma ChainedExtends(commits: seq<Commit>, start: nat, digest: Commit -> nat, next: Commit)
    requires Chained(commits, start, digest) && ComesNext(commits, start, digest, next)
    ensures Chained(commits + [next], start, digest)
  {
    var all := commits + [next];
    forall i | 0 <= i < |all|
      ensures ComesNext(all[..i], start, digest, all[i])
    {
      if i < |commits| {
        assert all[..i] == commits[..i];
      } else {
        assert all[..i] == commits;
      }
    }
  }

  /** A longer chain parsed from the same response continues a shorter one. */
  lemma Continues(serialized: seq<Option<Commit>>, start: nat, digest: Commit -> nat, shorter: seq<Commit>,
                  longer: seq<Commit>)
    requires Parses(serialized, shorter) && Parses(serialized, longer) && Chained(longer, start, digest)
    requires |shorter| < |longer|
    ensures |shorter| < |serialized| && serialized[|shorter|].Some?
    ensures ComesNext(shorter, start, digest, serialized[|shorter|].value)
    ensures serialized[|shorter|].value.index == start + |shorter|
  {
    assert longer[..|shorter|] == shorter;
    assert ComesNext(longer[..|shorter|], start, digest, longer[|shorter|]);
  }

  lemma SameParse(serialized: seq<Option<Commit>>, a: seq<Commit>, b: seq<Commit>)
    requires Parses(serialized, a) && Parses(serialized, b) && |a| == |b|
    ensures a == b
  {
  }

  /** After a failed check at the end of a parsed chain, the response yields nothing. */
  lemma NoneYielded(serialized: seq<Option<Commit>>, range: Range, digest: Commit -> nat, so: seq<Commit>,
                    other: seq<Commit>)
    requires Parses(serialized, so) && Chained(so, range.start, digest) && Within(range, so)
    requires |so| < |serialized|
    requires serialized[|so|].None? || !ComesNext(so, range.start, digest, serialized[|so|].value)
    ensures !Yields(serialized, range, digest, other)
  {
    hide Parses, Chained, ComesNext;
    if Yields(serialized, range, digest, other) {
      if |so| < |other| {
        Continues(serialized, range.start, digest, so, other);
      } else if |other| < |so| {
        Continues(serialized, range.start, digest, other, so);
      } else {
        SameParse(serialized, so, other);
      }
      assert false;
    }
  }

  /** What a response yields is unique. */
  lemma YieldsUnique(serialized: seq<Option<Commit>>, range: Range, digest: Commit -> nat, a: seq<Commit>,
                     b: seq<Commit>)
    requires Yields(serialized, range, digest, a) && Yields(serialized, range, digest, b)
    ensures a == b
  {
    hide Parses, Chained, ComesNext;
    if |a| < |b| {
      Continues(serialized, range.start, digest, a, b);
    } else if |b| < |a| {
      Continues(serialized, range.start, digest, b, a);
    } else {
      SameParse(serialized, a, b);
    }
  }

  method ParseCommits(range: Range, serialized: seq<Option<Commit>>, digest: Commit -> nat) returns (result: Result)
    ensures result.Ok? ==> Yields(serialized, range, digest, result.commits) && result.voteBlocks == []
    ensures result.Err? ==> forall commits :: !Yields(serialized, range, digest, commits)
  {
    var commits: seq<Commit> := [];
    for i := 0 to |serialized|
      invariant |commits| == i && Parses(serialized, commits) && Chained(commits, range.start, digest)
      invariant Within(range, commits)
    {
      if serialized[i].None? {
        forall other ensures !Yields(serialized, range, digest,
                                     other) { NoneYielded(serialized, range, digest, commits, other); }
        return Err(MalformedCommit);
      }
      var commit := serialized[i].value;
      if commits == [] {
        if commit.index != range.start {
          forall other ensures !Yields(serialized, range, digest,
                                       other) { NoneYielded(serialized, range, digest, commits, other); }
          return Err(UnexpectedStartCommit);
        }
      } else {
        var last := commits[i - 1];
        assert ComesNext(commits[..i - 1], range.start, digest, last);
        if commit.index != last.index + 1 || commit.previousDigest != digest(last) {
          forall other ensures !Yields(serialized, range, digest,
                                       other) { NoneYielded(serialized, range, digest, commits, other); }
          return Err(UnexpectedCommitSequence);
        }
      }
      if commit.index > range.end {
        return Ok(commits, []);
      }
      ChainedExtends(commits, range.start, digest, commit);
      commits := commits + [commit];
    }
    return Ok(commits, []);
  }

  lemma VotersStep(blocks: seq<Option<Block>>, ref: CommitRef, i: nat)
    requires i < |blocks| && blocks[i].Some?
    ensures Voters(blocks[..i + 1], ref) == Voters(blocks[..i], ref) +
              (if ref in blocks[i].value.commitVotes then {blocks[i].value.ref.author} else {})
  {
    var before, after := blocks[..i], blocks[..i + 1];
    assert forall k :: 0 <= k < i ==> after[k] == before[k];
    assert after[i] == blocks[i];
    forall a | a in Voters(before, ref)
      ensures a in Voters(after, ref)
    {
      var k :| 0 <= k < |before| && before[k].Some? && ref in before[k].value.commitVotes &&
        before[k].value.ref.author == a;
      assert after[k] == before[k];
    }
  }

  /** Collects verified vote blocks, and tells whether the authorities voting for the commit hold a quorum. */
  method CountVotes(c: Committee, blocks: seq<Option<Block>>, ref: CommitRef)
    returns (verified: Option<seq<Block>>, reached: bool)
    requires forall i :: 0 <= i < |blocks| && blocks[i].Some? ==> c.IsValidIndex(blocks[i].value.ref.author)
    ensures verified.Some? <==> AllVerified(blocks)
    ensures verified.Some? ==> |verified.value| == |blocks| && forall i :: 0 <= i < |blocks| ==>
              blocks[i] == Some(verified.value[i])
    ensures verified.Some? ==> (reached <==> c.IsQuorum(Voters(blocks, ref)))
  {
    var aggregator := new StakeAggregator(c);
    var collected: seq<Block> := [];
    for i := 0 to |blocks|
      invariant aggregator.Valid() && aggregator.committee == c && aggregator.votes == Voters(blocks[..i], ref)
      invariant |collected| == i && forall k :: 0 <= k < i ==> blocks[k] == Some(collected[k])
    {
      if blocks[i].None? {
        return None, false;
      }
      var block := blocks[i].value;
      VotersStep(blocks, ref, i);
      for v := 0 to |block.commitVotes|
        invariant aggregator.Valid() && aggregator.committee == c
        invariant aggregator.votes == Voters(blocks[..i], ref) +
                  if ref in block.commitVotes[..v] then {block.ref.author} else {}
      {
        assert block.commitVotes[..v + 1] == block.commitVotes[..v] + [block.commitVotes[v]];
        if block.commitVotes[v] == ref {
          var done := aggregator.Add(block.ref.author);
        }
      }
      assert block.commitVotes[..|block.commitVotes|] == block.commitVotes;
      collected := collected + [block];
    }
    assert blocks[..|blocks|] == blocks;
    reached := aggregator.ReachedThreshold();
    verified := Some(collected);
  }

  /** Verifies fetched commits and certifies the last one with the vote blocks. It succeeds exactly when
      the response yields at least one commit, every vote block is verified, and the authorities that
      vote for the last commit hold a quorum. */
  method VerifyCommits(c: Committee, range: Range, serialized: seq<Option<Commit>>, blocks: seq<Option<Block>>,
                       digest: Commit -> nat)
    returns (result: Result)
    requires forall i :: 0 <= i < |blocks| && blocks[i].Some? ==> c.IsValidIndex(blocks[i].value.ref.author)
    ensures result.Ok? <==>
            exists commits ::
              commits != [] && Yields(serialized, range, digest, commits) && Certified(c, blocks, digest, commits)
    ensures result.Ok? ==>
              && result.commits != [] && Yields(serialized, range, digest, result.commits)
              && Certified(c, blocks, digest, result.commits) && |result.voteBlocks| == |blocks|
              && forall i :: 0 <= i < |blocks| ==> blocks[i] == Some(result.voteBlocks[i])
  {
    hide Yields, Voters, AllVerified;
    result := ParseCommits(range, serialized, digest);
    if result.Err? {
      return;
    }
    var commits := result.commits;
    forall other | Yields(serialized, range, digest, other)
      ensures other == commits
    {
      YieldsUnique(serialized, range, digest, commits, other);
    }
    if commits == [] {
      return Err(NoCommitReceived);
    }
    var verified, reached := CountVotes(c, blocks, RefOf(digest, commits[|commits| - 1]));
    if verified.None? {
      return Err(MalformedBlock);
    }
    if !reached {
      return Err(NotEnoughCommitVotes);
    }
    result := Ok(commits, verified.value);
  }

  /** Every proper response verifies: consecutive commits from the start of the range and within it, each with the
      digest of the one before, and vote blocks of a quorum for the last. */
  lemma ProperResponseVerifies(c: Committee, range: Range, serialized: seq<Option<Commit>>, blocks: seq<Option<Block>>,
                               digest: Commit -> nat, sent: seq<Commit>)
    requires |sent| >= 1 && range.start + |sent| - 1 <= range.end && |serialized| == |sent|
    requires forall i :: 0 <= i < |sent| ==> serialized[i] == Some(sent[i]) && sent[i].index == range.start + i
    requires forall i :: 0 < i < |sent| ==> sent[i].previousDigest == digest(sent[i - 1])
    requires forall i :: 0 <= i < |blocks| ==> blocks[i].Some?
    requires c.IsQuorum(set i | 0 <= i < |blocks| && blocks[i].Some?
                          && CommitRef(sent[|sent| - 1].index, digest(sent[|sent| - 1])) in blocks[i].value.commitVotes
                          :: blocks[i].value.ref.author)
    ensures Yields(serialized, range, digest, sent) && Certified(c, blocks, digest, sent)
  {
    forall i | 0 <= i < |sent|
      ensures ComesNext(sent[..i], range.start, digest, sent[i])
    {
      assert i > 0 ==> sent[..i][i - 1] == sent[i - 1] && sent[i].previousDigest == digest(sent[i - 1]);
    }
  }

  // ----- a verified fetch is a slice of the honest chain --------------------------------

  ghost predicate Injective(digest: Commit -> nat) {
    forall a, b :: digest(a) == digest(b) ==> a == b
  }

  /** The one sequence of commits, from index 1. */
  ghost predicate HonestChain(chain: seq<Commit>, digest: Commit -> nat) {
    Chained(chain, 1, digest)
  }

  /** Honest authorities vote only for commits of the sequence. */
  ghost predicate HonestVotes(blocks: seq<Option<Block>>, honest: set<nat>, chain: seq<Commit>, digest: Commit -> nat) {
    forall i, ref :: 0 <= i < |blocks| && blocks[i].Some? && blocks[i].value.ref.author in honest &&
      ref in blocks[i].value.commitVotes
      ==> VotesInChain(chain, digest, ref)
  }

  ghost predicate VotesInChain(chain: seq<Commit>, digest: Commit -> nat, ref: CommitRef) {
    exists k :: 0 <= k < |chain| && ref == RefOf(digest, chain[k])
  }

  /** Two chains that agree on one commit agree on everything before it. */
  lemma {:induction false} ChainsAgreeBelow(commits: seq<Commit>, start: nat, chain: seq<Commit>, digest: Commit -> nat,
                                            i: nat, j: nat)
    requires Chained(commits, start, digest) && HonestChain(chain, digest) && Injective(digest) && start >= 1
    requires j <= i < |commits| && start - 1 + i < |chain| && commits[i] == chain[start - 1 + i]
    ensures commits[j] == chain[start - 1 + j]
    decreases i - j
  {
    if j < i {
      assert ComesNext(commits[..i], start, digest, commits[i]);
      assert ComesNext(chain[..start - 1 + i], 1, digest, chain[start - 1 + i]);
      ChainsAgreeBelow(commits, start, chain, digest, i - 1, j);
    }
  }

  /** A commit that is certified at the end of a chain is the honest one at its index. */
  lemma CertifiedIsHonest(c: Committee, honest: set<nat>, blocks: seq<Option<Block>>, digest: Commit -> nat,
                          chain: seq<Commit>, commit: Commit)
    requires c.FaultsBounded(honest) && Injective(digest) && HonestChain(chain, digest)
    requires HonestVotes(blocks, honest, chain, digest)
    requires c.IsQuorum(Voters(blocks, RefOf(digest, commit)))
    ensures 1 <= commit.index <= |chain| && chain[commit.index - 1] == commit
  {
    var ref := RefOf(digest, commit);
    var h := HonestInQuorum(c, honest, Voters(blocks, ref));
    var i :| 0 <= i < |blocks| && blocks[i].Some? && ref in blocks[i].value.commitVotes &&
      blocks[i].value.ref.author == h;
    assert VotesInChain(chain, digest, ref);
    var k :| 0 <= k < |chain| && ref == RefOf(digest, chain[k]);
    assert ComesNext(chain[..k], 1, digest, chain[k]);
  }

  /** With injective digests and bounded faults, a verified fetch is exactly the honest sequence from the
      start of the range to some end inside it. */
  lemma VerifiedIsSlice(c: Committee, honest: set<nat>, range: Range, serialized: seq<Option<Commit>>,
                        blocks: seq<Option<Block>>,
                        digest: Commit -> nat, chain: seq<Commit>, commits: seq<Commit>)
    requires c.FaultsBounded(honest) && Injective(digest) && HonestChain(chain, digest) && range.start >= 1
    requires HonestVotes(blocks, honest, chain, digest)
    requires commits != [] && Yields(serialized, range, digest, commits) && Certified(c, blocks, digest, commits)
    ensures var from := range.start - 1;
            from + |commits| <= |chain| && commits == chain[from..from + |commits|] &&
              range.start + |commits| - 1 <= range.end
  {
    hide Chained, Voters, Injective, HonestVotes;
    var last := |commits| - 1;
    CertifiedIsHonest(c, honest, blocks, digest, chain, commits[last]);
    IndexAt(commits, range.start, digest, last);
    forall j | 0 <= j < |commits|
      ensures commits[j] == chain[range.start - 1 + j]
    {
      ChainsAgreeBelow(commits, range.start, chain, digest, last, j);
    }
  }

  lemma IndexAt(commits: seq<Commit>, start: nat, digest: Commit -> nat, i: nat)
    requires Chained(commits, start, digest) && i < |commits|
    ensures commits[i].index == start + i
  {
    assert ComesNext(commits[..i], start, digest, commits[i]);
  }
}
