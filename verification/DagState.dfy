/** The DAG state: a cache of recent blocks over a store, with buffered writes, eviction, hard-link
    marks and recovery after a restart. */
module DagStates {
  import opened Dags

  /** A cached block, whether it is committed, and whether an own block links to it. */
  datatype BlockInfo = BlockInfo(block: Block, committed: bool, hardLinked: bool)

  type Cache = map<BlockRef, BlockInfo>

  /** A commit; indices start at 1. */
  datatype TrustedCommit = TrustedCommit(index: nat, leader: BlockRef, blocks: seq<BlockRef>)

  /** Last committed rounds per authority as of a commit. */
  datatype CommitInfo = CommitInfo(index: nat, committedRounds: seq<nat>)

  /** Persistent storage; `info` is the stored commit info with the highest index. */
  datatype Store = Store(blocks: BlockMap, commits: seq<TrustedCommit>, info: Option<CommitInfo>)

  datatype Parameters = Parameters(size: nat, ownIndex: nat, genesis: BlockMap, gcDepth: nat, cachedRounds: nat)

  // ----- rounds -------------------------------------------------------------------------

  function SaturatingSub(a: nat, b: nat): nat {
    if a < b then 0 else a - b
  }

  function LastCommit(commits: seq<TrustedCommit>): Option<TrustedCommit> {
    if commits == [] then None else Some(commits[|commits| - 1])
  }

  function LastCommitRound(last: Option<TrustedCommit>): nat {
    if last.None? then GENESIS_ROUND else last.value.leader.round
  }

  function GcRound(p: Parameters, last: Option<TrustedCommit>): nat {
    SaturatingSub(LastCommitRound(last), p.gcDepth)
  }

  /** A round is garbage collected exactly when it is the GC depth or more below the last committed leader. */
  lemma GcRoundIs(p: Parameters, last: Option<TrustedCommit>, r: nat)
    ensures r <= GcRound(p, last) <==> r == 0 || r + p.gcDepth <= if last.None? then 0 else last.value.leader.round
  {
  }

  /** Keeps at least `cachedRounds` rounds, and everything above the GC round. */
  function EvictionRound(lastRound: nat, gcRound: nat, cachedRounds: nat): nat {
    var oldest := SaturatingSub(lastRound, cachedRounds);
    if gcRound < oldest then gcRound else oldest
  }

  /** A round is evicted exactly when it is garbage collected and the last round is the cached rounds or more above. */
  lemma EvictionRoundIs(lastRound: nat, gcRound: nat, cachedRounds: nat, r: nat)
    ensures r <= EvictionRound(lastRound, gcRound, cachedRounds) <==>
            r <= gcRound && (r == 0 || r + cachedRounds <= lastRound)
  {
  }

  // ----- last committed rounds ----------------------------------------------------------

  function Raised(rounds: seq<nat>, refs: seq<BlockRef>): (r: seq<nat>)
    ensures |r| == |rounds|
  {
    if refs == [] then rounds
    else
      var init := Raised(rounds, refs[..|refs| - 1]);
      var last := refs[|refs| - 1];
      if last.author < |init| && init[last.author] < last.round then init[last.author := last.round] else init
  }

  /** Folds all commits, from the first. */
  function RoundsAfter(size: nat, commits: seq<TrustedCommit>): (r: seq<nat>)
    ensures |r| == size
  {
    if commits == [] then seq(size, _ => 0)
    else Raised(RoundsAfter(size, commits[..|commits| - 1]), commits[|commits| - 1].blocks)
  }

  ghost predicate CommittedBy(commits: seq<TrustedCommit>, r: BlockRef) {
    exists i :: 0 <= i < |commits| && r in commits[i].blocks
  }

  lemma {:induction false} RaisedIsMax(rounds: seq<nat>, refs: seq<BlockRef>, a: nat)
    requires a < |rounds|
    ensures rounds[a] <= Raised(rounds, refs)[a]
    ensures forall r :: r in refs && r.author == a ==> r.round <= Raised(rounds, refs)[a]
    ensures Raised(rounds, refs)[a] == rounds[a] ||
            exists r :: r in refs && r.author == a && r.round == Raised(rounds, refs)[a]
  {
    if refs != [] {
      var init, last := refs[..|refs| - 1], refs[|refs| - 1];
      RaisedIsMax(rounds, init, a);
      assert refs == init + [last];
    }
  }

  /** The fold is the highest committed round of each authority, or 0. */
  lemma {:induction false} RoundsAfterIsHighest(size: nat, commits: seq<TrustedCommit>, a: nat)
    requires a < size
    ensures forall r :: CommittedBy(commits, r) && r.author == a ==> r.round <= RoundsAfter(size, commits)[a]
    ensures RoundsAfter(size, commits)[a] == 0
         || exists r :: CommittedBy(commits, r) && r.author == a && r.round == RoundsAfter(size, commits)[a]
  {
    if commits != [] {
      var init, last := commits[..|commits| - 1], commits[|commits| - 1];
      RoundsAfterIsHighest(size, init, a);
      RaisedIsMax(RoundsAfter(size, init), last.blocks, a);
      forall r | CommittedBy(commits, r)
        ensures CommittedBy(init, r) || r in last.blocks
      {
        var i :| 0 <= i < |commits| && r in commits[i].blocks;
        assert i < |init| ==> init[i] == commits[i];
      }
      forall r | CommittedBy(init, r)
        ensures CommittedBy(commits, r)
      {
        var i :| 0 <= i < |init| && r in init[i].blocks;
        assert r in commits[i].blocks;
      }
      assert forall r :: r in last.blocks ==> r in commits[|commits| - 1].blocks;
    }
  }

  // ----- what is stored and accepted ----------------------------------------------------

  ghost predicate ProperParameters(p: Parameters) {
    && p.cachedRounds >= 1
    && forall g :: g in p.genesis ==> g.round == GENESIS_ROUND && p.genesis[g].ref == g
  }

  /** What verification guarantees about an accepted block. */
  ghost predicate ProperBlock(size: nat, r: BlockRef, b: Block) {
    b.ref == r && r.author < size && r.round > GENESIS_ROUND && LowerRounds(b) && NoRepeats(b.ancestors)
  }

  ghost predicate ProperBlocks(size: nat, blocks: BlockMap) {
    forall r :: r in blocks ==> ProperBlock(size, r, blocks[r])
  }

  ghost predicate NoRepeats(refs: seq<BlockRef>) {
    forall i, j :: 0 <= i < j < |refs| ==> refs[i] != refs[j]
  }

  /** What the committer guarantees about one commit: it lists each block once, at rounds up to its
      leader's. */
  ghost predicate ProperCommit(commit: TrustedCommit) {
    NoRepeats(commit.blocks) && forall r :: r in commit.blocks ==> r.round <= commit.leader.round
  }

  /** And about two: no block is committed twice, and leader rounds do not decrease. */
  ghost predicate Succeeds(earlier: TrustedCommit, later: TrustedCommit) {
    earlier.leader.round <= later.leader.round && forall r :: r in earlier.blocks ==> r !in later.blocks
  }

  ghost predicate ProperCommits(commits: seq<TrustedCommit>) {
    && (forall i :: 0 <= i < |commits| ==> commits[i].index == i + 1 && ProperCommit(commits[i]))
    && (forall i, j :: 0 <= i < j < |commits| ==> Succeeds(commits[i], commits[j]))
  }

  /** Recorded commit info agrees with the fold over the commits up to its index. */
  ghost predicate ProperInfo(size: nat, commits: seq<TrustedCommit>, info: CommitInfo) {
    info.index <= |commits| && info.committedRounds == RoundsAfter(size, commits[..info.index])
  }

  /** Blocks and commits that belong together: commits list known blocks, and the causal history above
      the GC round is complete. */
  ghost predicate Consistent(p: Parameters, blocks: BlockMap, commits: seq<TrustedCommit>) {
    && ProperBlocks(p.size, blocks) && ProperCommits(commits)
    && (forall r :: CommittedBy(commits, r) ==> r in blocks)
    && CompleteAbove(blocks, GcRound(p, LastCommit(commits)))
  }

  ghost predicate ProperStore(p: Parameters, s: Store) {
    Consistent(p, s.blocks, s.commits) && (s.info.Some? ==> ProperInfo(p.size, s.commits, s.info.value))
  }

  // ----- the cache ----------------------------------------------------------------------

  ghost predicate CacheSound(cache: Cache, accepted: BlockMap) {
    forall r :: r in cache ==> r in accepted && cache[r].block == accepted[r]
  }

  /** The cached blocks of an authority. */
  ghost function RefsBy(cache: Cache, a: nat): set<BlockRef> {
    set r | r in cache && r.author == a
  }

  ghost predicate RefsMirror(cache: Cache, refs: seq<set<BlockRef>>) {
    forall a :: 0 <= a < |refs| ==> refs[a] == RefsBy(cache, a)
  }

  /** Every accepted block above its author's evicted round is cached. */
  ghost predicate CachedAbove(cache: Cache, evicted: seq<nat>, accepted: BlockMap) {
    forall r :: r in accepted && r.author < |evicted| && r.round > evicted[r.author] ==> r in cache
  }

  /** An authority with evicted blocks has a cached block at least `cachedRounds` above them. */
  ghost predicate Anchored(refs: seq<set<BlockRef>>, evicted: seq<nat>, cachedRounds: nat)
    requires |refs| == |evicted|
  {
    forall a :: 0 <= a < |evicted| && evicted[a] > 0 ==> HasAbove(refs[a], evicted[a] + cachedRounds)
  }

  ghost predicate Cached(p: Parameters, cache: Cache, refs: seq<set<BlockRef>>, evicted: seq<nat>, accepted: BlockMap) {
    && |refs| == p.size && |evicted| == p.size
    && CacheSound(cache, accepted) && RefsMirror(cache, refs)
    && CachedAbove(cache, evicted, accepted) && Anchored(refs, evicted, p.cachedRounds)
  }

  ghost predicate HasAbove(refs: set<BlockRef>, round: nat) {
    exists r :: r in refs && r.round >= round
  }

  /** Unwritten blocks are cached; written ones are in the store. */
  ghost predicate Written(cache: Cache, store: BlockMap, unwritten: seq<Block>, accepted: BlockMap) {
    && (forall r :: r in store ==> r in accepted && store[r] == accepted[r])
    && (forall r :: r in accepted && r !in store ==> r in cache && r in RefsOf(unwritten))
    && (forall i :: 0 <= i < |unwritten| ==> unwritten[i].ref in accepted && accepted[unwritten[i].ref] == unwritten[i])
  }

  /** How `contains_blocks` answers: cached and genesis blocks exist, anything above the highest cached
      round of its author does not, and the store decides the rest. */
  ghost predicate Found(genesis: BlockMap, recent: set<BlockRef>, store: BlockMap, r: BlockRef) {
    || r in recent || r in genesis
    || (HasAbove(recent, r.round) && r in store)
  }

  /** The shortcut is exact. */
  lemma FoundIsExact(p: Parameters, cache: Cache, refs: seq<set<BlockRef>>, evicted: seq<nat>, accepted: BlockMap,
                     store: BlockMap, unwritten: seq<Block>, r: BlockRef)
    requires ProperParameters(p) && ProperBlocks(p.size, accepted) && Cached(p, cache, refs, evicted, accepted)
    requires Written(cache, store, unwritten, accepted) && r.author < p.size
    ensures Found(p.genesis, refs[r.author], store, r) <==> r in p.genesis || r in accepted
  {
    var a := r.author;
    if r in accepted && r !in cache {
      assert evicted[a] > 0;
      assert HasAbove(refs[a], evicted[a] + p.cachedRounds);
      var x :| x in refs[a] && x.round >= evicted[a] + p.cachedRounds;
      assert HasAbove(refs[a], r.round);
    }
  }

  /** Exactly when eviction keeps the shortcut exact for an authority whose blocks are all stored: when
      the eviction round stays below the authority's last round. With no cached rounds and a GC round
      at or above the last round it does not. */
  lemma ShortcutExactIff(recent: set<BlockRef>, store: BlockMap, last: BlockRef, gcRound: nat, cachedRounds: nat)
    requires IsGreatest(last, recent) && recent <= store.Keys && last.round > 0
    requires forall r :: r in store ==> r.author == last.author && r.round <= last.round
    ensures var evicted := EvictionRound(last.round, gcRound, cachedRounds);
            var kept := set r | r in recent && r.round > evicted;
            && ((forall r :: r in store ==> Found(map[], kept, store, r)) <==> evicted < last.round)
            && (evicted < last.round <==> cachedRounds >= 1 || gcRound < last.round)
  {
    var evicted := EvictionRound(last.round, gcRound, cachedRounds);
    var kept := set r | r in recent && r.round > evicted;
    if evicted < last.round {
      assert last in kept;
      assert forall r :: r in store ==> HasAbove(kept, r.round);
    } else {
      assert !Found(map[], kept, store, last);
    }
  }
  // ----- the state as a value -----------------------------------------------------------

  /** Everything the DAG state keeps, the store, and three records of the run since the last restart:
      all accepted blocks, all commits, and all blocks ever returned as newly linked. */
  datatype State = State(
    cache: Cache, refs: seq<set<BlockRef>>, evicted: seq<nat>,
    last: Option<TrustedCommit>, rounds: seq<nat>,
    blocksToWrite: seq<Block>, commitsToWrite: seq<TrustedCommit>, infoToWrite: seq<CommitInfo>, store: Store,
    accepted: BlockMap, commits: seq<TrustedCommit>, everLinked: set<BlockRef>)

  predicate IsLinked(cache: Cache, r: BlockRef) {
    r in cache && cache[r].hardLinked
  }

  /** The linked blocks above the GC round are closed under ancestors above it. */
  ghost predicate LinksClosed(cache: Cache, gcRound: nat) {
    forall x, a :: IsLinked(cache, x) && x.round > gcRound && a in cache[x].block.ancestors && a.round > gcRound ==>
      IsLinked(cache, a)
  }

  /** A block returned once stays marked while it is cached, and is not accepted again. */
  ghost predicate LinkedOnce(cache: Cache, everLinked: set<BlockRef>, accepted: BlockMap) {
    forall r :: r in everLinked ==> r in accepted && (r in cache ==> cache[r].hardLinked)
  }

  ghost predicate EvictedBelow(evicted: seq<nat>, gcRound: nat) {
    forall a :: 0 <= a < |evicted| ==> evicted[a] <= gcRound
  }

  ghost predicate ProperInfos(size: nat, commits: seq<TrustedCommit>, infos: seq<CommitInfo>) {
    forall i :: 0 <= i < |infos| ==> ProperInfo(size, commits, infos[i])
  }

  /** The cache agrees with the accepted blocks and the store. */
  ghost predicate GoodCache(p: Parameters, st: State) {
    && Cached(p, st.cache, st.refs, st.evicted, st.accepted)
    && Written(st.cache, st.store.blocks, st.blocksToWrite, st.accepted)
    && EvictedBelow(st.evicted, GcRound(p, st.last))
  }

  ghost predicate GoodCommits(p: Parameters, st: State) {
    && st.commits == st.store.commits + st.commitsToWrite && st.last == LastCommit(st.commits)
    && st.rounds == RoundsAfter(p.size, st.commits) && ProperInfos(p.size, st.commits, st.infoToWrite)
    && ProperStore(p, st.store)
  }

  ghost predicate GoodLinks(p: Parameters, st: State) {
    LinksClosed(st.cache, GcRound(p, st.last)) && LinkedOnce(st.cache, st.everLinked, st.accepted)
  }

  ghost predicate Good(p: Parameters, st: State) {
    && ProperParameters(p)
    && Consistent(p, st.accepted, st.commits)
    && GoodCache(p, st) && GoodCommits(p, st) && GoodLinks(p, st)
  }

  // ----- accepting blocks ---------------------------------------------------------------

  /** What the caller must ensure of an accepted block: it is verified, and its ancestors above the GC
      round have been accepted. */
  ghost predicate Acceptable(p: Parameters, st: State, b: Block) {
    && ProperBlock(p.size, b.ref, b)
    && forall i :: 0 <= i < |b.ancestors| && b.ancestors[i].round > GcRound(p, st.last) ==>
      b.ancestors[i] in st.accepted
  }

  function WithBlock(cache: Cache, b: Block): Cache {
    cache[b.ref := BlockInfo(b, false, false)]
  }

  function WithRef(refs: seq<set<BlockRef>>, r: BlockRef): seq<set<BlockRef>> {
    if r.author < |refs| then refs[r.author := refs[r.author] + {r}] else refs
  }

  ghost function AfterAccept(st: State, b: Block): State {
    if b.ref in st.accepted then st
    else st.(cache := WithBlock(st.cache, b), refs := WithRef(st.refs, b.ref),
             blocksToWrite := st.blocksToWrite + [b], accepted := st.accepted[b.ref := b])
  }

  lemma MirrorsWith(cache: Cache, refs: seq<set<BlockRef>>, b: Block)
    requires RefsMirror(cache, refs) && b.ref.author < |refs|
    ensures RefsMirror(WithBlock(cache, b), WithRef(refs, b.ref))
  {
    forall a | 0 <= a < |refs|
      ensures WithRef(refs, b.ref)[a] == RefsBy(WithBlock(cache, b), a)
    {
      assert refs[a] == RefsBy(cache, a);
    }
  }

  lemma AnchoredWith(refs: seq<set<BlockRef>>, evicted: seq<nat>, cachedRounds: nat, r: BlockRef)
    requires |refs| == |evicted| && Anchored(refs, evicted, cachedRounds)
    ensures Anchored(WithRef(refs, r), evicted, cachedRounds)
  {
    forall a | 0 <= a < |evicted| && evicted[a] > 0
      ensures HasAbove(WithRef(refs, r)[a], evicted[a] + cachedRounds)
    {
      assert HasAbove(refs[a], evicted[a] + cachedRounds);
      var x :| x in refs[a] && x.round >= evicted[a] + cachedRounds;
      assert x in WithRef(refs, r)[a];
    }
  }

  lemma AcceptKeepsCache(p: Parameters, st: State, b: Block)
    requires GoodCache(p, st) && Acceptable(p, st, b) && b.ref !in st.accepted
    ensures GoodCache(p, AfterAccept(st, b))
  {
    hide CacheSound, RefsMirror, CachedAbove, Anchored, Written, LowerRounds, EvictedBelow, GcRound;
    MirrorsWith(st.cache, st.refs, b);
    AnchoredWith(st.refs, st.evicted, p.cachedRounds, b.ref);
    SoundWith(st.cache, st.evicted, st.accepted, b);
    WrittenWith(st.cache, st.store.blocks, st.blocksToWrite, st.accepted, b);
  }

  lemma SoundWith(cache: Cache, evicted: seq<nat>, accepted: BlockMap, b: Block)
    requires CacheSound(cache, accepted) && CachedAbove(cache, evicted, accepted)
    ensures CacheSound(WithBlock(cache, b), accepted[b.ref := b])
    ensures CachedAbove(WithBlock(cache, b), evicted, accepted[b.ref := b])
  {
  }

  lemma WrittenWith(cache: Cache, store: BlockMap, unwritten: seq<Block>, accepted: BlockMap, b: Block)
    requires Written(cache, store, unwritten, accepted) && b.ref !in accepted
    ensures Written(WithBlock(cache, b), store, unwritten + [b], accepted[b.ref := b])
  {
    RefsOfAppend(unwritten, b);
  }

  lemma AcceptKeepsConsistent(p: Parameters, st: State, b: Block)
    requires Consistent(p, st.accepted, st.commits) && Acceptable(p, st, b) && st.last == LastCommit(st.commits)
    requires b.ref !in st.accepted
    ensures Consistent(p, st.accepted[b.ref := b], st.commits)
  {
  }

  lemma AcceptKeepsLinks(p: Parameters, st: State, b: Block)
    requires GoodLinks(p, st) && b.ref !in st.accepted && GoodCache(p, st)
    ensures GoodLinks(p, AfterAccept(st, b))
  {
    hide RefsMirror, Anchored, CachedAbove, Written, RefsOf;
  }

  lemma AcceptStaysGood(p: Parameters, st: State, b: Block)
    requires Good(p, st) && Acceptable(p, st, b)
    ensures Good(p, AfterAccept(st, b))
  {
    hide Consistent, GoodCache, GoodLinks, Acceptable, ProperInfos, ProperStore, RoundsAfter, LastCommit;
    if b.ref !in st.accepted {
      AcceptKeepsCache(p, st, b);
      AcceptKeepsConsistent(p, st, b);
      AcceptKeepsLinks(p, st, b);
    }
  }

  // ----- commits ------------------------------------------------------------------------

  ghost function AfterCommit(st: State, commit: TrustedCommit): State {
    st.(last := Some(commit), rounds := Raised(st.rounds, commit.blocks),
        commitsToWrite := st.commitsToWrite + [commit], commits := st.commits + [commit])
  }

  /** What the committer must ensure of the next commit. */
  ghost predicate Committable(st: State, commit: TrustedCommit) {
    && ProperCommit(commit) && (forall r :: r in commit.blocks ==> r in st.accepted)
    && forall i :: 0 <= i < |st.commits| ==> Succeeds(st.commits[i], commit)
  }

  lemma CommitRaisesGc(p: Parameters, st: State, commit: TrustedCommit)
    requires st.last == LastCommit(st.commits) && Committable(st, commit)
    ensures GcRound(p, st.last) <= GcRound(p, Some(commit))
  {
    if st.commits != [] {
      assert Succeeds(st.commits[|st.commits| - 1], commit);
    }
  }

  lemma CommitKeepsConsistent(p: Parameters, st: State, commit: TrustedCommit)
    requires Consistent(p, st.accepted, st.commits) && st.last == LastCommit(st.commits)
    requires Committable(st, commit) && commit.index == |st.commits| + 1
    ensures Consistent(p, st.accepted, st.commits + [commit])
  {
    var commits' := st.commits + [commit];
    CommitRaisesGc(p, st, commit);
    forall r | CommittedBy(commits', r)
      ensures r in st.accepted
    {
      var i :| 0 <= i < |commits'| && r in commits'[i].blocks;
      if i < |st.commits| {
        assert CommittedBy(st.commits, r);
      }
    }
    hide Succeeds, ProperCommit, CommittedBy;
    assert ProperCommits(commits');
  }

  lemma InfosStayProper(size: nat, commits: seq<TrustedCommit>, commit: TrustedCommit, infos: seq<CommitInfo>)
    requires ProperInfos(size, commits, infos)
    ensures ProperInfos(size, commits + [commit], infos)
  {
    forall i | 0 <= i < |infos|
      ensures ProperInfo(size, commits + [commit], infos[i])
    {
      assert ProperInfo(size, commits, infos[i]);
      assert (commits + [commit])[..infos[i].index] == commits[..infos[i].index];
    }
  }

  lemma CommitStaysGood(p: Parameters, st: State, commit: TrustedCommit)
    requires Good(p, st) && Committable(st, commit) && commit.index == |st.commits| + 1
    ensures Good(p, AfterCommit(st, commit))
  {
    hide Consistent, Cached, Written, ProperStore, Committable, ProperInfos, Raised, LinkedOnce;
    var commits' := st.commits + [commit];
    CommitRaisesGc(p, st, commit);
    CommitKeepsConsistent(p, st, commit);
    InfosStayProper(p.size, st.commits, commit, st.infoToWrite);
    assert commits'[..|commits'| - 1] == st.commits;
    assert commits' == st.store.commits + (st.commitsToWrite + [commit]);
  }

  ghost function AfterInfo(st: State): State
    requires st.last.Some?
  {
    st.(infoToWrite := st.infoToWrite + [CommitInfo(st.last.value.index, st.rounds)])
  }

  lemma InfoStaysGood(p: Parameters, st: State)
    requires Good(p, st) && st.last.Some?
    ensures Good(p, AfterInfo(st))
  {
    hide Consistent, Cached, Written, EvictedBelow, LinksClosed, LinkedOnce, ProperStore, RoundsAfter;
    LastIndex(p, st.accepted, st.commits);
    assert st.commits[..|st.commits|] == st.commits;
    assert ProperInfo(p.size, st.commits, CommitInfo(st.last.value.index, st.rounds));
  }

  lemma LastIndex(p: Parameters, accepted: BlockMap, commits: seq<TrustedCommit>)
    requires Consistent(p, accepted, commits) && commits != []
    ensures commits[|commits| - 1].index == |commits|
  {
  }

  // ----- flushing and eviction ----------------------------------------------------------

  /** All buffered data is written at once. */
  ghost function AfterWrite(st: State): State {
    st.(store := Store(st.accepted, st.commits,
                       if st.infoToWrite == [] then st.store.info else Some(st.infoToWrite[|st.infoToWrite| - 1])),
        blocksToWrite := [], commitsToWrite := [], infoToWrite := [])
  }

  lemma WriteStaysGood(p: Parameters, st: State)
    requires Good(p, st)
    ensures Good(p, AfterWrite(st))
  {
    hide Consistent, Cached, LinksClosed, LinkedOnce, RoundsAfter, EvictedBelow;
    assert st.commits + [] == st.commits;
    if st.infoToWrite != [] {
      assert ProperInfo(p.size, st.commits, st.infoToWrite[|st.infoToWrite| - 1]);
    } else if st.store.info.Some? {
      assert ProperInfo(p.size, st.store.commits, st.store.info.value);
      assert st.commits[..st.store.info.value.index] == st.store.commits[..st.store.info.value.index];
    }
    assert ProperStore(p, AfterWrite(st).store);
  }

  ghost function UpTo(refs: set<BlockRef>, round: nat): set<BlockRef> {
    set r | r in refs && r.round <= round
  }

  ghost function AfterEvict(st: State, a: nat, round: nat): State
    requires a < |st.refs| && a < |st.evicted|
  {
    var gone := UpTo(st.refs[a], round);
    st.(cache := st.cache - gone, refs := st.refs[a := st.refs[a] - gone], evicted := st.evicted[a := round])
  }

  /** The round up to which an authority's cached blocks are evicted. */
  ghost predicate IsEvictionRound(p: Parameters, st: State, a: nat, round: nat)
    requires a < |st.refs|
  {
    if st.refs[a] == {} then round == EvictionRound(GENESIS_ROUND, GcRound(p, st.last), p.cachedRounds)
    else exists last ::
      IsGreatest(last, st.refs[a]) && round == EvictionRound(last.round, GcRound(p, st.last), p.cachedRounds)
  }

  /** Eviction rounds never go down, and something above them stays cached. */
  lemma EvictionAdvances(p: Parameters, st: State, a: nat, round: nat)
    requires ProperParameters(p) && GoodCache(p, st) && a < p.size && IsEvictionRound(p, st, a, round)
    ensures st.evicted[a] <= round <= GcRound(p, st.last)
    ensures round > 0 ==> HasAbove(AfterEvict(st, a, round).refs[a], round + p.cachedRounds)
  {
    hide CacheSound, RefsMirror, CachedAbove, Written;
    var gone := UpTo(st.refs[a], round);
    assert st.evicted[a] > 0 ==> HasAbove(st.refs[a], st.evicted[a] + p.cachedRounds);
    if st.refs[a] != {} {
      var last :| IsGreatest(last, st.refs[a]) &&
        round == EvictionRound(last.round, GcRound(p, st.last), p.cachedRounds);
      assert round > 0 ==> last in st.refs[a] - gone;
    }
  }

  lemma EvictMirrors(cache: Cache, refs: seq<set<BlockRef>>, a: nat, gone: set<BlockRef>)
    requires RefsMirror(cache, refs) && a < |refs| && gone <= refs[a]
    ensures RefsMirror(cache - gone, refs[a := refs[a] - gone])
  {
    forall x | 0 <= x < |refs|
      ensures refs[a := refs[a] - gone][x] == RefsBy(cache - gone, x)
    {
      assert refs[x] == RefsBy(cache, x) && refs[a] == RefsBy(cache, a);
    }
  }

  lemma EvictAnchored(refs: seq<set<BlockRef>>, evicted: seq<nat>, cachedRounds: nat, a: nat, left: set<BlockRef>,
                      round: nat)
    requires |refs| == |evicted| && a < |refs| && Anchored(refs, evicted, cachedRounds)
    requires round > 0 ==> HasAbove(left, round + cachedRounds)
    ensures Anchored(refs[a := left], evicted[a := round], cachedRounds)
  {
    var refs', evicted' := refs[a := left], evicted[a := round];
    forall x | 0 <= x < |evicted'| && evicted'[x] > 0
      ensures HasAbove(refs'[x], evicted'[x] + cachedRounds)
    {
      assert x != a ==> HasAbove(refs[x], evicted[x] + cachedRounds);
    }
  }

  lemma EvictKeepsAbove(cache: Cache, evicted: seq<nat>, accepted: BlockMap, a: nat, gone: set<BlockRef>, round: nat)
    requires CachedAbove(cache, evicted, accepted) && a < |evicted| && evicted[a] <= round
    requires forall r :: r in gone ==> r.author == a && r.round <= round
    ensures CachedAbove(cache - gone, evicted[a := round], accepted)
  {
    forall r | r in accepted && r.author < |evicted| && r.round > evicted[a := round][r.author]
      ensures r in cache - gone
    {
      assert r.round > evicted[r.author];
    }
  }

  lemma EvictKeepsCache(p: Parameters, st: State, a: nat, round: nat)
    requires ProperParameters(p) && GoodCache(p, st) && a < p.size && IsEvictionRound(p, st, a, round)
    requires st.blocksToWrite == []
    ensures GoodCache(p, AfterEvict(st, a, round))
  {
    hide IsEvictionRound, CacheSound, RefsMirror, Anchored, CachedAbove, Written, EvictedBelow, HasAbove, GcRound;
    var gone := UpTo(st.refs[a], round);
    EvictionAdvances(p, st, a, round);
    RefsAreBy(st.cache, st.refs, a);
    EvictMirrors(st.cache, st.refs, a, gone);
    EvictAnchored(st.refs, st.evicted, p.cachedRounds, a, st.refs[a] - gone, round);
    EvictKeepsAbove(st.cache, st.evicted, st.accepted, a, gone, round);
    EvictKeepsRest(st.cache, st.store.blocks, st.accepted, gone, st.evicted, a, round, GcRound(p, st.last));
  }

  lemma RefsAreBy(cache: Cache, refs: seq<set<BlockRef>>, a: nat)
    requires RefsMirror(cache, refs) && a < |refs|
    ensures forall r :: r in refs[a] ==> r.author == a
  {
    assert refs[a] == RefsBy(cache, a);
  }

  lemma EvictKeepsRest(cache: Cache, store: BlockMap, accepted: BlockMap, gone: set<BlockRef>, evicted: seq<nat>,
                       a: nat, round: nat, gcRound: nat)
    requires CacheSound(cache, accepted) && Written(cache, store, [], accepted)
    requires a < |evicted| && EvictedBelow(evicted, gcRound) && round <= gcRound
    ensures CacheSound(cache - gone, accepted) && Written(cache - gone, store, [], accepted)
    ensures EvictedBelow(evicted[a := round], gcRound)
  {
    NoRefs();
  }

  lemma EvictKeepsLinks(cache: Cache, gone: set<BlockRef>, gcRound: nat, everLinked: set<BlockRef>, accepted: BlockMap)
    requires LinksClosed(cache, gcRound) && LinkedOnce(cache, everLinked, accepted)
    requires forall r :: r in gone ==> r.round <= gcRound
    ensures LinksClosed(cache - gone, gcRound) && LinkedOnce(cache - gone, everLinked, accepted)
  {
    forall x, a | IsLinked(cache - gone, x) && x.round > gcRound && a in (cache - gone)[x].block.ancestors &&
      a.round > gcRound
      ensures IsLinked(cache - gone, a)
    {
      assert IsLinked(cache, x);
      assert IsLinked(cache, a);
    }
  }

  lemma EvictStaysGood(p: Parameters, st: State, a: nat, round: nat)
    requires Good(p, st) && a < p.size && IsEvictionRound(p, st, a, round) && st.blocksToWrite == []
    ensures Good(p, AfterEvict(st, a, round))
  {
    hide Consistent, GoodCommits, IsEvictionRound, Written, CacheSound, RefsMirror, CachedAbove, Anchored, LinksClosed,
      LinkedOnce;
    EvictionAdvances(p, st, a, round);
    EvictKeepsCache(p, st, a, round);
    EvictKeepsLinks(st.cache, UpTo(st.refs[a], round), GcRound(p, st.last), st.everLinked, st.accepted);
    CommitsUnaffected(p, st, AfterEvict(st, a, round));
  }

  /** Commits do not depend on the cache. */
  lemma CommitsUnaffected(p: Parameters, st: State, st': State)
    requires GoodCommits(p, st)
    requires st'.commits == st.commits && st'.store == st.store && st'.commitsToWrite == st.commitsToWrite
    requires st'.last == st.last && st'.rounds == st.rounds && st'.infoToWrite == st.infoToWrite
    ensures GoodCommits(p, st')
  {
  }
  // ----- hard links ---------------------------------------------------------------------

  ghost predicate Reaches(m: BlockMap, root: BlockRef, r: BlockRef) {
    r == root || Linked(m, root, r)
  }

  /** `after` is `before` with exactly the blocks of `newly` marked as linked. */
  ghost predicate Marked(before: Cache, after: Cache, newly: seq<BlockRef>) {
    && after.Keys == before.Keys
    && (forall r :: r in before ==> after[r] == before[r].(hardLinked := before[r].hardLinked || r in newly))
    && (forall r :: r in newly ==> r in before && !before[r].hardLinked)
    && NoRepeats(newly)
  }

  /** The traversal invariant: newly linked and waiting blocks are reachable, and what a linked block
      links to above the GC round is linked or waiting. */
  ghost predicate Linking(m: BlockMap, cache: Cache, gcRound: nat, root: BlockRef, newly: seq<BlockRef>,
                          targets: seq<BlockRef>) {
    && (forall r :: r in newly ==> r.round > gcRound && Reaches(m, root, r))
    && (forall r :: r in targets ==> Reaches(m, root, r))
    && (forall x, a :: IsLinked(cache, x) && x.round > gcRound && a in cache[x].block.ancestors && a.round > gcRound
          ==> IsLinked(cache, a) || a in targets)
    && (root.round > gcRound ==> IsLinked(cache, root) || root in targets)
  }

  lemma StartLinking(m: BlockMap, cache: Cache, gcRound: nat, root: BlockRef)
    requires LinksClosed(cache, gcRound)
    ensures Linking(m, cache, gcRound, root, [], [root]) && Marked(cache, cache, [])
  {
  }

  /** A waiting block that is old or linked already needs nothing. */
  lemma SkipTarget(m: BlockMap, cache: Cache, gcRound: nat, root: BlockRef, newly: seq<BlockRef>,
                   targets: seq<BlockRef>)
    requires Linking(m, cache, gcRound, root, newly, targets) && targets != []
    requires targets[0].round <= gcRound || IsLinked(cache, targets[0])
    ensures Linking(m, cache, gcRound, root, newly, targets[1..])
  {
    hide Reaches;
    assert targets == [targets[0]] + targets[1..];
  }

  /** Everything the traversal meets above the GC round is accepted, hence cached. */
  lemma TargetIsCached(p: Parameters, st: State, cache: Cache, root: BlockRef, t: BlockRef)
    requires Good(p, st) && cache.Keys == st.cache.Keys && root in st.cache
    requires t.round > GcRound(p, st.last) && Reaches(st.accepted, root, t)
    ensures t in cache && t in st.accepted
  {
    hide CacheSound, RefsMirror, Anchored, Written, GoodCommits, GoodLinks, ProperCommits, Linked, LastCommit;
    assert root in st.accepted by {
      assert CacheSound(st.cache, st.accepted);
      CachedIsAccepted(st.cache, st.accepted, root);
    }
    if t != root {
      LastAgrees(p, st);
      BlocksAreGrounded(p.size, st.accepted);
      assert PartOf(st.accepted, st.accepted);
      LinkedAgrees(st.accepted, st.accepted, GcRound(p, st.last), root, t);
    }
  }

  lemma LastAgrees(p: Parameters, st: State)
    requires Good(p, st)
    ensures CompleteAbove(st.accepted, GcRound(p, st.last))
  {
  }

  lemma CachedIsAccepted(cache: Cache, accepted: BlockMap, r: BlockRef)
    requires CacheSound(cache, accepted) && r in cache
    ensures r in accepted && cache[r].block == accepted[r]
  {
  }

  lemma BlocksAreGrounded(size: nat, blocks: BlockMap)
    requires ProperBlocks(size, blocks)
    ensures Grounded(blocks)
  {
  }

  lemma ReachesFurther(m: BlockMap, root: BlockRef, t: BlockRef, a: BlockRef)
    requires Grounded(m) && Reaches(m, root, t) && t in m && a in m[t].ancestors
    ensures Reaches(m, root, a)
  {
    if t != root {
      LinkedExtends(m, root, t, a);
    }
  }

  /** Linking a waiting block puts its ancestors on the queue. */
  lemma LinkTarget(m: BlockMap, cache: Cache, gcRound: nat, root: BlockRef, newly: seq<BlockRef>,
                   targets: seq<BlockRef>)
    requires Linking(m, cache, gcRound, root, newly, targets) && targets != [] && Grounded(m) && CacheSound(cache, m)
    requires targets[0].round > gcRound && targets[0] in cache
    ensures var t := targets[0];
            Linking(m, cache[t := cache[t].(hardLinked := true)], gcRound, root, newly + [t],
                    targets[1..] + cache[t].block.ancestors)
  {
    hide Reaches;
    var t := targets[0];
    var ancestors := cache[t].block.ancestors;
    assert targets == [t] + targets[1..];
    forall a | a in ancestors
      ensures Reaches(m, root, a)
    {
      ReachesFurther(m, root, t, a);
    }
  }

  lemma MarkTarget(before: Cache, cache: Cache, newly: seq<BlockRef>, t: BlockRef)
    requires Marked(before, cache, newly) && t in cache && !cache[t].hardLinked
    ensures Marked(before, cache[t := cache[t].(hardLinked := true)], newly + [t])
  {
  }

  /** A closed set of linked blocks contains everything reachable above the GC round. */
  lemma {:induction false} LinkedReachesAll(m: BlockMap, cache: Cache, gcRound: nat, x: BlockRef, r: BlockRef)
    requires Grounded(m) && CacheSound(cache, m) && LinksClosed(cache, gcRound)
    requires IsLinked(cache, x) && x in m && Linked(m, x, r) && r.round > gcRound
    ensures IsLinked(cache, r)
    decreases x.round
  {
    LinkedLowersRound(m, x, r);
    if r !in m[x].ancestors {
      var a :| a in m[x].ancestors && a.round < x.round && Linked(m, a, r);
      LinkedLowersRound(m, a, r);
      LinkedReachesAll(m, cache, gcRound, a, r);
    }
  }

  /** When the queue is empty, exactly the reachable blocks that were not linked have been linked. */
  lemma LinkingIsExact(m: BlockMap, before: Cache, cache: Cache, gcRound: nat, root: BlockRef, newly: seq<BlockRef>)
    requires Linking(m, cache, gcRound, root, newly, []) && Marked(before, cache, newly)
    requires Grounded(m) && CacheSound(cache, m)
    ensures LinksClosed(cache, gcRound)
    ensures forall r :: r in newly <==> r.round > gcRound && Reaches(m, root, r) && !IsLinked(before, r)
  {
    forall r: BlockRef | r.round > gcRound && Reaches(m, root, r)
      ensures IsLinked(cache, r)
    {
      if r != root {
        LinkedLowersRound(m, root, r);
        LinkedReachesAll(m, cache, gcRound, root, r);
      }
    }
  }

  ghost function AfterLink(st: State, cache: Cache, newly: seq<BlockRef>): State {
    st.(cache := cache, everLinked := st.everLinked + Members(newly))
  }

  ghost predicate SameBlocks(before: Cache, after: Cache) {
    after.Keys == before.Keys && forall r :: r in before ==> after[r].block == before[r].block
  }

  lemma SameRefs(before: Cache, after: Cache, refs: seq<set<BlockRef>>)
    requires RefsMirror(before, refs) && after.Keys == before.Keys
    ensures RefsMirror(after, refs)
  {
    forall a | 0 <= a < |refs|
      ensures refs[a] == RefsBy(after, a)
    {
      assert refs[a] == RefsBy(before, a);
    }
  }

  /** Marks do not matter to the cache. */
  lemma MarksKeepCache(p: Parameters, st: State, cache: Cache)
    requires GoodCache(p, st) && SameBlocks(st.cache, cache)
    ensures GoodCache(p, st.(cache := cache)) && CacheSound(cache, st.accepted)
  {
    hide RefsMirror, Anchored, EvictedBelow, RefsOf;
    SameRefs(st.cache, cache, st.refs);
  }

  lemma LinkStaysGood(p: Parameters, st: State, cache: Cache, newly: seq<BlockRef>)
    requires Good(p, st) && Marked(st.cache, cache, newly) && LinksClosed(cache, GcRound(p, st.last))
    ensures Good(p, AfterLink(st, cache, newly))
    ensures forall r :: r in newly ==> r !in st.everLinked
  {
    hide Consistent, GoodCommits, LinksClosed, Anchored, RefsMirror, Written, GcRound;
    MarksKeepCache(p, st, cache);
    CommitsUnaffected(p, st, AfterLink(st, cache, newly));
    CacheUnaffected(p, st.(cache := cache), AfterLink(st, cache, newly));
  }

  /** The cache does not depend on the record of linked blocks. */
  lemma CacheUnaffected(p: Parameters, st: State, st': State)
    requires GoodCache(p, st) && st' == st.(everLinked := st'.everLinked)
    ensures GoodCache(p, st')
  {
  }

  // ----- recovery -----------------------------------------------------------------------

  /** While blocks are loaded: the authorities below `k` are done, the others have nothing. */
  ghost predicate Loaded(p: Parameters, cache: Cache, refs: seq<set<BlockRef>>, evicted: seq<nat>, blocks: BlockMap,
                         k: nat) {
    && |refs| == p.size && |evicted| == p.size
    && (forall r :: r in cache ==> r in blocks && cache[r] == BlockInfo(blocks[r], false, false) && r.author < k)
    && RefsMirror(cache, refs) && Anchored(refs, evicted, p.cachedRounds)
    && (forall r :: r in blocks && r.author < k && r.author < p.size && r.round > evicted[r.author] ==> r in cache)
    && (forall a :: k <= a < p.size ==> evicted[a] == 0)
  }

  ghost predicate IsHighest(blocks: BlockMap, a: nat, round: nat) {
    && (forall r :: r in blocks && r.author == a ==> r.round <= round)
    && (round == GENESIS_ROUND || exists r :: r in blocks && r.author == a && r.round == round)
  }

  lemma LoadOne(p: Parameters, cache: Cache, refs: seq<set<BlockRef>>, evicted: seq<nat>, blocks: BlockMap, a: nat,
                highest: nat, round: nat, gcRound: nat, cache': Cache)
    requires Loaded(p, cache, refs, evicted, blocks, a) && a < p.size && p.cachedRounds >= 1
    requires IsHighest(blocks, a, highest) && round == EvictionRound(highest, gcRound, p.cachedRounds)
    requires forall r :: r in cache' <==> r in cache || (r in blocks && r.author == a && r.round > round)
    requires forall r :: r in cache' ==> r in blocks && cache'[r] == BlockInfo(blocks[r], false, false)
    ensures Loaded(p, cache', refs[a := RefsBy(cache', a)], evicted[a := round], blocks, a + 1)
  {
    var refs', evicted' := refs[a := RefsBy(cache', a)], evicted[a := round];
    forall x | 0 <= x < |refs'|
      ensures refs'[x] == RefsBy(cache', x)
    {
      assert refs[x] == RefsBy(cache, x);
    }
    forall x | 0 <= x < |evicted'| && evicted'[x] > 0
      ensures HasAbove(refs'[x], evicted'[x] + p.cachedRounds)
    {
      if x == a {
        var r :| r in blocks && r.author == a && r.round == highest;
        assert r in cache';
      } else {
        assert HasAbove(refs[x], evicted[x] + p.cachedRounds);
      }
    }
  }

  lemma LoadedIsCached(p: Parameters, cache: Cache, refs: seq<set<BlockRef>>, evicted: seq<nat>, blocks: BlockMap)
    requires Loaded(p, cache, refs, evicted, blocks, p.size) && ProperBlocks(p.size, blocks)
    ensures Cached(p, cache, refs, evicted, blocks) && Written(cache, blocks, [], blocks)
    ensures LinksClosed(cache, 0)
  {
  }

  /** Committed marks of the commits from index `k` on, above the GC round. */
  ghost predicate CommittedFrom(cache: Cache, commits: seq<TrustedCommit>, gcRound: nat, k: nat) {
    forall r :: r in cache ==> (cache[r].committed <==> r.round > gcRound && ListedFrom(commits, k, r))
  }

  ghost predicate ListedFrom(commits: seq<TrustedCommit>, k: nat, r: BlockRef) {
    exists i :: k <= i < |commits| && r in commits[i].blocks
  }

  /** The early stop loses nothing: earlier commits list only blocks at or below their leader's round. */
  lemma EarlyStopIsSafe(commits: seq<TrustedCommit>, cache: Cache, gcRound: nat, k: nat)
    requires ProperCommits(commits) && k < |commits| && commits[k].leader.round <= gcRound
    requires CommittedFrom(cache, commits, gcRound, k + 1)
    ensures CommittedFrom(cache, commits, gcRound, 0)
  {
    forall r, i | 0 <= i <= k && r in commits[i].blocks
      ensures r.round <= gcRound
    {
      assert ProperCommit(commits[i]);
      assert i < k ==> Succeeds(commits[i], commits[k]);
    }
    forall r | r in cache
      ensures cache[r].committed <==> r.round > gcRound && ListedFrom(commits, 0, r)
    {
      if r.round > gcRound && ListedFrom(commits, 0, r) {
        var i :| 0 <= i < |commits| && r in commits[i].blocks;
        assert i > k;
        assert ListedFrom(commits, k + 1, r);
      }
      if ListedFrom(commits, k + 1, r) {
        assert ListedFrom(commits, 0, r);
      }
    }
  }

  /** Blocks of commit `k`, up to position `n`, are marked too. */
  ghost predicate CommittedUpTo(cache: Cache, commits: seq<TrustedCommit>, gcRound: nat, k: nat, n: nat)
    requires k < |commits| && n <= |commits[k].blocks|
  {
    forall r :: r in cache ==>
      (cache[r].committed <==> r.round > gcRound && (ListedFrom(commits, k + 1, r) || r in commits[k].blocks[..n]))
  }

  /** Marking never meets a block that is marked already. */
  lemma NotMarkedYet(commits: seq<TrustedCommit>, cache: Cache, gcRound: nat, k: nat, n: nat)
    requires ProperCommits(commits) && k < |commits| && n < |commits[k].blocks|
    requires CommittedUpTo(cache, commits, gcRound, k, n) && commits[k].blocks[n] in cache
    ensures !cache[commits[k].blocks[n]].committed
  {
    var r := commits[k].blocks[n];
    assert ProperCommit(commits[k]);
    if ListedFrom(commits, k + 1, r) {
      var i :| k + 1 <= i < |commits| && r in commits[i].blocks;
      assert Succeeds(commits[k], commits[i]);
    }
  }

  lemma MarkNext(commits: seq<TrustedCommit>, cache: Cache, cache': Cache, gcRound: nat, k: nat, n: nat)
    requires k < |commits| && n < |commits[k].blocks| && CommittedUpTo(cache, commits, gcRound, k, n)
    requires var r := commits[k].blocks[n];
             if r.round > gcRound then r in cache && cache' == cache[r := cache[r].(committed := true)]
               else cache' == cache
    ensures CommittedUpTo(cache', commits, gcRound, k, n + 1)
  {
    assert commits[k].blocks[..n + 1] == commits[k].blocks[..n] + [commits[k].blocks[n]];
  }

  lemma CommitMarked(commits: seq<TrustedCommit>, cache: Cache, gcRound: nat, k: nat)
    requires k < |commits| && CommittedUpTo(cache, commits, gcRound, k, |commits[k].blocks|)
    ensures CommittedFrom(cache, commits, gcRound, k)
  {
    assert commits[k].blocks[..|commits[k].blocks|] == commits[k].blocks;
    forall r
      ensures ListedFrom(commits, k, r) <==> ListedFrom(commits, k + 1, r) || r in commits[k].blocks
    {
      if ListedFrom(commits, k + 1, r) {
        var i :| k + 1 <= i < |commits| && r in commits[i].blocks;
        assert k <= i;
      }
    }
  }

  lemma StartMarking(commits: seq<TrustedCommit>, cache: Cache, gcRound: nat, k: nat)
    requires k < |commits| && CommittedFrom(cache, commits, gcRound, k + 1)
    ensures CommittedUpTo(cache, commits, gcRound, k, 0)
  {
  }
  lemma SetCommittedStaysGood(p: Parameters, st: State, r: BlockRef)
    requires Good(p, st) && r in st.cache
    ensures Good(p, st.(cache := st.cache[r := st.cache[r].(committed := true)]))
  {
    hide Consistent, Cached, Written, GoodCommits, EvictedBelow, GcRound;
    var cache := st.cache[r := st.cache[r].(committed := true)];
    MarksKeepCache(p, st, cache);
    assert forall x :: IsLinked(cache, x) <==> IsLinked(st.cache, x);
    CommitsUnaffected(p, st, st.(cache := cache));
  }

  /** What is in the DAG: genesis and all accepted blocks. */
  function Lookup(genesis: BlockMap, blocks: BlockMap, r: BlockRef): Option<Block> {
    if r in genesis then Some(genesis[r]) else if r in blocks then Some(blocks[r]) else None
  }

  /** Genesis, then the cache, then the store, give what was accepted. */
  lemma LookupIsExact(p: Parameters, st: State, r: BlockRef)
    requires Good(p, st)
    ensures r.round == GENESIS_ROUND ==> r !in st.accepted
    ensures r.round != GENESIS_ROUND ==> r !in p.genesis
    ensures r in st.cache ==> r in st.accepted && st.cache[r].block == st.accepted[r]
    ensures r !in st.cache ==> Lookup(map[], st.store.blocks, r) == Lookup(map[], st.accepted, r)
  {
    hide GoodCommits, GoodLinks, RefsMirror, CachedAbove, Anchored, CompleteAbove, ProperCommits;
  }

  lemma FoundInState(p: Parameters, st: State, r: BlockRef)
    requires Good(p, st) && r.author < p.size
    ensures r.author < |st.refs|
    ensures Found(p.genesis, st.refs[r.author], st.store.blocks, r) <==> r in p.genesis || r in st.accepted
  {
    hide GoodLinks, RefsMirror, CachedAbove, Anchored, CompleteAbove, ProperCommits, Written, Found, CacheSound,
      RoundsAfter;
    FoundIsExact(p, st.cache, st.refs, st.evicted, st.accepted, st.store.blocks, st.blocksToWrite, r);
  }

  lemma GreatestIsAbove(refs: set<BlockRef>, last: BlockRef, round: nat)
    requires IsGreatest(last, refs)
    ensures HasAbove(refs, round) <==> round <= last.round
  {
  }

  method RaiseRounds(rounds: seq<nat>, refs: seq<BlockRef>) returns (raised: seq<nat>)
    ensures raised == Raised(rounds, refs)
  {
    raised := rounds;
    for i := 0 to |refs|
      invariant raised == Raised(rounds, refs[..i])
    {
      assert refs[..i + 1][..i] == refs[..i];
      var r := refs[i];
      if r.author < |raised| && raised[r.author] < r.round {
        raised := raised[r.author := r.round];
      }
    }
    assert refs[..|refs|] == refs;
  }

  /** Recovers the last committed rounds from the stored commit info and the commits after it; the
      result is the fold over all commits. */
  method RecoverRounds(p: Parameters, store: Store) returns (rounds: seq<nat>)
    requires ProperStore(p, store)
    ensures rounds == RoundsAfter(p.size, store.commits)
  {
    hide Consistent, Raised;
    var start := 0;
    rounds := seq(p.size, _ => 0);
    if store.info.Some? {
      start, rounds := store.info.value.index, store.info.value.committedRounds;
    }
    for i := start to |store.commits|
      invariant rounds == RoundsAfter(p.size, store.commits[..i])
    {
      assert store.commits[..i + 1][..i] == store.commits[..i];
      rounds := RaiseRounds(rounds, store.commits[i].blocks);
    }
    assert store.commits[..|store.commits|] == store.commits;
  }

  /** Writes blocks into a map. */
  method WriteBlocks(m: BlockMap, blocks: seq<Block>, ghost accepted: BlockMap) returns (m': BlockMap)
    requires forall i :: 0 <= i < |blocks| ==> blocks[i].ref in accepted && accepted[blocks[i].ref] == blocks[i]
    requires PartOf(m, accepted)
    ensures m'.Keys == m.Keys + RefsOf(blocks) && PartOf(m', accepted)
  {
    m' := m;
    NoRefs();
    for i := 0 to |blocks|
      invariant m'.Keys == m.Keys + RefsOf(blocks[..i]) && PartOf(m', accepted)
    {
      assert blocks[..i + 1] == blocks[..i] + [blocks[i]];
      RefsOfAppend(blocks[..i], blocks[i]);
      m' := m'[blocks[i].ref := blocks[i]];
    }
    assert blocks[..|blocks|] == blocks;
  }

  /** The store and the unwritten blocks together are what was accepted. */
  lemma WriteCompletes(cache: Cache, store: BlockMap, unwritten: seq<Block>, accepted: BlockMap, store': BlockMap)
    requires Written(cache, store, unwritten, accepted)
    requires store'.Keys == store.Keys + RefsOf(unwritten) && PartOf(store', accepted)
    ensures store' == accepted
  {
    forall r | r in RefsOf(unwritten)
      ensures r in accepted
    {
      var i :| 0 <= i < |unwritten| && unwritten[i].ref == r;
    }
  }

  /** A cache without anything at or below the evicted rounds of the authorities below `k`. */
  ghost function Kept(cache: Cache, evicted: seq<nat>, k: nat): Cache {
    map r | r in cache && !(r.author < k && r.author < |evicted| && r.round <= evicted[r.author]) :: cache[r]
  }

  lemma KeptOneMore(cache: Cache, evicted: seq<nat>, a: nat, round: nat)
    requires a < |evicted|
    ensures Kept(cache, evicted[a := round], a + 1) == Kept(cache, evicted, a) - UpTo(RefsBy(cache, a), round)
  {
    var kept, kept' := Kept(cache, evicted, a), Kept(cache, evicted[a := round], a + 1);
    forall r
      ensures r in kept' <==> r in kept && r !in UpTo(RefsBy(cache, a), round)
    {
    }
  }

  lemma KeptAll(cache: Cache, evicted: seq<nat>)
    ensures Kept(cache, evicted, 0) == cache
  {
  }

  /** The outcome of a flush that has something to write: everything is in the store, and each authority's
      blocks up to its eviction round have left the cache. */
  ghost predicate Flushed(p: Parameters, st: State, st': State) {
    && st' == AfterWrite(st).(cache := st'.cache, refs := st'.refs, evicted := st'.evicted)
    && |st.refs| == p.size == |st'.evicted|
    && st'.cache == Kept(st.cache, st'.evicted, p.size)
    && forall a :: 0 <= a < p.size ==> IsEvictionRound(p, st, a, st'.evicted[a])
  }

  /** Some authorities are still to be evicted. */
  ghost predicate Evicting(p: Parameters, st: State, now: State, k: nat) {
    && now == AfterWrite(st).(cache := now.cache, refs := now.refs, evicted := now.evicted)
    && |st.refs| == |now.refs| == |now.evicted| == p.size && k <= p.size
    && now.cache == Kept(st.cache, now.evicted, k)
    && (forall a :: k <= a < p.size ==> now.refs[a] == st.refs[a])
    && (forall a :: 0 <= a < k ==> IsEvictionRound(p, st, a, now.evicted[a]))
  }

  lemma EvictingStarts(p: Parameters, st: State)
    requires Good(p, st)
    ensures Evicting(p, st, AfterWrite(st), 0)
  {
    hide GoodCommits, GoodLinks, Consistent;
    KeptAll(st.cache, st.evicted);
  }

  lemma EvictingStep(p: Parameters, st: State, now: State, k: nat, round: nat)
    requires Good(p, st) && Evicting(p, st, now, k) && k < p.size && IsEvictionRound(p, now, k, round)
    ensures Evicting(p, st, AfterEvict(now, k, round), k + 1)
  {
    hide GoodCommits, GoodLinks, Consistent, Kept, UpTo, Written, EvictionRound, GcRound, Anchored, CachedAbove,
      CacheSound;
    assert st.refs[k] == RefsBy(st.cache, k);
    KeptOneMore(st.cache, now.evicted, k, round);
    assert IsEvictionRound(p, st, k, round);
  }

  lemma EvictingEnds(p: Parameters, st: State, now: State)
    requires Evicting(p, st, now, p.size)
    ensures Flushed(p, st, now)
  {
    hide IsEvictionRound, Kept, AfterWrite;
  }

  lemma NothingToWrite(p: Parameters, st: State)
    requires Good(p, st) && st.blocksToWrite == [] && st.commitsToWrite == []
    ensures st.store.blocks == st.accepted && st.store.commits == st.commits
  {
    NoRefs();
    assert st.store.commits + [] == st.store.commits;
  }

  // ----- the recovered state ------------------------------------------------------------

  /** The state after a restart, before any mark is recovered. */
  ghost predicate Restarted(p: Parameters, store: Store, st: State) {
    && st.last == LastCommit(store.commits) && st.rounds == RoundsAfter(p.size, store.commits)
    && st.blocksToWrite == [] && st.commitsToWrite == [] && st.infoToWrite == [] && st.store == store
    && st.accepted == store.blocks && st.commits == store.commits && st.everLinked == {}
  }

  lemma RestartIsGood(p: Parameters, store: Store, st: State)
    requires ProperParameters(p) && ProperStore(p, store) && Restarted(p, store, st)
    requires Loaded(p, st.cache, st.refs, st.evicted, store.blocks, p.size)
    requires EvictedBelow(st.evicted, GcRound(p, st.last))
    ensures Good(p, st)
    ensures forall r :: r in st.cache ==> !st.cache[r].committed && !st.cache[r].hardLinked
  {
    hide Cached, Written, RoundsAfter, EvictedBelow, CompleteAbove, ProperCommits;
    assert st.commits == st.store.commits + st.commitsToWrite;
    LoadedIsCached(p, st.cache, st.refs, st.evicted, store.blocks);
  }

  /** Above the GC round, every committed block is cached. */
  lemma CommittedIsCached(p: Parameters, st: State, k: nat, r: BlockRef)
    requires Good(p, st) && k < |st.commits| && r in st.commits[k].blocks && r.round > GcRound(p, st.last)
    ensures r in st.cache
  {
    hide GoodCommits, GoodLinks, Written, RefsMirror, Anchored, CacheSound, ProperCommits, CompleteAbove, GcRound;
    assert CommittedBy(st.commits, r);
  }

  lemma CommitsAreProper(p: Parameters, st: State)
    requires Good(p, st)
    ensures ProperCommits(st.commits)
  {
  }

  /** Linked from an own block above the GC round. */
  ghost predicate LinkedFromOwn(m: BlockMap, own: nat, gcRound: nat, r: BlockRef) {
    exists x :: x in m && x.author == own && x.round > gcRound && Reaches(m, x, r)
  }

  ghost predicate LinkedFromSome(m: BlockMap, roots: seq<BlockRef>, r: BlockRef) {
    exists i :: 0 <= i < |roots| && Reaches(m, roots[i], r)
  }

  /** The hard-link marks are those of the given roots. */
  ghost predicate LinkedExactly(cache: Cache, m: BlockMap, gcRound: nat, roots: seq<BlockRef>) {
    forall r :: r in cache ==> (cache[r].hardLinked <==> r.round > gcRound && LinkedFromSome(m, roots, r))
  }

  lemma LinkRoot(m: BlockMap, before: Cache, after: Cache, gcRound: nat, roots: seq<BlockRef>, root: BlockRef,
                 newly: seq<BlockRef>)
    requires LinkedExactly(before, m, gcRound, roots) && Marked(before, after, newly)
    requires forall r :: r in newly <==> r.round > gcRound && Reaches(m, root, r) && !IsLinked(before, r)
    ensures LinkedExactly(after, m, gcRound, roots + [root])
  {
    hide Reaches;
    var roots' := roots + [root];
    forall r
      ensures LinkedFromSome(m, roots', r) <==> LinkedFromSome(m, roots, r) || Reaches(m, root, r)
    {
      if LinkedFromSome(m, roots, r) {
        var i :| 0 <= i < |roots| && Reaches(m, roots[i], r);
        assert roots'[i] == roots[i];
      }
      assert roots'[|roots|] == root;
    }
  }

  lemma OwnRoots(m: BlockMap, own: nat, gcRound: nat, roots: seq<BlockRef>, r: BlockRef)
    requires forall x :: x in roots <==> x in m && x.author == own && x.round > gcRound
    ensures LinkedFromSome(m, roots, r) <==> LinkedFromOwn(m, own, gcRound, r)
  {
    hide Reaches;
    if LinkedFromSome(m, roots, r) {
      var i :| 0 <= i < |roots| && Reaches(m, roots[i], r);
      assert roots[i] in roots;
    }
  }

  class DagState {
    const p: Parameters

    // Recent blocks, and their references per authority.
    var recentBlocks: Cache
    var recentRefs: seq<set<BlockRef>>
    // Highest evicted round per authority.
    var evictedRounds: seq<nat>
    var lastCommit: Option<TrustedCommit>
    var lastCommittedRounds: seq<nat>
    // Data that is not persisted yet.
    var blocksToWrite: seq<Block>
    var commitsToWrite: seq<TrustedCommit>
    var infoToWrite: seq<CommitInfo>
    // Persistent storage.
    var store: Store

    // All blocks accepted, all commits added, and all blocks returned as newly linked.
    ghost var accepted: BlockMap
    ghost var commits: seq<TrustedCommit>
    ghost var everLinked: set<BlockRef>

    ghost function Snapshot(): State
      reads this
    {
      State(recentBlocks, recentRefs, evictedRounds, lastCommit, lastCommittedRounds,
            blocksToWrite, commitsToWrite, infoToWrite, store, accepted, commits, everLinked)
    }

    ghost predicate Valid()
      reads this
    {
      Good(p, Snapshot())
    }

    /** Recovers the state from the store. The last committed rounds are the fold over all commits;
        above the GC round a block is committed exactly if a stored commit lists it, and hard linked
        exactly if it is reachable from an own block. */
    constructor (p: Parameters, store: Store)
      requires ProperParameters(p) && ProperStore(p, store)
      ensures Valid() && this.p == p && this.store == store
      ensures accepted == store.blocks && commits == store.commits && lastCommit == LastCommit(store.commits)
      ensures lastCommittedRounds == RoundsAfter(p.size, store.commits)
      ensures forall r :: r in store.blocks && r.round > GcRound(p, lastCommit) ==>
                && r in recentBlocks
                && (recentBlocks[r].committed <==> CommittedBy(store.commits, r))
                && (recentBlocks[r].hardLinked <==> LinkedFromOwn(store.blocks, p.ownIndex, GcRound(p, lastCommit), r))
    {
      hide Good, Loaded, Restarted, ProperStore, ProperBlocks, RoundsAfter, LastCommit, GcRound;
      hide CommittedFrom, CommittedBy, LinkedFromOwn, EvictedBelow;
      this.p, this.store := p, store;
      var rounds := RecoverRounds(p, store);
      recentBlocks, recentRefs, evictedRounds := map[], seq(p.size, _ => {}), seq(p.size, _ => 0);
      lastCommit := LastCommit(store.commits);
      lastCommittedRounds := rounds;
      blocksToWrite, commitsToWrite, infoToWrite := [], [], [];
      accepted, commits, everLinked := store.blocks, store.commits, {};
      new;
      NothingLoaded(p, recentRefs, evictedRounds, store.blocks, GcRound(p, lastCommit));
      StoredAreProper(p, store);
      LoadBlocks();
      IsRestarted(p, store, Snapshot());
      RestartIsGood(p, store, Snapshot());
      RecoverCommitted();
      ghost var marked := recentBlocks;
      RecoverLinks();
      CommittedSame(marked, recentBlocks, store.commits, GcRound(p, lastCommit));
      Recovered(p, Snapshot());
    }

    /** Caches stored blocks of one authority. */
    method LoadRefs(a: nat, refs: set<BlockRef>)
      requires a < |recentRefs| && refs <= store.blocks.Keys
      requires forall r :: r in refs ==> store.blocks[r].ref == r && r.author == a
      modifies this`recentBlocks, this`recentRefs
      ensures recentBlocks == WithStored(old(recentBlocks), store.blocks, refs)
      ensures recentRefs == old(recentRefs)[a := old(recentRefs)[a] + refs]
    {
      hide WithStored, WithBlock, WithRef;
      var rest := refs;
      NothingMore(recentBlocks, recentRefs, store.blocks, a, refs);
      while rest != {}
        invariant rest <= refs && |recentRefs| == |old(recentRefs)|
        invariant recentBlocks == WithStored(old(recentBlocks), store.blocks, refs - rest)
        invariant recentRefs == old(recentRefs)[a := old(recentRefs)[a] + (refs - rest)]
        decreases |rest|
      {
        var r := First(rest);
        StoredOneMore(old(recentBlocks), store.blocks, refs, rest, r);
        RefsOneMore(old(recentRefs), a, refs - rest, r);
        UpdateBlockMetadata(store.blocks[r]);
        rest := rest - {r};
      }
      assert refs - rest == refs;
    }

    /** Loads the blocks of one authority above its eviction round. */
    method LoadAuthority(a: nat)
      requires Loaded(p, recentBlocks, recentRefs, evictedRounds, store.blocks, a) && a < p.size && ProperParameters(p)
      requires ProperBlocks(p.size, store.blocks) && EvictedBelow(evictedRounds, GcRound(p, lastCommit))
      modifies this`recentBlocks, this`recentRefs, this`evictedRounds
      ensures Loaded(p, recentBlocks, recentRefs, evictedRounds, store.blocks, a + 1)
      ensures EvictedBelow(evictedRounds, GcRound(p, lastCommit))
    {
      hide Anchored, RefsMirror, GcRound, IsHighest, EvictionRound, LowerRounds, EvictedBelow, WithStored;
      ghost var cache, refs, evicted := recentBlocks, recentRefs, evictedRounds;
      var all := set r | r in store.blocks && r.author == a;
      var highest := GENESIS_ROUND;
      if all != {} {
        var last := Last(all);
        highest := last.round;
      }
      HighestOf(store.blocks, a, all, highest);
      var round := EvictionRound(highest, GcRound(p, lastCommit), p.cachedRounds);
      EvictionBelowGc(evictedRounds, a, round, highest, GcRound(p, lastCommit), p.cachedRounds);
      evictedRounds := evictedRounds[a := round];
      var toLoad := set r | r in all && r.round > round;
      LoadRefs(a, toLoad);
      LoadMore(p, cache, refs, evicted, store.blocks, a, highest, round, GcRound(p, lastCommit), toLoad);
    }

    method LoadBlocks()
      requires Loaded(p, recentBlocks, recentRefs, evictedRounds, store.blocks, 0) && ProperParameters(p)
      requires ProperBlocks(p.size, store.blocks) && EvictedBelow(evictedRounds, GcRound(p, lastCommit))
      modifies this`recentBlocks, this`recentRefs, this`evictedRounds
      ensures Loaded(p, recentBlocks, recentRefs, evictedRounds, store.blocks, p.size)
      ensures EvictedBelow(evictedRounds, GcRound(p, lastCommit))
    {
      hide *;
      for a := 0 to p.size
        invariant Loaded(p, recentBlocks, recentRefs, evictedRounds, store.blocks, a)
        invariant EvictedBelow(evictedRounds, GcRound(p, lastCommit))
      {
        LoadAuthority(a);
      }
    }

    /** Marks the blocks of one commit above the GC round; none of them is marked already. */
    method RecoverCommit(k: nat)
      requires Valid() && k < |store.commits| && commits == store.commits
      requires CommittedFrom(recentBlocks, store.commits, GcRound(p, lastCommit), k + 1)
      modifies this`recentBlocks
      ensures Valid() && CommittedFrom(recentBlocks, store.commits, GcRound(p, lastCommit), k)
      ensures SameLinks(old(recentBlocks), recentBlocks)
    {
      hide Good, CommittedFrom, CommittedUpTo, ProperCommits, GcRound;
      var gcRound := GcRound(p, lastCommit);
      var blocks := store.commits[k].blocks;
      CommitsAreProper(p, Snapshot());
      StartMarking(store.commits, recentBlocks, gcRound, k);
      for n := 0 to |blocks|
        invariant Valid() && CommittedUpTo(recentBlocks, store.commits, gcRound, k, n)
        invariant SameLinks(old(recentBlocks), recentBlocks)
      {
        ghost var cache := recentBlocks;
        if blocks[n].round > gcRound {
          CommittedIsCached(p, Snapshot(), k, blocks[n]);
          NotMarkedYet(store.commits, recentBlocks, gcRound, k, n);
          var first := SetCommitted(blocks[n]);
          assert first;
        }
        MarkNext(store.commits, cache, recentBlocks, gcRound, k, n);
      }
      CommitMarked(store.commits, recentBlocks, gcRound, k);
    }

    /** Recovers commit marks, newest commit first, down to the first commit with a leader at or below
        the GC round. */
    method RecoverCommitted()
      requires Valid() && commits == store.commits && forall r :: r in recentBlocks ==> !recentBlocks[r].committed
      modifies this`recentBlocks
      ensures Valid() && CommittedFrom(recentBlocks, store.commits, GcRound(p, lastCommit), 0)
      ensures SameLinks(old(recentBlocks), recentBlocks)
    {
      hide Good, CommittedFrom, ProperCommits, GcRound, ListedFrom, CommittedUpTo;
      var gcRound := GcRound(p, lastCommit);
      CommitsAreProper(p, Snapshot());
      NothingCommitted(recentBlocks, store.commits, gcRound);
      var index: nat := |store.commits|;
      while index > 0
        invariant index <= |store.commits|
        invariant Valid() && CommittedFrom(recentBlocks, store.commits, gcRound, index)
        invariant SameLinks(old(recentBlocks), recentBlocks)
      {
        if gcRound > 0 && store.commits[index - 1].leader.round <= gcRound {
          EarlyStopIsSafe(store.commits, recentBlocks, gcRound, index - 1);
          return;
        }
        RecoverCommit(index - 1);
        index := index - 1;
      }
    }

    /** Recovers hard-link marks from the own blocks above the GC round. */
    method RecoverLinks()
      requires Valid() && accepted == store.blocks && forall r :: r in recentBlocks ==> !recentBlocks[r].hardLinked
      modifies this`recentBlocks, this`everLinked
      ensures Valid() && SameCommitted(old(recentBlocks), recentBlocks)
      ensures forall r :: r in recentBlocks && r.round > GcRound(p, lastCommit) ==>
                (recentBlocks[r].hardLinked <==> LinkedFromOwn(accepted, p.ownIndex, GcRound(p, lastCommit), r))
    {
      hide Good, Reaches, GcRound, Marked, LinkedFromSome;
      var gcRound := GcRound(p, lastCommit);
      var roots := Ascending(set r | r in store.blocks && r.author == p.ownIndex && r.round > gcRound);
      NoRoots(recentBlocks, accepted, gcRound);
      for i := 0 to |roots|
        invariant Valid() && LinkedExactly(recentBlocks, accepted, gcRound, roots[..i])
        invariant SameCommitted(old(recentBlocks), recentBlocks)
      {
        assert roots[..i + 1] == roots[..i] + [roots[i]];
        assert roots[i] in roots;
        AboveGcIsCached(p, Snapshot(), roots[i]);
        ghost var cache := recentBlocks;
        var newly := LinkCausalHistory(roots[i]);
        MarkedKeepsCommitted(cache, recentBlocks, newly);
        LinkRoot(accepted, cache, recentBlocks, gcRound, roots[..i], roots[i], newly);
      }
      assert roots[..|roots|] == roots;
      forall r | r in recentBlocks
        ensures LinkedFromSome(accepted, roots, r) <==> LinkedFromOwn(accepted, p.ownIndex, gcRound, r)
      {
        OwnRoots(accepted, p.ownIndex, gcRound, roots, r);
      }
    }

    /** For a block that is neither genesis nor cached, the store has the answer. */
    ghost predicate StoreDecides(r: BlockRef)
      reads this
    {
      Lookup(map[], store.blocks, r) == Lookup(p.genesis, accepted, r)
    }

    /** Gets blocks from genesis, the cache, or the store: exactly what was accepted. */
    method GetBlocks(refs: seq<BlockRef>) returns (blocks: seq<Option<Block>>)
      requires Valid()
      ensures |blocks| == |refs|
      ensures forall i :: 0 <= i < |refs| && refs[i] in p.genesis ==> blocks[i] == Some(p.genesis[refs[i]])
      ensures forall i :: 0 <= i < |refs| && refs[i] in accepted ==> blocks[i] == Some(accepted[refs[i]])
      ensures forall i :: 0 <= i < |refs| && refs[i] !in p.genesis && refs[i] !in accepted ==> blocks[i] == None
    {
      hide Good;
      blocks := seq(|refs|, _ => None);
      var missing: seq<nat> := [];
      for i := 0 to |refs|
        invariant |blocks| == |refs|
        invariant forall j :: 0 <= j < |missing| ==> missing[j] < i && StoreDecides(refs[missing[j]])
        invariant forall k :: 0 <= k < i ==> k in missing || blocks[k] == Lookup(p.genesis, accepted, refs[k])
        invariant forall k :: i <= k < |refs| ==> blocks[k] == None
      {
        var r := refs[i];
        LookupIsExact(p, Snapshot(), r);
        if r.round == GENESIS_ROUND {
          if r in p.genesis {
            blocks := blocks[i := Some(p.genesis[r])];
          }
        } else if r in recentBlocks {
          blocks := blocks[i := Some(recentBlocks[r].block)];
        } else {
          missing := missing + [i];
        }
      }
      for j := 0 to |missing|
        invariant |blocks| == |refs|
        invariant forall k :: 0 <= k < |refs| ==> k in missing[j..] || blocks[k] == Lookup(p.genesis, accepted, refs[k])
      {
        var r := refs[missing[j]];
        assert missing[j..] == [missing[j]] + missing[j + 1..];
        blocks := blocks[missing[j] := Lookup(map[], store.blocks, r)];
      }
      forall i | 0 <= i < |refs|
        ensures refs[i] in accepted ==> refs[i] !in p.genesis
      {
        LookupIsExact(p, Snapshot(), refs[i]);
      }
    }

    method GetBlock(r: BlockRef) returns (block: Option<Block>)
      requires Valid()
      ensures r in p.genesis ==> block == Some(p.genesis[r])
      ensures r in accepted ==> block == Some(accepted[r])
      ensures r !in p.genesis && r !in accepted ==> block == None
    {
      var blocks := GetBlocks([r]);
      block := blocks[0];
    }

    /** The store has the answer for a reference at or below the highest cached round of its author. */
    ghost predicate StoreKnows(r: BlockRef)
      reads this
    {
      r in store.blocks <==> r in p.genesis || r in accepted
    }

    /** Tells which blocks exist, without asking the store about rounds above the author's last cached
        block: exactly genesis and the accepted blocks. */
    method ContainsBlocks(refs: seq<BlockRef>) returns (exist: seq<bool>)
      requires Valid() && forall i :: 0 <= i < |refs| ==> refs[i].author < p.size
      ensures |exist| == |refs|
      ensures forall i :: 0 <= i < |refs| ==> (exist[i] <==> refs[i] in p.genesis || refs[i] in accepted)
    {
      hide Good, HasAbove;
      exist := seq(|refs|, _ => false);
      var missing: seq<nat> := [];
      for i := 0 to |refs|
        invariant |exist| == |refs|
        invariant forall j :: 0 <= j < |missing| ==> missing[j] < i && StoreKnows(refs[missing[j]])
        invariant forall k :: 0 <= k < i ==> k in missing || (exist[k] <==> refs[k] in p.genesis || refs[k] in accepted)
        invariant forall k :: i <= k < |refs| ==> !exist[k]
      {
        var r := refs[i];
        FoundInState(p, Snapshot(), r);
        var recent := recentRefs[r.author];
        if r in recent || r in p.genesis {
          exist := exist[i := true];
        } else if recent == {} {
          NothingAbove(r.round);
        } else {
          var last := Last(recent);
          GreatestIsAbove(recent, last, r.round);
          if last.round >= r.round {
            missing := missing + [i];
          }
        }
      }
      for j := 0 to |missing|
        invariant |exist| == |refs|
        invariant forall k :: 0 <= k < |refs| ==>
                    k in missing[j..] || (exist[k] <==> refs[k] in p.genesis || refs[k] in accepted)
      {
        assert missing[j..] == [missing[j]] + missing[j + 1..];
        exist := exist[missing[j] := refs[missing[j]] in store.blocks];
      }
    }

    method ContainsBlock(r: BlockRef) returns (found: bool)
      requires Valid() && r.author < p.size
      ensures found <==> r in p.genesis || r in accepted
    {
      var exist := ContainsBlocks([r]);
      found := exist[0];
    }

    method UpdateBlockMetadata(block: Block)
      requires block.ref.author < |recentRefs|
      modifies this`recentBlocks, this`recentRefs
      ensures recentBlocks == WithBlock(old(recentBlocks), block) && recentRefs == WithRef(old(recentRefs), block.ref)
    {
      recentBlocks := recentBlocks[block.ref := BlockInfo(block, false, false)];
      recentRefs := recentRefs[block.ref.author := recentRefs[block.ref.author] + {block.ref}];
    }

    /** Accepts a block into the cache and the write buffer, unless it exists. An own block needs a free slot. */
    method AcceptBlock(block: Block)
      requires Valid() && Acceptable(p, Snapshot(), block)
      requires block.ref.author == p.ownIndex && block.ref !in accepted ==>
                 forall r :: r in recentBlocks ==> SlotOf(r) != SlotOf(block.ref)
      modifies this`recentBlocks, this`recentRefs, this`blocksToWrite, this`accepted
      ensures Valid() && Snapshot() == AfterAccept(old(Snapshot()), block)
    {
      hide Good, Acceptable, Cached;
      AcceptStaysGood(p, Snapshot(), block);
      AcceptableRef(p, Snapshot(), block);
      var known := ContainsBlock(block.ref);
      if known {
        return;
      }
      UpdateBlockMetadata(block);
      blocksToWrite := blocksToWrite + [block];
      accepted := accepted[block.ref := block];
    }

    /** Marks a cached block as committed; true the first time. */
    method SetCommitted(r: BlockRef) returns (first: bool)
      requires Valid() && r in recentBlocks
      modifies this`recentBlocks
      ensures Valid() && first == !old(recentBlocks)[r].committed
      ensures recentBlocks == old(recentBlocks)[r := old(recentBlocks)[r].(committed := true)]
    {
      hide Good;
      SetCommittedStaysGood(p, Snapshot(), r);
      first := !recentBlocks[r].committed;
      recentBlocks := recentBlocks[r := recentBlocks[r].(committed := true)];
    }

    /** Marks everything above the GC round in the history of a block as linked. Returns exactly the
        blocks that were not linked before, each once, and none that was ever returned before. */
    method LinkCausalHistory(root: BlockRef) returns (newly: seq<BlockRef>)
      requires Valid() && (root.round > GcRound(p, lastCommit) ==> root in recentBlocks)
      modifies this`recentBlocks, this`everLinked
      ensures Valid() && Marked(old(recentBlocks), recentBlocks, newly)
      ensures everLinked == old(everLinked) + Members(newly) && forall r :: r in newly ==> r !in old(everLinked)
      ensures forall r :: r in newly <==>
                r.round > GcRound(p, lastCommit) && Reaches(accepted, root, r) && !IsLinked(old(recentBlocks), r)
    {
      hide Good, Linking, Marked, Grounded, CacheSound, LinksClosed, Reaches, GcRound;
      var gcRound := GcRound(p, lastCommit);
      ghost var st := Snapshot();
      GoodParts(p, st);
      StartLinking(accepted, recentBlocks, gcRound, root);
      newly := [];
      var targets := [root];
      while targets != []
        invariant Linking(accepted, recentBlocks, gcRound, root, newly, targets)
        invariant Marked(st.cache, recentBlocks, newly)
        modifies this`recentBlocks
        decreases |Unlinked(recentBlocks)|, |targets|
      {
        var t := targets[0];
        MarkedParts(st.cache, recentBlocks, newly);
        if t.round <= gcRound {
          SkipTarget(accepted, recentBlocks, gcRound, root, newly, targets);
          targets := targets[1..];
        } else {
          RootIsCached(p, st, recentBlocks, root, newly, targets);
          TargetIsCached(p, st, recentBlocks, root, t);
          var info := recentBlocks[t];
          if info.hardLinked {
            SkipTarget(accepted, recentBlocks, gcRound, root, newly, targets);
            targets := targets[1..];
          } else {
            MarkedSound(p, st, recentBlocks, newly);
            LinkTarget(accepted, recentBlocks, gcRound, root, newly, targets);
            MarkTarget(st.cache, recentBlocks, newly, t);
            UnlinkedShrinks(recentBlocks, t);
            newly := newly + [t];
            recentBlocks := recentBlocks[t := info.(hardLinked := true)];
            targets := targets[1..] + info.block.ancestors;
          }
        }
      }
      MarkedSound(p, st, recentBlocks, newly);
      LinkingIsExact(accepted, st.cache, recentBlocks, gcRound, root, newly);
      LinkStaysGood(p, st, recentBlocks, newly);
      everLinked := everLinked + Members(newly);
    }

    /** Buffers the next commit; one that is not newer than the last is ignored. */
    method AddCommit(commit: TrustedCommit)
      requires Valid()
      requires || (lastCommit.Some? && commit.index <= |commits|)
               || (commit.index == |commits| + 1 && Committable(Snapshot(), commit))
      modifies this`lastCommit, this`lastCommittedRounds, this`commitsToWrite, this`commits
      ensures Valid()
      ensures Snapshot() ==
              if old(lastCommit).Some? && commit.index <= old(|commits|) then old(Snapshot())
                else AfterCommit(old(Snapshot()), commit)
    {
      hide Good, Committable, Raised;
      LastCommitIsLast(p, Snapshot());
      if lastCommit.Some? && commit.index <= lastCommit.value.index {
        return;
      }
      CommitStaysGood(p, Snapshot(), commit);
      lastCommit := Some(commit);
      lastCommittedRounds := RaiseRounds(lastCommittedRounds, commit.blocks);
      commitsToWrite := commitsToWrite + [commit];
      commits := commits + [commit];
    }

    /** Buffers the last committed rounds as of the last commit. */
    method AddCommitInfo()
      requires Valid() && lastCommit.Some?
      modifies this`infoToWrite
      ensures Valid() && Snapshot() == AfterInfo(old(Snapshot()))
    {
      hide Good;
      InfoStaysGood(p, Snapshot());
      infoToWrite := infoToWrite + [CommitInfo(lastCommit.value.index, lastCommittedRounds)];
    }

    /** The round up to which an authority's blocks are evicted. */
    method CalculateAuthorityEvictionRound(a: nat) returns (round: nat)
      requires Valid() && a < p.size && a < |recentRefs|
      ensures IsEvictionRound(p, Snapshot(), a, round)
    {
      hide Good, EvictionRound, GcRound;
      var lastRound := GENESIS_ROUND;
      if recentRefs[a] != {} {
        var last := Last(recentRefs[a]);
        lastRound := last.round;
      }
      round := EvictionRound(lastRound, GcRound(p, lastCommit), p.cachedRounds);
    }

    /** Removes the given blocks from the cache, lowest first, up to a round. */
    method RemoveUpTo(refs: set<BlockRef>, round: nat) returns (left: set<BlockRef>)
      modifies this`recentBlocks
      ensures left == refs - UpTo(refs, round) && recentBlocks == old(recentBlocks) - UpTo(refs, round)
    {
      left := refs;
      while left != {}
        invariant left <= refs && refs - left <= UpTo(refs, round)
        invariant recentBlocks == old(recentBlocks) - (refs - left)
        decreases |left|
      {
        var first := First(left);
        if first.round > round {
          break;
        }
        RemoveOne(old(recentBlocks), refs, left, first);
        recentBlocks := recentBlocks - {first};
        left := left - {first};
      }
      assert refs - left == UpTo(refs, round);
    }

    /** Evicts the cached blocks of an authority up to its eviction round. */
    method EvictAuthority(a: nat)
      requires Valid() && a < p.size && blocksToWrite == []
      modifies this`recentBlocks, this`recentRefs, this`evictedRounds
      ensures Valid() && |recentRefs| == |evictedRounds| == p.size == |old(recentRefs)| == |old(evictedRounds)|
      ensures IsEvictionRound(p, old(Snapshot()), a, evictedRounds[a])
      ensures Snapshot() == AfterEvict(old(Snapshot()), a, evictedRounds[a])
    {
      hide Good, IsEvictionRound, UpTo;
      ghost var st := Snapshot();
      Sizes(p, st);
      var round := CalculateAuthorityEvictionRound(a);
      var left := RemoveUpTo(recentRefs[a], round);
      recentRefs := recentRefs[a := left];
      evictedRounds := evictedRounds[a := round];
      EvictStaysGood(p, st, a, round);
    }

    /** Writes all buffered data, then evicts old blocks from the cache. */
    method Flush()
      requires Valid()
      modifies this`recentBlocks, this`recentRefs, this`evictedRounds, this`blocksToWrite, this`commitsToWrite,
               this`infoToWrite, this`store
      ensures Valid() && store.blocks == accepted && store.commits == commits
      ensures if old(blocksToWrite == [] && commitsToWrite == [] && infoToWrite == []) then Snapshot() ==
              old(Snapshot())
              else Flushed(p, old(Snapshot()), Snapshot())
    {
      hide Good, Evicting, Flushed, Written, AfterEvict, IsEvictionRound, PartOf, RefsOf;
      ghost var st := Snapshot();
      if blocksToWrite == [] && commitsToWrite == [] && infoToWrite == [] {
        NothingToWrite(p, st);
        return;
      }
      StoreIsPart(p, st);
      var blocks := WriteBlocks(store.blocks, blocksToWrite, accepted);
      WriteCompletes(recentBlocks, store.blocks, blocksToWrite, accepted, blocks);
      store := Store(blocks, store.commits + commitsToWrite,
                     if infoToWrite == [] then store.info else Some(infoToWrite[|infoToWrite| - 1]));
      blocksToWrite, commitsToWrite, infoToWrite := [], [], [];
      WriteStaysGood(p, st);
      EvictingStarts(p, st);
      for a := 0 to p.size
        invariant Valid() && Evicting(p, st, Snapshot(), a)
        invariant blocksToWrite == [] && store.blocks == accepted && store.commits == commits
        modifies this`recentBlocks, this`recentRefs, this`evictedRounds
      {
        ghost var now := Snapshot();
        EvictAuthority(a);
        EvictingStep(p, st, now, a, evictedRounds[a]);
      }
      EvictingEnds(p, st, Snapshot());
    }
  }

  lemma GoodHistory(p: Parameters, st: State)
    requires Good(p, st)
    ensures ProperParameters(p) && ProperStore(p, st.store) && PartOf(st.store.blocks, st.accepted)
    ensures st.store.commits <= st.commits
    ensures st.last == LastCommit(st.commits) && st.rounds == RoundsAfter(p.size, st.commits)
  {
  }

  /** After a flush, a restart recovers all accepted blocks, all commits and the last committed rounds. */
  method FlushAndRestart(d: DagState) returns (r: DagState)
    requires d.Valid()
    modifies d
    ensures fresh(r) && r.Valid() && r.p == d.p && r.accepted == old(d.accepted) && r.commits == old(d.commits)
    ensures r.lastCommit == old(d.lastCommit) && r.lastCommittedRounds == old(d.lastCommittedRounds)
  {
    hide Good, Flushed, RoundsAfter, LastCommit;
    GoodHistory(d.p, d.Snapshot());
    d.Flush();
    GoodHistory(d.p, d.Snapshot());
    r := new DagState(d.p, d.store);
  }

  /** A crash at any time loses only what was not flushed: the recovered blocks and commits are a consistent
      part of the previous ones. */
  method CrashAndRestart(d: DagState) returns (r: DagState)
    requires d.Valid()
    ensures fresh(r) && r.Valid() && r.p == d.p && r.accepted == d.store.blocks && r.commits == d.store.commits
    ensures PartOf(r.accepted, d.accepted) && r.commits <= d.commits
  {
    hide Good, RoundsAfter, LastCommit;
    GoodHistory(d.p, d.Snapshot());
    r := new DagState(d.p, d.store);
  }

  lemma StoreIsPart(p: Parameters, st: State)
    requires Good(p, st)
    ensures PartOf(st.store.blocks, st.accepted) && Written(st.cache, st.store.blocks, st.blocksToWrite, st.accepted)
    ensures forall i :: 0 <= i < |st.blocksToWrite| ==>
              st.blocksToWrite[i].ref in st.accepted && st.accepted[st.blocksToWrite[i].ref] == st.blocksToWrite[i]
    ensures st.commits == st.store.commits + st.commitsToWrite
  {
  }

  ghost predicate SameLinks(before: Cache, after: Cache) {
    after.Keys == before.Keys && forall r :: r in before ==> after[r].hardLinked == before[r].hardLinked
  }

  ghost predicate SameCommitted(before: Cache, after: Cache) {
    after.Keys == before.Keys && forall r :: r in before ==> after[r].committed == before[r].committed
  }

  lemma MarkedKeepsCommitted(before: Cache, after: Cache, newly: seq<BlockRef>)
    requires Marked(before, after, newly)
    ensures SameCommitted(before, after)
  {
  }

  lemma CommittedSame(before: Cache, after: Cache, commits: seq<TrustedCommit>, gcRound: nat)
    requires SameCommitted(before, after) && CommittedFrom(before, commits, gcRound, 0)
    ensures CommittedFrom(after, commits, gcRound, 0)
  {
  }

  lemma NothingCommitted(cache: Cache, commits: seq<TrustedCommit>, gcRound: nat)
    requires forall r :: r in cache ==> !cache[r].committed
    ensures CommittedFrom(cache, commits, gcRound, |commits|)
  {
  }

  lemma NoRoots(cache: Cache, m: BlockMap, gcRound: nat)
    requires forall r :: r in cache ==> !cache[r].hardLinked
    ensures LinkedExactly(cache, m, gcRound, [])
  {
  }

  lemma AboveGcIsCached(p: Parameters, st: State, r: BlockRef)
    requires Good(p, st) && r in st.accepted && r.round > GcRound(p, st.last)
    ensures r in st.cache
  {
    hide GoodCommits, GoodLinks, Written, RefsMirror, Anchored, CacheSound, ProperCommits, CompleteAbove, GcRound;
  }

  lemma StoredAreProper(p: Parameters, store: Store)
    requires ProperStore(p, store)
    ensures ProperBlocks(p.size, store.blocks)
  {
  }

  lemma NothingLoaded(p: Parameters, refs: seq<set<BlockRef>>, evicted: seq<nat>, blocks: BlockMap, gcRound: nat)
    requires |refs| == |evicted| == p.size
    requires forall a :: 0 <= a < p.size ==> refs[a] == {} && evicted[a] == 0
    ensures Loaded(p, map[], refs, evicted, blocks, 0) && EvictedBelow(evicted, gcRound)
  {
  }

  lemma HighestOf(blocks: BlockMap, a: nat, all: set<BlockRef>, highest: nat)
    requires all == set r | r in blocks && r.author == a
    requires if all == {} then highest == GENESIS_ROUND
             else exists last :: IsGreatest(last, all) && highest == last.round
    ensures IsHighest(blocks, a, highest)
  {
    assert forall r :: r in blocks && r.author == a ==> r in all;
  }

  lemma EvictionBelowGc(evicted: seq<nat>, a: nat, round: nat, highest: nat, gcRound: nat, cachedRounds: nat)
    requires EvictedBelow(evicted, gcRound) && a < |evicted| && round == EvictionRound(highest, gcRound, cachedRounds)
    ensures EvictedBelow(evicted[a := round], gcRound)
  {
  }

  ghost function WithStored(cache: Cache, blocks: BlockMap, refs: set<BlockRef>): Cache
    requires refs <= blocks.Keys
  {
    map r | r in cache.Keys + refs :: if r in refs then BlockInfo(blocks[r], false, false) else cache[r]
  }

  lemma NothingMore(cache: Cache, refs: seq<set<BlockRef>>, blocks: BlockMap, a: nat, toLoad: set<BlockRef>)
    requires a < |refs|
    ensures toLoad - toLoad == {} && WithStored(cache, blocks, toLoad - toLoad) == cache
    ensures refs[a := refs[a] + (toLoad - toLoad)] == refs
  {
    assert toLoad - toLoad == {};
    assert refs[a] + {} == refs[a];
  }

  lemma RefsOneMore(refs: seq<set<BlockRef>>, a: nat, some: set<BlockRef>, r: BlockRef)
    requires a < |refs| && r.author == a
    ensures WithRef(refs[a := refs[a] + some], r) == refs[a := refs[a] + (some + {r})]
  {
    assert refs[a] + some + {r} == refs[a] + (some + {r});
  }

  lemma StoredOneMore(cache: Cache, blocks: BlockMap, refs: set<BlockRef>, rest: set<BlockRef>, r: BlockRef)
    requires r in rest && rest <= refs && refs <= blocks.Keys && blocks[r].ref == r
    ensures WithStored(cache, blocks, refs - (rest - {r})) ==
            WithBlock(WithStored(cache, blocks, refs - rest), blocks[r])
    ensures refs - (rest - {r}) == refs - rest + {r}
  {
    assert refs - (rest - {r}) == refs - rest + {r};
  }

  lemma LoadMore(p: Parameters, cache: Cache, refs: seq<set<BlockRef>>, evicted: seq<nat>, blocks: BlockMap, a: nat,
                 highest: nat, round: nat, gcRound: nat, toLoad: set<BlockRef>)
    requires Loaded(p, cache, refs, evicted, blocks, a) && a < p.size && p.cachedRounds >= 1
    requires IsHighest(blocks, a, highest) && round == EvictionRound(highest, gcRound, p.cachedRounds)
    requires forall r :: r in toLoad <==> r in blocks && r.author == a && r.round > round
    ensures Loaded(p, WithStored(cache, blocks, toLoad), refs[a := refs[a] + toLoad], evicted[a := round], blocks,
                   a + 1)
  {
    hide Anchored, IsHighest, EvictionRound;
    var cache' := WithStored(cache, blocks, toLoad);
    assert refs[a] == RefsBy(cache, a);
    assert refs[a] + toLoad == RefsBy(cache', a);
    LoadOne(p, cache, refs, evicted, blocks, a, highest, round, gcRound, cache');
  }

  lemma IsRestarted(p: Parameters, store: Store, st: State)
    requires st.last == LastCommit(store.commits) && st.rounds == RoundsAfter(p.size, store.commits)
    requires st.blocksToWrite == [] && st.commitsToWrite == [] && st.infoToWrite == [] && st.store == store
    requires st.accepted == store.blocks && st.commits == store.commits && st.everLinked == {}
    ensures Restarted(p, store, st)
  {
  }

  lemma Recovered(p: Parameters, st: State)
    requires Good(p, st) && st.accepted == st.store.blocks
    requires CommittedFrom(st.cache, st.store.commits, GcRound(p, st.last), 0)
    ensures forall r :: r in st.store.blocks && r.round > GcRound(p, st.last) ==>
              r in st.cache && (st.cache[r].committed <==> CommittedBy(st.store.commits, r))
  {
    forall r | r in st.store.blocks && r.round > GcRound(p, st.last)
      ensures r in st.cache && (st.cache[r].committed <==> CommittedBy(st.store.commits, r))
    {
      AboveGcIsCached(p, st, r);
      assert ListedFrom(st.store.commits, 0, r) <==> CommittedBy(st.store.commits, r);
    }
  }

  lemma RemoveOne(cache: Cache, all: set<BlockRef>, rest: set<BlockRef>, r: BlockRef)
    requires r in rest && rest <= all
    ensures cache - (all - (rest - {r})) == cache - (all - rest) - {r}
    ensures all - (rest - {r}) == all - rest + {r}
  {
    assert all - (rest - {r}) == all - rest + {r};
  }

  lemma LastCommitIsLast(p: Parameters, st: State)
    requires Good(p, st)
    ensures st.last.Some? <==> st.commits != []
    ensures st.last.Some? ==> st.last.value.index == |st.commits|
  {
    if st.commits != [] {
      LastIndex(p, st.accepted, st.commits);
    }
  }

  lemma Sizes(p: Parameters, st: State)
    requires Good(p, st)
    ensures |st.refs| == |st.evicted| == p.size
  {
  }

  lemma NothingAbove(round: nat)
    ensures !HasAbove({}, round)
  {
  }

  lemma AcceptableRef(p: Parameters, st: State, b: Block)
    requires Good(p, st) && Acceptable(p, st, b)
    ensures b.ref.author < p.size && b.ref !in p.genesis && |st.refs| == p.size
  {
  }

  ghost function Unlinked(cache: Cache): set<BlockRef> {
    set r | r in cache && !cache[r].hardLinked
  }

  lemma UnlinkedShrinks(cache: Cache, t: BlockRef)
    requires t in cache && !cache[t].hardLinked
    ensures |Unlinked(cache[t := cache[t].(hardLinked := true)])| < |Unlinked(cache)|
  {
    var after := Unlinked(cache[t := cache[t].(hardLinked := true)]);
    assert after == Unlinked(cache) - {t};
    ProperSubsetIsSmaller(after, Unlinked(cache));
  }

  lemma GoodParts(p: Parameters, st: State)
    requires Good(p, st)
    ensures Grounded(st.accepted) && LinksClosed(st.cache, GcRound(p, st.last))
  {
  }

  lemma MarkedParts(before: Cache, cache: Cache, newly: seq<BlockRef>)
    requires Marked(before, cache, newly)
    ensures cache.Keys == before.Keys
  {
  }

  lemma MarkedSound(p: Parameters, st: State, cache: Cache, newly: seq<BlockRef>)
    requires Good(p, st) && Marked(st.cache, cache, newly)
    ensures CacheSound(cache, st.accepted)
  {
    hide Consistent, GoodCommits, GoodLinks, Written, RefsMirror, Anchored, CachedAbove;
  }

  /** A waiting block above the GC round means the root is above it too. */
  lemma RootIsCached(p: Parameters, st: State, cache: Cache, root: BlockRef, newly: seq<BlockRef>,
                     targets: seq<BlockRef>)
    requires Good(p, st) && targets != [] && targets[0].round > GcRound(p, st.last)
    requires Linking(st.accepted, cache, GcRound(p, st.last), root, newly, targets)
    requires root.round > GcRound(p, st.last) ==> root in st.cache
    ensures root in st.cache && Reaches(st.accepted, root, targets[0])
  {
    hide GoodCache, GoodCommits, GoodLinks;
    assert targets[0] in targets;
    if targets[0] != root {
      BlocksAreGrounded(p.size, st.accepted);
      LinkedLowersRound(st.accepted, root, targets[0]);
    }
  }
}
