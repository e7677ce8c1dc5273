/** The structural part of block verification: which blocks may enter the DAG. */
module BlockVerifiers {
  import opened Committees
  import opened Dags

  datatype VerifyError =
    | UnexpectedGenesisBlock
    | InvalidAuthorityIndex(index: nat)
    | TooManyAncestors(count: nat)
    | InsufficientParentStakes(stake: nat)
    | InvalidAncestorPosition(position: nat)
    | InvalidAncestorRound(round: nat)
    | InvalidGenesisAncestor(ancestor: BlockRef)
    | DuplicatedAncestorsAuthority(authority: nat)

  datatype Verdict = Ok | Err(error: VerifyError)

  /** Links to round 0 name real genesis blocks. */
  ghost predicate GenesisLinksKnown(genesis: set<BlockRef>, b: Block) {
    forall i :: 0 <= i < |b.ancestors| && b.ancestors[i].round == GENESIS_ROUND ==> b.ancestors[i] in genesis
  }

  /** The loop's checks on one ancestor, apart from repetition of its author. */
  ghost predicate AncestorOk(c: Committee, genesis: set<BlockRef>, b: Block, i: nat)
    requires i < |b.ancestors|
  {
    var a := b.ancestors[i];
    && c.IsValidIndex(a.author)
    && (i == 0 <==> a.author == b.ref.author)
    && a.round < b.ref.round
    && (a.round == GENESIS_ROUND ==> a in genesis)
  }

  function CheckAncestor(c: Committee, genesis: set<BlockRef>, b: Block, i: nat): (error: Option<VerifyError>)
    requires i < |b.ancestors|
    ensures error.None? <==> AncestorOk(c, genesis, b, i)
  {
    var a := b.ancestors[i];
    if !c.IsValidIndex(a.author) then Some(InvalidAuthorityIndex(a.author))
    else if (i == 0 && a.author != b.ref.author) || (i > 0 && a.author == b.ref.author) then
      Some(InvalidAncestorPosition(i))
    else if a.round >= b.ref.round then Some(InvalidAncestorRound(a.round))
    else if a.round == GENESIS_ROUND && a !in genesis then Some(InvalidGenesisAncestor(a))
    else None
  }

  ghost function AuthorsUpTo(b: Block, n: nat): set<nat>
    requires n <= |b.ancestors|
  {
    set i | 0 <= i < n :: b.ancestors[i].author
  }

  ghost function ParentAuthorsUpTo(b: Block, n: nat): set<nat>
    requires n <= |b.ancestors|
  {
    set i | 0 <= i < n && b.ancestors[i].round + 1 == b.ref.round :: b.ancestors[i].author
  }

  /** The first `n` ancestors pass the loop's checks. */
  ghost predicate PrefixOk(c: Committee, genesis: set<BlockRef>, b: Block, n: nat)
    requires n <= |b.ancestors|
  {
    && (forall k :: 0 <= k < n ==> AncestorOk(c, genesis, b, k))
    && (forall k :: 0 <= k < n ==> b.ancestors[k].author !in AuthorsUpTo(b, k))
  }

  lemma ChecksMeanWellLinked(c: Committee, genesis: set<BlockRef>, b: Block)
    ensures WellLinked(c, b) && GenesisLinksKnown(genesis, b) <==>
            (&& b.ref.round > 0 && c.IsValidIndex(b.ref.author) && b.ancestors != []
             && PrefixOk(c, genesis, b, |b.ancestors|) && c.IsQuorum(ParentAuthors(b)))
  {
    if b.ref.round > 0 && b.ancestors != [] {
      if PrefixOk(c, genesis, b, |b.ancestors|) {
        assert AncestorOk(c, genesis, b, 0);
        forall i | 0 <= i < |b.ancestors|
          ensures c.IsValidIndex(b.ancestors[i].author) && b.ancestors[i].round < b.ref.round
          ensures b.ancestors[i].round == GENESIS_ROUND ==> b.ancestors[i] in genesis
        {
          assert AncestorOk(c, genesis, b, i);
        }
        assert DistinctAuthors(b.ancestors);
      }
    }
  }

  /** Accepts exactly the blocks that are well linked and whose round-0 links are genuine. */
  method VerifyBlock(c: Committee, genesis: set<BlockRef>, b: Block) returns (v: Verdict)
    ensures v.Ok? <==> WellLinked(c, b) && GenesisLinksKnown(genesis, b)
    ensures v.Ok? <==>
            && b.ref.round > 0 && b.ref.author < |c.stakes|
            && |b.ancestors| > 0 && b.ancestors[0].author == b.ref.author
            && (forall i :: 0 <= i < |b.ancestors| ==>
                  b.ancestors[i].author < |c.stakes| && b.ancestors[i].round < b.ref.round)
            && (forall i, j :: 0 <= i < j < |b.ancestors| ==> b.ancestors[i].author != b.ancestors[j].author)
            && (forall i :: 0 <= i < |b.ancestors| && b.ancestors[i].round == 0 ==> b.ancestors[i] in genesis)
            && c.IsQuorum(set i | 0 <= i < |b.ancestors| && b.ancestors[i].round == b.ref.round - 1
                            :: b.ancestors[i].author)
  {
    assert ParentAuthors(b) ==
           set i | 0 <= i < |b.ancestors| && b.ancestors[i].round == b.ref.round - 1 :: b.ancestors[i].author;
    ChecksMeanWellLinked(c, genesis, b);
    if b.ref.round == 0 {
      return Err(UnexpectedGenesisBlock);
    }
    if !c.IsValidIndex(b.ref.author) {
      return Err(InvalidAuthorityIndex(b.ref.author));
    }
    if |b.ancestors| > |c.stakes| {
      if WellLinked(c, b) {
        DistinctAuthorsFit(b.ancestors, |c.stakes|);
      }
      return Err(TooManyAncestors(|b.ancestors|));
    }
    if b.ancestors == [] {
      return Err(InsufficientParentStakes(0));
    }
    v := VerifyAncestors(c, genesis, b);
  }

  method VerifyAncestors(c: Committee, genesis: set<BlockRef>, b: Block) returns (v: Verdict)
    ensures v.Ok? <==> PrefixOk(c, genesis, b, |b.ancestors|) && c.IsQuorum(ParentAuthors(b))
  {
    var seen := seq(|c.stakes|, _ => false);
    var parentStakes := 0;
    NoStakeInNobody(c, |c.stakes|);
    assert ParentAuthorsUpTo(b, 0) == {};
    for i := 0 to |b.ancestors|
      invariant |seen| == |c.stakes| && PrefixOk(c, genesis, b, i)
      invariant forall a: nat :: a < |seen| ==> (seen[a] <==> a in AuthorsUpTo(b, i))
      invariant parentStakes == c.StakeOf(ParentAuthorsUpTo(b, i))
    {
      var a := b.ancestors[i];
      var error := CheckAncestor(c, genesis, b, i);
      if error.Some? {
        return Err(error.value);
      }
      if seen[a.author] {
        return Err(DuplicatedAncestorsAuthority(a.author));
      }
      assert AuthorsUpTo(b, i + 1) == AuthorsUpTo(b, i) + {a.author};
      seen := seen[a.author := true];
      if a.round == b.ref.round - 1 {
        StakeInsert(c, ParentAuthorsUpTo(b, i), a.author);
        parentStakes := parentStakes + c.stakes[a.author];
        assert ParentAuthorsUpTo(b, i + 1) == ParentAuthorsUpTo(b, i) + {a.author};
      } else {
        assert ParentAuthorsUpTo(b, i + 1) == ParentAuthorsUpTo(b, i);
      }
    }
    assert ParentAuthorsUpTo(b, |b.ancestors|) == ParentAuthors(b);
    if !c.ReachedQuorum(parentStakes) {
      return Err(InsufficientParentStakes(parentStakes));
    }
    return Ok;
  }

  /** References with distinct authors below `n` number at most `n`. */
  lemma {:induction false} DistinctAuthorsFit(q: seq<BlockRef>, n: nat)
    requires DistinctAuthors(q)
    requires forall i :: 0 <= i < |q| ==> q[i].author < n
    ensures |q| <= n
  {
    if q != [] {
      assert n > 0 by { assert q[0].author < n; }
      if i :| 0 <= i < |q| && q[i].author == n - 1 {
        DistinctAuthorsFit(q[..i] + q[i + 1..], n - 1);
      } else {
        DistinctAuthorsFit(q[1..], n - 1);
      }
    }
  }
}
