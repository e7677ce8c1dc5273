/** The block manager: suspends blocks until their causal history is stored, and releases them in
    causal order. */
module BlockManagers {
  import opened Dags
  import Sorting

  datatype SuspendedBlock = SuspendedBlock(block: Block, missing: set<BlockRef>)

  type SuspendedMap = map<BlockRef, SuspendedBlock>
  type WaitingMap = map<BlockRef, set<BlockRef>>

  /** Result of trying to accept one block. */
  datatype TryAcceptResult = Accepted | Suspended(ancestorsToFetch: set<BlockRef>) | Processed | Skipped

  // ----- index consistency --------------------------------------------------------------

  /** Suspended block `b` still misses `a`. */
  ghost predicate Misses(s: SuspendedMap, b: BlockRef, a: BlockRef) {
    b in s && a in s[b].missing
  }

  /** `b` is registered as waiting for `a`. */
  ghost predicate WaitsFor(w: WaitingMap, a: BlockRef, b: BlockRef) {
    a in w && b in w[a]
  }

  /** The two indexes mirror each other, except that `rest` are still to be told about `current`. */
  ghost predicate MirroredExcept(s: SuspendedMap, w: WaitingMap, current: BlockRef, rest: set<BlockRef>) {
    forall a, b :: Misses(s, b, a) <==> WaitsFor(w, a, b) || (a == current && b in rest)
  }

  ghost predicate Mirrored(s: SuspendedMap, w: WaitingMap) {
    forall a, b :: Misses(s, b, a) <==> WaitsFor(w, a, b)
  }

  /** Every suspended block misses something, and only blocks it links to. */
  ghost predicate WellSuspended(s: SuspendedMap) {
    forall b :: b in s ==>
      s[b].block.ref == b && LowerRounds(s[b].block) && s[b].missing != {} && s[b].missing <= Links(s[b].block)
  }

  /** Nothing above the GC round that is needed and not known is forgotten. */
  ghost predicate Complete(s: SuspendedMap, gcRound: nat, known: set<BlockRef>) {
    forall b, a :: b in s && a in s[b].block.ancestors && a.round > gcRound && a !in known ==> a in s[b].missing
  }

  /** The index invariant, while the entries of `known` blocks may still have to be processed. */
  ghost predicate Indexed(s: SuspendedMap, w: WaitingMap, m: set<BlockRef>, gcRound: nat, known: set<BlockRef>) {
    && Mirrored(s, w)
    && WellSuspended(s)
    && Complete(s, gcRound, known)
    && s.Keys !! known
    && m == w.Keys - s.Keys - known
  }

  /** Blocks are listed after all their ancestors above the GC round, other than `known` ones. */
  ghost predicate InOrder(blocks: seq<Block>, gcRound: nat, known: set<BlockRef>) {
    forall i, a :: 0 <= i < |blocks| && a in blocks[i].ancestors && a.round > gcRound
      ==> a in known || a in RefsOf(blocks[..i])
  }

  /** `blocks` were suspended in `before` and exactly they are gone from `after`. */
  ghost predicate Released(before: SuspendedMap, after: SuspendedMap, blocks: seq<Block>) {
    && after.Keys == before.Keys - RefsOf(blocks)
    && RefsOf(blocks) <= before.Keys
    && (forall b :: b in after ==> after[b].block == before[b].block)
    && (forall i :: 0 <= i < |blocks| ==> blocks[i].ref in before && before[blocks[i].ref].block == blocks[i])
    && DistinctRefs(blocks)
  }

  /** Blocks listed once each, none of them known. */
  ghost predicate AllNew(blocks: seq<Block>, known: set<BlockRef>) {
    DistinctRefs(blocks) && RefsOf(blocks) !! known
  }

  lemma NoneNew(known: set<BlockRef>)
    ensures AllNew([], known)
  {
  }

  lemma NewConcat(a: seq<Block>, b: seq<Block>, known: set<BlockRef>)
    requires AllNew(a, known) && AllNew(b, known + RefsOf(a))
    ensures AllNew(a + b, known)
  {
    RefsOfConcat(a, b);
    forall i, j | 0 <= i < j < |a + b|
      ensures (a + b)[i].ref != (a + b)[j].ref
    {
      if i < |a| <= j {
        assert a[i].ref in RefsOf(a) && b[j - |a|].ref in RefsOf(b);
      }
    }
  }

  lemma HeadIsNew(b: Block, rest: seq<Block>, known: set<BlockRef>)
    requires b.ref !in known && AllNew(rest, known + {b.ref})
    ensures AllNew([b] + rest, known)
  {
    RefsOfAppend([], b);
    assert [] + [b] == [b] && RefsOf([]) == {};
    NewConcat([b], rest, known);
  }

  lemma ReleasedAreNew(before: SuspendedMap, after: SuspendedMap, blocks: seq<Block>, known: set<BlockRef>)
    requires Released(before, after, blocks) && before.Keys !! known
    ensures AllNew(blocks, known)
  {
  }

  lemma InOrderAppend(blocks: seq<Block>, b: Block, gcRound: nat, known: set<BlockRef>)
    requires InOrder(blocks, gcRound, known)
    requires forall a :: a in b.ancestors && a.round > gcRound ==> a in known || a in RefsOf(blocks)
    ensures InOrder(blocks + [b], gcRound, known)
  {
    var both := blocks + [b];
    forall i, a | 0 <= i < |both| && a in both[i].ancestors && a.round > gcRound
      ensures a in known || a in RefsOf(both[..i])
    {
      if i < |blocks| {
        assert both[i] == blocks[i] && both[..i] == blocks[..i];
      } else {
        assert both[..i] == blocks;
      }
    }
  }

  /** The least missing ancestor is never itself suspended: it would miss something smaller. */
  lemma LeastMissingNotSuspended(s: SuspendedMap, w: WaitingMap, first: BlockRef)
    requires Mirrored(s, w) && WellSuspended(s) && IsLeast(first, w.Keys)
    ensures first !in s
  {
    if first in s {
      var a :| a in s[first].missing;
      assert Misses(s, first, a);
      assert false;
    }
  }

  /** When no missing ancestor is left at or below the GC round, neither is a suspended block. */
  lemma NothingSuspendedBelow(s: SuspendedMap, w: WaitingMap, gcRound: nat)
    requires Mirrored(s, w) && WellSuspended(s)
    requires forall a :: a in w ==> a.round > gcRound
    ensures forall b :: b in s ==> b.round > gcRound
  {
    forall b | b in s
      ensures b.round > gcRound
    {
      var a :| a in s[b].missing;
      assert Misses(s, b, a);
      assert WaitsFor(w, a, b);
    }
  }

  // ----- releasing one dependency -------------------------------------------------------

  /** `b` no longer misses `dependency`; it leaves the map when nothing is missing any more. */
  function Told(s: SuspendedMap, b: BlockRef, dependency: BlockRef): SuspendedMap
    requires b in s
  {
    var left := s[b].missing - {dependency};
    if left == {} then s - {b} else s[b := SuspendedBlock(s[b].block, left)]
  }

  lemma ToldMirrors(s: SuspendedMap, w: WaitingMap, current: BlockRef, rest: set<BlockRef>, b: BlockRef)
    requires MirroredExcept(s, w, current, rest) && b in rest && current !in w && b in s
    ensures MirroredExcept(Told(s, b, current), w, current, rest - {b})
  {
    var s' := Told(s, b, current);
    forall x, y
      ensures Misses(s', y, x) <==> WaitsFor(w, x, y) || (x == current && y in rest - {b})
    {
      assert Misses(s, y, x) <==> WaitsFor(w, x, y) || (x == current && y in rest);
      assert Misses(s', y, x) <==> Misses(s, y, x) && !(y == b && x == current);
    }
  }

  lemma ToldKeepsIndex(s: SuspendedMap, b: BlockRef, dependency: BlockRef, gcRound: nat, known: set<BlockRef>)
    requires WellSuspended(s) && Complete(s, gcRound, known) && b in s && dependency in known
    ensures WellSuspended(Told(s, b, dependency)) && Complete(Told(s, b, dependency), gcRound, known)
    ensures b !in Told(s, b, dependency) ==>
      forall a :: a in s[b].block.ancestors && a.round > gcRound ==> a in known
  {
    forall a | b !in Told(s, b, dependency) && a in s[b].block.ancestors && a.round > gcRound
      ensures a in known
    {
      if a != dependency {
        assert a !in s[b].missing - {dependency};
      }
    }
  }

  lemma ReleasedStep(before: SuspendedMap, s: SuspendedMap, blocks: seq<Block>, b: BlockRef, dependency: BlockRef)
    requires Released(before, s, blocks) && WellSuspended(s) && b in s
    ensures b in Told(s, b, dependency) ==> Released(before, Told(s, b, dependency), blocks)
    ensures b !in Told(s, b, dependency) ==> Released(before, Told(s, b, dependency), blocks + [s[b].block])
  {
    RefsOfAppend(blocks, s[b].block);
  }

  /** While the children `rest` of the known block `current` are still to be told: the indexes, and
      the blocks released so far out of the map `before`. */
  ghost predicate Telling(before: SuspendedMap, s: SuspendedMap, w: WaitingMap, gcRound: nat, known: set<BlockRef>,
                          current: BlockRef, rest: set<BlockRef>, released: seq<Block>) {
    && current !in w && current in known
    && MirroredExcept(s, w, current, rest)
    && WellSuspended(s) && Complete(s, gcRound, known)
    && Released(before, s, released) && InOrder(released, gcRound, known)
  }

  lemma TellingStep(before: SuspendedMap, s: SuspendedMap, w: WaitingMap, gcRound: nat, known: set<BlockRef>,
                    current: BlockRef, rest: set<BlockRef>, released: seq<Block>, b: BlockRef)
    requires Telling(before, s, w, gcRound, known, current, rest, released) && b in rest
    ensures b in s && current in s[b].missing
    ensures var s' := Told(s, b, current);
            Telling(before, s', w, gcRound, known, current, rest - {b}, if b in s' then released
              else released + [s[b].block])
  {
    assert Misses(s, b, current);
    ToldMirrors(s, w, current, rest, b);
    ToldKeepsIndex(s, b, current, gcRound, known);
    ReleasedStep(before, s, released, b, current);
    if b !in Told(s, b, current) {
      InOrderAppend(released, s[b].block, gcRound, known);
    }
  }

  /** The worklist invariant: `released` have left the map `before`, and only the entries of blocks
      on the stack remain to be processed. */
  ghost predicate Releasing(before: SuspendedMap, s: SuspendedMap, w: WaitingMap, m: set<BlockRef>, gcRound: nat,
                            known: set<BlockRef>, stack: set<BlockRef>, released: seq<Block>) {
    && Indexed(s, w, m, gcRound, known + RefsOf(released))
    && w.Keys * (known + RefsOf(released)) <= stack <= known + RefsOf(released)
    && Released(before, s, released) && InOrder(released, gcRound, known)
  }

  lemma WidenStack(before: SuspendedMap, s: SuspendedMap, w: WaitingMap, m: set<BlockRef>, gcRound: nat,
                   known: set<BlockRef>, stack: set<BlockRef>, released: seq<Block>, wider: set<BlockRef>)
    requires Releasing(before, s, w, m, gcRound, known, stack, released)
    requires stack <= wider <= known + RefsOf(released)
    ensures Releasing(before, s, w, m, gcRound, known, wider, released)
  {
  }

  /** A block nothing waits for needs no processing. */
  lemma SkipEntry(before: SuspendedMap, s: SuspendedMap, w: WaitingMap, m: set<BlockRef>, gcRound: nat,
                  known: set<BlockRef>, stack: set<BlockRef>, released: seq<Block>, current: BlockRef)
    requires Releasing(before, s, w, m, gcRound, known, stack, released) && current !in w
    ensures Releasing(before, s, w, m, gcRound, known, stack - {current} + RefsOf([]), released + [])
  {
    hide Indexed, InOrder, Released;
    NoRefs();
    assert released + [] == released && stack - {current} + RefsOf([]) == stack - {current};
  }

  lemma StackIsKnown(before: SuspendedMap, s: SuspendedMap, w: WaitingMap, m: set<BlockRef>, gcRound: nat,
                     known: set<BlockRef>, stack: set<BlockRef>, released: seq<Block>)
    requires Releasing(before, s, w, m, gcRound, known, stack, released)
    ensures stack <= known + RefsOf(released)
  {
  }

  lemma StartTelling(before: SuspendedMap, s: SuspendedMap, w: WaitingMap, m: set<BlockRef>, gcRound: nat,
                     known: set<BlockRef>, stack: set<BlockRef>, released: seq<Block>, current: BlockRef)
    requires Releasing(before, s, w, m, gcRound, known, stack, released) && current in stack && current in w
    ensures Telling(s, s, w - {current}, gcRound, known + RefsOf(released), current, w[current], [])
  {
    var w' := w - {current};
    assert forall a, b :: WaitsFor(w, a, b) <==> WaitsFor(w', a, b) || (a == current && b in w[current]);
  }

  lemma ReleasedConcat(s0: SuspendedMap, s1: SuspendedMap, s2: SuspendedMap, a: seq<Block>, b: seq<Block>)
    requires Released(s0, s1, a) && Released(s1, s2, b)
    ensures Released(s0, s2, a + b)
  {
    RefsOfConcat(a, b);
    forall i | 0 <= i < |b|
      ensures b[i].ref !in RefsOf(a)
    {
      assert b[i].ref in s1;
    }
    forall i, j | 0 <= i < j < |a + b|
      ensures (a + b)[i].ref != (a + b)[j].ref
    {
      if i < |a| <= j {
        assert a[i].ref in RefsOf(a);
      }
    }
  }

  lemma TellingIndexes(s: SuspendedMap, s2: SuspendedMap, w: WaitingMap, m: set<BlockRef>, gcRound: nat,
                       known: set<BlockRef>, current: BlockRef, more: seq<Block>)
    requires Indexed(s, w, m, gcRound, known) && current in known && current in w
    requires Telling(s, s2, w - {current}, gcRound, known, current, {}, more)
    ensures Indexed(s2, w - {current}, m, gcRound, known + RefsOf(more))
  {
    hide WellSuspended, InOrder, Misses, WaitsFor, DistinctRefs;
    var w' := w - {current};
    assert Mirrored(s2, w');
    assert Complete(s2, gcRound, known + RefsOf(more)) by {
      hide MirroredExcept, Mirrored, Released;
    }
    hide Complete, Mirrored, MirroredExcept;
    assert s.Keys == s2.Keys + RefsOf(more);
  }

  lemma FinishTelling(before: SuspendedMap, s: SuspendedMap, s2: SuspendedMap, w: WaitingMap, m: set<BlockRef>,
                      gcRound: nat, known: set<BlockRef>, stack: set<BlockRef>, released: seq<Block>, current: BlockRef,
                      more: seq<Block>)
    requires Releasing(before, s, w, m, gcRound, known, stack, released) && current in stack && current in w
    requires Telling(s, s2, w - {current}, gcRound, known + RefsOf(released), current, {}, more)
    ensures Releasing(before, s2, w - {current}, m, gcRound, known, stack - {current} + RefsOf(more), released + more)
    ensures Released(s, s2, more)
  {
    var k := known + RefsOf(released);
    TellingIndexes(s, s2, w, m, gcRound, k, current, more);
    ReleasedConcat(before, s, s2, released, more);
    InOrderConcat(released, more, gcRound, known);
    assert known + RefsOf(released + more) == k + RefsOf(more);
  }

  /** Registers `b` as waiting for every block in `needed`. */
  function Registered(w: WaitingMap, needed: set<BlockRef>, b: BlockRef): WaitingMap {
    map a | a in w.Keys + needed :: if a in needed then (if a in w then w[a] else {}) + {b} else w[a]
  }

  lemma RegisteredNothing(w: WaitingMap, b: BlockRef)
    ensures Registered(w, {}, b) == w
  {
  }

  lemma RegisteredOneMore(w: WaitingMap, needed: set<BlockRef>, b: BlockRef, a: BlockRef)
    ensures var w' := Registered(w, needed, b);
            Registered(w, needed + {a}, b) == w'[a := (if a in w' then w'[a] else {}) + {b}]
  {
    var w', w'' := Registered(w, needed, b), Registered(w, needed + {a}, b);
    assert w''.Keys == w'.Keys + {a};
    assert w''[a] == (if a in w' then w'[a] else {}) + {b};
    assert forall x :: x in w'' && x != a ==> w''[x] == w'[x];
  }

  /** Links that must be stored before a block can be, and are not. */
  ghost function NeededLinks(links: seq<BlockRef>, gcRound: nat, known: set<BlockRef>): set<BlockRef> {
    set a | a in links && (a.round == GENESIS_ROUND || a.round > gcRound) && a !in known
  }

  lemma NoNeededLinks(gcRound: nat, known: set<BlockRef>)
    ensures NeededLinks([], gcRound, known) == {}
  {
  }

  lemma NeededLinksStep(links: seq<BlockRef>, gcRound: nat, known: set<BlockRef>, i: nat)
    requires i < |links|
    ensures var a := links[i];
            NeededLinks(links[..i + 1], gcRound, known) == NeededLinks(links[..i], gcRound, known) +
              (if (a.round == GENESIS_ROUND || a.round > gcRound) && a !in known then {a} else {})
  {
    assert links[..i + 1] == links[..i] + [links[i]];
  }

  /** Suspending a block with the ancestors it needs keeps the indexes consistent. */
  lemma SuspendKeepsIndex(s: SuspendedMap, w: WaitingMap, m: set<BlockRef>, gcRound: nat, known: set<BlockRef>,
                          b: Block, needed: set<BlockRef>)
    requires Indexed(s, w, m, gcRound, known) && LowerRounds(b)
    requires b.ref !in s && b.ref !in known
    requires needed != {} && needed <= Links(b) && needed !! known
    requires forall a :: a in b.ancestors && a.round > gcRound && a !in known ==> a in needed
    ensures Indexed(s[b.ref := SuspendedBlock(b, needed)], Registered(w, needed, b.ref),
                    m + (needed - s.Keys) - {b.ref}, gcRound, known)
  {
    var s', w' := s[b.ref := SuspendedBlock(b, needed)], Registered(w, needed, b.ref);
    forall x, y
      ensures Misses(s', y, x) <==> WaitsFor(w', x, y)
    {
      assert Misses(s, y, x) <==> WaitsFor(w, x, y);
    }
  }

  // ----- which blocks should be accepted ------------------------------------------------

  /** Reference definition: a received block above the GC round is acceptable when each ancestor
      above the GC round is trusted, or was received and is acceptable itself. */
  ghost predicate Acceptable(r: BlockRef, received: BlockMap, gcRound: nat, trusted: set<BlockRef>)
    decreases r.round
  {
    && r in received
    && r.round > gcRound
    && forall a :: a in received[r].ancestors && a.round > gcRound ==>
         a in trusted || (a.round < r.round && Acceptable(a, received, gcRound, trusted))
  }

  /** Accounting over a whole run: received blocks above the GC round are stored or suspended, and
      stored blocks that are not trusted were received after all their ancestors were stored. */
  ghost predicate Accounted(dag: BlockMap, s: SuspendedMap, received: BlockMap, gcRound: nat, trusted: set<BlockRef>) {
    && (forall r :: r in received ==> received[r].ref == r && LowerRounds(received[r]))
    && (forall r :: r in received && r.round > gcRound ==> r in dag || r in s)
    && (forall r :: r in s ==> r in received && s[r].block == received[r])
    && (forall r :: r in dag && r !in trusted ==> r in received && dag[r] == received[r])
    && (forall r, a :: r in dag && r !in trusted && a in dag[r].ancestors && a.round > gcRound ==>
          a in dag || a in trusted)
  }

  lemma {:induction false} StoredIsAcceptable(dag: BlockMap, s: SuspendedMap, received: BlockMap, gcRound: nat,
                                              trusted: set<BlockRef>, r: BlockRef)
    requires Accounted(dag, s, received, gcRound, trusted)
    requires r in dag && r !in trusted && r.round > gcRound
    ensures Acceptable(r, received, gcRound, trusted)
    decreases r.round
  {
    forall a | a in received[r].ancestors && a.round > gcRound && a !in trusted
      ensures a.round < r.round && Acceptable(a, received, gcRound, trusted)
    {
      StoredIsAcceptable(dag, s, received, gcRound, trusted, a);
    }
  }

  lemma {:induction false} AcceptableIsStored(dag: BlockMap, s: SuspendedMap, w: WaitingMap, m: set<BlockRef>,
                                              received: BlockMap, gcRound: nat, trusted: set<BlockRef>, r: BlockRef)
    requires Accounted(dag, s, received, gcRound, trusted) && trusted !! w.Keys
    requires Indexed(s, w, m, gcRound, dag.Keys + trusted) && (forall a :: a in w ==> a.round > gcRound && a !in dag)
    requires Acceptable(r, received, gcRound, trusted)
    ensures r in dag
    decreases r.round
  {
    if r !in dag {
      var a :| a in s[r].missing;
      assert Misses(s, r, a);
      assert WaitsFor(w, a, r);
      AcceptableIsStored(dag, s, w, m, received, gcRound, trusted, a);
      assert false;
    }
  }

  lemma InOrderConcat(a: seq<Block>, b: seq<Block>, gcRound: nat, known: set<BlockRef>)
    requires InOrder(a, gcRound, known) && InOrder(b, gcRound, known + RefsOf(a))
    ensures InOrder(a + b, gcRound, known) && RefsOf(a + b) == RefsOf(a) + RefsOf(b)
  {
    RefsOfConcat(a, b);
    forall i, x | 0 <= i < |a + b| && x in (a + b)[i].ancestors && x.round > gcRound
      ensures x in known || x in RefsOf((a + b)[..i])
    {
      if i < |a| {
        assert (a + b)[..i] == a[..i];
      } else {
        assert (a + b)[..i] == a + b[..i - |a|];
        RefsOfConcat(a, b[..i - |a|]);
      }
    }
  }

  lemma MembersPop(q: seq<BlockRef>)
    requires q != []
    ensures Members(q) == Members(q[..|q| - 1]) + {q[|q| - 1]}
  {
    assert q == q[..|q| - 1] + [q[|q| - 1]];
  }

  lemma MembersOfRefs(q: seq<BlockRef>, blocks: seq<Block>)
    ensures Members(q + Refs(blocks)) == Members(q) + RefsOf(blocks)
  {
    forall r | r in RefsOf(blocks)
      ensures r in Refs(blocks)
    {
      var i :| 0 <= i < |blocks| && blocks[i].ref == r;
      assert Refs(blocks)[i] == r;
    }
    forall r | r in Refs(blocks)
      ensures r in RefsOf(blocks)
    {
      var i :| 0 <= i < |blocks| && Refs(blocks)[i] == r;
    }
  }

  lemma StackStep(before: SuspendedMap, s: SuspendedMap, w: WaitingMap, m: set<BlockRef>, gcRound: nat,
                  known: set<BlockRef>, released: seq<Block>, stack: seq<BlockRef>, more: seq<Block>)
    requires stack != [] && Members(stack) <= known + RefsOf(released)
    requires Releasing(before, s, w, m, gcRound, known, Members(stack) - {stack[|stack| - 1]} + RefsOf(more),
                       released + more)
    ensures Releasing(before, s, w, m, gcRound, known, Members(stack[..|stack| - 1] + Refs(more)), released + more)
  {
    var rest := stack[..|stack| - 1];
    MembersPop(stack);
    MembersOfRefs(rest, more);
    RefsOfConcat(released, more);
    WidenStack(before, s, w, m, gcRound, known, Members(stack) - {stack[|stack| - 1]} + RefsOf(more), released + more,
               Members(rest + Refs(more)));
  }

  lemma ShrinksIfReleased(before: SuspendedMap, after: SuspendedMap, released: seq<Block>)
    requires Released(before, after, released)
    ensures released != [] ==> |after| < |before|
    ensures released == [] ==> |after| == |before|
  {
    if released == [] {
      assert after.Keys == before.Keys;
    } else {
      assert released[0].ref in RefsOf(released);
      ProperSubsetIsSmaller(after.Keys, before.Keys);
    }
  }

  /** A block that is about to be known starts the worklist. */
  lemma StartReleasing(s: SuspendedMap, w: WaitingMap, m: set<BlockRef>, gcRound: nat, known: set<BlockRef>,
                       r: BlockRef)
    requires Indexed(s, w, m, gcRound, known) && w.Keys !! known && r !in s
    ensures Releasing(s, s, w, m - {r}, gcRound, known + {r}, {r}, [])
  {
    assert RefsOf([]) == {};
  }

  lemma ReleasedAreNotGenesis(s: SuspendedMap, s': SuspendedMap, blocks: seq<Block>)
    requires WellSuspended(s) && Released(s, s', blocks)
    ensures forall i :: 0 <= i < |blocks| ==> blocks[i].ref.round != GENESIS_ROUND && LowerRounds(blocks[i])
  {
    forall i | 0 <= i < |blocks|
      ensures blocks[i].ref.round != GENESIS_ROUND
    {
      var r := blocks[i].ref;
      var a :| a in s[r].missing;
      assert a in s[r].block.ancestors;
    }
  }

  lemma ReceivingKeepsAccounted(dag: BlockMap, s: SuspendedMap, received: BlockMap, gcRound: nat,
                                trusted: set<BlockRef>, b: Block)
    requires Accounted(dag, s, received, gcRound, trusted) && LowerRounds(b)
    requires b.ref in received ==> received[b.ref] == b
    requires b.ref in s || b.ref in dag || b.ref.round <= gcRound
    ensures Accounted(dag, s, received[b.ref := b], gcRound, trusted)
  {
  }

  lemma SuspendingKeepsAccounted(dag: BlockMap, s: SuspendedMap, received: BlockMap, gcRound: nat,
                                 trusted: set<BlockRef>, b: Block, needed: set<BlockRef>)
    requires Accounted(dag, s, received, gcRound, trusted) && LowerRounds(b)
    requires b.ref in received ==> received[b.ref] == b
    requires b.ref !in s && b.ref !in dag
    ensures Accounted(dag, s[b.ref := SuspendedBlock(b, needed)], received[b.ref := b], gcRound, trusted)
  {
  }

  /** Storing received blocks in causal order keeps the accounting. */
  lemma StoringKeepsAccounted(dag: BlockMap, s: SuspendedMap, received: BlockMap, gcRound: nat, trusted: set<BlockRef>,
                              dag': BlockMap, s': SuspendedMap, received': BlockMap, blocks: seq<Block>)
    requires Accounted(dag, s, received, gcRound, trusted)
    requires Stored(dag, dag', blocks) && InOrder(blocks, gcRound, dag.Keys + trusted)
    requires s'.Keys == s.Keys - RefsOf(blocks) && forall r :: r in s' ==> s'[r].block == s[r].block
    requires PartOf(received, received') && received'.Keys <= received.Keys + RefsOf(blocks)
    requires forall i :: 0 <= i < |blocks| ==>
      blocks[i].ref in received' && received'[blocks[i].ref] == blocks[i] && LowerRounds(blocks[i])
    ensures Accounted(dag', s', received', gcRound, trusted)
  {
    hide LowerRounds;
    forall r, a | r in dag' && r !in trusted && a in dag'[r].ancestors && a.round > gcRound
      ensures a in dag' || a in trusted
    {
      if r in RefsOf(blocks) {
        var i :| 0 <= i < |blocks| && blocks[i].ref == r;
        assert a in blocks[i].ancestors;
        assert RefsOf(blocks[..i]) <= RefsOf(blocks);
      }
    }
    forall r | r in received'
      ensures received'[r].ref == r && LowerRounds(received'[r])
    {
      if r !in received {
        var i :| 0 <= i < |blocks| && blocks[i].ref == r;
      }
    }
  }

  // ----- the state as a value -----------------------------------------------------------

  /** Everything the manager keeps, with two records of its whole run: every block ever passed in
      for acceptance (`received`), and every block stored without that (`trusted`): the initial
      DAG, genesis, and blocks delivered by certified commits. */
  datatype State = State(
    dag: BlockMap, gcRound: nat, suspended: SuspendedMap, waiting: WaitingMap, missing: set<BlockRef>,
    received: BlockMap, trusted: set<BlockRef>)

  ghost function KnownIn(genesis: set<BlockRef>, st: State): set<BlockRef> {
    st.dag.Keys + genesis
  }

  /** The invariant of the block manager between public calls. */
  ghost predicate Good(genesis: set<BlockRef>, st: State) {
    && Indexed(st.suspended, st.waiting, st.missing, st.gcRound, KnownIn(genesis, st))
    && st.waiting.Keys !! KnownIn(genesis, st)
    && genesis <= st.trusted <= KnownIn(genesis, st)
    && Accounted(st.dag, st.suspended, st.received, st.gcRound, st.trusted)
    && (forall g :: g in genesis ==> g.round == GENESIS_ROUND)
  }

  /** What block verification guarantees, and that digests do not collide. */
  ghost predicate Genuine(genesis: set<BlockRef>, st: State, b: Block) {
    && LowerRounds(b)
    && (forall a :: a in b.ancestors && a.round == GENESIS_ROUND ==> a in genesis)
    && (b.ref in st.received ==> st.received[b.ref] == b)
  }

  ghost function NeededBy(genesis: set<BlockRef>, st: State, b: Block): set<BlockRef> {
    NeededLinks(b.ancestors, st.gcRound, KnownIn(genesis, st))
  }

  /** The result of offering one block. */
  ghost function AcceptOutcome(genesis: set<BlockRef>, st: State, b: Block): TryAcceptResult {
    if b.ref in st.suspended || b.ref in KnownIn(genesis, st) then Processed
    else if b.ref.round <= st.gcRound then Skipped
    else if NeededBy(genesis, st, b) != {} then Suspended(NeededBy(genesis, st, b) - st.suspended.Keys)
    else Accepted
  }

  ghost function AfterAcceptOne(genesis: set<BlockRef>, st: State, b: Block): State {
    var needed := NeededBy(genesis, st, b);
    match AcceptOutcome(genesis, st, b)
    case Processed => st.(received := st.received[b.ref := b])
    case Skipped => st.(received := st.received[b.ref := b])
    case Suspended(_) =>
      st.(suspended := st.suspended[b.ref := SuspendedBlock(b, needed)],
          waiting := Registered(st.waiting, needed, b.ref),
          missing := st.missing + (needed - st.suspended.Keys) - {b.ref},
          received := st.received[b.ref := b])
    case Accepted => st.(missing := st.missing - {b.ref})
  }

  /** Offering a block that is not accepted keeps the invariant. */
  lemma NotAcceptedStaysGood(genesis: set<BlockRef>, st: State, b: Block)
    requires Good(genesis, st) && Genuine(genesis, st, b) && !AcceptOutcome(genesis, st, b).Accepted?
    ensures Good(genesis, AfterAcceptOne(genesis, st, b))
  {
    if AcceptOutcome(genesis, st, b).Suspended? {
      var needed := NeededBy(genesis, st, b);
      SuspendKeepsIndex(st.suspended, st.waiting, st.missing, st.gcRound, KnownIn(genesis, st), b, needed);
      SuspendingKeepsAccounted(st.dag, st.suspended, st.received, st.gcRound, st.trusted, b, needed);
    } else {
      ReceivingKeepsAccounted(st.dag, st.suspended, st.received, st.gcRound, st.trusted, b);
    }
  }

  /** When the worklist is empty the indexes are consistent for the blocks now stored; a released
      reference at or below the GC round need not be stored. */
  lemma ReleaseSettles(before: SuspendedMap, s: SuspendedMap, w: WaitingMap, m: set<BlockRef>, gcRound: nat,
                       known: set<BlockRef>, released: seq<Block>, stored: set<BlockRef>)
    requires Releasing(before, s, w, m, gcRound, known, {}, released)
    requires stored <= known + RefsOf(released)
    requires forall r :: r in known + RefsOf(released) - stored ==> r.round <= gcRound
    ensures Indexed(s, w, m, gcRound, stored) && w.Keys !! stored
  {
    forall r | r in w
      ensures r !in known + RefsOf(released)
    {
      assert r in known + RefsOf(released) ==> r in w.Keys * (known + RefsOf(released));
    }
  }

  /** Storing one received block whose ancestors are stored keeps the accounting. */
  lemma StoringOneKeepsAccounted(genesis: set<BlockRef>, st: State, b: Block)
    requires Good(genesis, st) && Genuine(genesis, st, b) && AcceptOutcome(genesis, st, b).Accepted?
    ensures Accounted(st.dag[b.ref := b], st.suspended, st.received[b.ref := b], st.gcRound, st.trusted)
  {
    AcceptedLinks(genesis, st, b);
    hide Indexed, NeededLinks, LowerRounds, AcceptOutcome;
  }

  lemma AcceptedLinks(genesis: set<BlockRef>, st: State, b: Block)
    requires AcceptOutcome(genesis, st, b).Accepted?
    ensures b.ref !in st.suspended && b.ref !in KnownIn(genesis, st)
    ensures forall a :: a in b.ancestors && a.round > st.gcRound ==> a in KnownIn(genesis, st)
  {
    var known := KnownIn(genesis, st);
    assert forall a :: a in b.ancestors && a.round > st.gcRound && a !in known ==> a in NeededBy(genesis, st, b);
  }

  /** Storing released blocks keeps the accounting. */
  lemma StoringReleasedKeepsAccounted(dag: BlockMap, s: SuspendedMap, received: BlockMap, gcRound: nat,
                                      trusted: set<BlockRef>, dag': BlockMap, s': SuspendedMap, released: seq<Block>)
    requires Accounted(dag, s, received, gcRound, trusted) && WellSuspended(s)
    requires Released(s, s', released) && Stored(dag, dag', released)
    requires InOrder(released, gcRound, dag.Keys + trusted)
    ensures Accounted(dag', s', received, gcRound, trusted)
  {
    forall i | 0 <= i < |released|
      ensures released[i].ref in received && received[released[i].ref] == released[i] && LowerRounds(released[i])
    {
      assert released[i].ref in s;
    }
    StoringKeepsAccounted(dag, s, received, gcRound, trusted, dag', s', received, released);
  }

  /** An accepted block and then the blocks it releases, stored in order, keep the invariant. */
  lemma AcceptedStaysGood(genesis: set<BlockRef>, st: State, b: Block, st': State, released: seq<Block>)
    requires Good(genesis, st) && Genuine(genesis, st, b) && AcceptOutcome(genesis, st, b).Accepted?
    requires Releasing(st.suspended, st'.suspended, st'.waiting, st'.missing, st.gcRound,
                       KnownIn(genesis, st) + {b.ref}, {}, released)
    requires Stored(st.dag[b.ref := b], st'.dag, released)
    requires st'.gcRound == st.gcRound && st'.trusted == st.trusted && st'.received == st.received[b.ref := b]
    ensures Good(genesis, st')
  {
    hide Mirrored, Complete, InOrder, NeededLinks, LowerRounds, DistinctRefs;
    var known, dag := KnownIn(genesis, st), st.dag[b.ref := b];
    var stored := KnownIn(genesis, st');
    assert stored == known + {b.ref} + RefsOf(released);
    assert Indexed(st'.suspended, st'.waiting, st'.missing, st.gcRound, stored) && st'.waiting.Keys !! stored by {
      ReleaseSettles(st.suspended, st'.suspended, st'.waiting, st'.missing, st.gcRound, known + {b.ref}, released,
                     stored);
    }
    assert Accounted(st'.dag, st'.suspended, st'.received, st.gcRound, st.trusted) by {
      StoringOneKeepsAccounted(genesis, st, b);
      assert known + {b.ref} == dag.Keys + st.trusted;
      StoringReleasedKeepsAccounted(dag, st.suspended, st'.received, st.gcRound, st.trusted, st'.dag, st'.suspended,
                                    released);
    }
  }

  /** The accepted block heads the list of newly stored blocks. */
  lemma AcceptedHeads(genesis: set<BlockRef>, st: State, b: Block, dag': BlockMap, released: seq<Block>)
    requires AcceptOutcome(genesis, st, b).Accepted? && Stored(st.dag[b.ref := b], dag', released)
    requires InOrder(released, st.gcRound, KnownIn(genesis, st) + {b.ref})
    ensures Stored(st.dag, dag', [b] + released) && InOrder([b] + released, st.gcRound, KnownIn(genesis, st))
  {
    var known := KnownIn(genesis, st);
    RefsOfAppend([], b);
    assert [] + [b] == [b] && RefsOf([]) == {};
    assert forall a :: a in b.ancestors && a.round > st.gcRound && a !in known ==> a in NeededBy(genesis, st, b);
    InOrderConcat([b], released, st.gcRound, known);
    forall i | 0 <= i < |[b] + released|
      ensures var x := ([b] + released)[i]; x.ref in dag' && dag'[x.ref] == x
    {
      if i > 0 {
        assert ([b] + released)[i] == released[i - 1];
      }
    }
  }

  lemma ReleasedWereReceived(genesis: set<BlockRef>, st: State, s': SuspendedMap, released: seq<Block>)
    requires Good(genesis, st) && Released(st.suspended, s', released)
    ensures forall i :: 0 <= i < |released| ==>
              released[i].ref in st.received && st.received[released[i].ref] == released[i]
    ensures forall i :: 0 <= i < |released| ==> released[i].ref !in KnownIn(genesis, st)
  {
  }

  lemma StoredKnown(before: BlockMap, after: BlockMap, genesis: set<BlockRef>, blocks: seq<Block>)
    requires Stored(before, after, blocks)
    ensures after.Keys + genesis == before.Keys + genesis + RefsOf(blocks)
  {
  }

  /** What is to be fetched is of a lower round than every block still to be offered. */
  ghost predicate FetchedEarlier(refs: set<BlockRef>, sorted: seq<Block>, i: nat) {
    forall a, j :: a in refs && i <= j < |sorted| ==> a.round < sorted[j].ref.round
  }

  lemma NothingFetched(sorted: seq<Block>)
    ensures FetchedEarlier({}, sorted, 0)
  {
  }

  lemma FetchedStep(refs: set<BlockRef>, more: set<BlockRef>, sorted: seq<Block>, i: nat, gcRound: nat)
    requires FetchedEarlier(refs, sorted, i) && i < |sorted| && NewlyMissing(sorted[i], gcRound, more)
    requires Sorting.SortedBy(sorted, (b: Block) => b.ref.round)
    ensures FetchedEarlier(refs + more, sorted, i + 1) && sorted[i].ref !in refs + more
    ensures forall a :: a in more ==> a in sorted[i].ancestors && a.round > gcRound
  {
    var key := (b: Block) => b.ref.round;
    forall j | i <= j < |sorted|
      ensures sorted[i].ref.round <= sorted[j].ref.round
    {
      assert i < j ==> key(sorted[i]) <= key(sorted[j]);
    }
  }

  lemma NothingStored(dag: BlockMap, gcRound: nat, known: set<BlockRef>)
    ensures Stored(dag, dag, []) && InOrder([], gcRound, known)
  {
  }

  /** Blocks stored after `accepted`, in order, extend the ordered list. */
  lemma ExtendAccepted(dag0: BlockMap, dag1: BlockMap, dag2: BlockMap, genesis: set<BlockRef>, gcRound: nat,
                       accepted: seq<Block>, more: seq<Block>)
    requires Stored(dag0, dag1, accepted) && InOrder(accepted, gcRound, dag0.Keys + genesis)
    requires Stored(dag1, dag2, more) && InOrder(more, gcRound, dag1.Keys + genesis)
    ensures Stored(dag0, dag2, accepted + more) && InOrder(accepted + more, gcRound, dag0.Keys + genesis)
  {
    hide InOrder;
    StoredConcat(dag0, dag1, dag2, accepted, more);
    assert dag1.Keys + genesis == dag0.Keys + genesis + RefsOf(accepted);
    InOrderConcat(accepted, more, gcRound, dag0.Keys + genesis);
  }

  // ----- blocks delivered by certified commits ------------------------------------------

  /** `b` no longer waits for any of `missed`. */
  function Withdrawn(w: WaitingMap, b: BlockRef, missed: set<BlockRef>): WaitingMap {
    map a | a in w :: if a in missed then w[a] - {b} else w[a]
  }

  /** A committed block is stored at once, whatever it misses, and forgotten as suspended. */
  ghost function AfterCommitted(st: State, b: Block): State {
    st.(dag := st.dag[b.ref := b],
        suspended := st.suspended - {b.ref},
        waiting := if b.ref in st.suspended then Withdrawn(st.waiting, b.ref, st.suspended[b.ref].missing)
          else st.waiting,
        missing := st.missing - {b.ref},
        trusted := st.trusted + {b.ref})
  }

  lemma WithdrawnMirrors(s: SuspendedMap, w: WaitingMap, b: BlockRef)
    requires Mirrored(s, w) && b in s
    ensures Mirrored(s - {b}, Withdrawn(w, b, s[b].missing))
  {
    var s', w' := s - {b}, Withdrawn(w, b, s[b].missing);
    forall x, y
      ensures Misses(s', y, x) <==> WaitsFor(w', x, y)
    {
      assert Misses(s, y, x) <==> WaitsFor(w, x, y);
    }
  }

  /** Forgetting a suspended block keeps the indexes; if others wait for it, it is missing again. */
  lemma ForgetKeepsIndex(s: SuspendedMap, w: WaitingMap, m: set<BlockRef>, gcRound: nat, known: set<BlockRef>,
                         b: BlockRef)
    requires Indexed(s, w, m, gcRound, known) && b in s
    ensures Indexed(s - {b}, Withdrawn(w, b, s[b].missing), m + {b} * w.Keys, gcRound, known)
    ensures Withdrawn(w, b, s[b].missing).Keys == w.Keys
  {
    WithdrawnMirrors(s, w, b);
    assert m + {b} * w.Keys == w.Keys - (s - {b}).Keys - known;
  }

  /** Storing a committed block starts the worklist for its children. */
  lemma CommittedStarts(genesis: set<BlockRef>, st: State, b: Block)
    requires Good(genesis, st) && b.ref !in KnownIn(genesis, st)
    ensures var st' := AfterCommitted(st, b);
            Releasing(st'.suspended, st'.suspended, st'.waiting, st'.missing, st.gcRound,
                      KnownIn(genesis, st) + {b.ref}, {b.ref}, [])
  {
    hide Releasing, Mirrored, WellSuspended, Complete, Accounted, Withdrawn, KnownIn;
    var st', known := AfterCommitted(st, b), KnownIn(genesis, st);
    if b.ref in st.suspended {
      var m := st.missing + {b.ref} * st.waiting.Keys;
      ForgetKeepsIndex(st.suspended, st.waiting, st.missing, st.gcRound, known, b.ref);
      StartReleasing(st'.suspended, st'.waiting, m, st.gcRound, known, b.ref);
      assert m - {b.ref} == st'.missing;
    } else {
      assert st'.suspended == st.suspended;
      StartReleasing(st.suspended, st.waiting, st.missing, st.gcRound, known, b.ref);
    }
  }

  lemma CommittedAccounted(genesis: set<BlockRef>, st: State, b: Block)
    requires Good(genesis, st) && b.ref !in KnownIn(genesis, st)
    ensures var st' := AfterCommitted(st, b);
            && Accounted(st'.dag, st'.suspended, st'.received, st'.gcRound, st'.trusted)
            && genesis <= st'.trusted <= KnownIn(genesis, st') == KnownIn(genesis, st) + {b.ref}
  {
    assert KnownIn(genesis, AfterCommitted(st, b)) == KnownIn(genesis, st) + {b.ref};
  }

  /** Releasing the children of a stored block keeps the invariant. */
  lemma ReleasedStaysGood(genesis: set<BlockRef>, st: State, known: set<BlockRef>, st': State, released: seq<Block>)
    requires Releasing(st.suspended, st'.suspended, st'.waiting, st'.missing, st.gcRound, known, {}, released)
    requires WellSuspended(st.suspended) && Accounted(st.dag, st.suspended, st.received, st.gcRound, st.trusted)
    requires genesis <= st.trusted <= KnownIn(genesis, st) <= known
    requires forall r :: r in known - KnownIn(genesis, st) ==> r.round <= st.gcRound
    requires forall g :: g in genesis ==> g.round == GENESIS_ROUND
    requires Stored(st.dag, st'.dag, released)
    requires st'.gcRound == st.gcRound && st'.trusted == st.trusted && st'.received == st.received
    ensures Good(genesis, st')
  {
    InOrderAbove(released, st.gcRound, known, st.dag.Keys + st.trusted);
    hide Mirrored, Complete, InOrder, LowerRounds, DistinctRefs, RefsOf;
    var stored := KnownIn(genesis, st');
    assert stored == KnownIn(genesis, st) + RefsOf(released);
    assert Indexed(st'.suspended, st'.waiting, st'.missing, st.gcRound, stored) && st'.waiting.Keys !! stored by {
      ReleaseSettles(st.suspended, st'.suspended, st'.waiting, st'.missing, st.gcRound, known, released, stored);
    }
    assert Accounted(st'.dag, st'.suspended, st'.received, st.gcRound, st.trusted) by {
      StoringReleasedKeepsAccounted(st.dag, st.suspended, st.received, st.gcRound, st.trusted, st'.dag, st'.suspended,
                                    released);
    }
  }

  /** Known references at or below the GC round play no part in the order. */
  lemma InOrderAbove(blocks: seq<Block>, gcRound: nat, known: set<BlockRef>, fewer: set<BlockRef>)
    requires InOrder(blocks, gcRound, known) && forall r :: r in known - fewer ==> r.round <= gcRound
    ensures InOrder(blocks, gcRound, fewer)
  {
    hide RefsOf;
  }

  /** Everything waited for is above the GC round. */
  ghost predicate WaitsAbove(w: WaitingMap, gcRound: nat) {
    forall a :: a in w ==> a.round > gcRound
  }

  lemma NeededIsAboveGc(genesis: set<BlockRef>, st: State, b: Block)
    requires Genuine(genesis, st, b)
    ensures forall a :: a in NeededBy(genesis, st, b) ==> a.round > st.gcRound
    ensures WaitsAbove(st.waiting, st.gcRound) ==> WaitsAbove(AfterAcceptOne(genesis, st, b).waiting, st.gcRound)
  {
  }

  /** References to fetch: ancestors of the block above the GC round. */
  ghost predicate NewlyMissing(b: Block, gcRound: nat, refs: set<BlockRef>) {
    forall a :: a in refs ==> a in b.ancestors && gcRound < a.round < b.ref.round
  }

  lemma FetchesAreMissing(genesis: set<BlockRef>, st: State, b: Block)
    requires Genuine(genesis, st, b)
    ensures NewlyMissing(b, st.gcRound, {}) && NewlyMissing(b, st.gcRound, NeededBy(genesis, st, b) - st.suspended.Keys)
  {
  }

  /** Acceptance is exact: above the GC round, the stored blocks are the trusted ones and those whose
      whole causal history above the GC round was received or trusted. */
  lemma AcceptedExactly(genesis: set<BlockRef>, st: State, r: BlockRef)
    requires Good(genesis, st) && WaitsAbove(st.waiting, st.gcRound) && r.round > st.gcRound
    ensures r in st.dag <==> r in st.trusted || Acceptable(r, st.received, st.gcRound, st.trusted)
  {
    hide Indexed, Accounted, Acceptable;
    if r in st.dag && r !in st.trusted {
      StoredIsAcceptable(st.dag, st.suspended, st.received, st.gcRound, st.trusted, r);
    }
    if Acceptable(r, st.received, st.gcRound, st.trusted) {
      assert st.dag.Keys + st.trusted == KnownIn(genesis, st);
      AcceptableIsStored(st.dag, st.suspended, st.waiting, st.missing, st.received, st.gcRound, st.trusted, r);
    }
  }

  /** A suspended block misses exactly its ancestors above the GC round that are not stored. */
  lemma MissingExactly(genesis: set<BlockRef>, st: State, b: BlockRef)
    requires Good(genesis, st) && WaitsAbove(st.waiting, st.gcRound) && b in st.suspended
    ensures b.round > st.gcRound && b in st.received && st.suspended[b].block == st.received[b]
    ensures st.suspended[b].missing ==
            set a | a in st.received[b].ancestors && a.round > st.gcRound && a !in KnownIn(genesis, st)
  {
    NothingSuspendedBelow(st.suspended, st.waiting, st.gcRound);
    forall a | a in st.suspended[b].missing
      ensures a.round > st.gcRound && a !in KnownIn(genesis, st)
    {
      assert Misses(st.suspended, b, a);
      assert WaitsFor(st.waiting, a, b);
    }
  }

  /** Order independence: what is stored above the GC round, and what is suspended for which missing
      ancestors, depends only on the blocks received and trusted, not on their order or batching. */
  lemma OrderIndependent(genesis: set<BlockRef>, universe: BlockMap, st1: State, st2: State)
    requires Good(genesis, st1) && WaitsAbove(st1.waiting, st1.gcRound)
    requires Good(genesis, st2) && WaitsAbove(st2.waiting, st2.gcRound)
    requires PartOf(st1.received, universe) && PartOf(st2.received, universe)
    requires st1.gcRound == st2.gcRound && st1.received.Keys == st2.received.Keys && st1.trusted == st2.trusted
    ensures forall r: BlockRef :: r.round > st1.gcRound ==> (r in st1.dag <==> r in st2.dag)
    ensures forall r :: r in st1.dag && r.round > st1.gcRound && r !in st1.trusted ==> st1.dag[r] == st2.dag[r]
    ensures st1.suspended == st2.suspended
  {
    hide Indexed, Complete, WellSuspended, Mirrored, WaitsAbove;
    assert st1.received == st2.received;
    forall r: BlockRef | r.round > st1.gcRound
      ensures r in st1.dag <==> r in st2.dag
    {
      AcceptedExactly(genesis, st1, r);
      AcceptedExactly(genesis, st2, r);
    }
    SuspendedWithin(genesis, st1, st2);
    SuspendedWithin(genesis, st2, st1);
  }

  lemma SuspendedWithin(genesis: set<BlockRef>, st1: State, st2: State)
    requires Good(genesis, st1) && WaitsAbove(st1.waiting, st1.gcRound)
    requires Good(genesis, st2) && WaitsAbove(st2.waiting, st2.gcRound)
    requires st1.gcRound == st2.gcRound && st1.received == st2.received
    requires forall r: BlockRef :: r.round > st1.gcRound ==> (r in st1.dag <==> r in st2.dag)
    ensures forall b :: b in st1.suspended ==> b in st2.suspended && st1.suspended[b] == st2.suspended[b]
  {
    hide Complete, WellSuspended, Mirrored, WaitsAbove;
    forall b | b in st1.suspended
      ensures b in st2.suspended && st1.suspended[b] == st2.suspended[b]
    {
      MissingExactly(genesis, st1, b);
      assert b !in KnownIn(genesis, st1);
      MissingExactly(genesis, st2, b);
    }
  }

  /** What the commit rule needs of a view: if the trusted blocks have their history above the GC round, so
      has every stored block. */
  lemma StoredIsComplete(genesis: set<BlockRef>, st: State)
    requires Good(genesis, st)
    requires forall r, a :: r in st.dag && r in st.trusted && a in st.dag[r].ancestors && a.round > st.gcRound ==>
               a in st.dag
    ensures CompleteAbove(st.dag, st.gcRound)
  {
    hide Indexed;
    forall r, i | r in st.dag && 0 <= i < |st.dag[r].ancestors| && st.dag[r].ancestors[i].round > st.gcRound
      ensures st.dag[r].ancestors[i] in st.dag
    {
      assert st.dag[r].ancestors[i] in st.dag[r].ancestors;
    }
  }

  // ----- looking for blocks and advancing the GC round -----------------------------------

  /** An entry, at first without children, for every reference in `refs`. */
  function WithEntries(w: WaitingMap, refs: set<BlockRef>): WaitingMap {
    map a | a in w.Keys + refs :: if a in w then w[a] else {}
  }

  ghost function Unknown(genesis: set<BlockRef>, st: State, refs: seq<BlockRef>): set<BlockRef> {
    set r | r in refs && r.round > st.gcRound && r !in KnownIn(genesis, st) && r !in st.suspended
  }

  lemma UnknownMeans(genesis: set<BlockRef>, st: State, refs: seq<BlockRef>)
    ensures forall r :: r in Unknown(genesis, st, refs) <==>
              r in refs && r.round > st.gcRound && r !in st.dag && r !in genesis && r !in st.suspended
  {
  }

  ghost function AfterFind(genesis: set<BlockRef>, st: State, refs: seq<BlockRef>): State {
    var unknown := Unknown(genesis, st, refs);
    st.(waiting := WithEntries(st.waiting, unknown), missing := st.missing + unknown)
  }

  lemma FindStaysGood(genesis: set<BlockRef>, st: State, refs: seq<BlockRef>)
    requires Good(genesis, st)
    ensures Good(genesis, AfterFind(genesis, st, refs))
    ensures WaitsAbove(st.waiting, st.gcRound) ==> WaitsAbove(AfterFind(genesis, st, refs).waiting, st.gcRound)
  {
    hide Accounted, Complete, WellSuspended;
    var w, w' := st.waiting, AfterFind(genesis, st, refs).waiting;
    assert forall a, b :: WaitsFor(w, a, b) <==> WaitsFor(w', a, b);
  }

  /** A higher GC round only asks for less. */
  lemma HigherGcStaysGood(genesis: set<BlockRef>, st: State, gcRound: nat)
    requires Good(genesis, st) && st.gcRound <= gcRound
    ensures Good(genesis, st.(gcRound := gcRound))
  {
  }

  /** What verification guarantees about an offered block. */
  ghost predicate Offered(genesis: set<BlockRef>, universe: BlockMap, b: Block) {
    && LowerRounds(b)
    && (forall a :: a in b.ancestors && a.round == GENESIS_ROUND ==> a in genesis)
    && b.ref in universe && universe[b.ref] == b
  }

  lemma CommittedKeepsRest(genesis: set<BlockRef>, st: State, b: Block)
    requires Good(genesis, st)
    ensures WellSuspended(AfterCommitted(st, b).suspended) && forall g :: g in genesis ==> g.round == GENESIS_ROUND
    ensures AfterCommitted(st, b).waiting.Keys == st.waiting.Keys
  {
  }

  lemma CommittedHeads(dag: BlockMap, b: Block, dag': BlockMap, released: seq<Block>)
    requires b.ref !in dag && Stored(dag[b.ref := b], dag', released)
    ensures Stored(dag, dag', [b] + released) && b.ref in dag'
  {
    assert RefsOf([b]) == {b.ref} by {
      assert [b][0] == b;
    }
    StoredConcat(dag, dag[b.ref := b], dag', [b], released);
  }

  lemma StoredKeeps(before: BlockMap, after: BlockMap, blocks: seq<Block>)
    requires Stored(before, after, blocks)
    ensures before.Keys <= after.Keys
  {
  }

  lemma NoneUnknown(genesis: set<BlockRef>, st: State)
    ensures Unknown(genesis, st, []) == {}
  {
  }

  lemma EntriesOf(w: WaitingMap, refs: set<BlockRef>)
    ensures WithEntries(w, refs).Keys == w.Keys + refs
  {
  }

  lemma WithNoEntries(w: WaitingMap)
    ensures WithEntries(w, {}) == w
  {
  }

  /** Registering one more missing block; nothing changes if it is registered as missing already. */
  lemma OneMoreEntry(w: WaitingMap, m: set<BlockRef>, missing: set<BlockRef>, r: BlockRef)
    requires m <= w.Keys
    ensures WithEntries(w, missing + {r}) ==
            if r in m + missing || r in w then WithEntries(w, missing) else WithEntries(w, missing)[r := {}]
  {
  }

  lemma UnknownStep(genesis: set<BlockRef>, st: State, refs: seq<BlockRef>, i: nat)
    requires i < |refs|
    ensures Unknown(genesis, st, refs[..i + 1]) == Unknown(genesis, st, refs[..i]) + Unknown(genesis, st, [refs[i]])
    ensures Unknown(genesis, st, [refs[i]]) ==
            if refs[i].round > st.gcRound && refs[i] !in KnownIn(genesis, st) &&
              refs[i] !in st.suspended then {refs[i]} else {}
  {
    assert refs[..i + 1] == refs[..i] + [refs[i]];
  }

  lemma MissingHasEntry(genesis: set<BlockRef>, st: State)
    requires Good(genesis, st)
    ensures st.missing <= st.waiting.Keys
  {
  }

  lemma NothingReleased(s: SuspendedMap)
    ensures Released(s, s, [])
  {
  }

  /** The least missing block can be dropped: it is not suspended, and its children no longer need it. */
  lemma GcStarts(genesis: set<BlockRef>, st: State, first: BlockRef)
    requires Good(genesis, st) && IsLeast(first, st.waiting.Keys)
    ensures first !in st.suspended && first !in KnownIn(genesis, st)
    ensures Releasing(st.suspended, st.suspended, st.waiting, st.missing - {first}, st.gcRound,
                      KnownIn(genesis, st) + {first}, {first}, [])
    ensures WellSuspended(st.suspended) && Accounted(st.dag, st.suspended, st.received, st.gcRound, st.trusted)
    ensures genesis <= st.trusted <= KnownIn(genesis, st) && forall g :: g in genesis ==> g.round == GENESIS_ROUND
  {
    hide Accounted, Releasing, Complete;
    LeastMissingNotSuspended(st.suspended, st.waiting, first);
    StartReleasing(st.suspended, st.waiting, st.missing, st.gcRound, KnownIn(genesis, st), first);
  }

  /** A dropped block at or below the GC round does not matter for the causal order. */
  lemma GcExtends(genesis: set<BlockRef>, st: State, first: BlockRef, dag: BlockMap, gcRound: nat, more: seq<Block>)
    requires first.round <= gcRound && InOrder(more, gcRound, KnownIn(genesis, st) + {first})
    ensures InOrder(more, gcRound, st.dag.Keys + genesis)
  {
  }

  lemma SettledAfterGc(genesis: set<BlockRef>, st: State, first: BlockRef)
    requires Good(genesis, st) && IsLeast(first, st.waiting.Keys) && first.round > st.gcRound
    ensures WaitsAbove(st.waiting, st.gcRound)
    ensures forall r :: r in st.missing || r in st.suspended ==> r.round > st.gcRound
  {
    NothingSuspendedBelow(st.suspended, st.waiting, st.gcRound);
  }

  lemma NothingWaiting(genesis: set<BlockRef>, st: State)
    requires Good(genesis, st) && st.waiting == map[]
    ensures WaitsAbove(st.waiting, st.gcRound)
    ensures forall r :: r in st.missing || r in st.suspended ==> r.round > st.gcRound
  {
    NothingSuspendedBelow(st.suspended, st.waiting, st.gcRound);
  }

  class BlockManager {
    const genesis: set<BlockRef>

    // The part of the DAG state the manager reads and writes.
    var dag: BlockMap
    var gcRound: nat

    // Blocks that miss part of their causal history.
    var suspended: SuspendedMap
    // Missing blocks, and which suspended blocks need them.
    var missingAncestors: WaitingMap
    // Missing blocks that have not been received.
    var missingBlocks: set<BlockRef>

    // Every block ever passed in for acceptance, and every block stored without that: the initial
    // DAG, genesis, and blocks delivered by certified commits.
    ghost var received: BlockMap
    ghost var trusted: set<BlockRef>

    ghost function Known(): set<BlockRef>
      reads this
    {
      dag.Keys + genesis
    }

    /** The manager's state as a value. */
    ghost function Snapshot(): State
      reads this
    {
      State(dag, gcRound, suspended, missingAncestors, missingBlocks, received, trusted)
    }

    ghost predicate Valid()
      reads this
    {
      Good(genesis, Snapshot())
    }

    constructor (genesis: set<BlockRef>, dag: BlockMap, gcRound: nat)
      requires forall g :: g in genesis ==> g.round == GENESIS_ROUND
      ensures Valid() && this.dag == dag && this.genesis == genesis && this.gcRound == gcRound
      ensures suspended == map[] && missingAncestors == map[] && missingBlocks == {} && received == map[]
      ensures trusted == dag.Keys + genesis
    {
      this.genesis, this.dag, this.gcRound := genesis, dag, gcRound;
      suspended, missingAncestors, missingBlocks := map[], map[], {};
      received, trusted := map[], dag.Keys + genesis;
    }

    /** Removes an accepted dependency from a suspended block; returns the block when it was the last one. */
    method TryUnsuspendBlock(b: BlockRef, dependency: BlockRef) returns (released: Option<Block>)
      requires b in suspended && dependency in suspended[b].missing
      modifies this`suspended
      ensures suspended == Told(old(suspended), b, dependency)
      ensures released == if b in suspended then None else Some(old(suspended)[b].block)
    {
      var entry := suspended[b];
      var left := entry.missing - {dependency};
      if left == {} {
        suspended := suspended - {b};
        released := Some(entry.block);
      } else {
        suspended := suspended[b := SuspendedBlock(entry.block, left)];
        released := None;
      }
    }

    /** Tells every child of `current`, in order, and collects the blocks that are now complete. */
    method TellChildren(current: BlockRef, children: set<BlockRef>, ghost known: set<BlockRef>)
      returns (released: seq<Block>)
      requires Telling(suspended, suspended, missingAncestors, gcRound, known, current, children, [])
      modifies this`suspended
      ensures Telling(old(suspended), suspended, missingAncestors, gcRound, known, current, {}, released)
    {
      hide Telling, Told;
      released := [];
      var rest := children;
      while rest != {}
        invariant Telling(old(suspended), suspended, missingAncestors, gcRound, known, current, rest, released)
        decreases |rest|
      {
        var b := First(rest);
        TellingStep(old(suspended), suspended, missingAncestors, gcRound, known, current, rest, released, b);
        var block := TryUnsuspendBlock(b, current);
        if block.Some? {
          released := released + [block.value];
        }
        rest := rest - {b};
      }
    }

    /** Processes the entry of one known block: the blocks it completes are released. */
    method ProcessEntry(current: BlockRef, ghost before: SuspendedMap, ghost known: set<BlockRef>,
                        ghost stack: set<BlockRef>, ghost released: seq<Block>) returns (more: seq<Block>)
      requires Releasing(before, suspended, missingAncestors, missingBlocks, gcRound, known, stack, released)
      requires current in stack
      modifies this`suspended, this`missingAncestors
      ensures Releasing(before, suspended, missingAncestors, missingBlocks, gcRound, known,
                        stack - {current} + RefsOf(more), released + more)
      ensures missingAncestors.Keys <= old(missingAncestors).Keys - {current}
      ensures more != [] ==> |suspended| < |old(suspended)|
      ensures more == [] ==> |suspended| == |old(suspended)|
    {
      hide Releasing, Telling, Released, RefsOf;
      if current in missingAncestors {
        ghost var s, w := suspended, missingAncestors;
        StartTelling(before, s, w, missingBlocks, gcRound, known, stack, released, current);
        var children := missingAncestors[current];
        missingAncestors := missingAncestors - {current};
        more := TellChildren(current, children, known + RefsOf(released));
        FinishTelling(before, s, suspended, w, missingBlocks, gcRound, known, stack, released, current, more);
        ShrinksIfReleased(s, suspended, more);
      } else {
        SkipEntry(before, suspended, missingAncestors, missingBlocks, gcRound, known, stack, released, current);
        more := [];
      }
    }

    /** Given a block that is now known, releases all suspended blocks that have become complete,
        directly or through one another, in causal order. */
    method TryUnsuspendChildrenBlocks(accepted: BlockRef, ghost known: set<BlockRef>) returns (released: seq<Block>)
      requires Releasing(suspended, suspended, missingAncestors, missingBlocks, gcRound, known, {accepted}, [])
      modifies this`suspended, this`missingAncestors
      ensures Releasing(old(suspended), suspended, missingAncestors, missingBlocks, gcRound, known, {}, released)
      ensures missingAncestors.Keys <= old(missingAncestors).Keys - {accepted}
    {
      hide Releasing, RefsOf, Refs;
      released := [];
      var stack := [accepted];
      assert Members(stack) == {accepted};
      while stack != []
        invariant Releasing(old(suspended), suspended, missingAncestors, missingBlocks, gcRound, known, Members(stack),
                            released)
        invariant missingAncestors.Keys <= old(missingAncestors).Keys
        invariant accepted in missingAncestors ==> stack == [accepted]
        decreases |suspended|, |stack|
      {
        var current := stack[|stack| - 1];
        MembersPop(stack);
        StackIsKnown(old(suspended), suspended, missingAncestors, missingBlocks, gcRound, known, Members(stack),
                     released);
        var more := ProcessEntry(current, old(suspended), known, Members(stack), released);
        StackStep(old(suspended), suspended, missingAncestors, missingBlocks, gcRound, known, released, stack, more);
        released := released + more;
        stack := stack[..|stack| - 1] + Refs(more);
      }
      assert Members(stack) == {};
    }

    /** Stores a block, unless it exists already. */
    method AcceptBlock(block: Block)
      requires block.ref.round != GENESIS_ROUND
      modifies this`dag
      ensures dag == if block.ref in old(Known()) then old(dag) else old(dag)[block.ref := block]
    {
      if !(block.ref in dag || block.ref in genesis) {
        dag := dag[block.ref := block];
      }
    }

    method AcceptBlocks(blocks: seq<Block>)
      requires forall i :: 0 <= i < |blocks| ==> blocks[i].ref.round != GENESIS_ROUND && blocks[i].ref !in Known()
      requires DistinctRefs(blocks)
      modifies this`dag
      ensures Stored(old(dag), dag, blocks)
    {
      for i := 0 to |blocks|
        invariant Stored(old(dag), dag, blocks[..i])
      {
        assert blocks[..i + 1] == blocks[..i] + [blocks[i]];
        RefsOfAppend(blocks[..i], blocks[i]);
        AcceptBlock(blocks[i]);
      }
      assert blocks[..|blocks|] == blocks;
    }

    /** Registers the ancestors of a block that are not stored. */
    method RegisterMissing(block: Block) returns (needed: set<BlockRef>, toFetch: set<BlockRef>)
      modifies this`missingAncestors, this`missingBlocks
      ensures needed == NeededLinks(block.ancestors, gcRound, Known()) && toFetch == needed - suspended.Keys
      ensures missingAncestors == Registered(old(missingAncestors), needed, block.ref)
      ensures missingBlocks == old(missingBlocks) + toFetch
    {
      hide Registered, NeededLinks;
      needed, toFetch := {}, {};
      NoNeededLinks(gcRound, Known());
      RegisteredNothing(missingAncestors, block.ref);
      for i := 0 to |block.ancestors|
        invariant needed == NeededLinks(block.ancestors[..i], gcRound, Known()) && toFetch == needed - suspended.Keys
        invariant missingAncestors == Registered(old(missingAncestors), needed, block.ref)
        invariant missingBlocks == old(missingBlocks) + toFetch
      {
        var a := block.ancestors[i];
        NeededLinksStep(block.ancestors, gcRound, Known(), i);
        if (a.round == GENESIS_ROUND || a.round > gcRound) && !(a in dag || a in genesis) {
          RegisteredOneMore(old(missingAncestors), needed, block.ref, a);
          needed := needed + {a};
          var waiting := if a in missingAncestors then missingAncestors[a] else {};
          missingAncestors := missingAncestors[a := waiting + {block.ref}];
          if a !in suspended {
            toFetch := toFetch + {a};
            missingBlocks := missingBlocks + {a};
          }
        }
      }
      assert block.ancestors[..|block.ancestors|] == block.ancestors;
    }

    /** Suspends a block whose history is incomplete. An accepted block is only taken out of the
        missing set here; storing it is up to the caller. */
    method TryAcceptOneBlock(block: Block) returns (result: TryAcceptResult)
      modifies this`suspended, this`missingAncestors, this`missingBlocks, this`received
      ensures result == AcceptOutcome(genesis, old(Snapshot()), block)
      ensures Snapshot() == AfterAcceptOne(genesis, old(Snapshot()), block)
    {
      if block.ref in suspended || block.ref in dag || block.ref in genesis {
        received := received[block.ref := block];
        return Processed;
      }
      if block.ref.round <= gcRound {
        received := received[block.ref := block];
        return Skipped;
      }
      var needed, toFetch := RegisterMissing(block);
      missingBlocks := missingBlocks - {block.ref};
      if needed != {} {
        suspended := suspended[block.ref := SuspendedBlock(block, needed)];
        received := received[block.ref := block];
        return Suspended(toFetch);
      }
      RegisteredNothing(old(missingAncestors), block.ref);
      return Accepted;
    }

    /** Stores an accepted block and everything it releases, in causal order. */
    method StoreAccepted(block: Block, ghost st: State) returns (accepted: seq<Block>)
      requires Good(genesis, st) && Genuine(genesis, st, block) && AcceptOutcome(genesis, st, block).Accepted?
      requires Snapshot() == AfterAcceptOne(genesis, st, block)
      modifies this`dag, this`suspended, this`missingAncestors, this`received
      ensures Valid() && Stored(st.dag, dag, accepted) && InOrder(accepted, st.gcRound, KnownIn(genesis, st))
      ensures AllNew(accepted, KnownIn(genesis, st)) && received == st.received[block.ref := block]
      ensures missingAncestors.Keys <= st.waiting.Keys
    {
      ghost var known := KnownIn(genesis, st);
      StartReleasing(st.suspended, st.waiting, st.missing, st.gcRound, known, block.ref);
      var released := TryUnsuspendChildrenBlocks(block.ref, known + {block.ref});
      ReleasedAreNotGenesis(st.suspended, suspended, released);
      ReleasedWereReceived(genesis, st, suspended, released);
      AcceptBlock(block);
      AcceptBlocks(released);
      received := received[block.ref := block];
      AcceptedStaysGood(genesis, st, block, Snapshot(), released);
      AcceptedHeads(genesis, st, block, dag, released);
      ReleasedAreNew(st.suspended, suspended, released, known + {block.ref});
      HeadIsNew(block, released, known);
      accepted := [block] + released;
    }

    /** What to fetch when a block gets suspended: the ancestors it needs that are not stored or suspended. */
    ghost function FetchesFor(block: Block): set<BlockRef>
      reads this
    {
      var outcome := AcceptOutcome(genesis, Snapshot(), block);
      if outcome.Suspended? then outcome.ancestorsToFetch else {}
    }

    /** Offers one block: suspends it, or stores it and everything it releases. */
    method OfferBlock(block: Block, ghost universe: BlockMap) returns (accepted: seq<Block>, toFetch: set<BlockRef>)
      requires Valid() && PartOf(received, universe) && Offered(genesis, universe, block)
      modifies this
      ensures Valid() && PartOf(received, universe) && received == old(received)[block.ref := block]
      ensures gcRound == old(gcRound) && trusted == old(trusted)
      ensures Stored(old(dag), dag, accepted) && InOrder(accepted, gcRound, old(Known()))
      ensures AllNew(accepted, old(Known()))
      ensures toFetch == old(FetchesFor(block)) && NewlyMissing(block, gcRound, toFetch)
      ensures old(missingBlocks) + toFetch - {block.ref} <= missingBlocks <= old(missingBlocks) + toFetch
      ensures WaitsAbove(old(missingAncestors), gcRound) ==> WaitsAbove(missingAncestors, gcRound)
    {
      hide Good, Stored, InOrder, AllNew, NeededLinks, Registered, LowerRounds, NewlyMissing;
      ghost var st := Snapshot();
      NeededIsAboveGc(genesis, st, block);
      FetchesAreMissing(genesis, st, block);
      var result := TryAcceptOneBlock(block);
      if result.Accepted? {
        accepted := StoreAccepted(block, st);
        toFetch := {};
      } else {
        NotAcceptedStaysGood(genesis, st, block);
        NothingStored(dag, gcRound, Known());
        NoneNew(Known());
        accepted := [];
        toFetch := if result.Suspended? then result.ancestorsToFetch else {};
      }
    }

    /** Offers blocks in round order. Returns the newly stored blocks, each after its ancestors, and
        the references to fetch. `universe` names all blocks: references do not collide. */
    method TryAcceptBlocks(blocks: seq<Block>, ghost universe: BlockMap)
      returns (accepted: seq<Block>, toFetch: set<BlockRef>)
      requires Valid() && PartOf(received, universe)
      requires forall b :: b in blocks ==> Offered(genesis, universe, b)
      modifies this
      ensures Valid() && PartOf(received, universe) && received.Keys == old(received).Keys + RefsOf(blocks)
      ensures gcRound == old(gcRound) && trusted == old(trusted)
      ensures Stored(old(dag), dag, accepted) && InOrder(accepted, gcRound, old(Known()))
      ensures AllNew(accepted, old(Known()))
      ensures toFetch <= missingBlocks <= old(missingBlocks) + toFetch
      ensures forall a :: a in toFetch ==> a.round > gcRound && exists b :: b in blocks && a in b.ancestors
      ensures WaitsAbove(old(missingAncestors), gcRound) ==> WaitsAbove(missingAncestors, gcRound)
    {
      hide WaitsAbove, FetchesFor;
      hide Good, PartOf, Offered, Stored, InOrder, AllNew, NewlyMissing, FetchedEarlier, RefsOf, Sorting.SortedBy,
        Sorting.StableSort;
      var sorted := Sorting.SortByKey(blocks, (b: Block) => b.ref.round);
      Sorting.SameElements(sorted, blocks);
      accepted, toFetch := [], {};
      NothingStored(dag, gcRound, Known());
      NoneNew(Known());
      NothingFetched(sorted);
      NoRefs();
      for i := 0 to |sorted|
        invariant Valid() && PartOf(received, universe) && received.Keys == old(received).Keys + RefsOf(sorted[..i])
        invariant gcRound == old(gcRound) && trusted == old(trusted)
        invariant Stored(old(dag), dag, accepted) && InOrder(accepted, gcRound, old(Known()))
        invariant AllNew(accepted, old(Known()))
        invariant toFetch <= missingBlocks <= old(missingBlocks) + toFetch
        invariant forall a :: a in toFetch ==> a.round > gcRound && exists b :: b in blocks && a in b.ancestors
        invariant FetchedEarlier(toFetch, sorted, i)
        invariant WaitsAbove(old(missingAncestors), gcRound) ==> WaitsAbove(missingAncestors, gcRound)
      {
        ghost var before := dag;
        var more, fetch := OfferBlock(sorted[i], universe);
        ExtendAccepted(old(dag), before, dag, genesis, gcRound, accepted, more);
        StoredKnown(old(dag), before, genesis, accepted);
        NewConcat(accepted, more, old(Known()));
        FetchedStep(toFetch, fetch, sorted, i, gcRound);
        assert sorted[i] in blocks;
        assert sorted[..i + 1] == sorted[..i] + [sorted[i]];
        RefsOfAppend(sorted[..i], sorted[i]);
        toFetch := toFetch + fetch;
        accepted := accepted + more;
      }
      assert sorted[..|sorted|] == sorted;
      RefsOfSame(sorted, blocks);
    }

    /** With `r` about to be known: releases its children and stores them. */
    method StoreReleased(r: BlockRef, ghost known: set<BlockRef>) returns (released: seq<Block>)
      requires Releasing(suspended, suspended, missingAncestors, missingBlocks, gcRound, known, {r}, [])
      requires WellSuspended(suspended) && Accounted(dag, suspended, received, gcRound, trusted)
      requires genesis <= trusted <= Known() <= known
      requires forall a :: a in known - Known() ==> a.round <= gcRound
      requires forall g :: g in genesis ==> g.round == GENESIS_ROUND
      modifies this`dag, this`suspended, this`missingAncestors
      ensures Valid() && Stored(old(dag), dag, released) && InOrder(released, gcRound, known)
      ensures Released(old(suspended), suspended, released) && AllNew(released, known)
      ensures missingAncestors.Keys <= old(missingAncestors).Keys - {r}
    {
      ghost var st := Snapshot();
      assert known !! suspended.Keys;
      released := TryUnsuspendChildrenBlocks(r, known);
      ReleasedAreNotGenesis(st.suspended, suspended, released);
      AcceptBlocks(released);
      ReleasedStaysGood(genesis, st, known, Snapshot(), released);
      ReleasedAreNew(st.suspended, suspended, released, known);
    }

    /** Stores a block delivered by a certified commit, unless it is stored, and withdraws it from
        the indexes if it was suspended. */
    method TryAcceptOneCommittedBlock(block: Block) returns (result: TryAcceptResult)
      requires block.ref.round != GENESIS_ROUND
      modifies this`dag, this`suspended, this`missingAncestors, this`missingBlocks, this`trusted
      ensures result == if block.ref in old(Known()) then Processed else Accepted
      ensures Snapshot() == if block.ref in old(Known()) then old(Snapshot())
              else AfterCommitted(old(Snapshot()), block)
    {
      if block.ref in dag || block.ref in genesis {
        return Processed;
      }
      missingBlocks := missingBlocks - {block.ref};
      if block.ref in suspended {
        missingAncestors := Withdrawn(missingAncestors, block.ref, suspended[block.ref].missing);
      }
      suspended := suspended - {block.ref};
      AcceptBlock(block);
      trusted := trusted + {block.ref};
      return Accepted;
    }

    /** Stores one committed block and the blocks it releases. */
    method OfferCommittedBlock(block: Block) returns (accepted: seq<Block>)
      requires Valid() && block.ref.round != GENESIS_ROUND
      modifies this
      ensures Valid() && gcRound == old(gcRound) && received == old(received)
      ensures block.ref in Known() && old(trusted) <= trusted <= old(trusted) + {block.ref}
      ensures Stored(old(dag), dag, accepted) && AllNew(accepted, old(Known()))
      ensures missingAncestors.Keys <= old(missingAncestors).Keys && missingBlocks <= old(missingBlocks)
    {
      hide Good, Stored, Releasing, Accounted, WellSuspended, AllNew;
      ghost var st := Snapshot();
      var result := TryAcceptOneCommittedBlock(block);
      if result.Accepted? {
        CommittedStarts(genesis, st, block);
        CommittedAccounted(genesis, st, block);
        CommittedKeepsRest(genesis, st, block);
        var released := StoreReleased(block.ref, Known());
        CommittedHeads(st.dag, block, dag, released);
        assert AfterCommitted(st, block).dag.Keys + genesis == st.dag.Keys + genesis + {block.ref};
        HeadIsNew(block, released, st.dag.Keys + genesis);
        accepted := [block] + released;
      } else {
        accepted := [];
        NothingStored(dag, gcRound, Known());
        NoneNew(Known());
      }
    }

    /** Stores all blocks of a certified commit, whatever they miss. Nothing needs fetching. */
    method TryAcceptCommittedBlocks(blocks: seq<Block>) returns (accepted: seq<Block>)
      requires Valid() && forall b :: b in blocks ==> b.ref.round != GENESIS_ROUND
      modifies this
      ensures Valid() && gcRound == old(gcRound) && received == old(received)
      ensures (forall b :: b in blocks ==> b.ref in Known()) && old(trusted) <= trusted <= old(trusted) + RefsOf(blocks)
      ensures Stored(old(dag), dag, accepted) && AllNew(accepted, old(Known()))
      ensures missingAncestors.Keys <= old(missingAncestors).Keys && missingBlocks <= old(missingBlocks)
    {
      hide Good, Stored, AllNew, RefsOf, Sorting.SortedBy, Sorting.StableSort;
      var sorted := Sorting.SortByKey(blocks, (b: Block) => b.ref.round);
      Sorting.SameElements(sorted, blocks);
      accepted := [];
      NothingStored(dag, gcRound, Known());
      NoneNew(Known());
      NoRefs();
      for i := 0 to |sorted|
        invariant Valid() && gcRound == old(gcRound) && received == old(received)
        invariant forall j :: 0 <= j < i ==> sorted[j].ref in Known()
        invariant old(trusted) <= trusted <= old(trusted) + RefsOf(sorted[..i])
        invariant Stored(old(dag), dag, accepted) && AllNew(accepted, old(Known()))
        invariant missingAncestors.Keys <= old(missingAncestors).Keys && missingBlocks <= old(missingBlocks)
      {
        ghost var before := dag;
        var more := OfferCommittedBlock(sorted[i]);
        StoredKeeps(before, dag, more);
        StoredConcat(old(dag), before, dag, accepted, more);
        StoredKnown(old(dag), before, genesis, accepted);
        NewConcat(accepted, more, old(Known()));
        assert sorted[..i + 1] == sorted[..i] + [sorted[i]];
        RefsOfAppend(sorted[..i], sorted[i]);
        accepted := accepted + more;
      }
      assert sorted[..|sorted|] == sorted;
      RefsOfSame(sorted, blocks);
    }

    /** Finds which of the given blocks above the GC round are neither stored nor suspended, and
        registers them as missing. */
    method TryFindBlocks(refs: seq<BlockRef>) returns (missing: set<BlockRef>)
      requires Valid()
      modifies this`missingAncestors, this`missingBlocks
      ensures Valid() && missingBlocks == old(missingBlocks) + missing
      ensures forall r :: r in missing <==>
                r in refs && r.round > gcRound && r !in dag && r !in genesis && r !in suspended
      ensures Snapshot() == AfterFind(genesis, old(Snapshot()), refs)
      ensures WaitsAbove(old(missingAncestors), gcRound) ==> WaitsAbove(missingAncestors, gcRound)
    {
      hide Good, WaitsAbove, WithEntries, Unknown;
      ghost var st := Snapshot();
      FindStaysGood(genesis, st, refs);
      MissingHasEntry(genesis, st);
      WithNoEntries(missingAncestors);
      NoneUnknown(genesis, st);
      missing := {};
      for i := 0 to |refs|
        invariant missing == Unknown(genesis, st, refs[..i])
        invariant missingBlocks == st.missing + missing && missingAncestors == WithEntries(st.waiting, missing)
      {
        UnknownStep(genesis, st, refs, i);
        var r := refs[i];
        if r.round > gcRound && !(r in dag || r in genesis || r in suspended) {
          OneMoreEntry(st.waiting, st.missing, missing, r);
          EntriesOf(st.waiting, missing);
          missing := missing + {r};
          if r !in missingBlocks {
            missingBlocks := missingBlocks + {r};
            if r !in missingAncestors {
              missingAncestors := missingAncestors[r := {}];
            }
          }
        }
      }
      assert refs[..|refs|] == refs;
      UnknownMeans(genesis, st, refs);
    }

    /** The DAG state moved its GC round up. */
    method AdvanceGc(gcRound: nat)
      requires Valid() && this.gcRound <= gcRound
      modifies this`gcRound
      ensures Valid() && Snapshot() == old(Snapshot()).(gcRound := gcRound)
    {
      HigherGcStaysGood(genesis, Snapshot(), gcRound);
      this.gcRound := gcRound;
    }

    /** Drops everything missing at or below the GC round, least first, and stores the blocks that
        no longer miss anything. Afterwards nothing missing or suspended is at or below the GC round. */
    method TryUnsuspendBlocksForLatestGcRound() returns (ghost released: seq<Block>)
      requires Valid()
      modifies this`dag, this`suspended, this`missingAncestors, this`missingBlocks
      ensures Valid() && WaitsAbove(missingAncestors, gcRound)
      ensures forall r :: r in missingBlocks || r in suspended ==> r.round > gcRound
      ensures Stored(old(dag), dag, released) && InOrder(released, gcRound, old(Known()))
      ensures Released(old(suspended), suspended, released)
    {
      hide Stored, InOrder, Released, Good;
      released := [];
      NothingStored(dag, gcRound, Known());
      NothingReleased(suspended);
      while missingAncestors != map[]
        invariant Valid()
        invariant Stored(old(dag), dag, released) && InOrder(released, gcRound, old(Known()))
        invariant Released(old(suspended), suspended, released)
        decreases |missingAncestors.Keys|
      {
        var first := First(missingAncestors.Keys);
        if first.round > gcRound {
          SettledAfterGc(genesis, Snapshot(), first);
          return;
        }
        ghost var st := Snapshot();
        GcStarts(genesis, st, first);
        assert first !in suspended;
        missingBlocks := missingBlocks - {first};
        var more := StoreReleased(first, Known() + {first});
        GcExtends(genesis, st, first, dag, gcRound, more);
        ExtendAccepted(old(dag), st.dag, dag, genesis, gcRound, released, more);
        ReleasedConcat(old(suspended), st.suspended, suspended, released, more);
        ProperSubsetIsSmaller(missingAncestors.Keys, st.waiting.Keys);
        released := released + more;
      }
      NothingWaiting(genesis, Snapshot());
    }
  }
  function Flattened(batches: seq<seq<Block>>): seq<Block> {
    if batches == [] then [] else Flattened(batches[..|batches| - 1]) + batches[|batches| - 1]
  }

  /** Feeds batches one after another. */
  method Feed(m: BlockManager, batches: seq<seq<Block>>, ghost universe: BlockMap)
    requires m.Valid() && PartOf(m.received, universe)
    requires forall i, b :: 0 <= i < |batches| && b in batches[i] ==> Offered(m.genesis, universe, b)
    modifies m
    ensures m.Valid() && PartOf(m.received, universe)
    ensures m.received.Keys == old(m.received).Keys + RefsOf(Flattened(batches))
    ensures m.gcRound == old(m.gcRound) && m.trusted == old(m.trusted)
    ensures WaitsAbove(old(m.missingAncestors), m.gcRound) ==> WaitsAbove(m.missingAncestors, m.gcRound)
  {
    hide Good, PartOf, Offered, WaitsAbove, Stored, InOrder, RefsOf;
    NoRefs();
    for i := 0 to |batches|
      invariant m.Valid() && PartOf(m.received, universe)
      invariant m.received.Keys == old(m.received).Keys + RefsOf(Flattened(batches[..i]))
      invariant m.gcRound == old(m.gcRound) && m.trusted == old(m.trusted)
      invariant WaitsAbove(old(m.missingAncestors), m.gcRound) ==> WaitsAbove(m.missingAncestors, m.gcRound)
    {
      assert batches[..i + 1][..i] == batches[..i];
      RefsOfConcat(Flattened(batches[..i]), batches[i]);
      var accepted, toFetch := m.TryAcceptBlocks(batches[i], universe);
    }
    assert batches[..|batches|] == batches;
  }

  /** Two managers that start alike and are fed the same blocks, in any two orders and batchings, end up with
      the same blocks stored above the GC round and the same blocks suspended. */
  method FeedInAnyOrder(genesis: set<BlockRef>, dag: BlockMap, gcRound: nat, batches1: seq<seq<Block>>,
                        batches2: seq<seq<Block>>,
                        ghost universe: BlockMap) returns (m1: BlockManager, m2: BlockManager)
    requires forall g :: g in genesis ==> g.round == GENESIS_ROUND
    requires forall i, b :: 0 <= i < |batches1| && b in batches1[i] ==> Offered(genesis, universe, b)
    requires forall i, b :: 0 <= i < |batches2| && b in batches2[i] ==> Offered(genesis, universe, b)
    requires RefsOf(Flattened(batches1)) == RefsOf(Flattened(batches2))
    ensures forall r: BlockRef :: r.round > gcRound ==> (r in m1.dag <==> r in m2.dag)
    ensures m1.suspended == m2.suspended
  {
    hide Good, Offered, RefsOf;
    m1 := new BlockManager(genesis, dag, gcRound);
    Feed(m1, batches1, universe);
    m2 := new BlockManager(genesis, dag, gcRound);
    Feed(m2, batches2, universe);
    OrderIndependent(genesis, universe, m1.Snapshot(), m2.Snapshot());
  }
}
