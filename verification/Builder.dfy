/**
 The incremental construction of a whole skip graph, level 0 as a doubly linked list and each higher
 level by scanning left from the neighbour found one level below, against its plain specification:
 every slot holds the closest node on its side whose membership vector shares `level` bits.
 */
module Builder {
  import opened Wrappers
  import opened Directions
  import opened MembershipVectors
  import opened LookupTables
  import opened Handlers
  import opened Overlay
  import opened BackPointers
  import opened LevelLists
  import opened Linking
  import opened DistributedSearch

  /** How many membership bits nodes `i` and `j` share. */
  type Sharing = (nat, nat) -> nat

  function SharedBits(xs: seq<Identity>): Sharing {
    (i: nat, j: nat) => if i < |xs| && j < |xs| then CommonPrefix(xs[i].memVec, xs[j].memVec) else 0
  }

  /** `c` is symmetric at `i` and `j`, and ultrametric over `j`. */
  predicate PrefixLaw(c: Sharing, i: nat, j: nat, k: nat) {
    c(i, j) == c(j, i) && (c(i, k) >= c(i, j) || c(i, k) >= c(j, k))
  }

  ghost predicate PrefixLaws(c: Sharing) {
    forall i: nat, j: nat, k: nat :: PrefixLaw(c, i, j, k)
  }

  predicate CountsAt(xs: seq<Identity>, c: Sharing, i: nat, j: nat) {
    i < |xs| && j < |xs| ==> c(i, j) == CommonPrefix(xs[i].memVec, xs[j].memVec)
  }

  /** `c` counts the shared bits of `xs`, and so obeys the laws of common prefixes. */
  ghost predicate Counts(xs: seq<Identity>, c: Sharing) {
    PrefixLaws(c) && forall i: nat, j: nat :: CountsAt(xs, c, i, j)
  }

  lemma SharedBitsCount(xs: seq<Identity>)
    ensures Counts(xs, SharedBits(xs))
  {
    var c := SharedBits(xs);
    forall i: nat, j: nat, k: nat
      ensures PrefixLaw(c, i, j, k)
    {
      if i < |xs| && j < |xs| {
        CommonPrefixSymmetric(xs[i].memVec, xs[j].memVec);
        if k < |xs| { CommonPrefixUltrametric(xs[i].memVec, xs[j].memVec, xs[k].memVec); }
      }
    }
  }

  // ----- the specification

  /** The greatest index below `from` that shares `level` bits with `i`. */
  function ScanLeft(c: Sharing, i: nat, level: nat, from: nat): (r: Option<nat>)
    ensures match r
            case None => forall k: nat :: k < from ==> c(i, k) < level
            case Some(j) => j < from && c(i, j) >= level && forall k: nat :: j < k < from ==> c(i, k) < level
  {
    if from == 0 then None
    else if c(i, from - 1) >= level then Some(from - 1)
    else ScanLeft(c, i, level, from - 1)
  }

  /** The smallest index from `from` up to `bound` that shares `level` bits with `i`. */
  function ScanRight(c: Sharing, i: nat, level: nat, from: nat, bound: nat): (r: Option<nat>)
    ensures match r
            case None => forall k: nat :: from <= k < bound ==> c(i, k) < level
            case Some(j) => from <= j < bound && c(i, j) >= level && forall k: nat :: from <= k < j ==> c(i, k) < level
    decreases bound - from
  {
    if from >= bound then None
    else if c(i, from) >= level then Some(from)
    else ScanRight(c, i, level, from + 1, bound)
  }

  function ClosestLeft(c: Sharing, i: nat, level: nat): Option<nat> {
    ScanLeft(c, i, level, i)
  }

  /** Among the first `bound` nodes. */
  function ClosestRight(c: Sharing, i: nat, level: nat, bound: nat): Option<nat> {
    ScanRight(c, i, level, i + 1, bound)
  }

  function Named(xs: seq<Identity>, index: Option<nat>): Slot {
    if index.Some? && index.value < |xs| then Some(xs[index.value]) else None
  }

  ghost predicate MeetsSpecification(xs: seq<Identity>, tables: seq<Table>) {
    && |tables| == |xs|
    && forall i: nat, l: nat :: i < |xs| && l < LOOKUP_TABLE_LEVELS ==>
         && tables[i].Get(l, Left) == Named(xs, ClosestLeft(SharedBits(xs), i, l))
         && tables[i].Get(l, Right) == Named(xs, ClosestRight(SharedBits(xs), i, l, |xs|))
  }

  // ----- why narrowing, stopping early and writing both ends are right

  /** Nothing between `i` and its neighbour one level below can match, so the scan may start there. */
  lemma NarrowingLosesNothing(c: Sharing, i: nat, level: nat, from: nat)
    requires ClosestLeft(c, i, level).Some? ==> ClosestLeft(c, i, level).value < from <= i
    ensures if ClosestLeft(c, i, level).Some? then ClosestLeft(c, i, level + 1) == ScanLeft(c, i, level + 1, from)
            else ClosestLeft(c, i, level + 1).None?
  {
  }

  /** Once a level has no left neighbour, no higher level has one. */
  lemma StoppingLosesNothing(c: Sharing, i: nat, level: nat, higher: nat)
    requires level <= higher && ClosestLeft(c, i, level).None?
    ensures ClosestLeft(c, i, higher).None?
  {
  }

  /** The two scans are inverse to each other, by the ultrametric law. */
  lemma ClosestIsMutual(c: Sharing, i: nat, j: nat, level: nat)
    requires PrefixLaws(c) && j < i
    ensures ClosestLeft(c, i, level) == Some(j) <==> c(i, j) >= level && ClosestRight(c, j, level, i).None?
  {
    var r, q := ClosestLeft(c, i, level), ClosestRight(c, j, level, i);
    assert PrefixLaw(c, i, j, j);
    if q.Some? { assert PrefixLaw(c, i, j, q.value); }
    if r.Some? { assert PrefixLaw(c, j, i, r.value); }
  }

  /** Taking node `i` into account changes the right slot of its left neighbour, which was empty. */
  lemma RightGrows(c: Sharing, i: nat, j: nat, level: nat)
    requires PrefixLaws(c)
    ensures ClosestRight(c, j, level, i + 1) ==
            if ClosestLeft(c, i, level) == Some(j) then Some(i) else ClosestRight(c, j, level, i)
    ensures ClosestLeft(c, i, level) == Some(j) ==> ClosestRight(c, j, level, i).None?
  {
    if j < i {
      ClosestIsMutual(c, i, j, level);
      assert PrefixLaw(c, i, j, j);
    }
  }

  /** No right slot is ever overwritten: distinct nodes have distinct left neighbours at each level. */
  lemma RightNeverOverwritten(c: Sharing, i: nat, k: nat, level: nat)
    requires PrefixLaws(c) && i < k && ClosestLeft(c, i, level).Some?
    ensures ClosestLeft(c, k, level) != ClosestLeft(c, i, level)
  {
    var j := ClosestLeft(c, i, level).value;
    ClosestIsMutual(c, k, j, level);
    assert PrefixLaw(c, i, j, j);
  }

  // ----- the construction

  /** The slots while node `i` is being linked and its levels below `cur` are done. */
  function Expected(xs: seq<Identity>, c: Sharing, i: nat, cur: nat, k: nat, l: nat, d: Direction): Slot {
    match d
    case Left => if l == 0 || k < i || (k == i && l < cur) then Named(xs, ClosestLeft(c, k, l)) else None
    case Right => Named(xs, ClosestRight(c, k, l, if l == 0 then |xs| else if l < cur then i + 1 else i))
  }

  ghost predicate BuiltUpTo(xs: seq<Identity>, c: Sharing, i: nat, cur: nat, tables: seq<Table>) {
    && |tables| == |xs|
    && forall k: nat, l: nat, d :: k < |xs| && l < LOOKUP_TABLE_LEVELS ==>
         tables[k].Get(l, d) == Expected(xs, c, i, cur, k, l, d)
  }

  /** Level 0 with the first `m` adjacent pairs linked. */
  function Paired(xs: seq<Identity>, m: nat, k: nat, l: nat, d: Direction): Slot
    requires k < |xs|
  {
    if l == 0 && d == Left && 0 < k <= m then Some(xs[k - 1])
    else if l == 0 && d == Right && k < m && k + 1 < |xs| then Some(xs[k + 1])
    else None
  }

  ghost predicate PairsLinked(xs: seq<Identity>, m: nat, tables: seq<Table>) {
    && |tables| == |xs|
    && forall k: nat, l: nat, d :: k < |xs| && l < LOOKUP_TABLE_LEVELS ==>
         tables[k].Get(l, d) == Paired(xs, m, k, l, d)
  }

  lemma PairsAreLevel0(xs: seq<Identity>, c: Sharing, tables: seq<Table>)
    requires xs != [] && PairsLinked(xs, |xs| - 1, tables)
    ensures BuiltUpTo(xs, c, 1, 1, tables)
  {
  }

  /** Serving one level of node `i` links the two ends of a pair, or changes nothing. */
  lemma LevelServed(xs: seq<Identity>, c: Sharing, i: nat, level: nat, k: nat, l: nat, d: Direction)
    requires PrefixLaws(c) && i < |xs| && 0 < level
    ensures Expected(xs, c, i, level + 1, k, l, d) ==
            if l == level && ClosestLeft(c, i, level).Some? && d == Left && k == i then
              Some(xs[ClosestLeft(c, i, level).value])
            else if l == level && d == Right && ClosestLeft(c, i, level) == Some(k) then Some(xs[i])
            else Expected(xs, c, i, level, k, l, d)
  {
    if l == level { RightGrows(c, i, k, level); }
  }

  /** Node `i` is done when its levels run out or one of them has no left neighbour. */
  lemma NodeServed(xs: seq<Identity>, c: Sharing, i: nat, cur: nat, tables: seq<Table>)
    requires PrefixLaws(c) && i < |xs| && 0 < cur && BuiltUpTo(xs, c, i, cur, tables)
    requires cur >= LOOKUP_TABLE_LEVELS || ClosestLeft(c, i, cur).None?
    ensures BuiltUpTo(xs, c, i + 1, 1, tables)
  {
    forall k: nat, l: nat, d | k < |xs| && l < LOOKUP_TABLE_LEVELS
      ensures tables[k].Get(l, d) == Expected(xs, c, i + 1, 1, k, l, d)
    {
      assert tables[k].Get(l, d) == Expected(xs, c, i, cur, k, l, d);
      if l >= cur {
        StoppingLosesNothing(c, i, cur, l);
        RightGrows(c, i, k, l);
      }
    }
  }

  /** Linking both ends of a pair at one level, where neither end was there yet. */
  lemma LinkServed(
    xs: seq<Identity>, c: Sharing, i: nat, j: nat, level: nat, before: seq<Table>, after: seq<Table>)
    requires PrefixLaws(c) && i < |xs| && 0 < level < LOOKUP_TABLE_LEVELS && BuiltUpTo(xs, c, i, level, before)
    requires ClosestLeft(c, i, level) == Some(j)
    requires after == before[i := before[i].Put(level, Left, Some(xs[j]))]
                            [j := before[j].Put(level, Right, Some(xs[i]))]
    ensures before[j].Get(level, Right) == None
    ensures BuiltUpTo(xs, c, i, level + 1, after)
  {
    RightGrows(c, i, j, level);
    forall k: nat, l: nat, d | k < |xs| && l < LOOKUP_TABLE_LEVELS
      ensures after[k].Get(l, d) == Expected(xs, c, i, level + 1, k, l, d)
    {
      LevelServed(xs, c, i, level, k, l, d);
      assert before[k].Get(l, d) == Expected(xs, c, i, level, k, l, d);
    }
  }

  lemma PairServed(xs: seq<Identity>, m: nat, before: seq<Table>, after: seq<Table>)
    requires m + 1 < |xs| && PairsLinked(xs, m, before)
    requires after == before[m := before[m].Put(0, Right, Some(xs[m + 1]))]
                            [m + 1 := before[m + 1].Put(0, Left, Some(xs[m]))]
    ensures PairsLinked(xs, m + 1, after)
  {
    forall k: nat, l: nat, d | k < |xs| && l < LOOKUP_TABLE_LEVELS
      ensures after[k].Get(l, d) == Paired(xs, m + 1, k, l, d)
    {
      assert before[k].Get(l, d) == Paired(xs, m, k, l, d);
    }
  }

  /** Level 0: each node and its successor point to each other. */
  method LinkLevelZero(xs: seq<Identity>, ghost c: Sharing, lts: array<Table>)
    requires xs != [] && PairsLinked(xs, 0, lts[..])
    modifies lts
    ensures BuiltUpTo(xs, c, 1, 1, lts[..])
  {
    for m := 0 to |xs| - 1
      invariant PairsLinked(xs, m, lts[..])
    {
      ghost var before := lts[..];
      lts[m] := lts[m].Put(0, Right, Some(xs[m + 1]));
      lts[m + 1] := lts[m + 1].Put(0, Left, Some(xs[m]));
      PairServed(xs, m, before, lts[..]);
    }
    PairsAreLevel0(xs, c, lts[..]);
  }

  /** Writes both ends of a link; the right end was empty until now. */
  method LinkPair(xs: seq<Identity>, ghost c: Sharing, lts: array<Table>, i: nat, j: nat, level: nat)
    requires PrefixLaws(c) && i < |xs| && 0 < level < LOOKUP_TABLE_LEVELS && BuiltUpTo(xs, c, i, level, lts[..])
    requires ClosestLeft(c, i, level) == Some(j)
    modifies lts
    ensures old(lts[..])[j].Get(level, Right) == None
    ensures BuiltUpTo(xs, c, i, level + 1, lts[..])
  {
    ghost var before := lts[..];
    lts[i] := lts[i].Put(level, Left, Some(xs[j]));
    lts[j] := lts[j].Put(level, Right, Some(xs[i]));
    LinkServed(xs, c, i, j, level, before, lts[..]);
  }

  /** Counts the bits two nodes share, over their membership vectors. */
  method CountShared(xs: seq<Identity>, ghost c: Sharing, i: nat, j: nat) returns (common: nat)
    requires Counts(xs, c) && i < |xs| && j < |xs|
    ensures common == c(i, j)
  {
    common := CommonPrefixBit(xs[i].memVec, xs[j].memVec);
    assert CountsAt(xs, c, i, j);
  }

  lemma ScanLeftStep(c: Sharing, i: nat, level: nat, j: nat)
    ensures ScanLeft(c, i, level, j + 1) == if c(i, j) >= level then Some(j) else ScanLeft(c, i, level, j)
  {
  }

  /** Scans down from `loopStart`, the neighbour one level below, for the closest match at `level`. */
  method FindLeft(xs: seq<Identity>, ghost c: Sharing, i: nat, level: nat, loopStart: nat)
    returns (neighborIdx: Option<nat>)
    requires Counts(xs, c) && 0 < i < |xs| && 0 < level && ClosestLeft(c, i, level - 1) == Some(loopStart)
    ensures neighborIdx == ClosestLeft(c, i, level)
  {
    NarrowingLosesNothing(c, i, level - 1, loopStart + 1);
    for j := loopStart + 1 downto 0
      invariant ClosestLeft(c, i, level) == ScanLeft(c, i, level, j)
    {
      var common := CountShared(xs, c, i, j);
      ScanLeftStep(c, i, level, j);
      if common >= level {
        return Some(j);
      }
    }
    return None;
  }

  /** Links node `i` to its closest match at `level`, if there is one. */
  method LinkAtLevel(xs: seq<Identity>, ghost c: Sharing, lts: array<Table>, i: nat, level: nat, loopStart: nat)
    returns (neighborIdx: Option<nat>)
    requires Counts(xs, c) && 0 < i < |xs| && 0 < level < LOOKUP_TABLE_LEVELS
    requires BuiltUpTo(xs, c, i, level, lts[..]) && ClosestLeft(c, i, level - 1) == Some(loopStart)
    modifies lts
    ensures neighborIdx == ClosestLeft(c, i, level)
    ensures BuiltUpTo(xs, c, i, if neighborIdx.Some? then level + 1 else level, lts[..])
  {
    neighborIdx := FindLeft(xs, c, i, level, loopStart);
    if neighborIdx.Some? {
      LinkPair(xs, c, lts, i, neighborIdx.value, level);
    }
  }

  /** Links node `i` to its left neighbours, level by level, until a level has none. */
  method LinkNode(xs: seq<Identity>, ghost c: Sharing, lts: array<Table>, i: nat)
    requires Counts(xs, c) && 0 < i < |xs| && BuiltUpTo(xs, c, i, 1, lts[..])
    modifies lts
    ensures BuiltUpTo(xs, c, i + 1, 1, lts[..])
  {
    var loopStart := i - 1;
    var level := 1;
    while level < LOOKUP_TABLE_LEVELS
      invariant 1 <= level <= LOOKUP_TABLE_LEVELS && loopStart < i
      invariant BuiltUpTo(xs, c, i, level, lts[..])
      invariant ClosestLeft(c, i, level - 1) == Some(loopStart)
    {
      var neighborIdx := LinkAtLevel(xs, c, lts, i, level, loopStart);
      if neighborIdx.None? { break; }
      loopStart := neighborIdx.value;
      level := level + 1;
    }
    NodeServed(xs, c, i, level, lts[..]);
  }

  /** Builds the tables of the nodes `xs`, listed in identifier order. */
  method Build(xs: seq<Identity>) returns (r: Result<seq<Table>>)
    ensures r.Success? <==> xs != []
    ensures r.Success? ==> MeetsSpecification(xs, r.value)
  {
    var n := |xs|;
    if n == 0 {
      return Failure("cannot create skip graph with 0 nodes");
    }
    var lts := new Table[n](_ => EmptyTable());
    ghost var c := SharedBits(xs);
    SharedBitsCount(xs);
    LinkLevelZero(xs, c, lts);
    for i := 1 to n
      invariant BuiltUpTo(xs, c, i, 1, lts[..])
    {
      LinkNode(xs, c, lts, i);
    }
    BuiltMeetsSpecification(xs, c, lts[..]);
    return Success(lts[..]);
  }

  lemma BuiltMeetsSpecification(xs: seq<Identity>, c: Sharing, tables: seq<Table>)
    requires BuiltUpTo(xs, c, |xs|, 1, tables) && c == SharedBits(xs)
    ensures MeetsSpecification(xs, tables)
  {
  }

  // ----- the built graph as an overlay

  /** The overlay in which each node holds its built table. */
  ghost predicate Represents(nodes: Nodes, xs: seq<Identity>, tables: seq<Table>) {
    && |tables| == |xs| && nodes.Keys == Ids(xs)
    && forall i: nat :: i < |xs| ==> xs[i].id in nodes && nodes[xs[i].id] == Node(xs[i], tables[i])
  }

  lemma IndexOf(nodes: Nodes, xs: seq<Identity>, tables: seq<Table>, v: Id) returns (i: nat)
    requires Represents(nodes, xs, tables) && v in nodes
    ensures i < |xs| && xs[i].id == v
  {
    var x :| x in xs && x.id == v;
    i :| 0 <= i < |xs| && xs[i] == x;
  }

  function Closest(xs: seq<Identity>, c: Sharing, i: nat, l: nat, d: Direction): Option<nat> {
    if d.Left? then ClosestLeft(c, i, l) else ClosestRight(c, i, l, |xs|)
  }

  /** In identifier order, the closest index is the closest identifier. */
  lemma ClosestByIdentifier(xs: seq<Identity>, c: Sharing, i: nat, k: nat, l: nat, d: Direction)
    requires Ascending(xs) && i < |xs| && k < |xs| && c(i, k) >= l
    ensures match Closest(xs, c, i, l, d)
            case None => !Beyond(d, xs[i].id, xs[k].id)
            case Some(j) => j < |xs| && c(i, j) >= l && Beyond(d, xs[i].id, xs[j].id) &&
                            !(Key(d, xs[i].id) < Key(d, xs[k].id) < Key(d, xs[j].id))
  {
  }

  lemma SameListIsShared(nodes: Nodes, xs: seq<Identity>, tables: seq<Table>, i: nat, k: nat, l: nat)
    requires Represents(nodes, xs, tables) && i < |xs| && k < |xs|
    ensures SameList(nodes, xs[i].id, xs[k].id, l) <==> SharedBits(xs)(i, k) >= l
  {
  }

  /** At every level each built slot is the true neighbour in its owner's level list. */
  lemma BuiltSlotsAreTrue(nodes: Nodes, xs: seq<Identity>, tables: seq<Table>, v: Id, l: nat, d: Direction)
    requires Ascending(xs) && MeetsSpecification(xs, tables) && Represents(nodes, xs, tables)
    requires v in nodes && l < LOOKUP_TABLE_LEVELS
    ensures TrueNeighbor(nodes, v, l, d)
    ensures SlotAt(nodes, v, l, d).Some? ==> Real(nodes, SlotAt(nodes, v, l, d).value)
  {
    var i := IndexOf(nodes, xs, tables, v);
    var c := SharedBits(xs);
    assert SlotAt(nodes, v, l, d) == tables[i].Get(l, d) == Named(xs, Closest(xs, c, i, l, d));
    forall w | SameList(nodes, v, w, l)
      ensures match SlotAt(nodes, v, l, d)
              case None => !Beyond(d, v, w)
              case Some(x) => !(Key(d, v) < Key(d, w) < Key(d, x.id))
    {
      var k := IndexOf(nodes, xs, tables, w);
      SameListIsShared(nodes, xs, tables, i, k, l);
      ClosestByIdentifier(xs, c, i, k, l, d);
    }
    if Closest(xs, c, i, l, d).Some? {
      var j := Closest(xs, c, i, l, d).value;
      ClosestByIdentifier(xs, c, i, j, l, d);
      SameListIsShared(nodes, xs, tables, i, j, l);
    }
  }

  /** Over the built graph every search, from any start not past the target, is exact. */
  lemma BuiltGraphIsSearchable(nodes: Nodes, xs: seq<Identity>, tables: seq<Table>, d: Direction)
    requires Ascending(xs) && MeetsSpecification(xs, tables) && Represents(nodes, xs, tables)
    ensures Searchable(nodes, Ids(xs), d)
  {
    forall v, l: nat | v in Ids(xs) && SlotAt(nodes, v, l, d).Some?
      ensures SlotAt(nodes, v, l, d).value.id in Ids(xs) && Beyond(d, v, SlotAt(nodes, v, l, d).value.id)
    {
      BuiltSlotsAreTrue(nodes, xs, tables, v, l, d);
    }
    forall v | v in Ids(xs)
      ensures nodes[v].identity.id == v
      ensures match SlotAt(nodes, v, 0, d)
              case None => forall w :: w in Ids(xs) ==> !Beyond(d, v, w)
              case Some(x) => Next(Ids(xs), v, d, x.id)
    {
      BuiltLevel0(nodes, xs, tables, v, d);
    }
  }

  lemma BuiltLevel0(nodes: Nodes, xs: seq<Identity>, tables: seq<Table>, v: Id, d: Direction)
    requires Ascending(xs) && MeetsSpecification(xs, tables) && Represents(nodes, xs, tables) && v in nodes
    ensures nodes[v].identity.id == v
    ensures match SlotAt(nodes, v, 0, d)
            case None => forall w :: w in Ids(xs) ==> !Beyond(d, v, w)
            case Some(x) => Next(Ids(xs), v, d, x.id)
  {
    BuiltSlotsAreTrue(nodes, xs, tables, v, 0, d);
    var i := IndexOf(nodes, xs, tables, v);
    forall w | w in Ids(xs) ensures SameList(nodes, v, w, 0) {}
  }
}
