/**
 The lookup table: one left and one right slot per level, the compare-decide-write rule that
 every link goes through, and the array-backed class that runs it in place.
 */
module LookupTables {
  import opened Wrappers
  import opened Directions
  import opened MembershipVectors

  const LOOKUP_TABLE_LEVELS: nat := 256

  datatype Address = Address(host: string, port: string)

  datatype Identity = Identity(id: Id, memVec: MembershipVector, address: Address)

  type Slot = Option<Identity>

  type Slots = s: seq<Slot> | |s| == LOOKUP_TABLE_LEVELS witness seq(LOOKUP_TABLE_LEVELS, _ => None)

  datatype Table = Table(left: Slots, right: Slots) {
    function Get(level: nat, d: Direction): Slot
      requires level < LOOKUP_TABLE_LEVELS
    {
      if d.Left? then left[level] else right[level]
    }

    function Put(level: nat, d: Direction, slot: Slot): Table
      requires level < LOOKUP_TABLE_LEVELS
    {
      if d.Left? then Table(left[level := slot], right) else Table(left, right[level := slot])
    }
  }

  /** Writing a slot changes that slot and no other. */
  lemma PutChangesOneSlot(t: Table, level: nat, d: Direction, slot: Slot, l: nat, e: Direction)
    requires level < LOOKUP_TABLE_LEVELS && l < LOOKUP_TABLE_LEVELS
    ensures t.Put(level, d, slot).Get(l, e) == if l == level && e == d then slot else t.Get(l, e)
  {
  }

  function EmptySlots(): Slots {
    seq(LOOKUP_TABLE_LEVELS, _ => None)
  }

  function EmptyTable(): Table {
    Table(EmptySlots(), EmptySlots())
  }

  datatype RelinkOutcome =
    | AlreadyConsistent
    | Forward(existing: Identity)
    | Relinked(evicted: Slot)

  datatype LinkOutcome =
    | LinkedDirectly
    | ForwardLink(existing: Identity)

  /** The three-way decision of one slot about a claimant. */
  function Decide(slot: Slot, d: Direction, claimant: Identity): RelinkOutcome {
    match slot
    case None => Relinked(None)
    case Some(existing) =>
      if existing == claimant then AlreadyConsistent
      else if Beyond(d, existing.id, claimant.id) then Forward(existing)
      else Relinked(slot)
  }

  /** The slot after the decision. */
  function Settle(slot: Slot, d: Direction, claimant: Identity): Slot {
    if Decide(slot, d, claimant).Relinked? then Some(claimant) else slot
  }

  /** A first-time link request cannot tell a fresh write from an entry already in place. */
  function AsLinkOutcome(outcome: RelinkOutcome): LinkOutcome {
    match outcome
    case Forward(existing) => ForwardLink(existing)
    case AlreadyConsistent => LinkedDirectly
    case Relinked(_) => LinkedDirectly
  }

  // ----- what a history of link decisions does to one slot

  /** `after` is at least as close to the owner as `before`, and filled if `before` was. */
  predicate Tightened(d: Direction, before: Slot, after: Slot) {
    before.Some? ==> after.Some? && Key(d, after.value.id) <= Key(d, before.value.id)
  }

  function SettleAll(slot: Slot, d: Direction, offers: seq<Identity>): Slot {
    if offers == [] then slot
    else Settle(SettleAll(slot, d, offers[..|offers| - 1]), d, offers[|offers| - 1])
  }

  /** `slot` is the closest of the initial entry and all offers. */
  ghost predicate ClosestOffer(slot: Slot, d: Direction, initial: Slot, offers: seq<Identity>) {
    && (slot.None? <==> initial.None? && offers == [])
    && (slot.Some? ==> slot == initial || slot.value in offers)
    && Tightened(d, initial, slot)
    && forall x :: x in offers ==> slot.Some? && Key(d, slot.value.id) <= Key(d, x.id)
  }

  /** Over any history of offers a slot ends at the closest one; it is never emptied or loosened. */
  lemma {:induction false} SettleAllFindsClosest(slot: Slot, d: Direction, offers: seq<Identity>)
    ensures ClosestOffer(SettleAll(slot, d, offers), d, slot, offers)
  {
    if offers != [] {
      var n := |offers| - 1;
      SettleAllFindsClosest(slot, d, offers[..n]);
      assert offers == offers[..n] + [offers[n]];
    }
  }

  /** The identities a slot may hold after the offers: its own entry and the offers themselves. */
  ghost predicate Known(x: Identity, slot: Slot, offers: seq<Identity>) {
    slot == Some(x) || x in offers
  }

  /** With one identity per identifier, the order and multiplicity of offers do not matter. */
  lemma SettleAllOrderIrrelevant(slot: Slot, d: Direction, offers: seq<Identity>, others: seq<Identity>)
    requires forall x :: x in offers <==> x in others
    requires forall x, y :: Known(x, slot, offers) && Known(y, slot, offers) && x.id == y.id ==> x == y
    ensures SettleAll(slot, d, offers) == SettleAll(slot, d, others)
  {
    SettleAllFindsClosest(slot, d, offers);
    SettleAllFindsClosest(slot, d, others);
    var a, b := SettleAll(slot, d, offers), SettleAll(slot, d, others);
    assert |offers| == 0 || offers[0] in others;
    assert |others| == 0 || others[0] in offers;
    if a.Some? && b.Some? {
      assert Known(a.value, slot, offers) && Known(b.value, slot, offers);
    }
  }

  // ----- listings and the highest populated level

  /** The populated slots among the first `n` levels, in ascending level order. */
  function Listing(slots: Slots, n: nat): seq<(nat, Identity)>
    requires n <= LOOKUP_TABLE_LEVELS
  {
    if n == 0 then []
    else Listing(slots, n - 1) + (if slots[n - 1].Some? then [(n - 1, slots[n - 1].value)] else [])
  }

  /** A listing names exactly the populated levels, each once and in ascending order. */
  lemma {:induction false} ListingIsExact(slots: Slots, n: nat)
    requires n <= LOOKUP_TABLE_LEVELS
    ensures forall l: nat, x :: (l, x) in Listing(slots, n) <==> l < n && slots[l] == Some(x)
    ensures forall i, j :: 0 <= i < j < |Listing(slots, n)| ==> Listing(slots, n)[i].0 < Listing(slots, n)[j].0
  {
    if n > 0 {
      ListingIsExact(slots, n - 1);
      var shorter, longer := Listing(slots, n - 1), Listing(slots, n);
      forall i | 0 <= i < |shorter|
        ensures shorter[i].0 < n - 1
      {
        assert (shorter[i].0, shorter[i].1) in shorter;
      }
      forall l: nat, x
        ensures (l, x) in longer <==> l < n && slots[l] == Some(x)
      {
        assert (l, x) in longer <==> (l, x) in shorter || (l == n - 1 && slots[l] == Some(x));
      }
    }
  }

  predicate Populated(t: Table, level: nat)
    requires level < LOOKUP_TABLE_LEVELS
  {
    t.Get(level, Left).Some? || t.Get(level, Right).Some?
  }

  function MaxPopulatedLevel(t: Table): (r: Option<nat>)
    ensures match r
            case None => forall l: nat :: l < LOOKUP_TABLE_LEVELS ==> !Populated(t, l)
            case Some(m) => m < LOOKUP_TABLE_LEVELS && Populated(t, m) &&
                            forall l: nat :: m < l < LOOKUP_TABLE_LEVELS ==> !Populated(t, l)
  {
    MaxPopulatedBelow(t, LOOKUP_TABLE_LEVELS)
  }

  function MaxPopulatedBelow(t: Table, n: nat): (r: Option<nat>)
    requires n <= LOOKUP_TABLE_LEVELS
    ensures match r
            case None => forall l: nat :: l < n ==> !Populated(t, l)
            case Some(m) => m < n && Populated(t, m) && forall l: nat :: m < l < n ==> !Populated(t, l)
  {
    if n == 0 then None
    else if Populated(t, n - 1) then Some(n - 1)
    else MaxPopulatedBelow(t, n - 1)
  }

  /** The single scan agrees with taking the maximum over both neighbour listings. */
  lemma MaxPopulatedIsMaxOfListings(t: Table)
    ensures var left, right := Listing(t.left, LOOKUP_TABLE_LEVELS), Listing(t.right, LOOKUP_TABLE_LEVELS);
            match MaxPopulatedLevel(t)
            case None => left == [] && right == []
            case Some(m) => (exists x :: (m, x) in left + right) &&
                            forall e :: e in left + right ==> e.0 <= m
  {
    var left, right := Listing(t.left, LOOKUP_TABLE_LEVELS), Listing(t.right, LOOKUP_TABLE_LEVELS);
    ListingIsExact(t.left, LOOKUP_TABLE_LEVELS);
    ListingIsExact(t.right, LOOKUP_TABLE_LEVELS);
    forall e: (nat, Identity) | e in left + right
      ensures e.0 < LOOKUP_TABLE_LEVELS && Populated(t, e.0)
    {
      assert (e.0, e.1) in left || (e.0, e.1) in right;
    }
    assert |left + right| == 0 || (left + right)[0] in left + right;
    if MaxPopulatedLevel(t).Some? {
      var m := MaxPopulatedLevel(t).value;
      var x := if t.Get(m, Left).Some? then t.Get(m, Left).value else t.Get(m, Right).value;
      assert (m, x) in left + right;
    }
  }

  // ----- the array-backed table

  class ArrayLookupTable {
    const left: array<Slot>
    const right: array<Slot>

    ghost predicate Valid() {
      left.Length == LOOKUP_TABLE_LEVELS && right.Length == LOOKUP_TABLE_LEVELS && left != right
    }

    ghost function View(): Table
      requires Valid()
      reads left, right
    {
      Table(left[..], right[..])
    }

    constructor ()
      ensures Valid() && fresh(left) && fresh(right)
      ensures View() == EmptyTable()
    {
      left := new Slot[LOOKUP_TABLE_LEVELS](_ => None);
      right := new Slot[LOOKUP_TABLE_LEVELS](_ => None);
      new;
      assert left[..] == EmptySlots() && right[..] == EmptySlots();
    }

    method UpdateEntry(identity: Identity, level: nat, d: Direction) returns (r: Result<()>)
      requires Valid()
      modifies left, right
      ensures r.Success? <==> level < LOOKUP_TABLE_LEVELS
      ensures View() == if r.Success? then old(View()).Put(level, d, Some(identity)) else old(View())
    {
      if level >= LOOKUP_TABLE_LEVELS {
        return Failure("position is larger than the max lookup table entry number");
      }
      match d {
        case Left => left[level] := Some(identity);
        case Right => right[level] := Some(identity);
      }
      return Success(());
    }

    method RemoveEntry(level: nat, d: Direction) returns (r: Result<()>)
      requires Valid()
      modifies left, right
      ensures r.Success? <==> level < LOOKUP_TABLE_LEVELS
      ensures View() == if r.Success? then old(View()).Put(level, d, None) else old(View())
    {
      if level >= LOOKUP_TABLE_LEVELS {
        return Failure("position is larger than the max lookup table entry number");
      }
      match d {
        case Left => left[level] := None;
        case Right => right[level] := None;
      }
      return Success(());
    }

    method GetEntry(level: nat, d: Direction) returns (r: Result<Slot>)
      requires Valid()
      ensures r.Success? <==> level < LOOKUP_TABLE_LEVELS
      ensures r.Success? ==> r.value == View().Get(level, d)
    {
      if level >= LOOKUP_TABLE_LEVELS {
        return Failure("position is larger than the max lookup table entry number");
      }
      return Success(if d.Left? then left[level] else right[level]);
    }

    /** Compare, decide and write in one critical section. */
    method TryRelink(level: nat, d: Direction, claimant: Identity) returns (r: Result<RelinkOutcome>)
      requires Valid()
      modifies left, right
      ensures r.Success? <==> level < LOOKUP_TABLE_LEVELS
      ensures r.Success? ==> r.value == Decide(old(View()).Get(level, d), d, claimant)
      ensures r.Success? ==>
                var before, after := old(View()).Get(level, d), View().Get(level, d);
                match r.value
                case AlreadyConsistent => before == Some(claimant) && after == before
                case Forward(existing) =>
                  && before == Some(existing) && after == before
                  && if d.Right? then existing.id < claimant.id else claimant.id < existing.id
                case Relinked(evicted) =>
                  && evicted == before && before != Some(claimant) && after == Some(claimant)
                  && (before.Some? ==> if d.Right? then claimant.id <= before.value.id
                                       else before.value.id <= claimant.id)
      ensures View() == if r.Success? then
                          old(View()).Put(level, d, Settle(old(View()).Get(level, d), d, claimant))
                        else old(View())
    {
      if level >= LOOKUP_TABLE_LEVELS {
        return Failure("position is larger than the max lookup table entry number");
      }
      var existing := if d.Left? then left[level] else right[level];
      if existing.Some? && existing.value == claimant {
        r := Success(AlreadyConsistent);
      } else if existing.Some? && d.Right? && existing.value.id < claimant.id {
        r := Success(Forward(existing.value));
      } else if existing.Some? && d.Left? && existing.value.id > claimant.id {
        r := Success(Forward(existing.value));
      } else {
        match d {
          case Left => left[level] := Some(claimant);
          case Right => right[level] := Some(claimant);
        }
        r := Success(Relinked(existing));
      }
    }

    method TryLink(level: nat, d: Direction, candidate: Identity) returns (r: Result<LinkOutcome>)
      requires Valid()
      modifies left, right
      ensures r.Success? <==> level < LOOKUP_TABLE_LEVELS
      ensures r.Success? ==> r.value == AsLinkOutcome(Decide(old(View()).Get(level, d), d, candidate))
      ensures r.Success? ==>
                match r.value
                case LinkedDirectly => View().Get(level, d) == Some(candidate)
                case ForwardLink(existing) =>
                  View().Get(level, d) == old(View()).Get(level, d) == Some(existing)
      ensures View() == if r.Success? then
                          old(View()).Put(level, d, Settle(old(View()).Get(level, d), d, candidate))
                        else old(View())
    {
      var outcome := TryRelink(level, d, candidate);
      match outcome {
        case Failure(e) => return Failure(e);
        case Success(Forward(existing)) => return Success(ForwardLink(existing));
        case Success(AlreadyConsistent) => return Success(LinkedDirectly);
        case Success(Relinked(_)) => return Success(LinkedDirectly);
      }
    }

    method LeftNeighbors() returns (neighbors: seq<(nat, Identity)>)
      requires Valid()
      ensures neighbors == Listing(View().left, LOOKUP_TABLE_LEVELS)
      ensures forall l: nat, x :: (l, x) in neighbors <==>
                l < LOOKUP_TABLE_LEVELS && View().Get(l, Left) == Some(x)
    {
      ListingIsExact(View().left, LOOKUP_TABLE_LEVELS);
      neighbors := [];
      for level := 0 to LOOKUP_TABLE_LEVELS
        invariant neighbors == Listing(View().left, level)
      {
        if left[level].Some? {
          neighbors := neighbors + [(level, left[level].value)];
        }
      }
    }

    method RightNeighbors() returns (neighbors: seq<(nat, Identity)>)
      requires Valid()
      ensures neighbors == Listing(View().right, LOOKUP_TABLE_LEVELS)
      ensures forall l: nat, x :: (l, x) in neighbors <==>
                l < LOOKUP_TABLE_LEVELS && View().Get(l, Right) == Some(x)
    {
      ListingIsExact(View().right, LOOKUP_TABLE_LEVELS);
      neighbors := [];
      for level := 0 to LOOKUP_TABLE_LEVELS
        invariant neighbors == Listing(View().right, level)
      {
        if right[level].Some? {
          neighbors := neighbors + [(level, right[level].value)];
        }
      }
    }

    /** Scans downward for the highest level with an entry on either side. */
    method FindMaxPopulatedLevel() returns (r: Option<nat>)
      requires Valid()
      ensures r == MaxPopulatedLevel(View())
    {
      for level := LOOKUP_TABLE_LEVELS downto 0
        invariant MaxPopulatedLevel(View()) == MaxPopulatedBelow(View(), level)
      {
        if left[level].Some? || right[level].Some? {
          return Some(level);
        }
      }
      return None;
    }
  }
}
