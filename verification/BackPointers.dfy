/**
 Back-pointers under concurrent linking: what every run of honest requests keeps at every level,
 although nodes link with no distributed lock and exact reciprocity is not kept.
 */
module BackPointers {
  import opened Wrappers
  import opened Directions
  import opened MembershipVectors
  import opened LookupTables
  import opened Handlers
  import opened Overlay

  /** `x` is the identity of a node of the overlay. */
  predicate Real(nodes: Nodes, x: Identity) {
    x.id in nodes && nodes[x.id].identity == x
  }

  /**
   Requests are made by nodes for themselves; replies are made only by handlers; a `SetLinkOp` is
   not lost. Any other packet may be lost, and every packet may be delayed for any time. What a search
   has seen are entries that the slots held, so they name nodes.
   */
  ghost predicate Honest(s: State, e: Event) {
    match e
    case Spawn(_) => true
    case Deliver(_) => true
    case DeliverTorn(_, seen) =>
      forall l: nat, d :: l < LOOKUP_TABLE_LEVELS && seen.Get(l, d).Some? ==> Real(s.nodes, seen.Get(l, d).value)
    case Lose(i) => i < |s.net| ==> !s.net[i].msg.SetLinkOp?
    case Inject(p) =>
      || p.msg.SearchByIdRequest? || p.msg.GetMaxLevelOp? || p.msg.GetNeighborOp?
      || (p.msg.GetLinkOp? && Real(s.nodes, p.msg.candidate))
  }

  ghost predicate HonestRun(s: State, es: seq<Event>)
    requires Run(s, es)
    decreases |es|
  {
    es == [] || (Honest(s, es[0]) && HonestRun(Apply(s, es[0]), es[1..]))
  }

  /** `x`'s slot on `d` holds `v` or something closer to `x`. */
  predicate Covers(nodes: Nodes, x: Id, l: nat, d: Direction, v: Id) {
    SlotAt(nodes, x, l, d).Some? && Key(d, SlotAt(nodes, x, l, d).value.id) <= Key(d, v)
  }

  /** `p` tells `u` that its slot on `d` should hold `v`. */
  predicate Confirms(p: Packet, u: Id, l: nat, d: Direction, v: Id) {
    && p.dest == u && p.msg.SetLinkOp? && p.msg.level == l && p.msg.direction == d
    && p.msg.linked.Some? && p.msg.linked.value.id == v
  }

  ghost predicate ConfirmationInFlight(net: seq<Packet>, u: Id, l: nat, d: Direction, v: Id) {
    exists p :: p in net && Confirms(p, u, l, d, v)
  }

  /** What honesty makes of the packets in flight. */
  predicate SoundPacket(nodes: Nodes, p: Packet) {
    match p.msg
    case GetLinkOp(_, candidate, _, _) => Real(nodes, candidate)
    case SetLinkOp(_, d, l, linked) =>
      && linked.Some? && Real(nodes, linked.value) && p.dest in nodes
      && BelongsInOwnSlot(nodes[p.dest].identity, l, d, linked.value)
      && Covers(nodes, linked.value.id, l, d.Opposite(), p.dest)
    case _ => true
  }

  ghost predicate EntriesReal(nodes: Nodes) {
    forall v, l: nat, d :: SlotAt(nodes, v, l, d).Some? ==> Real(nodes, SlotAt(nodes, v, l, d).value)
  }

  ghost predicate PacketsSound(s: State) {
    forall p :: p in s.net ==> SoundPacket(s.nodes, p)
  }

  /** The node that a slot points to points back at least as far, or is about to be told. */
  ghost predicate PointedBack(s: State, v: Id, l: nat, d: Direction) {
    var x := SlotAt(s.nodes, v, l, d);
    x.Some? ==>
      || Covers(s.nodes, x.value.id, l, d.Opposite(), v)
      || ConfirmationInFlight(s.net, x.value.id, l, d.Opposite(), v)
  }

  ghost predicate Consistent(s: State) {
    && Ordered(s.nodes) && EntriesReal(s.nodes) && PacketsSound(s)
    && forall v, l: nat, d :: PointedBack(s, v, l, d)
  }

  // ----- what growth of the tables keeps

  lemma GrownKeepsSlots(before: Nodes, after: Nodes, v: Id, l: nat, d: Direction)
    requires Grown(before, after)
    ensures Tightened(d, SlotAt(before, v, l, d), SlotAt(after, v, l, d))
  {
  }

  lemma GrownKeepsSoundness(before: Nodes, after: Nodes, p: Packet)
    requires Grown(before, after) && SoundPacket(before, p)
    ensures SoundPacket(after, p)
  {
  }

  // ----- one delivery

  /** What one delivery does to a slot: nothing, or it installs the identity the packet offers. */
  lemma DeliveryWrites(s: State, i: nat, v: Id, l: nat, d: Direction)
    requires Ordered(s.nodes) && i < |s.net|
    ensures var p := s.net[i]; var after := Apply(s, Deliver(i));
            var x := SlotAt(after.nodes, v, l, d);
            || x == SlotAt(s.nodes, v, l, d)
            || (&& v == p.dest && v in s.nodes && x.Some? && l < LOOKUP_TABLE_LEVELS
                && BelongsInOwnSlot(s.nodes[v].identity, l, d, x.value)
                && ((p.msg.SetLinkOp? && p.msg.linked == x && p.msg.level == l && p.msg.direction == d) ||
                    (&& p.msg.GetLinkOp? && p.msg.candidate == x.value && p.msg.level == l && p.msg.direction == d
                     && Packet(x.value.id, SetLinkOp(p.msg.nonce, d.Opposite(), l, Some(s.nodes[v].identity)))
                        in after.net)))
  {
  }

  /** A delivered confirmation leaves its receiver's slot covering the confirmed node. */
  lemma ConfirmationCovers(s: State, i: nat)
    requires Ordered(s.nodes) && i < |s.net| && s.net[i].msg.SetLinkOp? && SoundPacket(s.nodes, s.net[i])
    ensures var m := s.net[i].msg;
            Covers(Apply(s, Deliver(i)).nodes, s.net[i].dest, m.level, m.direction, m.linked.value.id)
  {
  }

  lemma DeliveryKeepsPackets(s: State, i: nat)
    requires Consistent(s) && i < |s.net|
    ensures PacketsSound(Apply(s, Deliver(i)))
  {
    var p, after := s.net[i], Apply(s, Deliver(i));
    StepKeepsOrder(s, Deliver(i));
    RemoveAtMembers(s.net, i);
    forall q | q in after.net
      ensures SoundPacket(after.nodes, q)
    {
      if q in s.net {
        GrownKeepsSoundness(s.nodes, after.nodes, q);
      } else {
        NewPacketSound(s, i, q);
      }
    }
  }

  /** The packet a handler sends is sound: forwarded requests are unchanged, confirmations are true. */
  lemma NewPacketSound(s: State, i: nat, q: Packet)
    requires Consistent(s) && i < |s.net|
    requires s.net[i].dest in s.nodes && React(s.nodes[s.net[i].dest], s.net[i].msg).out == Some(q)
    ensures SoundPacket(Apply(s, Deliver(i)).nodes, q)
  {
    var p, after := s.net[i], Apply(s, Deliver(i));
    var n := s.nodes[p.dest];
    StepKeepsOrder(s, Deliver(i));
    assert p in s.net;
    if p.msg.GetLinkOp? {
      LinkHop(n, p.msg);
      PrefixMatchEquivalence(n.identity.memVec, p.msg.candidate.memVec, n.identity.memVec, p.msg.level);
      GrownKeepsSoundness(s.nodes, after.nodes, p);
      OppositeMirrors(p.msg.direction, p.dest, p.msg.candidate.id);
    }
  }

  lemma DeliveryKeepsBackPointer(s: State, i: nat, v: Id, l: nat, d: Direction)
    requires Consistent(s) && i < |s.net|
    ensures PointedBack(Apply(s, Deliver(i)), v, l, d)
  {
    var p, after := s.net[i], Apply(s, Deliver(i));
    StepKeepsOrder(s, Deliver(i));
    RemoveAtMembers(s.net, i);
    assert p in s.net && SoundPacket(s.nodes, p) && PointedBack(s, v, l, d);
    DeliveryWrites(s, i, v, l, d);
    var x := SlotAt(after.nodes, v, l, d);
    if x.Some? {
      GrownKeepsSlots(s.nodes, after.nodes, x.value.id, l, d.Opposite());
      OppositeMirrors(d, v, x.value.id);
      if x != SlotAt(s.nodes, v, l, d) {
        if p.msg.GetLinkOp? {
          var reply := Packet(x.value.id, SetLinkOp(p.msg.nonce, d.Opposite(), l, Some(s.nodes[v].identity)));
          assert Confirms(reply, x.value.id, l, d.Opposite(), v);
        }
      } else if ConfirmationInFlight(s.net, x.value.id, l, d.Opposite(), v) {
        var q :| q in s.net && Confirms(q, x.value.id, l, d.Opposite(), v);
        if q == p { ConfirmationCovers(s, i); }
      }
    }
  }

  lemma DeliveryKeepsEntriesReal(s: State, i: nat)
    requires Consistent(s) && i < |s.net|
    ensures EntriesReal(Apply(s, Deliver(i)).nodes)
  {
    var after := Apply(s, Deliver(i));
    StepKeepsOrder(s, Deliver(i));
    assert s.net[i] in s.net;
    forall v, l: nat, d | SlotAt(after.nodes, v, l, d).Some?
      ensures Real(after.nodes, SlotAt(after.nodes, v, l, d).value)
    {
      DeliveryWrites(s, i, v, l, d);
    }
  }

  // ----- every step and every run

  lemma StepKeepsConsistent(s: State, e: Event)
    requires Consistent(s) && Enabled(s, e) && Honest(s, e)
    ensures Consistent(Apply(s, e))
  {
    var after := Apply(s, e);
    StepKeepsOrder(s, e);
    match e
    case Deliver(i) =>
      DeliveryKeepsPackets(s, i);
      DeliveryKeepsEntriesReal(s, i);
      forall v, l: nat, d ensures PointedBack(after, v, l, d) { DeliveryKeepsBackPointer(s, i, v, l, d); }
    case DeliverTorn(i, seen) =>
      StepPackets(s, e);
      forall v, l: nat, d ensures PointedBack(after, v, l, d) { assert PointedBack(s, v, l, d); }
    case Lose(i) =>
      StepPackets(s, e);
      forall v, l: nat, d ensures PointedBack(after, v, l, d) { assert PointedBack(s, v, l, d); }
    case Inject(p) =>
      forall v, l: nat, d ensures PointedBack(after, v, l, d) { assert PointedBack(s, v, l, d); }
    case Spawn(identity) =>
      forall p | p in s.net ensures SoundPacket(after.nodes, p) { GrownKeepsSoundness(s.nodes, after.nodes, p); }
      forall v, l: nat, d ensures SlotAt(after.nodes, v, l, d) == SlotAt(s.nodes, v, l, d) {}
      forall v, l: nat, d ensures PointedBack(after, v, l, d) { assert PointedBack(s, v, l, d); }
  }

  lemma {:induction false} HonestRunKeepsConsistent(s: State, es: seq<Event>)
    requires Consistent(s) && Run(s, es) && HonestRun(s, es)
    ensures Consistent(Exec(s, es))
    decreases |es|
  {
    if es != [] {
      StepKeepsConsistent(s, es[0]);
      HonestRunKeepsConsistent(Apply(s, es[0]), es[1..]);
    }
  }

  /**
   The back-pointer theorem. After any honest run from the empty overlay, at any level: if `v`'s slot
   holds `x`, then `x`'s mirror slot holds some `y` from `v` up to but not including `x`, or a
   `SetLinkOp` carrying `v` to `x` is in flight.
   */
  lemma BackPointersHold(es: seq<Event>, v: Id, l: nat, d: Direction)
    requires Run(INITIAL, es) && HonestRun(INITIAL, es)
    requires SlotAt(Exec(INITIAL, es).nodes, v, l, d).Some?
    ensures var s := Exec(INITIAL, es);
            var x := SlotAt(s.nodes, v, l, d).value.id;
            var y := SlotAt(s.nodes, x, l, d.Opposite());
            || (y.Some? && Key(d, v) <= Key(d, y.value.id) < Key(d, x))
            || exists p :: p in s.net && Confirms(p, x, l, d.Opposite(), v)
  {
    HonestRunKeepsConsistent(INITIAL, es);
    var s := Exec(INITIAL, es);
    assert PointedBack(s, v, l, d);
    var x := SlotAt(s.nodes, v, l, d).value.id;
    assert Real(s.nodes, SlotAt(s.nodes, v, l, d).value);
    OppositeMirrors(d, v, x);
  }

  // ----- quiescence

  ghost predicate NoConfirmations(net: seq<Packet>, l: nat) {
    forall p :: p in net ==> !(p.msg.SetLinkOp? && p.msg.level == l)
  }

  /** `a` and `b` are nodes of one level-`l` list. */
  predicate SameList(nodes: Nodes, a: Id, b: Id, l: nat) {
    a in nodes && b in nodes && PrefixMatch(nodes[a].identity.memVec, nodes[b].identity.memVec, l)
  }

  /** No node of `v`'s level-`l` list lies strictly between `v` and `x`. */
  ghost predicate Adjacent(nodes: Nodes, v: Id, x: Id, l: nat, d: Direction) {
    forall w :: SameList(nodes, v, w, l) ==> !(Key(d, v) < Key(d, w) < Key(d, x))
  }

  /** The slot holds the closest node of the level list on its side, and is empty if there is none. */
  ghost predicate TrueNeighbor(nodes: Nodes, v: Id, l: nat, d: Direction) {
    match SlotAt(nodes, v, l, d)
    case None => forall w :: SameList(nodes, v, w, l) ==> !Beyond(d, v, w)
    case Some(x) => SameList(nodes, v, x.id, l) && Beyond(d, v, x.id) && Adjacent(nodes, v, x.id, l, d)
  }

  lemma SameListEquivalence(nodes: Nodes, a: Id, b: Id, c: Id, l: nat)
    ensures SameList(nodes, a, b, l) ==> SameList(nodes, b, a, l)
    ensures SameList(nodes, a, b, l) && SameList(nodes, b, c, l) ==> SameList(nodes, a, c, l)
  {
    if SameList(nodes, a, b, l) {
      PrefixMatchEquivalence(nodes[a].identity.memVec, nodes[b].identity.memVec, nodes[b].identity.memVec, l);
      if SameList(nodes, b, c, l) {
        PrefixMatchEquivalence(nodes[a].identity.memVec, nodes[b].identity.memVec, nodes[c].identity.memVec, l);
      }
    }
  }

  /** Entries lead to nodes of the same level list. */
  lemma EntryInList(s: State, v: Id, l: nat, d: Direction)
    requires Consistent(s) && SlotAt(s.nodes, v, l, d).Some?
    ensures SameList(s.nodes, v, SlotAt(s.nodes, v, l, d).value.id, l)
    ensures Beyond(d, v, SlotAt(s.nodes, v, l, d).value.id)
  {
  }

  /** With no confirmation in flight, a pointer to an adjacent node is answered by one back. */
  lemma QuietAdjacentReciprocal(s: State, v: Id, l: nat, d: Direction)
    requires Consistent(s) && NoConfirmations(s.net, l) && SlotAt(s.nodes, v, l, d).Some?
    requires Adjacent(s.nodes, v, SlotAt(s.nodes, v, l, d).value.id, l, d)
    ensures var x := SlotAt(s.nodes, v, l, d).value.id;
            SlotAt(s.nodes, x, l, d.Opposite()) == Some(s.nodes[v].identity)
  {
    var x := SlotAt(s.nodes, v, l, d).value.id;
    assert PointedBack(s, v, l, d);
    EntryInList(s, v, l, d);
    EntryInList(s, x, l, d.Opposite());
    var y := SlotAt(s.nodes, x, l, d.Opposite()).value;
    assert Real(s.nodes, y);
    SameListEquivalence(s.nodes, v, x, y.id, l);
    OppositeMirrors(d, x, y.id);
    OppositeMirrors(d, v, y.id);
  }

  /** The node of `x`'s level list closest to `x` on direction `d`, given that one exists. */
  lemma {:induction false} ClosestExists(nodes: Nodes, x: Id, l: nat, d: Direction, w: Id) returns (v: Id)
    requires SameList(nodes, x, w, l) && Beyond(d, x, w)
    ensures SameList(nodes, x, v, l) && Beyond(d, x, v) && Adjacent(nodes, x, v, l, d)
    decreases Key(d, w) - Key(d, x)
  {
    if z :| SameList(nodes, x, z, l) && Key(d, x) < Key(d, z) < Key(d, w) {
      v := ClosestExists(nodes, x, l, d, z);
    } else {
      v := w;
    }
  }

  /**
   Half of a level correct makes all of it correct: with no confirmation in flight, if every slot on
   `d` at level `l` holds the true neighbour, then so does every slot on the other side.
   */
  lemma HalfCorrectIsAllCorrect(s: State, l: nat, d: Direction, x: Id)
    requires Consistent(s) && NoConfirmations(s.net, l) && x in s.nodes
    requires forall v :: v in s.nodes ==> TrueNeighbor(s.nodes, v, l, d)
    ensures TrueNeighbor(s.nodes, x, l, d.Opposite())
  {
    if w :| SameList(s.nodes, x, w, l) && Beyond(d.Opposite(), x, w) {
      var v := ClosestExists(s.nodes, x, l, d.Opposite(), w);
      SameListEquivalence(s.nodes, x, v, x, l);
      OppositeMirrors(d, v, x);
      assert TrueNeighbor(s.nodes, v, l, d);
      assert Beyond(d, v, x);
      var u := SlotAt(s.nodes, v, l, d);
      assert u.Some?;
      assert !(Key(d, v) < Key(d, x) < Key(d, u.value.id));
      SameListEquivalence(s.nodes, x, v, u.value.id, l);
      OppositeMirrors(d, u.value.id, x);
      assert u.value.id == x;
      QuietAdjacentReciprocal(s, v, l, d);
    } else if SlotAt(s.nodes, x, l, d.Opposite()).Some? {
      EntryInList(s, x, l, d.Opposite());
    }
  }
}
