/** Progress of requests: every hop approaches its goal, is served again, and the overlay falls quiet. */
module Progress {
  import opened Wrappers
  import opened Directions
  import opened LookupTables
  import opened Handlers
  import opened Overlay
  import opened BackPointers

  // ----- a link request keeps its side, its prefix match and its course

  /** A packet of link request `nonce` is on its way from `start` to `candidate`, or confirms from there. */
  predicate WithinLink(
    nodes: Nodes, p: Packet, nonce: Nonce, d: Direction, l: nat, start: Id, candidate: Identity)
  {
    p.msg.nonce == nonce ==>
      match p.msg
      case GetLinkOp(_, c, dir, level) =>
        && c == candidate && dir == d && level == l && p.dest in nodes
        && BelongsInOwnSlot(nodes[p.dest].identity, l, d, candidate)
        && Key(d, start) <= Key(d, p.dest) < Key(d, candidate.id)
      case SetLinkOp(_, dir, level, linked) =>
        && p.dest == candidate.id && dir == d.Opposite() && level == l && linked.Some?
        && Key(d, start) <= Key(d, linked.value.id) < Key(d, candidate.id)
      case _ => false
  }

  ghost predicate LinkConfined(s: State, nonce: Nonce, d: Direction, l: nat, start: Id, candidate: Identity) {
    forall p :: p in s.net ==> WithinLink(s.nodes, p, nonce, d, l, start, candidate)
  }

  /** A hop of a confined request stays confined: forwarded, it is served again; accepted, it is confirmed. */
  lemma HopConfinesLink(s: State, p: Packet, d: Direction, l: nat, start: Id, candidate: Identity)
    requires Consistent(s) && WithinLink(s.nodes, p, p.msg.nonce, d, l, start, candidate)
    requires p.msg.GetLinkOp? && React(s.nodes[p.dest], p.msg).out.Some?
    ensures WithinLink(s.nodes, React(s.nodes[p.dest], p.msg).out.value, p.msg.nonce, d, l, start, candidate)
  {
    var n := s.nodes[p.dest];
    LinkHop(n, p.msg);
    if React(n, p.msg).out.value.msg.GetLinkOp? {
      var slot := SlotAt(s.nodes, p.dest, l, d);
      assert Real(s.nodes, slot.value);
      LinkHopStillBelongs(n, p.msg, slot.value);
    }
  }

  lemma GrownKeepsConfined(
    before: Nodes, after: Nodes, p: Packet, nonce: Nonce, d: Direction, l: nat, start: Id, candidate: Identity)
    requires Grown(before, after) && WithinLink(before, p, nonce, d, l, start, candidate)
    ensures WithinLink(after, p, nonce, d, l, start, candidate)
  {
  }

  lemma StepConfinesLink(
    s: State, e: Event, nonce: Nonce, d: Direction, l: nat, start: Id, candidate: Identity)
    requires Consistent(s) && Enabled(s, e) && !(e.Inject? && e.packet.msg.nonce == nonce)
    requires LinkConfined(s, nonce, d, l, start, candidate)
    ensures LinkConfined(Apply(s, e), nonce, d, l, start, candidate)
  {
    var after := Apply(s, e);
    StepKeepsOrder(s, e);
    StepPackets(s, e);
    forall q | q in after.net
      ensures WithinLink(after.nodes, q, nonce, d, l, start, candidate)
    {
      if q !in s.net && Consumes(e) {
        var p := s.net[e.index];
        assert p in s.net;
        if q.msg.nonce == nonce { HopConfinesLink(s, p, d, l, start, candidate); }
      }
      GrownKeepsConfined(s.nodes, after.nodes, q, nonce, d, l, start, candidate);
    }
  }

  /**
   A link request that passes the slot check at one hop passes it at every later hop, whatever is
   written to the tables in between; it never leaves the stretch from its start to its candidate, and
   only a node of that stretch can confirm it.
   */
  lemma {:induction false} ServedOnceServedAlways(
    s: State, es: seq<Event>, nonce: Nonce, d: Direction, l: nat, start: Id, candidate: Identity)
    requires Consistent(s) && Run(s, es) && HonestRun(s, es) && Injections(es, nonce) == 0
    requires LinkConfined(s, nonce, d, l, start, candidate)
    ensures LinkConfined(Exec(s, es), nonce, d, l, start, candidate)
    decreases |es|
  {
    if es != [] {
      StepKeepsConsistent(s, es[0]);
      StepConfinesLink(s, es[0], nonce, d, l, start, candidate);
      ServedOnceServedAlways(Apply(s, es[0]), es[1..], nonce, d, l, start, candidate);
    }
  }

  /** Once forwarded from `w`, a link request never returns to `w`. */
  lemma LinkNeverRevisits(s: State, i: nat, es: seq<Event>)
    requires Consistent(s) && i < |s.net| && s.net[i].msg.GetLinkOp? && s.net[i].dest in s.nodes
    requires Carriers(s.net, s.net[i].msg.nonce) == 1
    requires Run(Apply(s, Deliver(i)), es) && HonestRun(Apply(s, Deliver(i)), es)
    requires Injections(es, s.net[i].msg.nonce) == 0
    ensures forall p :: p in Exec(Apply(s, Deliver(i)), es).net && p.msg.GetLinkOp? &&
                        p.msg.nonce == s.net[i].msg.nonce ==>
              Beyond(p.msg.direction, s.net[i].dest, p.dest)
  {
    var p, after := s.net[i], Apply(s, Deliver(i));
    var n := s.nodes[p.dest];
    StepKeepsConsistent(s, Deliver(i));
    CarriersRemoveAt(s.net, i, p.msg.nonce);
    NoCarriers(RemoveAt(s.net, i), p.msg.nonce);
    var out := React(n, p.msg).out;
    if out.Some? && out.value.msg.GetLinkOp? {
      LinkHop(n, p.msg);
      var slot := n.table.Get(p.msg.level, p.msg.direction);
      assert slot == SlotAt(s.nodes, p.dest, p.msg.level, p.msg.direction);
      LinkHopStillBelongs(n, p.msg, slot.value);
      ServedOnceServedAlways(
        after, es, p.msg.nonce, p.msg.direction, p.msg.level, out.value.dest, p.msg.candidate);
    } else {
      NoGetLinkAgain(after, es, p.msg.nonce);
    }
  }

  ghost predicate NoGetLink(net: seq<Packet>, nonce: Nonce) {
    forall p :: p in net && p.msg.nonce == nonce ==> !p.msg.GetLinkOp?
  }

  /** The event takes link request `nonce` to its receiver. */
  predicate TakesLink(s: State, e: Event, nonce: Nonce)
    requires Enabled(s, e)
  {
    e.Deliver? && s.net[e.index].msg.GetLinkOp? && s.net[e.index].msg.nonce == nonce
  }

  /** How often link request `nonce` is delivered on the run. */
  ghost function LinkHops(s: State, es: seq<Event>, nonce: Nonce): nat
    requires Run(s, es)
    decreases |es|
  {
    if es == [] then 0
    else (if TakesLink(s, es[0], nonce) then 1 else 0) + LinkHops(Apply(s, es[0]), es[1..], nonce)
  }

  lemma {:induction false} NoGetLinkAgain(s: State, es: seq<Event>, nonce: Nonce)
    requires Run(s, es) && Injections(es, nonce) == 0 && NoGetLink(s.net, nonce)
    ensures NoGetLink(Exec(s, es).net, nonce) && LinkHops(s, es, nonce) == 0
    decreases |es|
  {
    if es != [] {
      StepPackets(s, es[0]);
      assert Consumes(es[0]) ==> s.net[es[0].index] in s.net;
      NoGetLinkAgain(Apply(s, es[0]), es[1..], nonce);
    }
  }

  /** A delivered link request is gone, or has moved strictly nearer its candidate. */
  lemma LinkTaken(s: State, e: Event, nonce: Nonce, d: Direction, l: nat, start: Id, candidate: Identity)
    returns (mid: Option<Id>)
    requires Consistent(s) && Enabled(s, e) && TakesLink(s, e, nonce) && Carriers(s.net, nonce) == 1
    requires LinkConfined(s, nonce, d, l, start, candidate)
    ensures match mid
            case None => NoGetLink(Apply(s, e).net, nonce)
            case Some(w) =>
              && Key(d, start) < Key(d, w) < Key(d, candidate.id)
              && LinkConfined(Apply(s, e), nonce, d, l, w, candidate)
  {
    var p, out, after := s.net[e.index], Output(s, e), Apply(s, e);
    assert p in s.net;
    StepKeepsOrder(s, e);
    StepConfinesLink(s, e, nonce, d, l, start, candidate);
    CarriersRemoveAt(s.net, e.index, nonce);
    NoCarriers(RemoveAt(s.net, e.index), nonce);
    if out.Some? && out.value.msg.GetLinkOp? {
      LinkHop(s.nodes[p.dest], p.msg);
      mid := Some(out.value.dest);
      assert out.value in after.net;
    } else {
      mid := None;
    }
  }

  /**
   On every honest run, however much other traffic there is, a link request is delivered at most as
   often as its distance to the candidate.
   */
  lemma {:induction false} LinkTerminates(
    s: State, es: seq<Event>, nonce: Nonce, d: Direction, l: nat, start: Id, candidate: Identity)
    requires Consistent(s) && Run(s, es) && HonestRun(s, es) && Injections(es, nonce) == 0
    requires Carriers(s.net, nonce) <= 1 && LinkConfined(s, nonce, d, l, start, candidate)
    requires Beyond(d, start, candidate.id)
    ensures LinkHops(s, es, nonce) <= Key(d, candidate.id) - Key(d, start)
    decreases |es|
  {
    if es != [] {
      var next := Apply(s, es[0]);
      StepKeepsConsistent(s, es[0]);
      StepKeepsCarriers(s, es[0], nonce);
      if TakesLink(s, es[0], nonce) {
        CarriersRemoveAt(s.net, es[0].index, nonce);
        var mid := LinkTaken(s, es[0], nonce, d, l, start, candidate);
        match mid
        case None => NoGetLinkAgain(next, es[1..], nonce);
        case Some(w) => LinkTerminates(next, es[1..], nonce, d, l, w, candidate);
      } else {
        StepConfinesLink(s, es[0], nonce, d, l, start, candidate);
        LinkTerminates(next, es[1..], nonce, d, l, start, candidate);
      }
    }
  }

  // ----- a search comes to an end, whatever else happens

  ghost predicate NoSearch(net: seq<Packet>, nonce: Nonce) {
    forall p :: p in net && p.msg.nonce == nonce ==> !p.msg.SearchByIdRequest?
  }

  /** The event takes a request of search `nonce` to its receiver. */
  predicate TakesSearch(s: State, e: Event, nonce: Nonce)
    requires Enabled(s, e)
  {
    && (e.Deliver? || e.DeliverTorn?)
    && s.net[e.index].msg.SearchByIdRequest? && s.net[e.index].msg.nonce == nonce
  }

  /** How many hops search `nonce` makes on the run. */
  ghost function SearchHops(s: State, es: seq<Event>, nonce: Nonce): nat
    requires Run(s, es)
    decreases |es|
  {
    if es == [] then 0
    else (if TakesSearch(s, es[0], nonce) then 1 else 0) + SearchHops(Apply(s, es[0]), es[1..], nonce)
  }

  lemma {:induction false} NoSearchAgain(s: State, es: seq<Event>, nonce: Nonce)
    requires Run(s, es) && Injections(es, nonce) == 0 && NoSearch(s.net, nonce)
    ensures NoSearch(Exec(s, es).net, nonce) && SearchHops(s, es, nonce) == 0
    decreases |es|
  {
    if es != [] {
      StepPackets(s, es[0]);
      assert Consumes(es[0]) ==> s.net[es[0].index] in s.net;
      NoSearchAgain(Apply(s, es[0]), es[1..], nonce);
    }
  }

  /** A search request that is taken is answered or gone, or has moved strictly nearer its target. */
  lemma SearchTaken(s: State, e: Event, nonce: Nonce, d: Direction, at: Id, target: Id, level: nat)
    returns (mid: Option<Id>)
    requires Ordered(s.nodes) && Enabled(s, e) && TakesSearch(s, e, nonce) && Carriers(s.net, nonce) == 1
    requires SearchConfined(s.net, nonce, d, at, target, level)
    ensures match mid
            case None => NoSearch(Apply(s, e).net, nonce)
            case Some(w) =>
              && Key(d, s.net[e.index].dest) < Key(d, w) <= Key(d, target)
              && SearchConfined(Apply(s, e).net, nonce, d, w, target, level)
  {
    var p, out, after := s.net[e.index], Output(s, e), Apply(s, e);
    assert p in s.net;
    StepConfinesSearch(s, e, nonce, d, at, target, level);
    CarriersRemoveAt(s.net, e.index, nonce);
    NoCarriers(RemoveAt(s.net, e.index), nonce);
    if out.Some? && out.value.msg.SearchByIdRequest? {
      var n := s.nodes[p.dest];
      SearchHop(if e.DeliverTorn? then n.(table := e.seen) else n, p.msg);
      mid := Some(out.value.dest);
      assert out.value in after.net;
    } else {
      mid := None;
    }
  }

  /**
   On any run whatever, with arbitrary packets injected, nodes coming up, losses and reads between
   writes, a search makes at most as many hops as its distance to the target, plus the last one.
   */
  lemma {:induction false} SearchTerminates(
    s: State, es: seq<Event>, nonce: Nonce, d: Direction, at: Id, target: Id, level: nat)
    requires Ordered(s.nodes) && Run(s, es) && Injections(es, nonce) == 0
    requires Carriers(s.net, nonce) <= 1 && SearchConfined(s.net, nonce, d, at, target, level)
    requires Key(d, at) <= Key(d, target)
    ensures SearchHops(s, es, nonce) <= Key(d, target) - Key(d, at) + 1
    decreases |es|
  {
    if es != [] {
      var next := Apply(s, es[0]);
      StepKeepsOrder(s, es[0]);
      StepKeepsCarriers(s, es[0], nonce);
      if TakesSearch(s, es[0], nonce) {
        assert s.net[es[0].index] in s.net;
        CarriersRemoveAt(s.net, es[0].index, nonce);
        var mid := SearchTaken(s, es[0], nonce, d, at, target, level);
        match mid
        case None => NoSearchAgain(next, es[1..], nonce);
        case Some(w) => SearchTerminates(next, es[1..], nonce, d, w, target, level);
      } else {
        StepConfinesSearch(s, es[0], nonce, d, at, target, level);
        SearchTerminates(next, es[1..], nonce, d, at, target, level);
      }
    }
  }

  /** Once relayed from `w`, a search never returns to `w`, whatever is written in between. */
  lemma SearchNeverRevisits(s: State, e: Event, es: seq<Event>, nonce: Nonce)
    requires Ordered(s.nodes) && Enabled(s, e) && TakesSearch(s, e, nonce) && s.net[e.index].dest in s.nodes
    requires Carriers(s.net, nonce) == 1 && Run(Apply(s, e), es) && Injections(es, nonce) == 0
    ensures forall p :: p in Exec(Apply(s, e), es).net && p.msg.SearchByIdRequest? && p.msg.nonce == nonce ==>
              Beyond(p.msg.direction, s.net[e.index].dest, p.dest)
  {
    var p, out, after := s.net[e.index], Output(s, e), Apply(s, e);
    StepKeepsOrder(s, e);
    CarriersRemoveAt(s.net, e.index, nonce);
    NoCarriers(RemoveAt(s.net, e.index), nonce);
    SearchHop(if e.DeliverTorn? then s.nodes[p.dest].(table := e.seen) else s.nodes[p.dest], p.msg);
    if out.Some? && out.value.msg.SearchByIdRequest? {
      SearchStaysConfined(after, es, nonce, p.msg.direction, out.value.dest, p.msg.target, p.msg.level);
    } else {
      NoSearchAgain(after, es, nonce);
    }
  }

  // ----- an explicit measure

  /** The number of nodes after `from`, up to and including `to`, on direction `d`. */
  function Ahead(ids: set<Id>, d: Direction, from: Id, to: Id): nat {
    |set x | x in ids && Key(d, from) < Key(d, x) <= Key(d, to)|
  }

  /** An upper bound on the deliveries a packet can still cause, itself included. */
  function Weight(ids: set<Id>, p: Packet): (w: nat)
    ensures w >= 1
  {
    match p.msg
    case SearchByIdRequest(_, target, _, _, d) => 2 + Ahead(ids, d, p.dest, target)
    case GetLinkOp(_, candidate, d, _) => 2 + Ahead(ids, d, p.dest, candidate.id)
    case GetNeighborOp(_, _, _, _) => 2
    case GetMaxLevelOp(_, _) => 2
    case _ => 1
  }

  function Potential(ids: set<Id>, net: seq<Packet>): nat {
    if net == [] then 0 else Potential(ids, net[..|net| - 1]) + Weight(ids, net[|net| - 1])
  }

  lemma {:induction false} SubsetSize<T>(a: set<T>, b: set<T>)
    requires a <= b
    ensures |a| <= |b|
  {
    if a != {} {
      var x :| x in a;
      SubsetSize(a - {x}, b - {x});
    }
  }

  lemma AheadShrinks(ids: set<Id>, d: Direction, from: Id, mid: Id, to: Id)
    requires mid in ids && Key(d, from) < Key(d, mid) <= Key(d, to)
    ensures Ahead(ids, d, mid, to) < Ahead(ids, d, from, to)
  {
    var near := set x | x in ids && Key(d, mid) < Key(d, x) <= Key(d, to);
    var far := set x | x in ids && Key(d, from) < Key(d, x) <= Key(d, to);
    assert mid in far && near <= far - {mid};
    SubsetSize(near, far - {mid});
  }

  lemma {:induction false} PotentialConcat(ids: set<Id>, a: seq<Packet>, b: seq<Packet>)
    ensures Potential(ids, a + b) == Potential(ids, a) + Potential(ids, b)
    decreases |b|
  {
    if b == [] {
      assert a + b == a;
    } else {
      assert (a + b)[..|a + b| - 1] == a + b[..|b| - 1];
      PotentialConcat(ids, a, b[..|b| - 1]);
    }
  }

  lemma PotentialRemoveAt(ids: set<Id>, net: seq<Packet>, i: nat)
    requires i < |net|
    ensures Potential(ids, net) == Potential(ids, RemoveAt(net, i)) + Weight(ids, net[i])
  {
    assert net == net[..i] + [net[i]] + net[i + 1..];
    PotentialConcat(ids, net[..i] + [net[i]], net[i + 1..]);
    PotentialConcat(ids, net[..i], [net[i]]);
    PotentialConcat(ids, net[..i], net[i + 1..]);
    assert [net[i]][..0] == [];
  }

  /** A search hop over entries that name nodes weighs less than the request it serves. */
  lemma SearchIsLighter(s: State, n: Node, p: Packet)
    requires p.msg.SearchByIdRequest? && n.identity.id == p.dest && TableOrdered(n) && React(n, p.msg).out.Some?
    requires forall l: nat, d :: l < LOOKUP_TABLE_LEVELS && n.table.Get(l, d).Some? ==>
               n.table.Get(l, d).value.id in s.nodes
    ensures Weight(s.nodes.Keys, React(n, p.msg).out.value) < Weight(s.nodes.Keys, p)
  {
    SearchHop(n, p.msg);
    var q := React(n, p.msg).out.value;
    if q.msg.SearchByIdRequest? {
      AheadShrinks(s.nodes.Keys, p.msg.direction, p.dest, q.dest, p.msg.target);
    }
  }

  /** What a handler sends weighs less than what it received. */
  lemma ReactionIsLighter(s: State, e: Event)
    requires Consistent(s) && Enabled(s, e) && Honest(s, e) && Output(s, e).Some?
    ensures Weight(s.nodes.Keys, Output(s, e).value) < Weight(s.nodes.Keys, s.net[e.index])
  {
    var p, q := s.net[e.index], Output(s, e).value;
    var n := s.nodes[p.dest];
    if p.msg.SearchByIdRequest? {
      forall l: nat, d | l < LOOKUP_TABLE_LEVELS && n.table.Get(l, d).Some?
        ensures n.table.Get(l, d).value.id in s.nodes
      {
        assert Real(s.nodes, SlotAt(s.nodes, p.dest, l, d).value);
      }
      SearchIsLighter(s, if e.DeliverTorn? then n.(table := e.seen) else n, p);
    } else if p.msg.GetLinkOp? {
      LinkHop(n, p.msg);
      if q.msg.GetLinkOp? {
        assert Real(s.nodes, SlotAt(s.nodes, p.dest, p.msg.level, p.msg.direction).value);
        AheadShrinks(s.nodes.Keys, p.msg.direction, p.dest, q.dest, p.msg.candidate.id);
      }
    }
  }

  lemma DeliveryLowersPotential(s: State, e: Event)
    requires Consistent(s) && Enabled(s, e) && Honest(s, e) && Consumes(e)
    ensures Apply(s, e).nodes.Keys == s.nodes.Keys
    ensures Potential(s.nodes.Keys, Apply(s, e).net) < Potential(s.nodes.Keys, s.net)
  {
    var ids, out := s.nodes.Keys, Output(s, e);
    PotentialRemoveAt(ids, s.net, e.index);
    PotentialConcat(ids, RemoveAt(s.net, e.index), Sent(out));
    assert Apply(s, e).net == RemoveAt(s.net, e.index) + Sent(out);
    if out.Some? {
      ReactionIsLighter(s, e);
      assert Sent(out)[..0] == [];
    }
  }

  /** Only deliveries and losses: no new request and no new node. */
  predicate Draining(es: seq<Event>) {
    forall i :: 0 <= i < |es| ==> Consumes(es[i])
  }

  /** Without new requests, every honest run is at most as long as the potential it starts with. */
  lemma {:induction false} DrainingIsBounded(s: State, es: seq<Event>)
    requires Consistent(s) && Run(s, es) && HonestRun(s, es) && Draining(es)
    ensures Exec(s, es).nodes.Keys == s.nodes.Keys
    ensures Potential(s.nodes.Keys, Exec(s, es).net) + |es| <= Potential(s.nodes.Keys, s.net)
    decreases |es|
  {
    if es != [] {
      StepKeepsConsistent(s, es[0]);
      DeliveryLowersPotential(s, es[0]);
      DrainingIsBounded(Apply(s, es[0]), es[1..]);
    }
  }

  /** From every honest state, delivering what is in flight empties the network. */
  lemma {:induction false} QuiescenceIsReached(s: State) returns (es: seq<Event>)
    requires Consistent(s)
    ensures Run(s, es) && HonestRun(s, es) && Deliveries(es)
    ensures Exec(s, es).net == [] && Consistent(Exec(s, es))
    decreases Potential(s.nodes.Keys, s.net)
  {
    if s.net == [] {
      es := [];
    } else {
      StepKeepsConsistent(s, Deliver(0));
      DeliveryLowersPotential(s, Deliver(0));
      var rest := QuiescenceIsReached(Apply(s, Deliver(0)));
      es := [Deliver(0)] + rest;
      assert es[1..] == rest;
    }
  }
}
