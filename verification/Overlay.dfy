/**
 The overlay as a state machine: nodes with their tables, and the packets in flight.

 A handler's table write and its send are one step that leaves the packet in flight. Since a packet
 may stay in flight for any time, this covers handlers of one node interleaving between write and
 send. Packets are delivered in any order.

 A search reads the levels of its table one by one, so other handlers may write in between. As slots
 only tighten, what it has seen when it decides is an earlier, looser or equal, entry for each slot.
 */
module Overlay {
  import opened Wrappers
  import opened Directions
  import opened LookupTables
  import opened MembershipVectors
  import opened Handlers

  type Nodes = map<Id, Node>

  datatype State = State(nodes: Nodes, net: seq<Packet>)

  datatype Event =
    | Spawn(identity: Identity)  // a node with an empty table comes up
    | Inject(packet: Packet)     // a client, or an adversary, sends a packet
    | Deliver(index: nat)
    | DeliverTorn(index: nat, seen: Table)  // a search that has seen `seen`, read between other writes
    | Lose(index: nat)

  function RemoveAt<T>(s: seq<T>, i: nat): seq<T>
    requires i < |s|
  {
    s[..i] + s[i + 1..]
  }

  function Sent(out: Option<Packet>): seq<Packet> {
    if out.Some? then [out.value] else []
  }

  /** What a search may have seen of `n`'s table: entries of its slots, none closer than they are now. */
  ghost predicate Seen(n: Node, seen: Table) {
    TableTightened(seen, n.table) && TableOrdered(n.(table := seen))
  }

  ghost predicate Enabled(s: State, e: Event) {
    match e
    case Spawn(identity) => identity.id !in s.nodes
    case Inject(_) => true
    case Deliver(i) => i < |s.net|
    case DeliverTorn(i, seen) =>
      && i < |s.net| && s.net[i].msg.SearchByIdRequest? && s.net[i].dest in s.nodes
      && Seen(s.nodes[s.net[i].dest], seen)
    case Lose(i) => i < |s.net|
  }

  /** The event takes packet `index` out of the network. */
  predicate Consumes(e: Event) {
    e.Deliver? || e.DeliverTorn? || e.Lose?
  }

  predicate Deliveries(es: seq<Event>) {
    forall i :: 0 <= i < |es| ==> es[i].Deliver?
  }

  /** What the handler of a delivered packet sends. */
  function Output(s: State, e: Event): Option<Packet>
    requires Enabled(s, e)
  {
    match e
    case Deliver(i) =>
      var p := s.net[i];
      if p.dest in s.nodes then React(s.nodes[p.dest], p.msg).out else None
    case DeliverTorn(i, seen) => React(s.nodes[s.net[i].dest].(table := seen), s.net[i].msg).out
    case _ => None
  }

  /** A packet for an unknown node has no receiver and disappears. */
  function Apply(s: State, e: Event): State
    requires Enabled(s, e)
  {
    match e
    case Spawn(identity) => s.(nodes := s.nodes[identity.id := Node(identity, EmptyTable())])
    case Inject(p) => s.(net := s.net + [p])
    case Lose(i) => s.(net := RemoveAt(s.net, i))
    case DeliverTorn(i, _) => s.(net := RemoveAt(s.net, i) + Sent(Output(s, e)))
    case Deliver(i) =>
      var p := s.net[i];
      if p.dest !in s.nodes then s.(net := RemoveAt(s.net, i))
      else
        var n := s.nodes[p.dest];
        var r := React(n, p.msg);
        State(s.nodes[p.dest := n.(table := r.table)], RemoveAt(s.net, i) + Sent(r.out))
  }

  ghost predicate Run(s: State, es: seq<Event>)
    decreases |es|
  {
    es == [] || (Enabled(s, es[0]) && Run(Apply(s, es[0]), es[1..]))
  }

  function Exec(s: State, es: seq<Event>): State
    requires Run(s, es)
    decreases |es|
  {
    if es == [] then s else Exec(Apply(s, es[0]), es[1..])
  }

  const INITIAL := State(map[], [])

  function SlotAt(nodes: Nodes, v: Id, level: nat, d: Direction): Slot {
    if v in nodes && level < LOOKUP_TABLE_LEVELS then nodes[v].table.Get(level, d) else None
  }

  lemma RemoveAtMembers<T>(s: seq<T>, i: nat)
    requires i < |s|
    ensures forall x :: x in RemoveAt(s, i) ==> x in s
    ensures forall x :: x in s ==> x == s[i] || x in RemoveAt(s, i)
  {
  }

  /** A packet in flight after a step was in flight before, or is the one injected or sent. */
  lemma StepPackets(s: State, e: Event)
    requires Enabled(s, e)
    ensures forall p :: p in Apply(s, e).net ==>
              p in s.net || e == Inject(p) || (!e.Inject? && Output(s, e) == Some(p))
    ensures Consumes(e) ==> forall p :: p in s.net ==> p == s.net[e.index] || p in Apply(s, e).net
    ensures Output(s, e).Some? ==> Output(s, e).value.msg.nonce == s.net[e.index].msg.nonce
  {
    if Consumes(e) { RemoveAtMembers(s.net, e.index); }
    if e.Deliver? && s.net[e.index].dest in s.nodes {
      ReactKeepsNonce(s.nodes[s.net[e.index].dest], s.net[e.index].msg);
    } else if e.DeliverTorn? {
      ReactKeepsNonce(s.nodes[s.net[e.index].dest].(table := e.seen), s.net[e.index].msg);
    }
  }

  // ----- ordering, for every run with arbitrary packets

  ghost predicate Ordered(nodes: Nodes) {
    forall v :: v in nodes ==> nodes[v].identity.id == v && TableOrdered(nodes[v])
  }

  /** Nodes stay, keep their identity, and their slots only tighten. */
  ghost predicate Grown(before: Nodes, after: Nodes) {
    forall v :: v in before ==>
      v in after && after[v].identity == before[v].identity && TableTightened(before[v].table, after[v].table)
  }

  lemma StepKeepsOrder(s: State, e: Event)
    requires Ordered(s.nodes) && Enabled(s, e)
    ensures Ordered(Apply(s, e).nodes) && Grown(s.nodes, Apply(s, e).nodes)
  {
    if e.Deliver? && s.net[e.index].dest in s.nodes {
      ReactKeepsTable(s.nodes[s.net[e.index].dest], s.net[e.index].msg);
    }
  }

  lemma GrownTransitive(a: Nodes, b: Nodes, c: Nodes)
    requires Grown(a, b) && Grown(b, c)
    ensures Grown(a, c)
  {
  }

  /**
   Whatever packets are injected, lost or reordered: every entry stays on its side of the owner and
   within the owner's level list, and every slot moves only toward its owner, never to empty.
   */
  lemma {:induction false} EveryRunKeepsOrder(s: State, es: seq<Event>)
    requires Ordered(s.nodes) && Run(s, es)
    ensures Ordered(Exec(s, es).nodes) && Grown(s.nodes, Exec(s, es).nodes)
    decreases |es|
  {
    if es != [] {
      var next := Apply(s, es[0]);
      StepKeepsOrder(s, es[0]);
      EveryRunKeepsOrder(next, es[1..]);
      GrownTransitive(s.nodes, next.nodes, Exec(s, es).nodes);
    }
  }

  /** The same, read off one slot of a run from the empty overlay. */
  lemma ReachableSlotsOrdered(es: seq<Event>, v: Id, l: nat, d: Direction)
    requires Run(INITIAL, es)
    ensures var s := Exec(INITIAL, es);
            SlotAt(s.nodes, v, l, d).Some? ==>
              var x := SlotAt(s.nodes, v, l, d).value;
              && (if d.Right? then v < x.id else x.id < v)
              && CommonPrefix(s.nodes[v].identity.memVec, x.memVec) >= l
  {
    EveryRunKeepsOrder(INITIAL, es);
  }

  // ----- nonces

  function Carriers(net: seq<Packet>, nonce: Nonce): nat {
    if net == [] then 0
    else Carriers(net[..|net| - 1], nonce) + if net[|net| - 1].msg.nonce == nonce then 1 else 0
  }

  function Injections(es: seq<Event>, nonce: Nonce): nat {
    if es == [] then 0
    else (if es[0].Inject? && es[0].packet.msg.nonce == nonce then 1 else 0) + Injections(es[1..], nonce)
  }

  lemma {:induction false} CarriersConcat(a: seq<Packet>, b: seq<Packet>, nonce: Nonce)
    ensures Carriers(a + b, nonce) == Carriers(a, nonce) + Carriers(b, nonce)
    decreases |b|
  {
    if b == [] {
      assert a + b == a;
    } else {
      assert (a + b)[..|a + b| - 1] == a + b[..|b| - 1];
      CarriersConcat(a, b[..|b| - 1], nonce);
    }
  }

  lemma CarriersRemoveAt(net: seq<Packet>, i: nat, nonce: Nonce)
    requires i < |net|
    ensures Carriers(net, nonce) ==
            Carriers(RemoveAt(net, i), nonce) + (if net[i].msg.nonce == nonce then 1 else 0)
  {
    assert net == net[..i] + [net[i]] + net[i + 1..];
    CarriersConcat(net[..i] + [net[i]], net[i + 1..], nonce);
    CarriersConcat(net[..i], [net[i]], nonce);
    CarriersConcat(net[..i], net[i + 1..], nonce);
    assert [net[i]][..0] == [];
  }

  lemma {:induction false} NoCarriers(net: seq<Packet>, nonce: Nonce)
    requires Carriers(net, nonce) == 0
    ensures forall p :: p in net ==> p.msg.nonce != nonce
  {
    if net != [] {
      NoCarriers(net[..|net| - 1], nonce);
      assert net == net[..|net| - 1] + [net[|net| - 1]];
    }
  }

  lemma StepKeepsCarriers(s: State, e: Event, nonce: Nonce)
    requires Enabled(s, e)
    ensures Carriers(Apply(s, e).net, nonce) <=
            Carriers(s.net, nonce) + (if e.Inject? && e.packet.msg.nonce == nonce then 1 else 0)
  {
    if e.Inject? {
      assert (s.net + [e.packet])[..|s.net|] == s.net;
    } else if Consumes(e) {
      StepPackets(s, e);
      CarriersRemoveAt(s.net, e.index, nonce);
      CarriersConcat(RemoveAt(s.net, e.index), Sent(Output(s, e)), nonce);
      assert Sent(Output(s, e)) == [] || Sent(Output(s, e))[..0] == [];
      assert Apply(s, e).net == RemoveAt(s.net, e.index) + Sent(Output(s, e));
    }
  }

  /** No run multiplies a request: a nonce has at most as many carriers as were injected. */
  lemma {:induction false} NoncesAreNotDuplicated(s: State, es: seq<Event>, nonce: Nonce)
    requires Run(s, es)
    ensures Carriers(Exec(s, es).net, nonce) <= Carriers(s.net, nonce) + Injections(es, nonce)
    decreases |es|
  {
    if es != [] {
      StepKeepsCarriers(s, es[0], nonce);
      NoncesAreNotDuplicated(Apply(s, es[0]), es[1..], nonce);
    }
  }

  // ----- searches under interleaved table writes

  /** A packet of search `nonce` is on its way between `start` and `target`, or answers from there. */
  predicate WithinSearch(p: Packet, nonce: Nonce, d: Direction, start: Id, target: Id, level: nat) {
    p.msg.nonce == nonce ==>
      match p.msg
      case SearchByIdRequest(_, t, _, l, dir) =>
        t == target && dir == d && l <= level && Key(d, start) <= Key(d, p.dest) <= Key(d, target)
      case SearchByIdResponse(_, t, l, result) =>
        t == target && l <= level && Key(d, start) <= Key(d, result) <= Key(d, target)
      case _ => false
  }

  ghost predicate SearchConfined(net: seq<Packet>, nonce: Nonce, d: Direction, start: Id, target: Id, level: nat) {
    forall p :: p in net ==> WithinSearch(p, nonce, d, start, target, level)
  }

  lemma StepConfinesSearch(s: State, e: Event, nonce: Nonce, d: Direction, start: Id, target: Id, level: nat)
    requires Ordered(s.nodes) && Enabled(s, e) && !(e.Inject? && e.packet.msg.nonce == nonce)
    requires SearchConfined(s.net, nonce, d, start, target, level)
    ensures SearchConfined(Apply(s, e).net, nonce, d, start, target, level)
  {
    StepPackets(s, e);
    if Output(s, e).Some? {
      var p := s.net[e.index];
      var n := if e.DeliverTorn? then s.nodes[p.dest].(table := e.seen) else s.nodes[p.dest];
      assert p in s.net;
      if p.msg.SearchByIdRequest? { SearchHop(n, p.msg); }
    }
  }

  /**
   In every run, with any table writes between its hops and its reads, a search stays between its start and its
   target, never rises in level, and can only be answered with an identifier in that range.
   */
  lemma {:induction false} SearchStaysConfined(
    s: State, es: seq<Event>, nonce: Nonce, d: Direction, start: Id, target: Id, level: nat)
    requires Ordered(s.nodes) && Run(s, es) && Injections(es, nonce) == 0
    requires SearchConfined(s.net, nonce, d, start, target, level)
    ensures SearchConfined(Exec(s, es).net, nonce, d, start, target, level)
    decreases |es|
  {
    if es != [] {
      StepKeepsOrder(s, es[0]);
      StepConfinesSearch(s, es[0], nonce, d, start, target, level);
      SearchStaysConfined(Apply(s, es[0]), es[1..], nonce, d, start, target, level);
    }
  }

  /** Answers to search `nonce` name nodes of the overlay. */
  ghost predicate AnswersNameNodes(s: State, nonce: Nonce) {
    forall p :: p in s.net && p.msg.nonce == nonce && p.msg.SearchByIdResponse? ==> p.msg.result in s.nodes
  }

  lemma {:induction false} AnswersComeFromNodes(s: State, es: seq<Event>, nonce: Nonce)
    requires Ordered(s.nodes) && Run(s, es) && Injections(es, nonce) == 0 && AnswersNameNodes(s, nonce)
    ensures AnswersNameNodes(Exec(s, es), nonce)
    decreases |es|
  {
    if es != [] {
      var e := es[0];
      StepKeepsOrder(s, e);
      StepPackets(s, e);
      if Output(s, e).Some? && s.net[e.index].msg.SearchByIdRequest? {
        var n := s.nodes[s.net[e.index].dest];
        SearchHop(if e.DeliverTorn? then n.(table := e.seen) else n, s.net[e.index].msg);
      }
      assert Output(s, e).Some? ==> s.net[e.index] in s.net;
      AnswersComeFromNodes(Apply(s, e), es[1..], nonce);
    }
  }
}
