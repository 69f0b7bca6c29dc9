/**
 Complete level lists. A level list over a set of members is complete when every member's two slots
 hold its closest members, that is, when it is a sorted doubly linked list.
 */
module LevelLists {
  import opened Wrappers
  import opened Directions
  import opened LookupTables
  import opened Handlers
  import opened Overlay
  import opened BackPointers
  import opened Waiters

  /** `x` is the member closest to `v` on direction `d`. */
  ghost predicate Next(members: set<Id>, v: Id, d: Direction, x: Id) {
    x in members && Beyond(d, v, x) && forall w :: w in members ==> !(Key(d, v) < Key(d, w) < Key(d, x))
  }

  ghost predicate SlotIsNext(nodes: Nodes, members: set<Id>, v: Id, l: nat, d: Direction) {
    match SlotAt(nodes, v, l, d)
    case None => forall w :: w in members ==> !Beyond(d, v, w)
    case Some(x) => Real(nodes, x) && Next(members, v, d, x.id)
  }

  /** The members are nodes of one level-`l` list. */
  ghost predicate OneList(nodes: Nodes, members: set<Id>, l: nat) {
    && (forall v :: v in members ==> v in nodes && nodes[v].identity.id == v)
    && forall a, b :: a in members && b in members ==> SameList(nodes, a, b, l)
  }

  /** A sorted doubly linked list of exactly the members. */
  ghost predicate Linked(nodes: Nodes, members: set<Id>, l: nat) {
    && OneList(nodes, members, l)
    && forall v, d :: v in members ==> SlotIsNext(nodes, members, v, l, d)
  }

  // ----- inserting one node by link requests alone

  /**
   A node being linked into a complete list. `below` and `above` are its future neighbours; a request
   on direction `Right` seeks `below`, and one on `Left` seeks `above`.
   */
  datatype Insertion = Insertion(
    base: Nodes, members: set<Id>, level: nat, node: Identity,
    below: Option<Id>, above: Option<Id>, rightNonce: Nonce, leftNonce: Nonce)
  {
    function Near(d: Direction): Option<Id> {
      if d.Right? then below else above
    }

    function NonceOf(d: Direction): Nonce {
      if d.Right? then rightNonce else leftNonce
    }

    ghost predicate Valid() {
      && Linked(base, members, level) && level < LOOKUP_TABLE_LEVELS
      && node.id !in members && Real(base, node)
      && OneList(base, members + {node.id}, level)
      && (forall d :: SlotAt(base, node.id, level, d) == None)
      && forall d :: match Near(d) {
                       case None => forall w :: w in members ==> !Beyond(d, w, node.id)
                       case Some(x) => Next(members, node.id, d.Opposite(), x)
                     }
    }
  }

  /** How far the request on one direction has come. */
  datatype Phase = Idle | Requested(at: Id) | Replied | Done

  datatype Phases = Phases(onRight: Phase, onLeft: Phase) {
    function Get(d: Direction): Phase {
      if d.Right? then onRight else onLeft
    }

    function Set(d: Direction, p: Phase): Phases {
      if d.Right? then Phases(p, onLeft) else Phases(onRight, p)
    }
  }

  /** `next` is one phase on from `phase`: forwarded or accepted, or confirmed. */
  predicate OneOn(phase: Phase, next: Phase) {
    (phase.Requested? && (next.Requested? || next.Replied?)) || (phase.Replied? && next.Done?)
  }

  /** The packet in flight on direction `d`. */
  function Pending(ins: Insertion, d: Direction, phase: Phase): seq<Packet> {
    match phase
    case Requested(at) => [Packet(at, GetLinkOp(ins.NonceOf(d), ins.node, d, ins.level))]
    case Replied =>
      if ins.Near(d).Some? && ins.Near(d).value in ins.base then
        [Packet(ins.node.id, SetLinkOp(ins.NonceOf(d), d.Opposite(), ins.level,
                                       Some(ins.base[ins.Near(d).value].identity)))]
      else []
    case Idle => []
    case Done => []
  }

  /** What a slot holds, given the phases: at most four slots differ from the base. */
  ghost function ExpectedSlot(ins: Insertion, ph: Phases, v: Id, l: nat, d: Direction): Slot {
    if l == ins.level && ins.Near(d) == Some(v) && (ph.Get(d).Replied? || ph.Get(d).Done?) then Some(ins.node)
    else if l == ins.level && v == ins.node.id && ph.Get(d.Opposite()).Done? &&
            ins.Near(d.Opposite()).Some? && ins.Near(d.Opposite()).value in ins.base then
      Some(ins.base[ins.Near(d.Opposite()).value].identity)
    else SlotAt(ins.base, v, l, d)
  }

  ghost predicate PhaseFits(ins: Insertion, d: Direction, phase: Phase) {
    match phase
    case Idle => true
    case Requested(at) => at in ins.members && Beyond(d, at, ins.node.id)
    case Replied => ins.Near(d).Some?
    case Done => ins.Near(d).Some?
  }

  /** The same nodes as in the base, with the slots the phases call for. */
  ghost predicate NodesMatch(ins: Insertion, ph: Phases, nodes: Nodes) {
    && nodes.Keys == ins.base.Keys
    && (forall v :: v in ins.base ==> nodes[v].identity == ins.base[v].identity)
    && forall v, l: nat, d :: SlotAt(nodes, v, l, d) == ExpectedSlot(ins, ph, v, l, d)
  }

  ghost predicate NetMatches(ins: Insertion, ph: Phases, net: seq<Packet>) {
    || net == Pending(ins, Right, ph.onRight) + Pending(ins, Left, ph.onLeft)
    || net == Pending(ins, Left, ph.onLeft) + Pending(ins, Right, ph.onRight)
  }

  ghost predicate InProgress(ins: Insertion, ph: Phases, s: State) {
    && ins.Valid() && NodesMatch(ins, ph, s.nodes) && NetMatches(ins, ph, s.net)
    && PhaseFits(ins, Right, ph.onRight) && PhaseFits(ins, Left, ph.onLeft)
  }

  /** A request that the near neighbour receives is accepted there; one received earlier moves on. */
  lemma RequestedStep(ins: Insertion, ph: Phases, s: State, d: Direction) returns (next: Phase)
    requires InProgress(ins, ph, s) && ph.Get(d).Requested?
    ensures var m := GetLinkOp(ins.NonceOf(d), ins.node, d, ins.level);
            var n := s.nodes[ph.Get(d).at];
            var r := React(n, m);
            && PhaseFits(ins, d, next) && r.out.Some? && Pending(ins, d, next) == [r.out.value]
            && (if next.Replied? then
                  && ins.Near(d) == Some(ph.Get(d).at)
                  && r.table == n.table.Put(ins.level, d, Some(ins.node))
                else
                  && next.Requested? && Beyond(d, ph.Get(d).at, next.at)
                  && r.table == n.table)
  {
    var at := ph.Get(d).at;
    var m := GetLinkOp(ins.NonceOf(d), ins.node, d, ins.level);
    var n := s.nodes[at];
    assert SameList(ins.base, at, ins.node.id, ins.level);
    OppositeMirrors(d, at, ins.node.id);
    assert BelongsInOwnSlot(n.identity, ins.level, d, ins.node);
    var slot := n.table.Get(ins.level, d);
    assert slot == SlotAt(s.nodes, at, ins.level, d) == ExpectedSlot(ins, ph, at, ins.level, d);
    assert slot == SlotAt(ins.base, at, ins.level, d);
    assert SlotIsNext(ins.base, ins.members, at, ins.level, d);
    var near := ins.Near(d).value;
    OppositeMirrors(d, near, ins.node.id);
    OppositeMirrors(d, near, at);
    if slot.Some? && Beyond(d, slot.value.id, ins.node.id) {
      next := Requested(slot.value.id);
      assert n.table.Put(ins.level, d, slot) == n.table;
    } else {
      next := Replied;
      assert near == at;
    }
  }

  lemma RepliedStep(ins: Insertion, ph: Phases, s: State, d: Direction)
    requires InProgress(ins, ph, s) && ph.Get(d).Replied?
    ensures Pending(ins, d, Replied) != [] && Pending(ins, d, Replied)[0].dest == ins.node.id
    ensures ins.node.id in s.nodes
    ensures React(s.nodes[ins.node.id], Pending(ins, d, Replied)[0].msg) ==
            Reaction(s.nodes[ins.node.id].table.Put(
                       ins.level, d.Opposite(), Some(ins.base[ins.Near(d).value].identity)), None)
  {
    var near := ins.Near(d).value;
    assert near in ins.members;
    assert SameList(ins.base, ins.node.id, near, ins.level);
    OppositeMirrors(d, near, ins.node.id);
    var n := s.nodes[ins.node.id];
    assert n.table.Get(ins.level, d.Opposite()) == SlotAt(s.nodes, ins.node.id, ins.level, d.Opposite());
    assert SlotAt(s.nodes, ins.node.id, ins.level, d.Opposite()) ==
           ExpectedSlot(ins, ph, ins.node.id, ins.level, d.Opposite());
  }

  function PhaseMeasure(ins: Insertion, d: Direction, phase: Phase): nat {
    match phase
    case Requested(at) => 2 + if Beyond(d, at, ins.node.id) then Key(d, ins.node.id) - Key(d, at) else 0
    case Replied => 1
    case Idle => 0
    case Done => 0
  }

  function Measure(ins: Insertion, ph: Phases): nat {
    PhaseMeasure(ins, Right, ph.onRight) + PhaseMeasure(ins, Left, ph.onLeft)
  }

  /** Where the packet of direction `d` sits among the packets in flight. */
  lemma PendingAt(ins: Insertion, ph: Phases, s: State, i: nat) returns (d: Direction)
    requires InProgress(ins, ph, s) && i < |s.net|
    ensures Pending(ins, d, ph.Get(d)) == [s.net[i]]
    ensures RemoveAt(s.net, i) == Pending(ins, d.Opposite(), ph.Get(d.Opposite()))
  {
    var right, left := Pending(ins, Right, ph.onRight), Pending(ins, Left, ph.onLeft);
    if s.net == right + left {
      d := if i < |right| then Right else Left;
    } else {
      d := if i < |left| then Left else Right;
    }
  }

  /** Writing the slot by which one phase differs from the next leads to the next. */
  lemma WriteAdvances(ins: Insertion, ph: Phases, next: Phases, nodes: Nodes, w: Id, e: Direction, x: Slot)
    requires NodesMatch(ins, ph, nodes) && w in nodes && ins.level < LOOKUP_TABLE_LEVELS
    requires forall v, l: nat, d :: ExpectedSlot(ins, next, v, l, d) ==
               if v == w && l == ins.level && d == e then x else ExpectedSlot(ins, ph, v, l, d)
    ensures NodesMatch(ins, next, nodes[w := nodes[w].(table := nodes[w].table.Put(ins.level, e, x))])
  {
  }

  /** Accepting the request adds one pointer to the new node. */
  lemma ExpectedOnReply(ins: Insertion, ph: Phases, d: Direction, at: Id, v: Id, l: nat, e: Direction)
    requires ph.Get(d).Requested? && ins.Near(d) == Some(at)
    ensures ExpectedSlot(ins, ph.Set(d, Replied), v, l, e) ==
            if v == at && l == ins.level && e == d then Some(ins.node) else ExpectedSlot(ins, ph, v, l, e)
  {
  }

  lemma ExpectedOnForward(ins: Insertion, ph: Phases, d: Direction, at: Id, v: Id, l: nat, e: Direction)
    requires ph.Get(d).Requested?
    ensures ExpectedSlot(ins, ph.Set(d, Requested(at)), v, l, e) == ExpectedSlot(ins, ph, v, l, e)
  {
  }

  /** Applying the confirmation adds the pointer back. */
  lemma ExpectedOnDone(ins: Insertion, ph: Phases, d: Direction, near: Id, v: Id, l: nat, e: Direction)
    requires ph.Get(d).Replied? && ins.Near(d) == Some(near) && near in ins.base
    requires ins.below != Some(ins.node.id) && ins.above != Some(ins.node.id)
    ensures ExpectedSlot(ins, ph.Set(d, Done), v, l, e) ==
            if v == ins.node.id && l == ins.level && e == d.Opposite() then Some(ins.base[near].identity)
            else ExpectedSlot(ins, ph, v, l, e)
  {
  }

  lemma NetAdvances(ins: Insertion, ph: Phases, d: Direction, phase: Phase, rest: seq<Packet>)
    requires rest == Pending(ins, d.Opposite(), ph.Get(d.Opposite()))
    ensures NetMatches(ins, ph.Set(d, phase), rest + Pending(ins, d, phase))
  {
  }

  lemma NearIsMember(ins: Insertion, d: Direction)
    requires ins.Valid()
    ensures ins.Near(d).Some? ==> ins.Near(d).value in ins.members && ins.Near(d).value in ins.base
    ensures ins.below != Some(ins.node.id) && ins.above != Some(ins.node.id)
  {
    assert ins.Near(Right) == ins.below && ins.Near(Left) == ins.above;
  }

  lemma RequestedNodes(ins: Insertion, ph: Phases, nodes: Nodes, d: Direction, phase: Phase, table: Table)
    requires ins.level < LOOKUP_TABLE_LEVELS && NodesMatch(ins, ph, nodes)
    requires ph.Get(d).Requested? && ph.Get(d).at in nodes
    requires if phase.Replied? then
               && ins.Near(d) == Some(ph.Get(d).at)
               && table == nodes[ph.Get(d).at].table.Put(ins.level, d, Some(ins.node))
             else phase.Requested? && table == nodes[ph.Get(d).at].table
    ensures var at := ph.Get(d).at;
            NodesMatch(ins, ph.Set(d, phase), nodes[at := nodes[at].(table := table)])
  {
    var at, next := ph.Get(d).at, ph.Set(d, phase);
    if phase.Replied? {
      forall v, l: nat, e
        ensures ExpectedSlot(ins, next, v, l, e) ==
                if v == at && l == ins.level && e == d then Some(ins.node) else ExpectedSlot(ins, ph, v, l, e)
      {
        ExpectedOnReply(ins, ph, d, at, v, l, e);
      }
      WriteAdvances(ins, ph, next, nodes, at, d, Some(ins.node));
    } else {
      assert nodes[at := nodes[at].(table := table)] == nodes;
      forall v, l: nat, e
        ensures SlotAt(nodes, v, l, e) == ExpectedSlot(ins, next, v, l, e)
      {
        ExpectedOnForward(ins, ph, d, phase.at, v, l, e);
      }
    }
  }

  lemma RequestedAdvances(ins: Insertion, ph: Phases, s: State, i: nat, d: Direction) returns (next: Phases)
    requires InProgress(ins, ph, s) && i < |s.net| && ph.Get(d).Requested?
    requires Pending(ins, d, ph.Get(d)) == [s.net[i]]
    requires RemoveAt(s.net, i) == Pending(ins, d.Opposite(), ph.Get(d.Opposite()))
    ensures InProgress(ins, next, Apply(s, Deliver(i)))
    ensures next == ph.Set(d, next.Get(d)) && OneOn(ph.Get(d), next.Get(d))
    ensures PhaseMeasure(ins, d, next.Get(d)) < PhaseMeasure(ins, d, ph.Get(d))
  {
    var at := ph.Get(d).at;
    var phase := RequestedStep(ins, ph, s, d);
    next := ph.Set(d, phase);
    var r := React(s.nodes[at], s.net[i].msg);
    RequestedNodes(ins, ph, s.nodes, d, phase, r.table);
    NetAdvances(ins, ph, d, phase, RemoveAt(s.net, i));
    assert Apply(s, Deliver(i)) ==
           State(s.nodes[at := s.nodes[at].(table := r.table)], RemoveAt(s.net, i) + Pending(ins, d, phase));
  }

  lemma RepliedAdvances(ins: Insertion, ph: Phases, s: State, i: nat, d: Direction)
    requires InProgress(ins, ph, s) && i < |s.net| && ph.Get(d).Replied?
    requires Pending(ins, d, ph.Get(d)) == [s.net[i]]
    requires RemoveAt(s.net, i) == Pending(ins, d.Opposite(), ph.Get(d.Opposite()))
    ensures InProgress(ins, ph.Set(d, Done), Apply(s, Deliver(i)))
  {
    var next, near, c := ph.Set(d, Done), ins.Near(d).value, ins.node.id;
    RepliedStep(ins, ph, s, d);
    NearIsMember(ins, d);
    var x := Some(ins.base[near].identity);
    forall v, l: nat, e
      ensures ExpectedSlot(ins, next, v, l, e) ==
              if v == c && l == ins.level && e == d.Opposite() then x else ExpectedSlot(ins, ph, v, l, e)
    {
      ExpectedOnDone(ins, ph, d, near, v, l, e);
    }
    WriteAdvances(ins, ph, next, s.nodes, c, d.Opposite(), x);
    NetAdvances(ins, ph, d, Done, RemoveAt(s.net, i));
    assert Apply(s, Deliver(i)) ==
           State(s.nodes[c := s.nodes[c].(table := s.nodes[c].table.Put(ins.level, d.Opposite(), x))],
                 RemoveAt(s.net, i) + Pending(ins, d, Done));
  }

  lemma MeasureLowered(ins: Insertion, ph: Phases, d: Direction, phase: Phase)
    requires PhaseMeasure(ins, d, phase) < PhaseMeasure(ins, d, ph.Get(d))
    ensures Measure(ins, ph.Set(d, phase)) < Measure(ins, ph)
    ensures ph.Set(d, phase).Get(d) == phase
  {
  }

  /** Any delivery moves exactly one of the two requests on, the one whose packet it takes. */
  lemma InsertionStep(ins: Insertion, ph: Phases, s: State, i: nat) returns (next: Phases, d: Direction)
    requires InProgress(ins, ph, s) && i < |s.net|
    ensures InProgress(ins, next, Apply(s, Deliver(i)))
    ensures Pending(ins, d, ph.Get(d)) == [s.net[i]]
    ensures next == ph.Set(d, next.Get(d)) && OneOn(ph.Get(d), next.Get(d))
    ensures Measure(ins, next) < Measure(ins, ph)
  {
    d := PendingAt(ins, ph, s, i);
    if ph.Get(d).Requested? {
      next := RequestedAdvances(ins, ph, s, i, d);
      MeasureLowered(ins, ph, d, next.Get(d));
    } else {
      RepliedAdvances(ins, ph, s, i, d);
      next := ph.Set(d, Done);
      MeasureLowered(ins, ph, d, Done);
    }
  }

  /**
   Every schedule of the deliveries keeps the insertion in progress, whatever interleaving it is, and
   uses up the measure, so that no schedule goes on forever.
   */
  lemma {:induction false} InsertionRun(ins: Insertion, ph: Phases, s: State, es: seq<Event>) returns (next: Phases)
    requires InProgress(ins, ph, s) && Run(s, es) && Deliveries(es)
    ensures InProgress(ins, next, Exec(s, es))
    ensures Measure(ins, next) + |es| <= Measure(ins, ph)
    ensures forall d :: next.Get(d).Idle? <==> ph.Get(d).Idle?
    decreases |es|
  {
    if es == [] {
      next := ph;
    } else {
      var mid, d := InsertionStep(ins, ph, s, es[0].index);
      next := InsertionRun(ins, mid, Apply(s, es[0]), es[1..]);
    }
  }

  /** The step delivers to `own` a reply that resolves the waiter parked for `request`. */
  predicate Resolves(s: State, e: Event, own: Id, request: Message)
    requires Enabled(s, e)
  {
    && e.Deliver? && s.net[e.index].dest == own && s.net[e.index].msg.nonce == request.nonce
    && WaiterFor(request).Some? && Answers(WaiterFor(request).value, s.net[e.index].msg)
  }

  /** Some step of the run does so. */
  ghost predicate ResolvedDuring(s: State, es: seq<Event>, own: Id, request: Message)
    requires Run(s, es)
    decreases |es|
  {
    es != [] && (Resolves(s, es[0], own, request) || ResolvedDuring(Apply(s, es[0]), es[1..], own, request))
  }

  predicate Waiting(phase: Phase) {
    phase.Requested? || phase.Replied?
  }

  /** A request that waits is answered by the next delivery, or still waits. */
  lemma WaitingStep(ins: Insertion, ph: Phases, s: State, i: nat, d: Direction) returns (next: Phases)
    requires InProgress(ins, ph, s) && i < |s.net| && Waiting(ph.Get(d))
    ensures InProgress(ins, next, Apply(s, Deliver(i)))
    ensures Waiting(next.Get(d)) ||
            Resolves(s, Deliver(i), ins.node.id, GetLinkOp(ins.NonceOf(d), ins.node, d, ins.level))
  {
    var e;
    next, e := InsertionStep(ins, ph, s, i);
    OtherSideKept(ph, e, next.Get(e), d);
  }

  lemma OtherSideKept(ph: Phases, e: Direction, phase: Phase, d: Direction)
    ensures ph.Set(e, phase).Get(d) == if d == e then phase else ph.Get(d)
  {
  }

  /** On every schedule that leaves nothing in flight, each request has been answered to its sender. */
  lemma {:induction false} InsertionAnswers(ins: Insertion, ph: Phases, s: State, es: seq<Event>, d: Direction)
    requires InProgress(ins, ph, s) && Run(s, es) && Deliveries(es) && Exec(s, es).net == []
    requires Waiting(ph.Get(d))
    ensures ResolvedDuring(s, es, ins.node.id, GetLinkOp(ins.NonceOf(d), ins.node, d, ins.level))
    decreases |es|
  {
    if es == [] {
      NothingPending(ins, ph, s, d);
    } else {
      var next := WaitingStep(ins, ph, s, es[0].index, d);
      assert es[0] == Deliver(es[0].index);
      if Waiting(next.Get(d)) { InsertionAnswers(ins, next, Apply(s, es[0]), es[1..], d); }
    }
  }

  /** Some schedule brings the insertion to its end. */
  lemma {:induction false} InsertionCompletes(ins: Insertion, ph: Phases, s: State) returns (es: seq<Event>)
    requires InProgress(ins, ph, s)
    ensures Run(s, es) && Deliveries(es) && Exec(s, es).net == []
    decreases Measure(ins, ph)
  {
    if s.net == [] {
      es := [];
    } else {
      var next, d := InsertionStep(ins, ph, s, 0);
      var rest := InsertionCompletes(ins, next, Apply(s, Deliver(0)));
      es := [Deliver(0)] + rest;
      assert es[1..] == rest;
    }
  }

  lemma NothingPending(ins: Insertion, ph: Phases, s: State, d: Direction)
    requires InProgress(ins, ph, s) && s.net == []
    ensures ph.Get(d).Idle? || ph.Get(d).Done?
  {
  }

  /** With both sides served, a member's slot is its closest member among the enlarged list. */
  lemma MemberSlotIsNext(ins: Insertion, ph: Phases, s: State, v: Id, d: Direction)
    requires InProgress(ins, ph, s) && s.net == [] && v in ins.members
    requires ph.Get(d).Idle? ==> ins.Near(d).None?
    ensures SlotIsNext(s.nodes, ins.members + {ins.node.id}, v, ins.level, d)
  {
    NothingPending(ins, ph, s, d);
    assert SlotAt(s.nodes, v, ins.level, d) == ExpectedSlot(ins, ph, v, ins.level, d);
    assert SlotIsNext(ins.base, ins.members, v, ins.level, d);
    var slot := SlotAt(ins.base, v, ins.level, d);
    OppositeMirrors(d, v, ins.node.id);
    if ins.Near(d).Some? {
      var near := ins.Near(d).value;
      OppositeMirrors(d, near, ins.node.id);
      OppositeMirrors(d, v, near);
    }
  }

  lemma NewSlotIsNext(ins: Insertion, ph: Phases, s: State, d: Direction)
    requires InProgress(ins, ph, s) && s.net == []
    requires ph.Get(d.Opposite()).Idle? ==> ins.Near(d.Opposite()).None?
    ensures SlotIsNext(s.nodes, ins.members + {ins.node.id}, ins.node.id, ins.level, d)
  {
    NothingPending(ins, ph, s, d.Opposite());
    OppositeMirrors(d, ins.node.id, ins.node.id);
    assert ins.Near(d) != Some(ins.node.id);
    assert SlotAt(s.nodes, ins.node.id, ins.level, d) == ExpectedSlot(ins, ph, ins.node.id, ins.level, d);
    assert SlotAt(ins.base, ins.node.id, ins.level, d) == None;
    match ins.Near(d.Opposite())
    case None =>
      forall w | w in ins.members ensures !Beyond(d, ins.node.id, w) { OppositeMirrors(d, ins.node.id, w); }
    case Some(x) =>
  }

  lemma MatchKeepsList(ins: Insertion, ph: Phases, nodes: Nodes)
    requires NodesMatch(ins, ph, nodes) && OneList(ins.base, ins.members + {ins.node.id}, ins.level)
    ensures OneList(nodes, ins.members + {ins.node.id}, ins.level)
  {
  }

  /** Both requests served: the list is complete again, with the new node in it. */
  lemma InsertionLinks(ins: Insertion, ph: Phases, s: State)
    requires InProgress(ins, ph, s) && s.net == []
    requires forall d :: ph.Get(d).Idle? ==> ins.Near(d).None?
    ensures Linked(s.nodes, ins.members + {ins.node.id}, ins.level)
  {
    MatchKeepsList(ins, ph, s.nodes);
    forall v, d | v in ins.members + {ins.node.id}
      ensures SlotIsNext(s.nodes, ins.members + {ins.node.id}, v, ins.level, d)
    {
      if v == ins.node.id { NewSlotIsNext(ins, ph, s, d); } else { MemberSlotIsNext(ins, ph, s, v, d); }
    }
  }
}
