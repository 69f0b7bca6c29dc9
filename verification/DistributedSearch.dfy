/** Search relayed from node to node: a fast multi-level walk that agrees with its simple meaning. */
module DistributedSearch {
  import opened Directions
  import opened LookupTables
  import opened LocalSearch
  import opened Handlers
  import opened Overlay
  import opened BackPointers
  import opened LevelLists

  /** Whatever the levels hold on `d`, each entry of a member is a member on that side. */
  ghost predicate Navigable(nodes: Nodes, members: set<Id>, d: Direction) {
    && (forall v :: v in members ==> v in nodes && nodes[v].identity.id == v)
    && forall v, l: nat {:trigger SlotAt(nodes, v, l, d)} :: v in members && SlotAt(nodes, v, l, d).Some? ==>
         SlotAt(nodes, v, l, d).value.id in members && Beyond(d, v, SlotAt(nodes, v, l, d).value.id)
  }

  /** Navigable, and complete at level 0: each member's entry is the closest member, if there is one. */
  ghost predicate Searchable(nodes: Nodes, members: set<Id>, d: Direction) {
    && Navigable(nodes, members, d)
    && forall v :: v in members ==>
         match SlotAt(nodes, v, 0, d)
         case None => forall w :: w in members ==> !Beyond(d, v, w)
         case Some(x) => Next(members, v, d, x.id)
  }

  /** The greatest member at or before the target (rightward), or the smallest at or after it (leftward). */
  ghost predicate Exact(members: set<Id>, d: Direction, target: Id, r: Id) {
    && r in members && Key(d, r) <= Key(d, target)
    && forall w :: w in members && Key(d, w) <= Key(d, target) ==> Key(d, w) <= Key(d, r)
  }

  /** A request of this search is at a member not past the target, or an answer to it is exact. */
  ghost predicate OnCourse(p: Packet, nonce: Nonce, members: set<Id>, d: Direction, target: Id) {
    p.msg.nonce == nonce ==>
      match p.msg
      case SearchByIdRequest(_, t, _, level, dir) =>
        && t == target && dir == d && level < LOOKUP_TABLE_LEVELS
        && p.dest in members && Key(d, p.dest) <= Key(d, target)
      case SearchByIdResponse(_, t, _, result) => t == target && Exact(members, d, target, result)
      case _ => false
  }

  /** One hop of a search over a searchable list stays on course. */
  lemma HopStaysOnCourse(nodes: Nodes, members: set<Id>, d: Direction, target: Id, p: Packet)
    requires Searchable(nodes, members, d) && OnCourse(p, p.msg.nonce, members, d, target)
    requires p.msg.SearchByIdRequest?
    ensures React(nodes[p.dest], p.msg).table == nodes[p.dest].table
    ensures React(nodes[p.dest], p.msg).out.Some?
    ensures var q := React(nodes[p.dest], p.msg).out.value;
            && OnCourse(q, p.msg.nonce, members, d, target) && q.msg.nonce == p.msg.nonce
            && if q.msg.SearchByIdRequest? then Beyond(d, p.dest, q.dest) && q.msg.origin == p.msg.origin
               else q.msg.SearchByIdResponse? && q.dest == p.msg.origin && q.msg.target == target
  {
    var n := nodes[p.dest];
    forall l: nat | l < LOOKUP_TABLE_LEVELS && n.table.Get(l, d).Some?
      ensures Beyond(d, p.dest, n.table.Get(l, d).value.id) && n.table.Get(l, d).value.id in members
    {
      assert n.table.Get(l, d) == SlotAt(nodes, p.dest, l, d);
    }
    SearchHop(n, p.msg);
    var q := React(n, p.msg).out.value;
    if q.msg.SearchByIdResponse? {
      assert !Admissible(n.table, d, target, 0);
      assert n.table.Get(0, d) == SlotAt(nodes, p.dest, 0, d);
    }
  }

  /** The nodes as the handler of the event sees them. */
  function Viewed(s: State, e: Event): Nodes
    requires Enabled(s, e)
  {
    if e.DeliverTorn? then
      var v := s.net[e.index].dest; s.nodes[v := s.nodes[v].(table := e.seen)]
    else s.nodes
  }

  /** At every state of the run the members form a searchable list on `d`, also as a search reads it. */
  ghost predicate Steady(s: State, es: seq<Event>, members: set<Id>, d: Direction)
    requires Run(s, es)
    decreases |es|
  {
    && Searchable(s.nodes, members, d)
    && (es == [] || (Searchable(Viewed(s, es[0]), members, d) && Steady(Apply(s, es[0]), es[1..], members, d)))
  }

  lemma StepStaysOnCourse(s: State, e: Event, nonce: Nonce, members: set<Id>, d: Direction, target: Id)
    requires Enabled(s, e) && Searchable(Viewed(s, e), members, d)
    requires !(e.Inject? && e.packet.msg.nonce == nonce)
    requires forall p :: p in s.net ==> OnCourse(p, nonce, members, d, target)
    ensures forall p :: p in Apply(s, e).net ==> OnCourse(p, nonce, members, d, target)
  {
    StepPackets(s, e);
    if Output(s, e).Some? {
      var p := s.net[e.index];
      assert p in s.net;
      if p.msg.nonce == nonce && p.msg.SearchByIdRequest? {
        HopStaysOnCourse(Viewed(s, e), members, d, target, p);
      }
    }
  }

  /**
   In every run over which level 0 stays complete, with any other traffic and any number of searches
   at once, every answer to a search from a member not past the target is exact.
   */
  lemma {:induction false} SearchIsExact(
    s: State, es: seq<Event>, nonce: Nonce, members: set<Id>, d: Direction, target: Id)
    requires Run(s, es) && Steady(s, es, members, d) && Injections(es, nonce) == 0
    requires forall p :: p in s.net ==> OnCourse(p, nonce, members, d, target)
    ensures forall p :: p in Exec(s, es).net ==> OnCourse(p, nonce, members, d, target)
    decreases |es|
  {
    if es != [] {
      StepStaysOnCourse(s, es[0], nonce, members, d, target);
      SearchIsExact(Apply(s, es[0]), es[1..], nonce, members, d, target);
    }
  }

  /** A search run alone comes to its exact answer and leaves the tables as they were. */
  lemma {:induction false} SearchCompletes(s: State, p: Packet, members: set<Id>, d: Direction, target: Id)
    returns (es: seq<Event>, level: nat, result: Id)
    requires Searchable(s.nodes, members, d) && s.net == [p] && p.msg.SearchByIdRequest?
    requires OnCourse(p, p.msg.nonce, members, d, target)
    ensures Run(s, es) && Deliveries(es) && Exact(members, d, target, result)
    ensures Exec(s, es) ==
            State(s.nodes, [Packet(p.msg.origin, SearchByIdResponse(p.msg.nonce, target, level, result))])
    decreases Key(d, target) - Key(d, p.dest)
  {
    HopStaysOnCourse(s.nodes, members, d, target, p);
    var q := React(s.nodes[p.dest], p.msg).out.value;
    var next := Apply(s, Deliver(0));
    assert s.nodes[p.dest].(table := s.nodes[p.dest].table) == s.nodes[p.dest];
    assert next == State(s.nodes, [q]);
    if q.msg.SearchByIdResponse? {
      es, level, result := [Deliver(0)], q.msg.terminationLevel, q.msg.result;
      assert es[1..] == [] && Run(next, []);
    } else {
      var rest;
      rest, level, result := SearchCompletes(next, q, members, d, target);
      es := [Deliver(0)] + rest;
      assert es[1..] == rest;
    }
  }

  /** Every schedule of a search run alone: still under way, answered exactly, or answer received. */
  lemma {:induction false} SearchAlone(
    s: State, es: seq<Event>, nonce: Nonce, members: set<Id>, d: Direction, target: Id)
    requires Searchable(s.nodes, members, d) && Run(s, es) && Deliveries(es)
    requires forall p :: p in s.net ==> p.msg.nonce == nonce && OnCourse(p, nonce, members, d, target)
    ensures Exec(s, es).nodes == s.nodes
    ensures forall p :: p in Exec(s, es).net ==> p.msg.nonce == nonce && OnCourse(p, nonce, members, d, target)
    decreases |es|
  {
    if es != [] {
      var p, next := s.net[es[0].index], Apply(s, es[0]);
      assert p in s.net;
      RemoveAtMembers(s.net, es[0].index);
      StepStaysOnCourse(s, es[0], nonce, members, d, target);
      if p.dest in s.nodes {
        if p.msg.SearchByIdRequest? { HopStaysOnCourse(s.nodes, members, d, target, p); }
        assert s.nodes[p.dest].(table := s.nodes[p.dest].table) == s.nodes[p.dest];
      }
      assert next.nodes == s.nodes;
      SearchAlone(next, es[1..], nonce, members, d, target);
    }
  }

  /** The deliveries that the packet of a search run alone can still cause, its own included. */
  function CourseLeft(net: seq<Packet>, d: Direction, target: Id): nat {
    if net == [] then 0
    else if net[0].msg.SearchByIdRequest? && Key(d, net[0].dest) <= Key(d, target) then
      Key(d, target) - Key(d, net[0].dest) + 2
    else 1
  }

  /** Every schedule of a search run alone ends: each delivery uses up some of its course. */
  lemma {:induction false} SearchAloneIsBounded(
    s: State, es: seq<Event>, nonce: Nonce, members: set<Id>, d: Direction, target: Id)
    requires Searchable(s.nodes, members, d) && Run(s, es) && Deliveries(es) && |s.net| <= 1
    requires forall p :: p in s.net ==> p.msg.nonce == nonce && OnCourse(p, nonce, members, d, target)
    ensures |Exec(s, es).net| <= 1
    ensures |es| + CourseLeft(Exec(s, es).net, d, target) <= CourseLeft(s.net, d, target)
    decreases |es|
  {
    if es != [] {
      var p, next := s.net[0], Apply(s, es[0]);
      assert p in s.net && es[0] == Deliver(0) && RemoveAt(s.net, 0) == [];
      SearchAlone(s, [es[0]], nonce, members, d, target);
      assert [es[0]][1..] == [] && Exec(s, [es[0]]) == Exec(next, []) == next;
      if p.msg.SearchByIdRequest? { HopStaysOnCourse(s.nodes, members, d, target, p); }
      SearchAloneIsBounded(next, es[1..], nonce, members, d, target);
    }
  }

  /** A complete level-0 list is searchable both ways if its entries lead to members. */
  lemma LinkedIsSearchable(nodes: Nodes, members: set<Id>, d: Direction)
    requires Linked(nodes, members, 0) && Navigable(nodes, members, d)
    ensures Searchable(nodes, members, d)
  {
    forall v | v in members
      ensures SlotIsNext(nodes, members, v, 0, d)
    {
    }
  }

  /**
   Quiet and half correct is enough for search in both directions: if no level-0 confirmation is in
   flight and every level-0 slot on one side is right, searches on either side are exact.
   */
  lemma HalfCorrectIsSearchable(s: State, d: Direction, e: Direction)
    requires Consistent(s) && NoConfirmations(s.net, 0)
    requires forall v :: v in s.nodes ==> TrueNeighbor(s.nodes, v, 0, d)
    ensures Searchable(s.nodes, s.nodes.Keys, e)
  {
    forall v | v in s.nodes
      ensures TrueNeighbor(s.nodes, v, 0, e)
    {
      if e != d {
        OppositeMirrors(d, v, v);
        HalfCorrectIsAllCorrect(s, 0, d, v);
      }
    }
    forall v, w | v in s.nodes && w in s.nodes ensures SameList(s.nodes, v, w, 0) {}
    forall v, l: nat | v in s.nodes && SlotAt(s.nodes, v, l, e).Some?
      ensures SlotAt(s.nodes, v, l, e).value.id in s.nodes && Beyond(e, v, SlotAt(s.nodes, v, l, e).value.id)
    {
      EntryInList(s, v, l, e);
    }
  }
}
