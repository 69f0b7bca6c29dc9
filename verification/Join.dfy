/** Stage 1 of joining: search for a neighbour, ask it for the other one, and link to both. */
module Join {
  import opened Wrappers
  import opened Directions
  import opened LookupTables
  import opened Handlers
  import opened Overlay
  import opened BackPointers
  import opened LevelLists
  import opened Linking
  import opened DistributedSearch

  /** The side of the introducer on which the joining node belongs. */
  function SearchDirection(introducer: Id, own: Id): Option<Direction> {
    if introducer < own then Some(Right)
    else if introducer > own then Some(Left)
    else None
  }

  /** What a joining node saw and did: the nonces it drew, the answers it got, the schedules around it. */
  datatype JoinTrace = JoinTrace(
    searchNonce: Nonce, queryNonce: Nonce, searchLinkNonce: Nonce, queryLinkNonce: Nonce,
    searchRun: seq<Event>, terminationLevel: nat, result: Id, searched: State,
    neighbor: Slot, queried: State,
    searchLinkFirst: bool, linkRun: seq<Event>)

  /** The search round trip, up to the moment its answer is about to reach the joining node. */
  ghost predicate SearchPhase(s: State, own: Id, introducer: Id, level: nat, d: Direction, tr: JoinTrace) {
    var sent := s.(net := [Packet(introducer, SearchByIdRequest(tr.searchNonce, own, own, level, d))]);
    && Run(sent, tr.searchRun) && Deliveries(tr.searchRun)
    && Exec(sent, tr.searchRun) == tr.searched
    && tr.searched.net == [Packet(own, SearchByIdResponse(tr.searchNonce, own, tr.terminationLevel, tr.result))]
  }

  /** The neighbour query: the node found is asked for its own slot on the search direction. */
  ghost predicate QueryPhase(s: State, own: Id, d: Direction, tr: JoinTrace) {
    var asked := s.(net := [Packet(tr.result, GetNeighborOp(tr.queryNonce, own, 0, d))]);
    var answered := Apply(asked, Deliver(0));
    && answered.net == [Packet(own, RetNeighborOp(tr.queryNonce, 0, d, tr.neighbor))]
    && tr.queried == Apply(answered, Deliver(0))
  }

  /** The link request to the node that the search found. */
  function SearchLink(node: Identity, d: Direction, tr: JoinTrace): Message {
    GetLinkOp(tr.searchLinkNonce, node, d, 0)
  }

  /** The link request to that node's neighbour, if it reported one. */
  function QueryLink(node: Identity, d: Direction, tr: JoinTrace): Message {
    GetLinkOp(tr.queryLinkNonce, node, d.Opposite(), 0)
  }

  function LinksSent(s: State, node: Identity, d: Direction, tr: JoinTrace): State {
    var searchLink := [Packet(tr.result, SearchLink(node, d, tr))];
    var queryLink := if tr.neighbor.Some? then [Packet(tr.neighbor.value.id, QueryLink(node, d, tr))] else [];
    s.(net := if tr.searchLinkFirst then searchLink + queryLink else queryLink + searchLink)
  }

  /** The two link requests, in either order and under any schedule of their deliveries. */
  ghost predicate LinkPhase(s: State, node: Identity, d: Direction, tr: JoinTrace, after: State) {
    && Run(LinksSent(s, node, d, tr), tr.linkRun) && Deliveries(tr.linkRun)
    && Exec(LinksSent(s, node, d, tr), tr.linkRun) == after && after.net == []
  }

  /** Every link request sent was answered: a reply reached the joining node and resolved its waiter. */
  ghost predicate LinksAnswered(s: State, node: Identity, d: Direction, tr: JoinTrace) {
    && Run(LinksSent(s, node, d, tr), tr.linkRun)
    && ResolvedDuring(LinksSent(s, node, d, tr), tr.linkRun, node.id, SearchLink(node, d, tr))
    && (tr.neighbor.Some? ==>
          ResolvedDuring(LinksSent(s, node, d, tr), tr.linkRun, node.id, QueryLink(node, d, tr)))
  }

  /**
   A join run alone from `s` ends in `after`. It succeeds if it got as far as its link requests and each
   of them was answered.
   */
  ghost predicate JoinEnds(
    s: State, node: Identity, introducer: Id, level: nat, tr: JoinTrace, after: State, ok: bool)
  {
    match SearchDirection(introducer, node.id)
    case None => !ok && after == s
    case Some(d) =>
      && SearchPhase(s, node.id, introducer, level, d, tr)
      && var found := Apply(tr.searched, Deliver(0));
         if tr.result == node.id then !ok && after == found
         else
           && QueryPhase(found, node.id, d, tr) && LinkPhase(tr.queried, node, d, tr, after)
           && (ok <==> LinksAnswered(tr.queried, node, d, tr))
  }

  /** A quiet overlay whose members form a complete, navigable level-0 list. */
  ghost predicate Settled(s: State, members: set<Id>) {
    && s.net == [] && Linked(s.nodes, members, 0)
    && Navigable(s.nodes, members, Left) && Navigable(s.nodes, members, Right)
  }

  /** `node` is up with an empty lookup table and not yet a member. */
  ghost predicate Fresh(s: State, members: set<Id>, node: Identity) {
    && node.id !in members && Real(s.nodes, node)
    && forall l: nat, d :: SlotAt(s.nodes, node.id, l, d) == None
  }

  // ----- the three phases

  lemma Level0IsOneList(nodes: Nodes, members: set<Id>)
    requires forall v :: v in members ==> v in nodes && nodes[v].identity.id == v
    ensures OneList(nodes, members, 0)
  {
  }

  /** The search finds the closest member not past the joining node, and changes no table. */
  lemma SearchPhaseIsExact(
    s: State, members: set<Id>, own: Id, introducer: Id, level: nat, d: Direction, tr: JoinTrace)
    requires Settled(s, members) && introducer in members && level < LOOKUP_TABLE_LEVELS
    requires SearchDirection(introducer, own) == Some(d) && SearchPhase(s, own, introducer, level, d, tr)
    ensures Exact(members, d, own, tr.result) && tr.searched.nodes == s.nodes
    ensures Apply(tr.searched, Deliver(0)) == s
  {
    var sent := s.(net := [Packet(introducer, SearchByIdRequest(tr.searchNonce, own, own, level, d))]);
    LinkedIsSearchable(s.nodes, members, d);
    SearchAlone(sent, tr.searchRun, tr.searchNonce, members, d, own);
    assert tr.searched.net[0] in tr.searched.net;
    if own in s.nodes {
      assert s.nodes[own].(table := s.nodes[own].table) == s.nodes[own];
      assert s.nodes[own := s.nodes[own]] == s.nodes;
    }
    assert RemoveAt(tr.searched.net, 0) == [];
  }

  /** The query reads one slot and changes no table. */
  lemma QueryPhaseReads(s: State, members: set<Id>, own: Id, d: Direction, tr: JoinTrace)
    requires Settled(s, members) && tr.result in members && QueryPhase(s, own, d, tr)
    ensures tr.neighbor == SlotAt(s.nodes, tr.result, 0, d) && tr.queried == s
  {
  }

  /** The node found and its own neighbour are the two future neighbours of the joining node. */
  lemma AnchorsFit(s: State, members: set<Id>, node: Identity, d: Direction, result: Id)
    requires Settled(s, members) && Fresh(s, members, node) && Exact(members, d, node.id, result)
    ensures RequestsFit(members, node.id, d, Some(result))
    ensures var q := SlotAt(s.nodes, result, 0, d);
            RequestsFit(members, node.id, d.Opposite(), if q.Some? then Some(q.value.id) else None)
  {
    OppositeMirrors(d, result, node.id);
    assert SlotIsNext(s.nodes, members, result, 0, d);
    match SlotAt(s.nodes, result, 0, d)
    case None =>
      forall w | w in members ensures !Beyond(d.Opposite(), w, node.id) { OppositeMirrors(d, w, node.id); }
    case Some(q) =>
      OppositeMirrors(d, q.id, node.id);
  }

  lemma FreshIsJoinable(s: State, members: set<Id>, node: Identity)
    requires Settled(s, members) && Fresh(s, members, node)
    ensures Joinable(s.nodes, members, 0, node)
  {
  }

  lemma InsertedIsNavigable(s: State, members: set<Id>, node: Identity, after: Nodes, d: Direction)
    requires Settled(s, members) && Fresh(s, members, node)
    requires Linked(after, members + {node.id}, 0) && OnlyLevelChanged(s.nodes, after, 0)
    ensures Navigable(after, members + {node.id}, d)
  {
    var all := members + {node.id};
    forall v, l: nat | v in all && SlotAt(after, v, l, d).Some?
      ensures SlotAt(after, v, l, d).value.id in all && Beyond(d, v, SlotAt(after, v, l, d).value.id)
    {
      if l == 0 {
        assert SlotIsNext(after, all, v, 0, d);
      } else {
        assert SlotAt(after, v, l, d) == SlotAt(s.nodes, v, l, d);
      }
    }
  }

  // ----- the join

  /** The join's requests are those of an insertion through the two anchors. */
  lemma LinksSentFit(s: State, members: set<Id>, node: Identity, d: Direction, tr: JoinTrace)
    returns (onRight: Option<Id>, onLeft: Option<Id>, rightNonce: Nonce, leftNonce: Nonce)
    requires Settled(s, members) && Fresh(s, members, node) && Exact(members, d, node.id, tr.result)
    requires tr.neighbor == SlotAt(s.nodes, tr.result, 0, d)
    ensures Joinable(s.nodes, members, 0, node)
    ensures RequestsFit(members, node.id, Right, onRight) && RequestsFit(members, node.id, Left, onLeft)
    ensures var right := LinkRequest(onRight, rightNonce, node, Right, 0);
            var left := LinkRequest(onLeft, leftNonce, node, Left, 0);
            LinksSent(s, node, d, tr) == s.(net := right + left) ||
            LinksSent(s, node, d, tr) == s.(net := left + right)
    ensures var query := if tr.neighbor.Some? then Some(tr.neighbor.value.id) else None;
            if d.Right? then
              onRight == Some(tr.result) && onLeft == query &&
              rightNonce == tr.searchLinkNonce && leftNonce == tr.queryLinkNonce
            else
              onLeft == Some(tr.result) && onRight == query &&
              leftNonce == tr.searchLinkNonce && rightNonce == tr.queryLinkNonce
  {
    AnchorsFit(s, members, node, d, tr.result);
    FreshIsJoinable(s, members, node);
    var search, query := Some(tr.result), if tr.neighbor.Some? then Some(tr.neighbor.value.id) else None;
    if d.Right? {
      onRight, onLeft, rightNonce, leftNonce := search, query, tr.searchLinkNonce, tr.queryLinkNonce;
    } else {
      onRight, onLeft, rightNonce, leftNonce := query, search, tr.queryLinkNonce, tr.searchLinkNonce;
    }
  }

  lemma LinkPhaseInserts(s: State, members: set<Id>, node: Identity, d: Direction, tr: JoinTrace, after: State)
    requires Settled(s, members) && Fresh(s, members, node) && Exact(members, d, node.id, tr.result)
    requires tr.neighbor == SlotAt(s.nodes, tr.result, 0, d) && LinkPhase(s, node, d, tr, after)
    ensures Settled(after, members + {node.id}) && OnlyLevelChanged(s.nodes, after.nodes, 0)
  {
    var onRight, onLeft, rightNonce, leftNonce := LinksSentFit(s, members, node, d, tr);
    LinkingInserts(s.nodes, members, 0, node, onRight, onLeft, rightNonce, leftNonce,
                   LinksSent(s, node, d, tr), tr.linkRun);
    InsertedIsNavigable(s, members, node, after.nodes, Left);
    InsertedIsNavigable(s, members, node, after.nodes, Right);
  }

  lemma LinkPhaseIsAnswered(s: State, members: set<Id>, node: Identity, d: Direction, tr: JoinTrace, after: State)
    requires Settled(s, members) && Fresh(s, members, node) && Exact(members, d, node.id, tr.result)
    requires tr.neighbor == SlotAt(s.nodes, tr.result, 0, d) && LinkPhase(s, node, d, tr, after)
    ensures LinksAnswered(s, node, d, tr)
  {
    var onRight, onLeft, rightNonce, leftNonce := LinksSentFit(s, members, node, d, tr);
    LinkingIsAnswered(s.nodes, members, 0, node, onRight, onLeft, rightNonce, leftNonce,
                      LinksSent(s, node, d, tr), tr.linkRun);
  }

  /**
   Stage 1 run alone succeeds, each of its link requests answered, and is insertion into the sorted
   doubly linked list, for every introducer, every start level and every schedule.
   */
  lemma JoinInserts(
    s: State, members: set<Id>, node: Identity, introducer: Id, level: nat, tr: JoinTrace, after: State, ok: bool)
    requires Settled(s, members) && Fresh(s, members, node)
    requires introducer in members && level < LOOKUP_TABLE_LEVELS
    requires JoinEnds(s, node, introducer, level, tr, after, ok)
    ensures ok && Settled(after, members + {node.id}) && OnlyLevelChanged(s.nodes, after.nodes, 0)
  {
    var d := SearchDirection(introducer, node.id).value;
    SearchPhaseIsExact(s, members, node.id, introducer, level, d, tr);
    QueryPhaseReads(s, members, node.id, d, tr);
    LinkPhaseInserts(s, members, node, d, tr, after);
    LinkPhaseIsAnswered(s, members, node, d, tr, after);
  }

  /** A join under an identifier that a member already holds fails and changes nothing. */
  lemma JoinCollisionChangesNothing(
    s: State, members: set<Id>, node: Identity, introducer: Id, level: nat, tr: JoinTrace, after: State, ok: bool)
    requires Settled(s, members) && node.id in members
    requires introducer in members && level < LOOKUP_TABLE_LEVELS
    requires JoinEnds(s, node, introducer, level, tr, after, ok)
    ensures !ok && after == s
  {
    if SearchDirection(introducer, node.id).Some? {
      var d := SearchDirection(introducer, node.id).value;
      SearchPhaseIsExact(s, members, node.id, introducer, level, d, tr);
      OppositeMirrors(d, tr.result, node.id);
    }
  }

  /** No schedule of the join's search is longer than its distance to the introducer, and two. */
  lemma JoinSearchEnds(
    s: State, members: set<Id>, own: Id, introducer: Id, level: nat, d: Direction, nonce: Nonce, es: seq<Event>)
    requires Settled(s, members) && introducer in members && level < LOOKUP_TABLE_LEVELS
    requires SearchDirection(introducer, own) == Some(d)
    requires var sent := s.(net := [Packet(introducer, SearchByIdRequest(nonce, own, own, level, d))]);
             Run(sent, es) && Deliveries(es)
    ensures |es| <= Key(d, own) - Key(d, introducer) + 2
  {
    LinkedIsSearchable(s.nodes, members, d);
    var sent := s.(net := [Packet(introducer, SearchByIdRequest(nonce, own, own, level, d))]);
    SearchAloneIsBounded(sent, es, nonce, members, d, own);
  }

  /** No schedule of its link requests goes on forever either, and each can be brought to its end. */
  lemma JoinLinksEnd(s: State, members: set<Id>, node: Identity, d: Direction, tr: JoinTrace, es: seq<Event>)
    returns (rest: seq<Event>)
    requires Settled(s, members) && Fresh(s, members, node) && Exact(members, d, node.id, tr.result)
    requires tr.neighbor == SlotAt(s.nodes, tr.result, 0, d)
    requires Run(LinksSent(s, node, d, tr), es) && Deliveries(es)
    ensures |es| <= LinkBudget(Some(tr.result), node.id, d) +
                    (if tr.neighbor.Some? then LinkBudget(Some(tr.neighbor.value.id), node.id, d.Opposite()) else 0)
    ensures var now := Exec(LinksSent(s, node, d, tr), es);
            Run(now, rest) && Deliveries(rest) && Exec(now, rest).net == []
  {
    var onRight, onLeft, rightNonce, leftNonce := LinksSentFit(s, members, node, d, tr);
    rest := LinkingCompletes(s.nodes, members, 0, node, onRight, onLeft, rightNonce, leftNonce,
                             LinksSent(s, node, d, tr), es);
  }

  /** Every join run alone does come to its end, and succeeds. */
  lemma JoinCompletes(s: State, members: set<Id>, node: Identity, introducer: Id, level: nat)
    returns (tr: JoinTrace, after: State)
    requires Settled(s, members) && Fresh(s, members, node)
    requires introducer in members && level < LOOKUP_TABLE_LEVELS
    ensures JoinEnds(s, node, introducer, level, tr, after, true)
  {
    var d := SearchDirection(introducer, node.id).value;
    var p := Packet(introducer, SearchByIdRequest(0, node.id, node.id, level, d));
    LinkedIsSearchable(s.nodes, members, d);
    var searchRun, terminationLevel, result := SearchCompletes(s.(net := [p]), p, members, d, node.id);
    var searched := State(s.nodes, [Packet(node.id, SearchByIdResponse(0, node.id, terminationLevel, result))]);
    var neighbor := SlotAt(s.nodes, result, 0, d);
    tr := JoinTrace(0, 1, 2, 3, searchRun, terminationLevel, result, searched, neighbor, s, true, []);
    var linkRun := JoinLinksEnd(s, members, node, d, tr, []);
    tr := tr.(linkRun := linkRun);
    after := Exec(LinksSent(s, node, d, tr), linkRun);
    SearchPhaseIsExact(s, members, node.id, introducer, level, d, tr);
    QueryAnswered(s, members, node.id, d, tr);
    LinkPhaseIsAnswered(s, members, node, d, tr, after);
  }

  lemma QueryAnswered(s: State, members: set<Id>, own: Id, d: Direction, tr: JoinTrace)
    requires Settled(s, members) && tr.result in members && tr.queried == s
    requires tr.neighbor == SlotAt(s.nodes, tr.result, 0, d)
    ensures QueryPhase(s, own, d, tr)
  {
  }

  // ----- any sequence of joins

  /** `node` comes up in `before` and joins through some member of `members`, ending in `after`. */
  ghost predicate JoinsAlone(before: State, members: set<Id>, node: Identity, after: State) {
    && Enabled(before, Spawn(node))
    && exists introducer: Id, level: nat, tr, ok :: introducer in members && level < LOOKUP_TABLE_LEVELS &&
         JoinEnds(Apply(before, Spawn(node)), node, introducer, level, tr, after, ok)
  }

  lemma SpawnKeepsSettled(s: State, members: set<Id>, node: Identity)
    requires Settled(s, members) && s.nodes.Keys == members && Enabled(s, Spawn(node))
    ensures Settled(Apply(s, Spawn(node)), members) && Fresh(Apply(s, Spawn(node)), members, node)
  {
    var after := Apply(s, Spawn(node));
    forall v, l: nat, d | v in members ensures SlotAt(after.nodes, v, l, d) == SlotAt(s.nodes, v, l, d) {}
    Level0IsOneList(after.nodes, members);
    forall v, d | v in members
      ensures SlotIsNext(after.nodes, members, v, 0, d)
    {
      assert SlotIsNext(s.nodes, members, v, 0, d);
      assert SlotAt(after.nodes, v, 0, d) == SlotAt(s.nodes, v, 0, d);
    }
  }

  /** One node on its own is a settled list. */
  lemma FirstNodeSettled(first: Identity)
    ensures Settled(State(map[first.id := Node(first, EmptyTable())], []), {first.id})
  {
  }

  lemma JoinAdds(before: State, members: set<Id>, node: Identity, after: State)
    requires Settled(before, members) && before.nodes.Keys == members && JoinsAlone(before, members, node, after)
    ensures Settled(after, members + {node.id}) && after.nodes.Keys == members + {node.id}
  {
    var introducer: Id, level: nat, tr, ok :| introducer in members && level < LOOKUP_TABLE_LEVELS &&
      JoinEnds(Apply(before, Spawn(node)), node, introducer, level, tr, after, ok);
    SpawnKeepsSettled(before, members, node);
    JoinInserts(Apply(before, Spawn(node)), members, node, introducer, level, tr, after, ok);
  }

  /** `states` is a history of joins run alone, one identity of `xs` after the other. */
  ghost predicate JoinHistory(states: seq<State>, xs: seq<Identity>) {
    && |states| == |xs| > 0
    && states[0] == State(map[xs[0].id := Node(xs[0], EmptyTable())], [])
    && forall i :: 0 < i < |xs| ==> JoinsAlone(states[i - 1], Ids(xs[..i]), xs[i], states[i])
  }

  /** By any sequence of joins, in any identifier order and through any introducers, the list is built. */
  lemma {:induction false} JoinsBuildList(states: seq<State>, xs: seq<Identity>, k: nat)
    requires k < |xs| && JoinHistory(states, xs)
    ensures Settled(states[k], Ids(xs[..k + 1])) && states[k].nodes.Keys == Ids(xs[..k + 1])
  {
    assert xs[..k + 1] == xs[..k] + [xs[k]];
    assert Ids(xs[..k + 1]) == Ids(xs[..k]) + {xs[k].id};
    if k == 0 {
      FirstNodeSettled(xs[0]);
      assert Ids(xs[..1]) == {xs[0].id};
    } else {
      JoinsBuildList(states, xs, k - 1);
      assert JoinsAlone(states[k - 1], Ids(xs[..k]), xs[k], states[k]);
      JoinAdds(states[k - 1], Ids(xs[..k]), xs[k], states[k]);
    }
  }

  /** A complete list is determined by its members: any two histories end with the same slots. */
  lemma LinkedIsUnique(a: Nodes, b: Nodes, members: set<Id>, l: nat, v: Id, d: Direction)
    requires Linked(a, members, l) && Linked(b, members, l) && v in members
    requires forall w :: w in members ==> a[w].identity == b[w].identity
    ensures SlotAt(a, v, l, d) == SlotAt(b, v, l, d)
  {
    assert SlotIsNext(a, members, v, l, d) && SlotIsNext(b, members, v, l, d);
    if SlotAt(a, v, l, d).Some? && SlotAt(b, v, l, d).Some? {
      OppositeMirrors(d, SlotAt(a, v, l, d).value.id, SlotAt(b, v, l, d).value.id);
    }
  }
}
