/**
 Two concrete honest runs. In one, the run of section 5.2 of docs/protocol/concurrent-insert.md, two
 concurrent joins leave a level-0 split, so back-pointers cannot be strengthened to reciprocity. In
 the other, a link request of a joining node is dropped.
 */
module Splits {
  import opened Wrappers
  import opened Directions
  import opened MembershipVectors
  import opened LookupTables
  import opened LocalSearch
  import opened Handlers
  import opened Overlay
  import opened BackPointers

  function Who(id: Id): Identity {
    Identity(id, seq(MEMBERSHIP_VECTOR_BYTES, _ => 0), Address("localhost", "0"))
  }

  function Entry(id: Id): Slot {
    if id == 0 then None else Some(Who(id))
  }

  /** A node that holds at most two level-0 entries, given by identifier; 0 stands for none. */
  function Holding(id: Id, left: Id, right: Id): Node {
    Node(Who(id), Table(EmptySlots()[0 := Entry(left)], EmptySlots()[0 := Entry(right)]))
  }

  function Ask(nonce: Nonce, dest: Id, candidate: Id, d: Direction): Packet {
    Packet(dest, GetLinkOp(nonce, Who(candidate), d, 0))
  }

  function Confirm(nonce: Nonce, dest: Id, linked: Id, d: Direction): Packet {
    Packet(dest, SetLinkOp(nonce, d, 0, Some(Who(linked))))
  }

  /** A search of `own` toward itself, starting at node 1, and node 1's answer. */
  function Search(nonce: Nonce, own: Id): Packet {
    Packet(1, SearchByIdRequest(nonce, own, own, 0, Right))
  }

  function Found(nonce: Nonce, own: Id): Packet {
    Packet(own, SearchByIdResponse(nonce, own, 0, 1))
  }

  /** The question of `own` about the right slot of node 1, and the answer. */
  function Query(nonce: Nonce, own: Id): Packet {
    Packet(1, GetNeighborOp(nonce, own, 0, Right))
  }

  function Answer(nonce: Nonce, own: Id, right: Id): Packet {
    Packet(own, RetNeighborOp(nonce, 0, Right, Entry(right)))
  }

  // ----- reactions of such nodes

  lemma AcceptsRight(nonce: Nonce, id: Id, left: Id, right: Id, c: Id)
    requires 0 < id < c && (right == 0 || right > c)
    ensures React(Holding(id, left, right), Ask(nonce, id, c, Right).msg) ==
            Reaction(Holding(id, left, c).table, Some(Confirm(nonce, c, id, Left)))
  {
  }

  lemma AcceptsLeft(nonce: Nonce, id: Id, left: Id, right: Id, c: Id)
    requires 0 < c < id && left < c
    ensures React(Holding(id, left, right), Ask(nonce, id, c, Left).msg) ==
            Reaction(Holding(id, c, right).table, Some(Confirm(nonce, c, id, Right)))
  {
  }

  lemma ConfirmedLeft(nonce: Nonce, id: Id, right: Id, x: Id)
    requires 0 < x < id
    ensures React(Holding(id, 0, right), Confirm(nonce, id, x, Left).msg) ==
            Reaction(Holding(id, x, right).table, None)
  {
  }

  lemma ConfirmedRight(nonce: Nonce, id: Id, left: Id, x: Id)
    requires 0 < id < x
    ensures React(Holding(id, left, 0), Confirm(nonce, id, x, Right).msg) ==
            Reaction(Holding(id, left, x).table, None)
  {
  }

  lemma SearchStops(nonce: Nonce, right: Id, own: Id)
    requires 1 < own && (right == 0 || right > own)
    ensures React(Holding(1, 0, right), Search(nonce, own).msg) ==
            Reaction(Holding(1, 0, right).table, Some(Found(nonce, own)))
  {
    var a := Holding(1, 0, right);
    SearchByIdIsOptimal(1, a.table, Right, own, 0);
    assert a.table.Get(0, Right) == Entry(right);
    assert !Admissible(a.table, Right, own, 0);
  }

  // ----- composing runs

  /** `es` leads from `s` to `goal`, honestly, with no nonce below `k` and none used twice. */
  ghost predicate Leads(s: State, es: seq<Event>, goal: State, k: Nonce) {
    && Run(s, es) && HonestRun(s, es) && Exec(s, es) == goal
    && forall n: Nonce :: Injections(es, n) <= if n >= k then 1 else 0
  }

  /** Prepends one honest step; an injected packet takes the next lower nonce. */
  lemma StepThen(s: State, e: Event, next: State, rest: seq<Event>, goal: State, k: Nonce) returns (es: seq<Event>)
    requires Enabled(s, e) && Honest(s, e) && Apply(s, e) == next
    requires e.Inject? ==> e.packet.msg.nonce == k
    requires Leads(next, rest, goal, if e.Inject? then k + 1 else k)
    ensures Leads(s, es, goal, k)
  {
    es := [e] + rest;
    assert es[1..] == rest;
    forall n: Nonce ensures Injections(es, n) <= if n >= k then 1 else 0 {
      assert Injections(rest, n) <= if n >= (if e.Inject? then k + 1 else k) then 1 else 0;
    }
  }

  lemma Arrived(goal: State, k: Nonce)
    ensures Leads(goal, [], goal, k)
  {
  }

  /** Prepends the delivery of the first packet, given the reaction of its receiver. */
  lemma DeliverThen(nodes: Nodes, p: Packet, others: seq<Packet>, n: Node, out: Option<Packet>,
                    rest: seq<Event>, goal: State, k: Nonce) returns (es: seq<Event>)
    requires p.dest in nodes && n.identity == nodes[p.dest].identity
    requires React(nodes[p.dest], p.msg) == Reaction(n.table, out)
    requires Leads(State(nodes[p.dest := n], others + Sent(out)), rest, goal, k)
    ensures Leads(State(nodes, [p] + others), es, goal, k)
  {
    assert RemoveAt([p] + others, 0) == others;
    es := StepThen(State(nodes, [p] + others), Deliver(0), State(nodes[p.dest := n], others + Sent(out)),
                   rest, goal, k);
  }

  /** A request to node 1 that it answers without a write, and the answer's arrival at `own`. */
  lemma RoundTripThen(nodes: Nodes, request: Packet, answer: Packet, rest: seq<Event>, goal: State, k: Nonce)
    returns (es: seq<Event>)
    requires request.msg.nonce == k && (request.msg.SearchByIdRequest? || request.msg.GetNeighborOp?)
    requires request.dest in nodes && answer.dest in nodes
    requires React(nodes[request.dest], request.msg) == Reaction(nodes[request.dest].table, Some(answer))
    requires React(nodes[answer.dest], answer.msg) == Reaction(nodes[answer.dest].table, None)
    requires Leads(State(nodes, []), rest, goal, k + 1)
    ensures Leads(State(nodes, []), es, goal, k)
  {
    assert nodes[answer.dest := nodes[answer.dest]] == nodes && nodes[request.dest := nodes[request.dest]] == nodes;
    es := DeliverThen(nodes, answer, [], nodes[answer.dest], None, rest, goal, k + 1);
    assert [answer] + [] == [] + Sent(Some(answer));
    es := DeliverThen(nodes, request, [], nodes[request.dest], Some(answer), es, goal, k + 1);
    assert [request] + [] == [request];
    es := StepThen(State(nodes, []), Inject(request), State(nodes, [request]), es, goal, k);
  }

  lemma SearchThen(nodes: Nodes, right: Id, own: Id, rest: seq<Event>, goal: State, k: Nonce) returns (es: seq<Event>)
    requires 1 in nodes && nodes[1] == Holding(1, 0, right) && own in nodes
    requires 1 < own && (right == 0 || right > own) && Leads(State(nodes, []), rest, goal, k + 1)
    ensures Leads(State(nodes, []), es, goal, k)
  {
    SearchStops(k, right, own);
    es := RoundTripThen(nodes, Search(k, own), Found(k, own), rest, goal, k);
  }

  lemma QueryThen(nodes: Nodes, right: Id, own: Id, rest: seq<Event>, goal: State, k: Nonce) returns (es: seq<Event>)
    requires 1 in nodes && nodes[1] == Holding(1, 0, right) && own in nodes
    requires Leads(State(nodes, []), rest, goal, k + 1)
    ensures Leads(State(nodes, []), es, goal, k)
  {
    es := RoundTripThen(nodes, Query(k, own), Answer(k, own, right), rest, goal, k);
  }

  /** A join of `own` through node 1, which has no right neighbour: search, query and one link request. */
  lemma FirstJoinThen(nodes: Nodes, own: Id, rest: seq<Event>, goal: State, k: Nonce) returns (es: seq<Event>)
    requires 1 < own && 1 in nodes && nodes[1] == Holding(1, 0, 0) && own in nodes && nodes[own] == Holding(own, 0, 0)
    requires Leads(State(nodes[1 := Holding(1, 0, own)][own := Holding(own, 1, 0)], []), rest, goal, k + 3)
    ensures Leads(State(nodes, []), es, goal, k)
  {
    var ask, reply := Ask(k + 2, 1, own, Right), Confirm(k + 2, own, 1, Left);
    ConfirmedLeft(k + 2, own, 0, 1);
    es := DeliverThen(nodes[1 := Holding(1, 0, own)], reply, [], Holding(own, 1, 0), None, rest, goal, k + 3);
    assert [reply] + [] == [] + Sent(Some(reply));
    AcceptsRight(k + 2, 1, 0, 0, own);
    es := DeliverThen(nodes, ask, [], Holding(1, 0, own), Some(reply), es, goal, k + 3);
    assert [ask] + [] == [ask];
    es := StepThen(State(nodes, []), Inject(ask), State(nodes, [ask]), es, goal, k + 2);
    es := QueryThen(nodes, 0, own, es, goal, k + 1);
    es := SearchThen(nodes, 0, own, es, goal, k);
  }

  // ----- the split: nodes A = 1, B = 2, C = 3 and D = 4

  function Four(a: Node, b: Node, c: Node, d: Node): Nodes {
    map[1 := a, 2 := b, 3 := c, 4 := d]
  }

  /** B's right slot holds D and C's left slot holds A, while D points to C and A to B. */
  function SplitNodes(): Nodes {
    Four(Holding(1, 0, 2), Holding(2, 1, 4), Holding(3, 1, 4), Holding(4, 3, 0))
  }

  /** The four confirmations arrive; the requests had nonces 8 to 11. */
  lemma Confirmations() returns (es: seq<Event>)
    ensures Leads(State(Four(Holding(1, 0, 2), Holding(2, 0, 0), Holding(3, 0, 0), Holding(4, 3, 0)),
                        [Confirm(8, 3, 1, Left), Confirm(9, 2, 1, Left),
                         Confirm(10, 2, 4, Right), Confirm(11, 3, 4, Right)]),
                  es, State(SplitNodes(), []), 12)
  {
    var p1, p2 := Confirm(8, 3, 1, Left), Confirm(9, 2, 1, Left);
    var p3, p4 := Confirm(10, 2, 4, Right), Confirm(11, 3, 4, Right);
    var n0 := Four(Holding(1, 0, 2), Holding(2, 0, 0), Holding(3, 0, 0), Holding(4, 3, 0));
    var n1 := n0[3 := Holding(3, 1, 0)];
    var n2 := n1[2 := Holding(2, 1, 0)];
    var n3 := n2[2 := Holding(2, 1, 4)];
    var goal := State(SplitNodes(), []);
    assert n3[3 := Holding(3, 1, 4)] == SplitNodes();
    Arrived(goal, 12);
    ConfirmedRight(11, 3, 1, 4);
    es := DeliverThen(n3, p4, [], Holding(3, 1, 4), None, [], goal, 12);
    assert [p4] + [] == [p4] == [p4] + Sent(None);
    ConfirmedRight(10, 2, 1, 4);
    es := DeliverThen(n2, p3, [p4], Holding(2, 1, 4), None, es, goal, 12);
    assert [p3] + [p4] == [p3, p4] == [p3, p4] + Sent(None);
    ConfirmedLeft(9, 2, 0, 1);
    es := DeliverThen(n1, p2, [p3, p4], Holding(2, 1, 0), None, es, goal, 12);
    assert [p2] + [p3, p4] == [p2, p3, p4] == [p2, p3, p4] + Sent(None);
    ConfirmedLeft(8, 3, 0, 1);
    es := DeliverThen(n0, p1, [p2, p3, p4], Holding(3, 1, 0), None, es, goal, 12);
    assert [p1] + [p2, p3, p4] == [p1, p2, p3, p4];
  }

  /** D takes B's request and then C's, once A has taken C's and then B's. */
  lemma RequestsAtD() returns (es: seq<Event>)
    ensures Leads(State(Four(Holding(1, 0, 2), Holding(2, 0, 0), Holding(3, 0, 0), Holding(4, 1, 0)),
                        [Ask(10, 4, 2, Left), Ask(11, 4, 3, Left), Confirm(8, 3, 1, Left), Confirm(9, 2, 1, Left)]),
                  es, State(SplitNodes(), []), 12)
  {
    var p1, p2 := Ask(10, 4, 2, Left), Ask(11, 4, 3, Left);
    var q1, q2 := Confirm(8, 3, 1, Left), Confirm(9, 2, 1, Left);
    var q3, q4 := Confirm(10, 2, 4, Right), Confirm(11, 3, 4, Right);
    var n0 := Four(Holding(1, 0, 2), Holding(2, 0, 0), Holding(3, 0, 0), Holding(4, 1, 0));
    var n1 := n0[4 := Holding(4, 2, 0)];
    var goal := State(SplitNodes(), []);
    es := Confirmations();
    assert n1[4 := Holding(4, 3, 0)] == Four(Holding(1, 0, 2), Holding(2, 0, 0), Holding(3, 0, 0), Holding(4, 3, 0));
    AcceptsLeft(11, 4, 2, 0, 3);
    assert [q1, q2, q3] + Sent(Some(q4)) == [q1, q2, q3, q4];
    es := DeliverThen(n1, p2, [q1, q2, q3], Holding(4, 3, 0), Some(q4), es, goal, 12);
    AcceptsLeft(10, 4, 1, 0, 2);
    assert [p2, q1, q2] + Sent(Some(q3)) == [p2] + [q1, q2, q3];
    es := DeliverThen(n0, p1, [p2, q1, q2], Holding(4, 2, 0), Some(q3), es, goal, 12);
    assert [p1] + [p2, q1, q2] == [p1, p2, q1, q2];
  }

  /** A takes C's request before B's. */
  lemma RequestsAtA() returns (es: seq<Event>)
    ensures Leads(State(Four(Holding(1, 0, 4), Holding(2, 0, 0), Holding(3, 0, 0), Holding(4, 1, 0)),
                        [Ask(8, 1, 3, Right), Ask(9, 1, 2, Right), Ask(10, 4, 2, Left), Ask(11, 4, 3, Left)]),
                  es, State(SplitNodes(), []), 12)
  {
    var p1, p2 := Ask(8, 1, 3, Right), Ask(9, 1, 2, Right);
    var p3, p4 := Ask(10, 4, 2, Left), Ask(11, 4, 3, Left);
    var q1, q2 := Confirm(8, 3, 1, Left), Confirm(9, 2, 1, Left);
    var n0 := Four(Holding(1, 0, 4), Holding(2, 0, 0), Holding(3, 0, 0), Holding(4, 1, 0));
    var n1 := n0[1 := Holding(1, 0, 3)];
    var goal := State(SplitNodes(), []);
    es := RequestsAtD();
    assert n1[1 := Holding(1, 0, 2)] == Four(Holding(1, 0, 2), Holding(2, 0, 0), Holding(3, 0, 0), Holding(4, 1, 0));
    AcceptsRight(9, 1, 0, 3, 2);
    assert [p3, p4, q1] + Sent(Some(q2)) == [p3, p4, q1, q2];
    es := DeliverThen(n1, p2, [p3, p4, q1], Holding(1, 0, 2), Some(q2), es, goal, 12);
    AcceptsRight(8, 1, 0, 4, 3);
    assert [p2, p3, p4] + Sent(Some(q1)) == [p2] + [p3, p4, q1];
    es := DeliverThen(n0, p1, [p2, p3, p4], Holding(1, 0, 3), Some(q1), es, goal, 12);
    assert [p1] + [p2, p3, p4] == [p1, p2, p3, p4];
  }

  /** B and C both search and query before either links in, and each sends its two link requests. */
  lemma ConcurrentJoins() returns (es: seq<Event>)
    ensures Leads(State(Four(Holding(1, 0, 4), Holding(2, 0, 0), Holding(3, 0, 0), Holding(4, 1, 0)), []),
                  es, State(SplitNodes(), []), 4)
  {
    var nodes := Four(Holding(1, 0, 4), Holding(2, 0, 0), Holding(3, 0, 0), Holding(4, 1, 0));
    var p1, p2 := Ask(8, 1, 3, Right), Ask(9, 1, 2, Right);
    var p3, p4 := Ask(10, 4, 2, Left), Ask(11, 4, 3, Left);
    var goal := State(SplitNodes(), []);
    es := RequestsAtA();
    assert [p1, p2, p3] + [p4] == [p1, p2, p3, p4];
    es := StepThen(State(nodes, [p1, p2, p3]), Inject(p4), State(nodes, [p1, p2, p3, p4]), es, goal, 11);
    assert [p1, p2] + [p3] == [p1, p2, p3];
    es := StepThen(State(nodes, [p1, p2]), Inject(p3), State(nodes, [p1, p2, p3]), es, goal, 10);
    es := StepThen(State(nodes, [p1]), Inject(p2), State(nodes, [p1, p2]), es, goal, 9);
    es := StepThen(State(nodes, []), Inject(p1), State(nodes, [p1]), es, goal, 8);
    es := QueryThen(nodes, 4, 3, es, goal, 7);
    es := QueryThen(nodes, 4, 2, es, goal, 6);
    es := SearchThen(nodes, 4, 3, es, goal, 5);
    es := SearchThen(nodes, 4, 2, es, goal, 4);
  }

  lemma FreshNode(id: Id)
    ensures Holding(id, 0, 0) == Node(Who(id), EmptyTable())
  {
    assert EmptySlots()[0 := None] == EmptySlots();
  }

  /** The first three nodes come up one after the other. */
  lemma ThreeUp(rest: seq<Event>, goal: State, k: Nonce) returns (es: seq<Event>)
    requires Leads(State(Three(Holding(1, 0, 0), Holding(2, 0, 0), Holding(3, 0, 0)), []), rest, goal, k)
    ensures Leads(INITIAL, es, goal, k)
  {
    FreshNode(1); FreshNode(2); FreshNode(3);
    var a, b, c := Holding(1, 0, 0), Holding(2, 0, 0), Holding(3, 0, 0);
    assert map[1 := a, 2 := b][3 := c] == Three(a, b, c);
    es := StepThen(State(map[1 := a, 2 := b], []), Spawn(Who(3)), State(Three(a, b, c), []), rest, goal, k);
    es := StepThen(State(map[1 := a], []), Spawn(Who(2)), State(map[1 := a, 2 := b], []), es, goal, k);
    es := StepThen(INITIAL, Spawn(Who(1)), State(map[1 := a], []), es, goal, k);
  }

  /**
   An honest run, with every packet delivered and no nonce used twice, after which B points to D while D
   points to C, and C to A while A points to B: quiescence does not make pointers reciprocal.
   */
  lemma SplitIsReachable() returns (es: seq<Event>)
    ensures Run(INITIAL, es) && HonestRun(INITIAL, es) && forall n: Nonce :: Injections(es, n) <= 1
    ensures var s := Exec(INITIAL, es);
            && s.net == []
            && SlotAt(s.nodes, 2, 0, Right) == Some(Who(4)) && SlotAt(s.nodes, 4, 0, Left) == Some(Who(3))
            && SlotAt(s.nodes, 3, 0, Left) == Some(Who(1)) && SlotAt(s.nodes, 1, 0, Right) == Some(Who(2))
  {
    var a, b, c, d := Holding(1, 0, 0), Holding(2, 0, 0), Holding(3, 0, 0), Holding(4, 0, 0);
    var up, goal := Four(a, b, c, d), State(SplitNodes(), []);
    es := ConcurrentJoins();
    assert up[1 := Holding(1, 0, 4)][4 := Holding(4, 1, 0)] == Four(Holding(1, 0, 4), b, c, Holding(4, 1, 0));
    es := FirstJoinThen(up, 4, es, goal, 1);
    FreshNode(4);
    assert Three(a, b, c)[4 := d] == up;
    es := StepThen(State(Three(a, b, c), []), Spawn(Who(4)), State(up, []), es, goal, 1);
    es := ThreeUp(es, goal, 1);
  }

  // ----- a dropped request: nodes A = 1, B = 2 and C = 3

  function Three(a: Node, b: Node, c: Node): Nodes {
    map[1 := a, 2 := b, 3 := c]
  }

  /** C's two requests are in flight, the second one to B. */
  function BothAsked(): State {
    State(Three(Holding(1, 0, 2), Holding(2, 1, 0), Holding(3, 0, 0)), [Ask(6, 1, 3, Right), Ask(7, 2, 3, Left)])
  }

  /** A answers C's query with B, and C sends its two link requests. */
  lemma QueryThenRequests() returns (es: seq<Event>)
    ensures Leads(State(BothAsked().nodes, []), es, BothAsked(), 5)
  {
    var nodes, p1, p2 := BothAsked().nodes, Ask(6, 1, 3, Right), Ask(7, 2, 3, Left);
    Arrived(BothAsked(), 8);
    assert [p1] + [p2] == [p1, p2];
    es := StepThen(State(nodes, [p1]), Inject(p2), BothAsked(), [], BothAsked(), 7);
    es := StepThen(State(nodes, []), Inject(p1), State(nodes, [p1]), es, BothAsked(), 6);
    es := QueryThen(nodes, 2, 3, es, BothAsked(), 5);
  }

  lemma DroppedAtB()
    ensures Apply(BothAsked(), Deliver(1)) == State(BothAsked().nodes, [Ask(6, 1, 3, Right)])
  {
    var b := Holding(2, 1, 0);
    assert React(b, Ask(7, 2, 3, Left).msg) == Reaction(b.table, None);
    assert BothAsked().nodes[2 := b] == BothAsked().nodes;
  }

  /**
   An honest run in which C's search is answered with A, then B joins through A, and A answers C's query
   with B. Of C's two link requests the second, to B, is dropped: no table changes, no reply is sent.
   */
  lemma QueryLinkMayBeDropped() returns (es: seq<Event>)
    ensures Run(INITIAL, es) && HonestRun(INITIAL, es) && forall n: Nonce :: Injections(es, n) <= 1
    ensures var s := Exec(INITIAL, es);
            && SlotAt(s.nodes, 1, 0, Right) == Some(Who(2))
            && s.net == [Ask(6, 1, 3, Right), Ask(7, 2, 3, Left)]
            && Apply(s, Deliver(1)) == State(s.nodes, [Ask(6, 1, 3, Right)])
  {
    var up := Three(Holding(1, 0, 0), Holding(2, 0, 0), Holding(3, 0, 0));
    es := QueryThenRequests();
    assert up[1 := Holding(1, 0, 2)][2 := Holding(2, 1, 0)] == BothAsked().nodes;
    es := FirstJoinThen(up, 2, es, BothAsked(), 2);
    es := SearchThen(up, 0, 3, es, BothAsked(), 1);
    es := ThreeUp(es, BothAsked(), 1);
    DroppedAtB();
  }
}
