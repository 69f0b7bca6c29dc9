/** When a link request is dropped: exactly if its first receiver cannot serve it. */
module Drops {
  import opened Wrappers
  import opened Directions
  import opened LookupTables
  import opened LocalSearch
  import opened Handlers
  import opened Overlay
  import opened BackPointers
  import opened Progress

  /** Link request `nonce`, if in flight, has a receiver that will confirm or forward it. */
  ghost predicate Served(s: State, nonce: Nonce) {
    forall p :: p in s.net && p.msg.nonce == nonce && p.msg.GetLinkOp? ==>
      p.dest in s.nodes && React(s.nodes[p.dest], p.msg).out.Some?
  }

  /** On every honest run that does not send it again, the request is served wherever it is. */
  ghost predicate NeverDropped(s: State, nonce: Nonce) {
    forall es :: Run(s, es) && HonestRun(s, es) && Injections(es, nonce) == 0 ==> Served(Exec(s, es), nonce)
  }

  function Request(nonce: Nonce, dest: Id, node: Identity, d: Direction, l: nat): Packet {
    Packet(dest, GetLinkOp(nonce, node, d, l))
  }

  lemma ConfinedIsServed(s: State, nonce: Nonce, d: Direction, l: nat, start: Id, candidate: Identity)
    requires LinkConfined(s, nonce, d, l, start, candidate)
    ensures Served(s, nonce)
  {
  }

  /**
   A node's link request is never dropped, on any honest run and at any hop, if and only if its first
   receiver is up and can hold the node in the slot named.
   */
  lemma NeverDroppedIff(s: State, nonce: Nonce, dest: Id, node: Identity, d: Direction, l: nat)
    requires Consistent(s) && Real(s.nodes, node) && Carriers(s.net, nonce) == 0
    ensures NeverDropped(Apply(s, Inject(Request(nonce, dest, node, d, l))), nonce) <==>
            dest in s.nodes && BelongsInOwnSlot(s.nodes[dest].identity, l, d, node)
  {
    var p := Request(nonce, dest, node, d, l);
    var sent := Apply(s, Inject(p));
    NoCarriers(s.net, nonce);
    StepKeepsConsistent(s, Inject(p));
    if dest in s.nodes && BelongsInOwnSlot(s.nodes[dest].identity, l, d, node) {
      forall es | Run(sent, es) && HonestRun(sent, es) && Injections(es, nonce) == 0
        ensures Served(Exec(sent, es), nonce)
      {
        ServedOnceServedAlways(sent, es, nonce, d, l, dest, node);
        ConfinedIsServed(Exec(sent, es), nonce, d, l, dest, node);
      }
    } else {
      assert Run(sent, []) && HonestRun(sent, []) && Injections([], nonce) == 0 && Exec(sent, []) == sent;
      assert p in sent.net;
      assert !Served(Exec(sent, []), nonce);
    }
  }

  // ----- the two requests of a joining node, under any concurrency

  /** The level-0 slot of `r` on `d` holds an entry that is not past `u`. */
  predicate HoldsUpTo(nodes: Nodes, r: Id, d: Direction, u: Id) {
    SlotAt(nodes, r, 0, d).Some? && Key(d, SlotAt(nodes, r, 0, d).value.id) <= Key(d, u)
  }

  /** The identity a link packet offers for its receiver's slot. */
  function Offer(m: Message): Slot {
    match m
    case GetLinkOp(_, candidate, _, _) => Some(candidate)
    case SetLinkOp(_, _, _, linked) => linked
    case _ => None
  }

  /** The step links a node between `r` and `u`, or `u` itself, into `r`'s level-0 slot on `d`. */
  ghost predicate LinksIn(s: State, e: Event, r: Id, d: Direction, u: Id)
    requires Enabled(s, e)
  {
    && e.Deliver? && s.net[e.index].dest == r
    && var x := Offer(s.net[e.index].msg);
       && x.Some? && Key(d, r) < Key(d, x.value.id) <= Key(d, u)
       && SlotAt(Apply(s, e).nodes, r, 0, d) == x && SlotAt(s.nodes, r, 0, d) != x
  }

  /** Some step of the run does so. */
  ghost predicate LinkedIn(s: State, es: seq<Event>, r: Id, d: Direction, u: Id)
    requires Run(s, es)
    decreases |es|
  {
    es != [] && (LinksIn(s, es[0], r, d, u) || LinkedIn(Apply(s, es[0]), es[1..], r, d, u))
  }

  /** A slot that held nothing up to `u` does so after a step exactly if the step links such a node in. */
  lemma StepLinksIn(s: State, e: Event, r: Id, d: Direction, u: Id)
    requires Ordered(s.nodes) && r in s.nodes && Enabled(s, e) && !HoldsUpTo(s.nodes, r, d, u)
    ensures HoldsUpTo(Apply(s, e).nodes, r, d, u) <==> LinksIn(s, e, r, d, u)
  {
    if e.Deliver? { DeliveryWrites(s, e.index, r, 0, d); }
  }

  /** On every run: the slot has come to hold something up to `u` exactly if a node linked in there. */
  lemma {:induction false} HoldsUpToIffLinkedIn(s: State, es: seq<Event>, r: Id, d: Direction, u: Id)
    requires Ordered(s.nodes) && r in s.nodes && Run(s, es) && !HoldsUpTo(s.nodes, r, d, u)
    ensures HoldsUpTo(Exec(s, es).nodes, r, d, u) <==> LinkedIn(s, es, r, d, u)
    decreases |es|
  {
    if es != [] {
      var next := Apply(s, es[0]);
      StepKeepsOrder(s, es[0]);
      StepLinksIn(s, es[0], r, d, u);
      if HoldsUpTo(next.nodes, r, d, u) {
        EveryRunKeepsOrder(next, es[1..]);
        GrownKeepsSlots(next.nodes, Exec(s, es).nodes, r, 0, d);
      } else {
        HoldsUpToIffLinkedIn(next, es[1..], r, d, u);
      }
    }
  }

  /**
   The second request of a join. `r` answered the search, so its level-0 slot held nothing up to `u`;
   after `read` it answers the query with `q`, and after `sent` the request goes to `q`. The request is
   never dropped if and only if no node linked in at `r`, up to `u`, between the two answers; and the
   joining node can tell, for that is exactly when `q` lies past it.
   */
  lemma QueryLinkNeverDroppedIff(
    s: State, read: seq<Event>, sent: seq<Event>, r: Id, u: Identity, d: Direction, nonce: Nonce)
    requires Consistent(s) && r in s.nodes && !Admissible(s.nodes[r].table, d, u.id, 0)
    requires Run(s, read) && HonestRun(s, read)
    requires SlotAt(Exec(s, read).nodes, r, 0, d).Some?
    requires Run(Exec(s, read), sent) && HonestRun(Exec(s, read), sent)
    requires Real(Exec(Exec(s, read), sent).nodes, u) && Carriers(Exec(Exec(s, read), sent).net, nonce) == 0
    ensures var q := SlotAt(Exec(s, read).nodes, r, 0, d).value;
            var after := Apply(Exec(Exec(s, read), sent), Inject(Request(nonce, q.id, u, d.Opposite(), 0)));
            && (NeverDropped(after, nonce) <==> !LinkedIn(s, read, r, d, u.id))
            && (NeverDropped(after, nonce) <==> Beyond(d, u.id, q.id))
  {
    var asked := Exec(s, read);
    var now := Exec(asked, sent);
    var q := SlotAt(asked.nodes, r, 0, d).value;
    HonestRunKeepsConsistent(s, read);
    HonestRunKeepsConsistent(asked, sent);
    EveryRunKeepsOrder(asked, sent);
    assert Real(asked.nodes, q);
    HoldsUpToIffLinkedIn(s, read, r, d, u.id);
    NeverDroppedIff(now, nonce, q.id, u, d.Opposite(), 0);
    OppositeMirrors(d, u.id, q.id);
  }

  /** What a search request of `u`, once in flight, can be answered with. */
  lemma SearchAnswers(
    s: State, es: seq<Event>, introducer: Id, u: Id, d: Direction, level: nat, nonce: Nonce, p: Packet)
    requires Ordered(s.nodes) && Carriers(s.net, nonce) == 0 && Key(d, introducer) <= Key(d, u)
    requires var sent := Apply(s, Inject(Packet(introducer, SearchByIdRequest(nonce, u, u, level, d))));
             Run(sent, es) && Injections(es, nonce) == 0 && p in Exec(sent, es).net
    requires p.msg.SearchByIdResponse? && p.msg.nonce == nonce
    ensures var sent := Apply(s, Inject(Packet(introducer, SearchByIdRequest(nonce, u, u, level, d))));
            && Key(d, introducer) <= Key(d, p.msg.result) <= Key(d, u) && p.msg.result in Exec(sent, es).nodes
  {
    var sent := Apply(s, Inject(Packet(introducer, SearchByIdRequest(nonce, u, u, level, d))));
    NoCarriers(s.net, nonce);
    SearchStaysConfined(sent, es, nonce, d, introducer, u, level);
    AnswersComeFromNodes(sent, es, nonce);
    assert WithinSearch(p, nonce, d, introducer, u, level);
  }

  /**
   The first request of a join. Whatever runs beside it, the request to the node that the search found
   is never dropped, unless that node holds the joining node's own identifier, which ends the join.
   */
  lemma SearchLinkNeverDropped(
    s: State, search: seq<Event>, wait: seq<Event>, introducer: Id, u: Identity, d: Direction, level: nat,
    searchNonce: Nonce, nonce: Nonce, p: Packet)
    requires Consistent(s) && Carriers(s.net, searchNonce) == 0 && Key(d, introducer) <= Key(d, u.id)
    requires var sent := Apply(s, Inject(Packet(introducer, SearchByIdRequest(searchNonce, u.id, u.id, level, d))));
             && Run(sent, search) && HonestRun(sent, search) && Injections(search, searchNonce) == 0
             && p in Exec(sent, search).net
             && Run(Exec(sent, search), wait) && HonestRun(Exec(sent, search), wait)
             && Real(Exec(Exec(sent, search), wait).nodes, u)
             && Carriers(Exec(Exec(sent, search), wait).net, nonce) == 0
    requires p.msg.SearchByIdResponse? && p.msg.nonce == searchNonce
    ensures var sent := Apply(s, Inject(Packet(introducer, SearchByIdRequest(searchNonce, u.id, u.id, level, d))));
            var now := Exec(Exec(sent, search), wait);
            NeverDropped(Apply(now, Inject(Request(nonce, p.msg.result, u, d, 0))), nonce) <==> p.msg.result != u.id
  {
    var request := Packet(introducer, SearchByIdRequest(searchNonce, u.id, u.id, level, d));
    var sent := Apply(s, Inject(request));
    var found := Exec(sent, search);
    var now := Exec(found, wait);
    SearchAnswers(s, search, introducer, u.id, d, level, searchNonce, p);
    StepKeepsConsistent(s, Inject(request));
    HonestRunKeepsConsistent(sent, search);
    HonestRunKeepsConsistent(found, wait);
    EveryRunKeepsOrder(found, wait);
    NeverDroppedIff(now, nonce, p.msg.result, u, d, 0);
    OppositeMirrors(d, p.msg.result, u.id);
  }
}
