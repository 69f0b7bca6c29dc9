/** Linking into a complete level list through any of its members, and building lists by linking. */
module Linking {
  import opened Wrappers
  import opened Directions
  import opened LookupTables
  import opened Handlers
  import opened Overlay
  import opened BackPointers
  import opened LevelLists

  /** `node` is up, belongs to the members' level list, and holds nothing there yet. */
  ghost predicate Joinable(nodes: Nodes, members: set<Id>, l: nat, node: Identity) {
    && Linked(nodes, members, l) && l < LOOKUP_TABLE_LEVELS
    && node.id !in members && Real(nodes, node) && OneList(nodes, members + {node.id}, l)
    && forall d :: SlotAt(nodes, node.id, l, d) == None
  }

  /** The same nodes, and the same slots at every level but `l`. */
  ghost predicate OnlyLevelChanged(before: Nodes, after: Nodes, l: nat) {
    && before.Keys == after.Keys
    && (forall v :: v in before ==> before[v].identity == after[v].identity)
    && forall v, k: nat, d :: k != l ==> SlotAt(after, v, k, d) == SlotAt(before, v, k, d)
  }

  lemma {:induction false} ClosestMember(members: set<Id>, v: Id, d: Direction, w: Id) returns (x: Id)
    requires w in members && Beyond(d, v, w)
    ensures Next(members, v, d, x)
    decreases Key(d, w) - Key(d, v)
  {
    if z :| z in members && Key(d, v) < Key(d, z) < Key(d, w) {
      x := ClosestMember(members, v, d, z);
    } else {
      x := w;
    }
  }

  lemma NearSide(members: set<Id>, c: Id, d: Direction) returns (near: Option<Id>)
    ensures match near
            case None => forall w :: w in members ==> !Beyond(d, w, c)
            case Some(x) => Next(members, c, d.Opposite(), x)
  {
    if w :| w in members && Beyond(d, w, c) {
      OppositeMirrors(d, w, c);
      var x := ClosestMember(members, c, d.Opposite(), w);
      near := Some(x);
    } else {
      near := None;
    }
  }

  lemma InsertionFor(nodes: Nodes, members: set<Id>, l: nat, node: Identity, rightNonce: Nonce, leftNonce: Nonce)
    returns (ins: Insertion)
    requires Joinable(nodes, members, l, node)
    ensures ins.Valid() && ins.base == nodes && ins.members == members && ins.level == l && ins.node == node
    ensures ins.rightNonce == rightNonce && ins.leftNonce == leftNonce
  {
    var below := NearSide(members, node.id, Right);
    var above := NearSide(members, node.id, Left);
    ins := Insertion(nodes, members, l, node, below, above, rightNonce, leftNonce);
    assert ins.Near(Right) == below && ins.Near(Left) == above;
  }

  /** A request not yet sent or just sent leaves the base as it is. */
  lemma InsertionBegins(ins: Insertion, ph: Phases, s: State)
    requires ins.Valid() && s.nodes == ins.base && NetMatches(ins, ph, s.net)
    requires forall d :: (ph.Get(d).Idle? || ph.Get(d).Requested?) && PhaseFits(ins, d, ph.Get(d))
    ensures InProgress(ins, ph, s)
  {
    assert PhaseFits(ins, Right, ph.Get(Right)) && PhaseFits(ins, Left, ph.Get(Left));
    forall v, l: nat, d
      ensures SlotAt(s.nodes, v, l, d) == ExpectedSlot(ins, ph, v, l, d)
    {
      assert ph.Get(d).Idle? || ph.Get(d).Requested?;
      assert ph.Get(d.Opposite()).Idle? || ph.Get(d.Opposite()).Requested?;
    }
  }

  /**
   On a complete level list, a link request sent to any member on the near side ends at the
   candidate's true neighbour on that side, and the reply fills the mirror slot; no other slot moves.
   */
  lemma LinkFindsTrueNeighbor(
    nodes: Nodes, members: set<Id>, l: nat, node: Identity, d: Direction, at: Id, nonce: Nonce, es: seq<Event>)
    returns (near: Id)
    requires Joinable(nodes, members, l, node) && at in members && Beyond(d, at, node.id)
    requires var s := State(nodes, [Packet(at, GetLinkOp(nonce, node, d, l))]);
             Run(s, es) && Deliveries(es) && Exec(s, es).net == []
    ensures Next(members, node.id, d.Opposite(), near)
    ensures var s := State(nodes, [Packet(at, GetLinkOp(nonce, node, d, l))]);
            && Exec(s, es).nodes.Keys == nodes.Keys
            && forall v, k: nat, e :: SlotAt(Exec(s, es).nodes, v, k, e) ==
                 if k == l && v == near && e == d then Some(node)
                 else if k == l && v == node.id && e == d.Opposite() then Some(nodes[near].identity)
                 else SlotAt(nodes, v, k, e)
  {
    var s := State(nodes, [Packet(at, GetLinkOp(nonce, node, d, l))]);
    var ins := InsertionFor(nodes, members, l, node, nonce, nonce);
    var ph := Phases(Idle, Idle).Set(d, Requested(at));
    InsertionBegins(ins, ph, s);
    var next := InsertionRun(ins, ph, s, es);
    NothingPending(ins, next, Exec(s, es), d);
    NearIsMember(ins, d);
    near := ins.Near(d).value;
    forall v, k: nat, e
      ensures SlotAt(Exec(s, es).nodes, v, k, e) ==
              if k == l && v == near && e == d then Some(node)
              else if k == l && v == node.id && e == d.Opposite() then Some(nodes[near].identity)
              else SlotAt(nodes, v, k, e)
    {
      ExpectedOneSide(ins, next, d, v, k, e);
    }
  }

  lemma ExpectedOneSide(ins: Insertion, ph: Phases, d: Direction, v: Id, l: nat, e: Direction)
    requires ph.Get(d).Done? && ph.Get(d.Opposite()).Idle?
    requires ins.Near(d).Some? && ins.Near(d).value in ins.base && ins.Near(d).value != ins.node.id
    ensures ExpectedSlot(ins, ph, v, l, e) ==
            if l == ins.level && v == ins.Near(d).value && e == d then Some(ins.node)
            else if l == ins.level && v == ins.node.id && e == d.Opposite() then
              Some(ins.base[ins.Near(d).value].identity)
            else SlotAt(ins.base, v, l, e)
  {
  }

  /** One request per side that has members; `None` where there are none. */
  ghost predicate RequestsFit(members: set<Id>, c: Id, d: Direction, at: Option<Id>) {
    match at
    case None => forall w :: w in members ==> !Beyond(d, w, c)
    case Some(a) => a in members && Beyond(d, a, c)
  }

  function LinkRequest(at: Option<Id>, nonce: Nonce, node: Identity, d: Direction, l: nat): seq<Packet> {
    if at.Some? then [Packet(at.value, GetLinkOp(nonce, node, d, l))] else []
  }

  /**
   Linking on both sides, through any members and in every interleaving of the two requests, turns
   the sorted doubly linked list into the same list with the new node inserted.
   */
  lemma LinkingInserts(
    nodes: Nodes, members: set<Id>, l: nat, node: Identity, onRight: Option<Id>, onLeft: Option<Id>,
    rightNonce: Nonce, leftNonce: Nonce, s: State, es: seq<Event>)
    requires Joinable(nodes, members, l, node) && s.nodes == nodes
    requires RequestsFit(members, node.id, Right, onRight) && RequestsFit(members, node.id, Left, onLeft)
    requires var right := LinkRequest(onRight, rightNonce, node, Right, l);
             var left := LinkRequest(onLeft, leftNonce, node, Left, l);
             s.net == right + left || s.net == left + right
    requires Run(s, es) && Deliveries(es) && Exec(s, es).net == []
    ensures Linked(Exec(s, es).nodes, members + {node.id}, l)
    ensures OnlyLevelChanged(nodes, Exec(s, es).nodes, l)
  {
    var ins, ph := BothSides(nodes, members, l, node, onRight, onLeft, rightNonce, leftNonce, s);
    var next := InsertionRun(ins, ph, s, es);
    InsertionLinks(ins, next, Exec(s, es));
  }

  /** Each request sent has then been confirmed to the new node, in a reply that resolves its waiter. */
  lemma LinkingIsAnswered(
    nodes: Nodes, members: set<Id>, l: nat, node: Identity, onRight: Option<Id>, onLeft: Option<Id>,
    rightNonce: Nonce, leftNonce: Nonce, s: State, es: seq<Event>)
    requires Joinable(nodes, members, l, node) && s.nodes == nodes
    requires RequestsFit(members, node.id, Right, onRight) && RequestsFit(members, node.id, Left, onLeft)
    requires var right := LinkRequest(onRight, rightNonce, node, Right, l);
             var left := LinkRequest(onLeft, leftNonce, node, Left, l);
             s.net == right + left || s.net == left + right
    requires Run(s, es) && Deliveries(es) && Exec(s, es).net == []
    ensures onRight.Some? ==> ResolvedDuring(s, es, node.id, GetLinkOp(rightNonce, node, Right, l))
    ensures onLeft.Some? ==> ResolvedDuring(s, es, node.id, GetLinkOp(leftNonce, node, Left, l))
  {
    var ins, ph := BothSides(nodes, members, l, node, onRight, onLeft, rightNonce, leftNonce, s);
    if onRight.Some? { InsertionAnswers(ins, ph, s, es, Right); }
    if onLeft.Some? { InsertionAnswers(ins, ph, s, es, Left); }
  }

  /** The deliveries one request can take: one per node it may pass, and its confirmation. */
  function LinkBudget(at: Option<Id>, c: Id, d: Direction): nat {
    if at.Some? && Beyond(d, at.value, c) then Key(d, c) - Key(d, at.value) + 2 else 0
  }

  lemma BothSides(
    nodes: Nodes, members: set<Id>, l: nat, node: Identity, onRight: Option<Id>, onLeft: Option<Id>,
    rightNonce: Nonce, leftNonce: Nonce, s: State) returns (ins: Insertion, ph: Phases)
    requires Joinable(nodes, members, l, node) && s.nodes == nodes
    requires RequestsFit(members, node.id, Right, onRight) && RequestsFit(members, node.id, Left, onLeft)
    requires var right := LinkRequest(onRight, rightNonce, node, Right, l);
             var left := LinkRequest(onLeft, leftNonce, node, Left, l);
             s.net == right + left || s.net == left + right
    ensures InProgress(ins, ph, s) && ins.base == nodes && ins.members == members && ins.level == l && ins.node == node
    ensures forall d :: ph.Get(d).Idle? ==> ins.Near(d).None?
    ensures ins.rightNonce == rightNonce && ins.leftNonce == leftNonce
    ensures onRight.Some? ==> ph.onRight.Requested?
    ensures onLeft.Some? ==> ph.onLeft.Requested?
    ensures Measure(ins, ph) == LinkBudget(onRight, node.id, Right) + LinkBudget(onLeft, node.id, Left)
  {
    ins := InsertionFor(nodes, members, l, node, rightNonce, leftNonce);
    ph := Phases(if onRight.Some? then Requested(onRight.value) else Idle,
                 if onLeft.Some? then Requested(onLeft.value) else Idle);
    InsertionBegins(ins, ph, s);
    forall d | ph.Get(d).Idle?
      ensures ins.Near(d).None?
    {
      if ins.Near(d).Some? {
        NearIsMember(ins, d);
        OppositeMirrors(d, ins.Near(d).value, node.id);
      }
    }
  }

  /**
   Every schedule of the two requests comes to an end: none is longer than the budget, and from where
   any schedule has come, delivering what is in flight ends it.
   */
  lemma LinkingCompletes(
    nodes: Nodes, members: set<Id>, l: nat, node: Identity, onRight: Option<Id>, onLeft: Option<Id>,
    rightNonce: Nonce, leftNonce: Nonce, s: State, es: seq<Event>) returns (rest: seq<Event>)
    requires Joinable(nodes, members, l, node) && s.nodes == nodes
    requires RequestsFit(members, node.id, Right, onRight) && RequestsFit(members, node.id, Left, onLeft)
    requires var right := LinkRequest(onRight, rightNonce, node, Right, l);
             var left := LinkRequest(onLeft, leftNonce, node, Left, l);
             s.net == right + left || s.net == left + right
    requires Run(s, es) && Deliveries(es)
    ensures |es| <= LinkBudget(onRight, node.id, Right) + LinkBudget(onLeft, node.id, Left)
    ensures Run(Exec(s, es), rest) && Deliveries(rest) && Exec(Exec(s, es), rest).net == []
  {
    var ins, ph := BothSides(nodes, members, l, node, onRight, onLeft, rightNonce, leftNonce, s);
    var next := InsertionRun(ins, ph, s, es);
    rest := InsertionCompletes(ins, next, Exec(s, es));
  }

  // ----- linking in ascending order through the smallest node

  /** A rightward link request of `node`, sent to `at` and run to its end, leads from `before` to `after`. */
  ghost predicate LinksThrough(before: Nodes, at: Id, node: Identity, l: nat, after: Nodes) {
    exists nonce: Nonce, es ::
      && Run(State(before, [Packet(at, GetLinkOp(nonce, node, Right, l))]), es) && Deliveries(es)
      && Exec(State(before, [Packet(at, GetLinkOp(nonce, node, Right, l))]), es) == State(after, [])
  }

  function Ids(xs: seq<Identity>): set<Id> {
    set x | x in xs :: x.id
  }

  /** All of `xs` are up, in one level list, and those from `k` on hold nothing there yet. */
  ghost predicate Unlinked(nodes: Nodes, xs: seq<Identity>, k: nat, l: nat) {
    && (forall x :: x in xs ==> Real(nodes, x)) && OneList(nodes, Ids(xs), l)
    && forall i, d :: k <= i < |xs| ==> SlotAt(nodes, xs[i].id, l, d) == None
  }

  ghost predicate Ascending(xs: seq<Identity>) {
    forall i, j :: 0 <= i < j < |xs| ==> xs[i].id < xs[j].id
  }

  /** Linking any number of nodes in ascending order through the smallest builds the whole list. */
  lemma {:induction false} AscendingLinksBuildList(ns: seq<Nodes>, xs: seq<Identity>, k: nat, l: nat)
    requires k < |xs| == |ns| && Ascending(xs) && l < LOOKUP_TABLE_LEVELS
    requires Unlinked(ns[0], xs, 0, l)
    requires forall i :: 0 < i < |xs| ==> LinksThrough(ns[i - 1], xs[0].id, xs[i], l, ns[i])
    ensures Unlinked(ns[k], xs, k + 1, l) && Linked(ns[k], Ids(xs[..k + 1]), l)
  {
    if k == 0 {
      assert xs[..1] == [xs[0]] && Ids(xs[..1]) == {xs[0].id};
      assert forall d :: SlotAt(ns[0], xs[0].id, l, d) == None;
    } else {
      AscendingLinksBuildList(ns, xs, k - 1, l);
      AscendingStep(ns[k - 1], xs, k, l, ns[k]);
    }
  }

  /** Among ascending identities, the first `k` lie below the next one. */
  lemma PrefixIds(xs: seq<Identity>, k: nat)
    requires 0 < k < |xs| && Ascending(xs)
    ensures xs[0].id in Ids(xs[..k]) && Ids(xs[..k]) + {xs[k].id} == Ids(xs[..k + 1]) <= Ids(xs)
    ensures forall w :: w in Ids(xs[..k]) ==> w < xs[k].id
  {
  }

  lemma UnlinkedJoinable(nodes: Nodes, xs: seq<Identity>, k: nat, l: nat)
    requires 0 < k < |xs| && Ascending(xs) && l < LOOKUP_TABLE_LEVELS
    requires Unlinked(nodes, xs, k, l) && Linked(nodes, Ids(xs[..k]), l)
    ensures Joinable(nodes, Ids(xs[..k]), l, xs[k])
  {
  }

  lemma UnlinkedKept(before: Nodes, after: Nodes, xs: seq<Identity>, k: nat, l: nat)
    requires k < |xs| && Unlinked(before, xs, k, l) && OnlyLevelChanged(before, after, l)
    requires forall i, d :: k < i < |xs| ==> SlotAt(after, xs[i].id, l, d) == SlotAt(before, xs[i].id, l, d)
    ensures Unlinked(after, xs, k + 1, l)
  {
    forall a, b | a in Ids(xs) && b in Ids(xs)
      ensures SameList(after, a, b, l)
    {
      assert SameList(before, a, b, l);
    }
  }

  lemma AscendingInserts(before: Nodes, xs: seq<Identity>, k: nat, l: nat, nonce: Nonce, es: seq<Event>)
    requires 0 < k < |xs| && Ascending(xs) && l < LOOKUP_TABLE_LEVELS
    requires Unlinked(before, xs, k, l) && Linked(before, Ids(xs[..k]), l)
    requires var s := State(before, [Packet(xs[0].id, GetLinkOp(nonce, xs[k], Right, l))]);
             Run(s, es) && Deliveries(es) && Exec(s, es).net == []
    ensures var s := State(before, [Packet(xs[0].id, GetLinkOp(nonce, xs[k], Right, l))]);
            Linked(Exec(s, es).nodes, Ids(xs[..k + 1]), l) && OnlyLevelChanged(before, Exec(s, es).nodes, l)
  {
    var s := State(before, [Packet(xs[0].id, GetLinkOp(nonce, xs[k], Right, l))]);
    PrefixIds(xs, k);
    UnlinkedJoinable(before, xs, k, l);
    LinkingInserts(before, Ids(xs[..k]), l, xs[k], Some(xs[0].id), None, nonce, nonce, s, es);
  }

  lemma AscendingSparesOthers(before: Nodes, xs: seq<Identity>, k: nat, l: nat, nonce: Nonce, es: seq<Event>)
    requires 0 < k < |xs| && Ascending(xs) && l < LOOKUP_TABLE_LEVELS
    requires Unlinked(before, xs, k, l) && Linked(before, Ids(xs[..k]), l)
    requires var s := State(before, [Packet(xs[0].id, GetLinkOp(nonce, xs[k], Right, l))]);
             Run(s, es) && Deliveries(es) && Exec(s, es).net == []
    ensures var s := State(before, [Packet(xs[0].id, GetLinkOp(nonce, xs[k], Right, l))]);
            forall i, d :: k < i < |xs| ==>
              SlotAt(Exec(s, es).nodes, xs[i].id, l, d) == SlotAt(before, xs[i].id, l, d)
  {
    PrefixIds(xs, k);
    UnlinkedJoinable(before, xs, k, l);
    var near := LinkFindsTrueNeighbor(before, Ids(xs[..k]), l, xs[k], Right, xs[0].id, nonce, es);
    assert forall i :: k < i < |xs| ==> xs[i].id != near && xs[i].id != xs[k].id;
  }

  lemma AscendingStep(before: Nodes, xs: seq<Identity>, k: nat, l: nat, after: Nodes)
    requires 0 < k < |xs| && Ascending(xs) && l < LOOKUP_TABLE_LEVELS
    requires Unlinked(before, xs, k, l) && Linked(before, Ids(xs[..k]), l)
    requires LinksThrough(before, xs[0].id, xs[k], l, after)
    ensures Unlinked(after, xs, k + 1, l) && Linked(after, Ids(xs[..k + 1]), l)
  {
    var nonce: Nonce, es :|
      && Run(State(before, [Packet(xs[0].id, GetLinkOp(nonce, xs[k], Right, l))]), es) && Deliveries(es)
      && Exec(State(before, [Packet(xs[0].id, GetLinkOp(nonce, xs[k], Right, l))]), es) == State(after, []);
    AscendingInserts(before, xs, k, l, nonce, es);
    AscendingSparesOthers(before, xs, k, l, nonce, es);
    UnlinkedKept(before, after, xs, k, l);
  }
}
