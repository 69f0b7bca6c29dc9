/** The messages of the overlay, and what a node does on receiving one. */
module Handlers {
  import opened Wrappers
  import opened Directions
  import opened MembershipVectors
  import opened LookupTables
  import opened LocalSearch

  type Nonce = nat

  /** `UnsupportedOp` stands for the event kinds the dispatcher rejects. */
  datatype Message =
    | SearchByIdRequest(nonce: Nonce, target: Id, origin: Id, level: nat, direction: Direction)
    | SearchByIdResponse(nonce: Nonce, target: Id, terminationLevel: nat, result: Id)
    | GetMaxLevelOp(nonce: Nonce, origin: Id)
    | RetMaxLevelOp(nonce: Nonce, maxLevel: nat)
    | GetNeighborOp(nonce: Nonce, origin: Id, level: nat, direction: Direction)
    | RetNeighborOp(nonce: Nonce, level: nat, direction: Direction, neighbor: Slot)
    | GetLinkOp(nonce: Nonce, candidate: Identity, direction: Direction, level: nat)
    | SetLinkOp(nonce: Nonce, direction: Direction, level: nat, linked: Slot)
    | UnsupportedOp(nonce: Nonce)

  datatype Packet = Packet(dest: Id, msg: Message)

  datatype Node = Node(identity: Identity, table: Table)

  /** The new lookup table and the one message a handler may send. */
  datatype Reaction = Reaction(table: Table, out: Option<Packet>)

  /** The slot check: a real level, the right side, and the level's membership prefix. */
  predicate BelongsInOwnSlot(self: Identity, level: nat, d: Direction, candidate: Identity) {
    && level < LOOKUP_TABLE_LEVELS
    && Beyond(d, self.id, candidate.id)
    && PrefixMatch(self.memVec, candidate.memVec, level)
  }

  /** The same search, continued from `level`. */
  function Relayed(m: Message, level: nat): Message
    requires m.SearchByIdRequest?
  {
    SearchByIdRequest(m.nonce, m.target, m.origin, level, m.direction)
  }

  function OnSearchRequest(n: Node, m: Message): Result<Reaction>
    requires m.SearchByIdRequest?
  {
    match SearchById(n.identity.id, n.table, m.direction, m.target, m.level)
    case Failure(e) => Failure(e)
    case Success(hit) =>
      if hit.id == n.identity.id then
        Success(Reaction(n.table, Some(Packet(m.origin, SearchByIdResponse(m.nonce, m.target, hit.level, hit.id)))))
      else
        Success(Reaction(n.table, Some(Packet(hit.id, Relayed(m, hit.level)))))
  }

  function OnGetNeighbor(n: Node, m: Message): Result<Reaction>
    requires m.GetNeighborOp?
  {
    if m.level >= LOOKUP_TABLE_LEVELS then Failure("failed to read local neighbor entry")
    else
      var answer := RetNeighborOp(m.nonce, m.level, m.direction, n.table.Get(m.level, m.direction));
      Success(Reaction(n.table, Some(Packet(m.origin, answer))))
  }

  /** Links the candidate and confirms, forwards the request unchanged, or drops it. */
  function OnGetLink(n: Node, m: Message): Reaction
    requires m.GetLinkOp?
  {
    if !BelongsInOwnSlot(n.identity, m.level, m.direction, m.candidate) then Reaction(n.table, None)
    else
      var slot := n.table.Get(m.level, m.direction);
      var table := n.table.Put(m.level, m.direction, Settle(slot, m.direction, m.candidate));
      match AsLinkOutcome(Decide(slot, m.direction, m.candidate))
      case LinkedDirectly =>
        var reply := SetLinkOp(m.nonce, m.direction.Opposite(), m.level, Some(n.identity));
        Reaction(table, Some(Packet(m.candidate.id, reply)))
      case ForwardLink(existing) => Reaction(table, Some(Packet(existing.id, m)))
  }

  /** Applies a confirmed link through the same decision, unless the slot cannot hold it. */
  function OnSetLink(n: Node, m: Message): Reaction
    requires m.SetLinkOp?
  {
    if m.linked.Some? && BelongsInOwnSlot(n.identity, m.level, m.direction, m.linked.value) then
      var slot := n.table.Get(m.level, m.direction);
      Reaction(n.table.Put(m.level, m.direction, Settle(slot, m.direction, m.linked.value)), None)
    else Reaction(n.table, None)
  }

  /** The dispatcher. Replies other than `SetLinkOp` only resolve a waiter. */
  function Handle(n: Node, m: Message): Result<Reaction> {
    match m
    case SearchByIdRequest(_, _, _, _, _) => OnSearchRequest(n, m)
    case GetMaxLevelOp(nonce, origin) =>
      Success(Reaction(n.table, Some(Packet(origin, RetMaxLevelOp(nonce, MaxLevel(n.table))))))
    case GetNeighborOp(_, _, _, _) => OnGetNeighbor(n, m)
    case GetLinkOp(_, _, _, _) => Success(OnGetLink(n, m))
    case SetLinkOp(_, _, _, _) => Success(OnSetLink(n, m))
    case SearchByIdResponse(_, _, _, _) => Success(Reaction(n.table, None))
    case RetMaxLevelOp(_, _) => Success(Reaction(n.table, None))
    case RetNeighborOp(_, _, _, _) => Success(Reaction(n.table, None))
    case UnsupportedOp(_) => Failure("unsupported event payload type")
  }

  /** A handler that fails has touched nothing and sent nothing. */
  function React(n: Node, m: Message): Reaction {
    match Handle(n, m)
    case Success(r) => r
    case Failure(_) => Reaction(n.table, None)
  }

  // ----- one event at one node, whatever the event contains

  /** Every entry passes the slot check of its own slot. */
  ghost predicate TableOrdered(n: Node) {
    forall l: nat, d :: l < LOOKUP_TABLE_LEVELS && n.table.Get(l, d).Some? ==>
      BelongsInOwnSlot(n.identity, l, d, n.table.Get(l, d).value)
  }

  /** Every slot is at least as close as before, and no filled slot is emptied. */
  ghost predicate TableTightened(before: Table, after: Table) {
    forall l: nat, d :: l < LOOKUP_TABLE_LEVELS ==> Tightened(d, before.Get(l, d), after.Get(l, d))
  }

  lemma ReactKeepsTable(n: Node, m: Message)
    ensures TableTightened(n.table, React(n, m).table)
    ensures TableOrdered(n) ==> TableOrdered(n.(table := React(n, m).table))
  {
    if m.GetLinkOp? || m.SetLinkOp? {
      var t := React(n, m).table;
      forall l: nat, d | l < LOOKUP_TABLE_LEVELS
        ensures t.Get(l, d) == n.table.Get(l, d) ||
                (t.Get(l, d).Some? && BelongsInOwnSlot(n.identity, l, d, t.Get(l, d).value))
        ensures Tightened(d, n.table.Get(l, d), t.Get(l, d))
      {
      }
    }
  }

  /** A reply or relay carries the nonce of the request it answers. */
  lemma ReactKeepsNonce(n: Node, m: Message)
    ensures React(n, m).out.Some? ==> React(n, m).out.value.msg.nonce == m.nonce
  {
  }

  /** Every entry on direction `d` lies on that direction. */
  ghost predicate OnSide(n: Node, d: Direction) {
    forall l: nat :: l < LOOKUP_TABLE_LEVELS && n.table.Get(l, d).Some? ==>
      Beyond(d, n.identity.id, n.table.Get(l, d).value.id)
  }

  /**
   A relayed search is the same search and goes to the best entry of the table: the admissible one
   closest to the target over all levels up to its own, at the level the tie rule picks. So it is
   strictly nearer its target and never at a higher level. A node with no admissible entry answers
   the origin with itself at level 0. Only a level out of range fails.
   */
  lemma SearchHop(n: Node, m: Message)
    requires m.SearchByIdRequest? && OnSide(n, m.direction)
    ensures React(n, m).out.Some? <==> m.level < LOOKUP_TABLE_LEVELS
    ensures m.level < LOOKUP_TABLE_LEVELS ==>
            var p := React(n, m).out.value;
            if p.msg.SearchByIdRequest? then
              && p.msg.nonce == m.nonce && p.msg.target == m.target && p.msg.origin == m.origin
              && p.msg.direction == m.direction && p.msg.level <= m.level
              && Beyond(m.direction, n.identity.id, p.dest)
              && Key(m.direction, p.dest) <= Key(m.direction, m.target)
              && Optimal(n.table, m.direction, m.target, m.level, Some(Hit(p.dest, p.msg.level)))
            else
              && p == Packet(m.origin, SearchByIdResponse(m.nonce, m.target, 0, n.identity.id))
              && Optimal(n.table, m.direction, m.target, m.level, None)
  {
    SearchByIdIsOptimal(n.identity.id, n.table, m.direction, m.target, m.level);
  }

  /** A node replies to the asker with its highest populated level, and with 0 if it has no entry. */
  lemma MaxLevelReply(n: Node, nonce: Nonce, origin: Id, l: nat)
    requires l < LOOKUP_TABLE_LEVELS
    requires l == 0 || n.table.Get(l, Left).Some? || n.table.Get(l, Right).Some?
    requires forall k: nat, d :: l < k < LOOKUP_TABLE_LEVELS ==> n.table.Get(k, d) == None
    ensures React(n, GetMaxLevelOp(nonce, origin)) ==
            Reaction(n.table, Some(Packet(origin, RetMaxLevelOp(nonce, l))))
  {
    assert l > 0 ==> Populated(n.table, l);
    assert forall k: nat :: l < k < LOOKUP_TABLE_LEVELS ==> !Populated(n.table, k);
  }

  /** A node replies to the asker with the slot asked for, at every level, and changes nothing. */
  lemma NeighborReply(n: Node, nonce: Nonce, origin: Id, l: nat, d: Direction)
    ensures React(n, GetNeighborOp(nonce, origin, l, d)).table == n.table
    ensures React(n, GetNeighborOp(nonce, origin, l, d)).out ==
            if l < LOOKUP_TABLE_LEVELS then Some(Packet(origin, RetNeighborOp(nonce, l, d, n.table.Get(l, d))))
            else None
  {
  }

  /** Only unsupported events, and reads of a level out of range, fail. */
  lemma HandleFailsExactly(n: Node, m: Message)
    ensures Handle(n, m).Failure? <==>
            m.UnsupportedOp? || ((m.SearchByIdRequest? || m.GetNeighborOp?) && m.level >= LOOKUP_TABLE_LEVELS)
  {
  }

  /** A forwarded link request is unchanged and goes strictly between this node and its candidate. */
  lemma LinkHop(n: Node, m: Message)
    requires m.GetLinkOp? && TableOrdered(n) && React(n, m).out.Some?
    ensures BelongsInOwnSlot(n.identity, m.level, m.direction, m.candidate)
    ensures var p := React(n, m).out.value; var slot := n.table.Get(m.level, m.direction);
            if p.msg.GetLinkOp? then
              && p.msg == m && slot.Some? && p.dest == slot.value.id
              && Beyond(m.direction, n.identity.id, p.dest) && Beyond(m.direction, p.dest, m.candidate.id)
              && React(n, m).table == n.table
            else
              && p == Packet(m.candidate.id, SetLinkOp(m.nonce, m.direction.Opposite(), m.level, Some(n.identity)))
              && React(n, m).table.Get(m.level, m.direction) == Some(m.candidate)
  {
  }

  /** The receiver of a forwarded request serves it too, by the ultrametric law of prefixes. */
  lemma LinkHopStillBelongs(n: Node, m: Message, next: Identity)
    requires m.GetLinkOp? && TableOrdered(n) && React(n, m).out == Some(Packet(next.id, m))
    requires n.table.Get(m.level, m.direction) == Some(next)
    ensures BelongsInOwnSlot(next, m.level, m.direction, m.candidate)
  {
    LinkHop(n, m);
    PrefixMatchEquivalence(n.identity.memVec, next.memVec, m.candidate.memVec, m.level);
    PrefixMatchEquivalence(next.memVec, n.identity.memVec, m.candidate.memVec, m.level);
  }
}
