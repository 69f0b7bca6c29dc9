/** The node object: its handlers, run in place over the array-backed table and the waiter map. */
module BaseNodes {
  import opened Wrappers
  import opened Directions
  import opened MembershipVectors
  import opened LookupTables
  import opened LocalSearch
  import opened Handlers
  import opened Waiters

  /** A search ends at once, or continues with a request to the neighbour found. */
  datatype SearchStart = AnsweredLocally(hit: Hit) | Asked(packet: Packet)

  class BaseNode {
    const identity: Identity
    const lt: ArrayLookupTable
    var requestIdMap: WaiterMap

    ghost predicate Valid() {
      lt.Valid()
    }

    ghost function AsNode(): Node
      requires Valid()
      reads lt.left, lt.right
    {
      Node(identity, lt.View())
    }

    constructor (identity: Identity)
      ensures Valid() && fresh(lt.left) && fresh(lt.right)
      ensures this.identity == identity && AsNode() == Node(identity, EmptyTable()) && requestIdMap == map[]
    {
      this.identity := identity;
      lt := new ArrayLookupTable();
      requestIdMap := map[];
    }

    /** The slot check, computed over the bytes of the membership vectors. */
    method ChecksOwnSlot(level: nat, d: Direction, candidate: Identity) returns (b: bool)
      ensures b == BelongsInOwnSlot(identity, level, d, candidate)
      ensures b <==> level < LOOKUP_TABLE_LEVELS && CommonPrefix(identity.memVec, candidate.memVec) >= level &&
                     if d.Right? then identity.id < candidate.id else candidate.id < identity.id
    {
      if level >= LOOKUP_TABLE_LEVELS {
        return false;
      }
      var onDirection := match d
        case Left => candidate.id < identity.id
        case Right => candidate.id > identity.id;
      var common := CommonPrefixBit(identity.memVec, candidate.memVec);
      return onDirection && common >= level;
    }

    /** Removes and returns the waiter a reply resolves; any other entry stays. */
    method TakeWaiter(m: Message) returns (w: Option<Waiter>)
      modifies this`requestIdMap
      ensures w == Resolved(old(requestIdMap), m)
      ensures requestIdMap == Taken(old(requestIdMap), m)
      ensures requestIdMap == if w.Some? then old(requestIdMap) - {m.nonce} else old(requestIdMap)
      ensures w.Some? <==> m.nonce in old(requestIdMap) && match old(requestIdMap)[m.nonce] {
                case MaxLevelWaiter => m.RetMaxLevelOp?
                case SearchWaiter => m.SearchByIdResponse?
                case NeighborWaiter => m.RetNeighborOp?
                case LinkWaiter(l, d) => m.SetLinkOp? && m.level == l && m.direction == d
              }
    {
      if m.nonce in requestIdMap && Answers(requestIdMap[m.nonce], m) {
        w := Some(requestIdMap[m.nonce]);
        requestIdMap := requestIdMap - {m.nonce};
      } else {
        w := None;
      }
    }

    /** Dropping a guard removes its entry, whether or not a reply already has. */
    method DropGuard(nonce: Nonce)
      modifies this`requestIdMap
      ensures requestIdMap == old(requestIdMap) - {nonce}
    {
      requestIdMap := requestIdMap - {nonce};
    }

    /** The local search, over one table entry after the other. */
    method SearchOwnTable(d: Direction, target: Id, level: nat) returns (r: Result<Hit>)
      requires Valid()
      ensures r == SearchById(identity.id, lt.View(), d, target, level)
    {
      var hits: seq<Hit> := [];
      var l := 0;
      while l <= level
        invariant l <= LOOKUP_TABLE_LEVELS && l <= level + 1
        invariant hits == if l == 0 then [] else Candidates(lt.View(), d, l - 1)
      {
        var entry := lt.GetEntry(l, d);
        match entry {
          case Failure(_) => return Failure("error while searching by id");
          case Success(None) =>
          case Success(Some(x)) => hits := hits + [Hit(x.id, l)];
        }
        l := l + 1;
      }
      hits := NotPast(hits, d, target);
      var best := match d case Left => MinById(hits) case Right => MaxById(hits);
      return Success(if best.Some? then best.value else Hit(identity.id, 0));
    }

    method HandleSearchByIdRequest(m: Message) returns (r: Result<Option<Packet>>)
      requires Valid() && m.SearchByIdRequest?
      ensures r == match OnSearchRequest(AsNode(), m) {
                     case Success(reaction) => Success(reaction.out)
                     case Failure(e) => Failure(e)
                   }
      ensures r.Success? <==> m.level < LOOKUP_TABLE_LEVELS
      ensures r.Success? ==> r.value.Some?
      ensures r.Success? && OnSide(AsNode(), m.direction) ==>
                var p := r.value.value;
                if p.msg.SearchByIdRequest? then
                  Optimal(lt.View(), m.direction, m.target, m.level, Some(Hit(p.dest, p.msg.level)))
                else
                  && Optimal(lt.View(), m.direction, m.target, m.level, None)
                  && p == Packet(m.origin, SearchByIdResponse(m.nonce, m.target, 0, identity.id))
    {
      if OnSide(AsNode(), m.direction) { SearchHop(AsNode(), m); }
      var res := SearchOwnTable(m.direction, m.target, m.level);
      match res {
        case Failure(e) => return Failure(e);
        case Success(hit) =>
          if hit.id == identity.id {
            return Success(Some(Packet(m.origin, SearchByIdResponse(m.nonce, m.target, hit.level, hit.id))));
          }
          return Success(Some(Packet(hit.id, Relayed(m, hit.level))));
      }
    }

    method HandleGetMaxLevelRequest(m: Message) returns (out: Packet)
      requires Valid() && m.GetMaxLevelOp?
      ensures Handle(AsNode(), m) == Success(Reaction(lt.View(), Some(out)))
      ensures out.dest == m.origin && out.msg.RetMaxLevelOp? && out.msg.nonce == m.nonce
      ensures match MaxPopulatedLevel(lt.View())
              case None => out.msg.maxLevel == 0
              case Some(highest) => out.msg.maxLevel == highest
    {
      var highest := lt.FindMaxPopulatedLevel();
      out := Packet(m.origin, RetMaxLevelOp(m.nonce, if highest.Some? then highest.value else 0));
    }

    method HandleGetNeighborRequest(m: Message) returns (r: Result<Option<Packet>>)
      requires Valid() && m.GetNeighborOp?
      ensures r.Success? <==> OnGetNeighbor(AsNode(), m).Success?
      ensures r.Success? ==> OnGetNeighbor(AsNode(), m).value == Reaction(lt.View(), r.value)
      ensures r.Success? <==> m.level < LOOKUP_TABLE_LEVELS
      ensures r.Success? ==>
                r.value == Some(Packet(m.origin, RetNeighborOp(m.nonce, m.level, m.direction,
                                                               lt.View().Get(m.level, m.direction))))
    {
      var entry := lt.GetEntry(m.level, m.direction);
      match entry {
        case Failure(e) => return Failure(e);
        case Success(neighbor) =>
          return Success(Some(Packet(m.origin, RetNeighborOp(m.nonce, m.level, m.direction, neighbor))));
      }
    }

    method HandleGetLinkRequest(m: Message) returns (out: Option<Packet>)
      requires Valid() && m.GetLinkOp?
      modifies lt.left, lt.right
      ensures Reaction(lt.View(), out) == old(OnGetLink(AsNode(), m))
    {
      var served := ChecksOwnSlot(m.level, m.direction, m.candidate);
      if !served {
        return None;
      }
      var outcome := lt.TryLink(m.level, m.direction, m.candidate);
      match outcome.value {
        case LinkedDirectly =>
          return Some(Packet(m.candidate.id,
                             SetLinkOp(m.nonce, m.direction.Opposite(), m.level, Some(identity))));
        case ForwardLink(existing) =>
          return Some(Packet(existing.id, m));
      }
    }

    /** The table write does not depend on a waiter, and the waiter does not depend on the write. */
    method HandleSetLinkResponse(m: Message) returns (w: Option<Waiter>)
      requires Valid() && m.SetLinkOp?
      modifies lt.left, lt.right, this`requestIdMap
      ensures Reaction(lt.View(), None) == old(OnSetLink(AsNode(), m))
      ensures w == Resolved(old(requestIdMap), m) && requestIdMap == Taken(old(requestIdMap), m)
    {
      if m.linked.Some? {
        var served := ChecksOwnSlot(m.level, m.direction, m.linked.value);
        if served {
          var outcome := lt.TryLink(m.level, m.direction, m.linked.value);
        }
      }
      w := TakeWaiter(m);
    }

    /** Dispatches an inbound event: the table and the packet sent are the handlers' reaction. */
    method ProcessIncomingEvent(m: Message) returns (r: Result<Option<Packet>>)
      requires Valid()
      modifies lt.left, lt.right, this`requestIdMap
      ensures r.Success? <==> old(Handle(AsNode(), m)).Success?
      ensures Reaction(lt.View(), if r.Success? then r.value else None) == old(React(AsNode(), m))
      ensures requestIdMap == Taken(old(requestIdMap), m)
      ensures r.Failure? <==>
                m.UnsupportedOp? || ((m.SearchByIdRequest? || m.GetNeighborOp?) && m.level >= LOOKUP_TABLE_LEVELS)
      ensures (m.nonce in old(requestIdMap) ==> match old(requestIdMap)[m.nonce] {
                 case MaxLevelWaiter => !m.RetMaxLevelOp?
                 case SearchWaiter => !m.SearchByIdResponse?
                 case NeighborWaiter => !m.RetNeighborOp?
                 case LinkWaiter(l, d) => !(m.SetLinkOp? && m.level == l && m.direction == d)
               }) ==> requestIdMap == old(requestIdMap)
    {
      HandleFailsExactly(AsNode(), m);
      match m {
        case SearchByIdRequest(_, _, _, _, _) =>
          r := HandleSearchByIdRequest(m);
        case GetMaxLevelOp(_, _) =>
          var out := HandleGetMaxLevelRequest(m);
          r := Success(Some(out));
        case GetNeighborOp(_, _, _, _) =>
          r := HandleGetNeighborRequest(m);
        case GetLinkOp(_, _, _, _) =>
          var out := HandleGetLinkRequest(m);
          r := Success(out);
        case SetLinkOp(_, _, _, _) =>
          var w := HandleSetLinkResponse(m);
          r := Success(None);
        case SearchByIdResponse(_, _, _, _) =>
          var w := TakeWaiter(m);
          r := Success(None);
        case RetMaxLevelOp(_, _) =>
          var w := TakeWaiter(m);
          r := Success(None);
        case RetNeighborOp(_, _, _, _) =>
          var w := TakeWaiter(m);
          r := Success(None);
        case UnsupportedOp(_) =>
          r := Failure("unsupported event payload type");
      }
    }

    /**
     Starts a search at this node. Searching the own table first gives exactly what sending the request
     to oneself would: the same answer, or the same relayed request, now with a waiter parked for it.
     */
    method StartSearch(m: Message) returns (r: Result<SearchStart>)
      requires Valid() && m.SearchByIdRequest? && m.origin == identity.id
      modifies this`requestIdMap
      ensures r.Success? <==> OnSearchRequest(AsNode(), m).Success?
      ensures r.Success? ==>
                React(AsNode(), m).out == Some(match r.value
                  case AnsweredLocally(hit) =>
                    Packet(identity.id, SearchByIdResponse(m.nonce, m.target, hit.level, hit.id))
                  case Asked(packet) => packet)
      ensures r.Success? <==> m.level < LOOKUP_TABLE_LEVELS
      ensures r.Success? && OnSide(AsNode(), m.direction) ==>
                match r.value
                case AnsweredLocally(hit) =>
                  hit == Hit(identity.id, 0) && Optimal(lt.View(), m.direction, m.target, m.level, None)
                case Asked(p) =>
                  && p.msg.SearchByIdRequest?
                  && Optimal(lt.View(), m.direction, m.target, m.level, Some(Hit(p.dest, p.msg.level)))
      ensures requestIdMap == if r.Success? && r.value.Asked? then old(requestIdMap)[m.nonce := SearchWaiter]
                              else old(requestIdMap)
    {
      if OnSide(AsNode(), m.direction) { SearchHop(AsNode(), m); }
      var res := SearchOwnTable(m.direction, m.target, m.level);
      match res {
        case Failure(e) => return Failure(e);
        case Success(hit) =>
          if hit.id == identity.id {
            return Success(AnsweredLocally(hit));
          }
          requestIdMap := requestIdMap[m.nonce := SearchWaiter];
          return Success(Asked(Packet(hit.id, Relayed(m, hit.level))));
      }
    }

    /** Parks the waiter for a link request and returns the request to send. */
    method SendLinkRequest(nonce: Nonce, dest: Id, d: Direction, level: nat) returns (out: Packet)
      modifies this`requestIdMap
      ensures out == Packet(dest, GetLinkOp(nonce, identity, d, level))
      ensures WaiterFor(out.msg).Some? && requestIdMap == old(requestIdMap)[nonce := WaiterFor(out.msg).value]
      ensures requestIdMap[nonce] == LinkWaiter(level, if d.Left? then Right else Left)
    {
      requestIdMap := requestIdMap[nonce := LinkWaiter(level, d.Opposite())];
      out := Packet(dest, GetLinkOp(nonce, identity, d, level));
    }
  }
}
