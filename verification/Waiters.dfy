/** Outstanding requests: waiters keyed by nonce, replies that resolve them, guards that clean up. */
module Waiters {
  import opened Wrappers
  import opened Directions
  import opened Handlers

  /** `LinkWaiter` records the requester's own slot, the mirror of the slot the request named. */
  datatype Waiter =
    | MaxLevelWaiter
    | SearchWaiter
    | NeighborWaiter
    | LinkWaiter(level: nat, direction: Direction)

  type WaiterMap = map<Nonce, Waiter>

  /** Whether `m` is the kind of reply this waiter waits for. */
  predicate Answers(w: Waiter, m: Message) {
    match w
    case MaxLevelWaiter => m.RetMaxLevelOp?
    case SearchWaiter => m.SearchByIdResponse?
    case NeighborWaiter => m.RetNeighborOp?
    case LinkWaiter(level, direction) => m.SetLinkOp? && m.level == level && m.direction == direction
  }

  /** The waiter that `m` resolves, if any. */
  function Resolved(waiters: WaiterMap, m: Message): Option<Waiter> {
    if m.nonce in waiters && Answers(waiters[m.nonce], m) then Some(waiters[m.nonce]) else None
  }

  /** Removes the resolved waiter; an entry of another kind is left alone. */
  function Taken(waiters: WaiterMap, m: Message): WaiterMap {
    if Resolved(waiters, m).Some? then waiters - {m.nonce} else waiters
  }

  /**
   What resolves what, kind by kind: a waiter is resolved and its entry removed exactly by a reply with
   its nonce and of its kind, which for a link means also its level and direction. On every other
   message the map stays as it is.
   */
  lemma OnlyItsOwnReplyResolves(waiters: WaiterMap, m: Message)
    ensures var own := m.nonce in waiters && match waiters[m.nonce] {
              case MaxLevelWaiter => m.RetMaxLevelOp?
              case SearchWaiter => m.SearchByIdResponse?
              case NeighborWaiter => m.RetNeighborOp?
              case LinkWaiter(l, d) => m.SetLinkOp? && m.level == l && m.direction == d
            };
            if own then Resolved(waiters, m) == Some(waiters[m.nonce]) && Taken(waiters, m) == waiters - {m.nonce}
            else Resolved(waiters, m) == None && Taken(waiters, m) == waiters
  {
  }

  /** The waiter a client parks for a request. */
  function WaiterFor(m: Message): Option<Waiter> {
    match m
    case SearchByIdRequest(_, _, _, _, _) => Some(SearchWaiter)
    case GetMaxLevelOp(_, _) => Some(MaxLevelWaiter)
    case GetNeighborOp(_, _, _, _) => Some(NeighborWaiter)
    case GetLinkOp(_, _, direction, level) => Some(LinkWaiter(level, direction.Opposite()))
    case _ => None
  }

  /**
   Every reaction to a request either passes on a request with the same nonce that waits for the same
   answer, or is an answer that resolves the waiter parked for the request.
   */
  lemma RepliesMatchWaiters(n: Node, m: Message)
    requires WaiterFor(m).Some? && React(n, m).out.Some?
    ensures var reply := React(n, m).out.value.msg;
            && reply.nonce == m.nonce
            && (WaiterFor(reply) == WaiterFor(m) || (WaiterFor(reply).None? && Answers(WaiterFor(m).value, reply)))
  {
  }

  // ----- the life of waiters over whole runs

  /** `issued` and `resolved` record the history; `guards` are the requests still in scope. */
  datatype Requests = Requests(
    waiters: WaiterMap, guards: set<Nonce>, issued: map<Nonce, Waiter>, resolved: seq<Message>)

  /** A guard is released when its request completes, times out, fails to send or is cancelled. */
  datatype RequestEvent =
    | Register(nonce: Nonce, waiter: Waiter)
    | Reply(msg: Message)
    | Release(nonce: Nonce)

  const NO_REQUESTS := Requests(map[], {}, map[], [])

  predicate Allowed(s: Requests, e: RequestEvent) {
    match e
    case Register(nonce, _) => nonce !in s.issued
    case Reply(_) => true
    case Release(nonce) => nonce in s.guards
  }

  function Advance(s: Requests, e: RequestEvent): Requests
    requires Allowed(s, e)
  {
    match e
    case Register(nonce, w) =>
      Requests(s.waiters[nonce := w], s.guards + {nonce}, s.issued[nonce := w], s.resolved)
    case Reply(m) =>
      if Resolved(s.waiters, m).Some? then s.(waiters := Taken(s.waiters, m), resolved := s.resolved + [m]) else s
    case Release(nonce) => s.(waiters := s.waiters - {nonce}, guards := s.guards - {nonce})
  }

  predicate RequestRun(s: Requests, es: seq<RequestEvent>)
    decreases |es|
  {
    es == [] || (Allowed(s, es[0]) && RequestRun(Advance(s, es[0]), es[1..]))
  }

  function AdvanceAll(s: Requests, es: seq<RequestEvent>): Requests
    requires RequestRun(s, es)
    decreases |es|
  {
    if es == [] then s else AdvanceAll(Advance(s, es[0]), es[1..])
  }

  ghost predicate Sound(s: Requests) {
    && s.waiters.Keys <= s.guards <= s.issued.Keys
    && (forall n :: n in s.waiters ==> s.waiters[n] == s.issued[n])
    && (forall i :: 0 <= i < |s.resolved| ==>
          && s.resolved[i].nonce in s.issued && s.resolved[i].nonce !in s.waiters
          && Answers(s.issued[s.resolved[i].nonce], s.resolved[i]))
    && forall i, j :: 0 <= i < j < |s.resolved| ==> s.resolved[i].nonce != s.resolved[j].nonce
  }

  /**
   Over every run: an entry never outlives its guard, each request is resolved at most once, and only
   by a reply of its own nonce and kind, for a link also of its own level and direction.
   */
  lemma {:induction false} WaitersStaySound(s: Requests, es: seq<RequestEvent>)
    requires Sound(s) && RequestRun(s, es)
    ensures Sound(AdvanceAll(s, es))
    decreases |es|
  {
    if es != [] {
      assert Sound(Advance(s, es[0]));
      WaitersStaySound(Advance(s, es[0]), es[1..]);
    }
  }

  /** From a node without requests: no nonce is resolved twice, and no entry is left without a guard. */
  lemma ResolvedAtMostOnce(es: seq<RequestEvent>)
    requires RequestRun(NO_REQUESTS, es)
    ensures var s := AdvanceAll(NO_REQUESTS, es);
            && s.waiters.Keys <= s.guards
            && (forall m :: m in s.resolved ==> m.nonce in s.issued)
            && (forall m :: m in s.resolved ==>
                  match s.issued[m.nonce]
                  case MaxLevelWaiter => m.RetMaxLevelOp?
                  case SearchWaiter => m.SearchByIdResponse?
                  case NeighborWaiter => m.RetNeighborOp?
                  case LinkWaiter(l, d) => m.SetLinkOp? && m.level == l && m.direction == d)
            && forall i, j :: 0 <= i < j < |s.resolved| ==> s.resolved[i].nonce != s.resolved[j].nonce
  {
    WaitersStaySound(NO_REQUESTS, es);
  }

  /** The replies that resolved request `nonce`. */
  function ResolutionsOf(resolved: seq<Message>, nonce: Nonce): seq<Message> {
    if resolved == [] then []
    else
      ResolutionsOf(resolved[..|resolved| - 1], nonce) +
      (if resolved[|resolved| - 1].nonce == nonce then [resolved[|resolved| - 1]] else [])
  }

  /** Once its entry is gone, by an answer or by its guard, a request is never resolved again. */
  lemma {:induction false} GoneIsFinal(s: Requests, es: seq<RequestEvent>, nonce: Nonce)
    requires RequestRun(s, es) && nonce in s.issued && nonce !in s.waiters
    ensures nonce in AdvanceAll(s, es).issued && nonce !in AdvanceAll(s, es).waiters
    ensures ResolutionsOf(AdvanceAll(s, es).resolved, nonce) == ResolutionsOf(s.resolved, nonce)
    decreases |es|
  {
    if es != [] {
      var next := Advance(s, es[0]);
      if es[0].Reply? && Resolved(s.waiters, es[0].msg).Some? {
        assert next.resolved[..|next.resolved| - 1] == s.resolved;
      }
      GoneIsFinal(next, es[1..], nonce);
    }
  }

  /** `e` neither answers nor releases request `nonce`, whose waiter is `w`. */
  predicate Leaves(e: RequestEvent, nonce: Nonce, w: Waiter) {
    match e
    case Register(_, _) => true
    case Reply(m) => m.nonce == nonce ==> !Answers(w, m)
    case Release(n) => n != nonce
  }

  /**
   Mismatched replies, other requests and other releases leave a request waiting, however many there
   are; its first matching reply then resolves it, takes its entry and touches no other.
   */
  lemma {:induction false} FirstMatchResolves(s: Requests, es: seq<RequestEvent>, m: Message)
    requires Sound(s) && RequestRun(s, es) && m.nonce in s.waiters && Answers(s.waiters[m.nonce], m)
    requires forall i :: 0 <= i < |es| ==> Leaves(es[i], m.nonce, s.waiters[m.nonce])
    ensures var before := AdvanceAll(s, es); var after := Advance(before, Reply(m));
            && m.nonce in before.waiters && before.waiters[m.nonce] == s.waiters[m.nonce]
            && after.resolved == before.resolved + [m] && after.waiters == before.waiters - {m.nonce}
            && ResolutionsOf(before.resolved, m.nonce) == ResolutionsOf(s.resolved, m.nonce)
    decreases |es|
  {
    if es != [] {
      var next := Advance(s, es[0]);
      assert Leaves(es[0], m.nonce, s.waiters[m.nonce]);
      if es[0].Reply? && Resolved(s.waiters, es[0].msg).Some? {
        assert next.resolved[..|next.resolved| - 1] == s.resolved;
      }
      assert Sound(next);
      FirstMatchResolves(next, es[1..], m);
    }
  }

  /** A registered request waits until its first matching reply, and that reply resolves it. */
  lemma RegisteredIsResolved(s: Requests, w: Waiter, es: seq<RequestEvent>, m: Message)
    requires Sound(s) && m.nonce !in s.issued && Answers(w, m)
    requires RequestRun(Advance(s, Register(m.nonce, w)), es)
    requires forall i :: 0 <= i < |es| ==> Leaves(es[i], m.nonce, w)
    ensures var before := AdvanceAll(Advance(s, Register(m.nonce, w)), es);
            Advance(before, Reply(m)).resolved == before.resolved + [m]
  {
    assert Sound(Advance(s, Register(m.nonce, w)));
    FirstMatchResolves(Advance(s, Register(m.nonce, w)), es, m);
  }

  /** A released request is out of scope: no guard, no entry, and no answer resolves it any more. */
  lemma ReleasedIsFinal(s: Requests, nonce: Nonce, es: seq<RequestEvent>)
    requires Sound(s) && nonce in s.guards && RequestRun(Advance(s, Release(nonce)), es)
    ensures var after := AdvanceAll(Advance(s, Release(nonce)), es);
            && nonce !in after.guards && nonce !in after.waiters
            && ResolutionsOf(after.resolved, nonce) == ResolutionsOf(s.resolved, nonce)
  {
    GoneIsFinal(Advance(s, Release(nonce)), es, nonce);
    NoNewGuard(Advance(s, Release(nonce)), es, nonce);
  }

  lemma {:induction false} NoNewGuard(s: Requests, es: seq<RequestEvent>, nonce: Nonce)
    requires RequestRun(s, es) && nonce in s.issued && nonce !in s.guards
    ensures nonce !in AdvanceAll(s, es).guards
    decreases |es|
  {
    if es != [] { NoNewGuard(Advance(s, es[0]), es[1..], nonce); }
  }
}
