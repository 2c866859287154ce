/** How events emitted by the behaviour reach connection handlers, one at a time. */
module SwarmDelivery {
  import opened SwarmReports

  /** An established connection asked to take an event: it may be busy, be closing, accept,
      or, having been ready, find that it is closing after all. */
  datatype Reaction = NotReady | Closing | Accepts | Refuses

  /** What an attempt on a connection runs into. */
  datatype Observed = Gone | Was(reaction: Reaction)

  type Readiness = ConnectionId -> Reaction

  datatype NotifyHandler = One(id: ConnectionId) | Any(ids: seq<ConnectionId>)

  datatype Emission = Emission(peer: PeerId, captured: set<ConnectionId>, event: string)

  datatype Attempt = Attempt(emission: nat, id: ConnectionId, event: string, seen: Observed)

  datatype Slot = Empty | Pending(peer: PeerId, handler: NotifyHandler, event: string)

  /** Everything emitted, the single undelivered event, and all attempts, in order of time. */
  datatype Post = Post(emitted: seq<Emission>, slot: Slot, attempts: seq<Attempt>)

  predicate Failed(o: Observed) {
    o == Gone || o == Was(Closing) || o == Was(Refuses)
  }

  function Look(conns: map<ConnectionId, Connection>, react: Readiness, id: ConnectionId): Observed {
    if id in conns then Was(react(id)) else Gone
  }

  function Candidates(h: NotifyHandler): set<ConnectionId> {
    match h
    case One(id) => {id}
    case Any(ids) => set c | c in ids
  }

  // ------------------------------------------------------------------ one of many

  /** The position of the first connection that accepts, or the length. */
  function FirstAccepting(ids: seq<ConnectionId>, conns: map<ConnectionId, Connection>, react: Readiness): (k: nat)
    ensures k <= |ids|
    ensures forall i | 0 <= i < k :: Look(conns, react, ids[i]) != Was(Accepts)
    ensures k < |ids| ==> Look(conns, react, ids[k]) == Was(Accepts)
  {
    if ids == [] || Look(conns, react, ids[0]) == Was(Accepts) then 0
    else 1 + FirstAccepting(ids[1..], conns, react)
  }

  /** The connections that may still become ready, in their order. */
  function Busy(ids: seq<ConnectionId>, conns: map<ConnectionId, Connection>, react: Readiness):
    (busy: seq<ConnectionId>)
    ensures forall c :: c in busy <==> c in ids && Look(conns, react, c) == Was(NotReady)
  {
    if ids == [] then []
    else
      var last := ids[|ids| - 1];
      var front := Busy(ids[..|ids| - 1], conns, react);
      assert ids == ids[..|ids| - 1] + [last];
      if Look(conns, react, last) == Was(NotReady) then front + [last] else front
  }

  /** The connections that get asked: all, or those up to the first that accepts. */
  function Asked(ids: seq<ConnectionId>, conns: map<ConnectionId, Connection>, react: Readiness): seq<ConnectionId> {
    var k := FirstAccepting(ids, conns, react);
    if k < |ids| then ids[..k + 1] else ids
  }

  function Attempts(emission: nat, event: string, asked: seq<ConnectionId>,
                    conns: map<ConnectionId, Connection>, react: Readiness): (r: seq<Attempt>)
    ensures |r| == |asked|
    ensures forall i | 0 <= i < |r| :: r[i] == Attempt(emission, asked[i], event, Look(conns, react, asked[i]))
  {
    if asked == [] then []
    else
      var last := asked[|asked| - 1];
      Attempts(emission, event, asked[..|asked| - 1], conns, react)
        + [Attempt(emission, last, event, Look(conns, react, last))]
  }

  // --------------------------------------------------------------------- the slot

  /** An attempt to deliver the pending event. */
  function Deliver(p: Post, conns: map<ConnectionId, Connection>, react: Readiness): Post
    requires p.slot.Pending? && p.emitted != []
  {
    var i, e := |p.emitted| - 1, p.slot.event;
    match p.slot.handler
    case One(id) =>
      var seen := Look(conns, react, id);
      p.(slot := if seen == Was(NotReady) then p.slot else Empty,
         attempts := p.attempts + [Attempt(i, id, e, seen)])
    case Any(ids) =>
      var busy := Busy(ids, conns, react);
      p.(slot := if FirstAccepting(ids, conns, react) < |ids| || busy == [] then Empty
                 else Pending(p.slot.peer, Any(busy), e),
         attempts := p.attempts + Attempts(i, e, Asked(ids, conns, react), conns, react))
  }

  /** An event emitted for one connection, or for any of the given ones. */
  function Emit(p: Post, peer: PeerId, h: NotifyHandler, event: string,
                conns: map<ConnectionId, Connection>, react: Readiness): Post
    requires p.slot.Empty?
  {
    Deliver(Post(p.emitted + [Emission(peer, Candidates(h), event)], Pending(peer, h, event), p.attempts), conns, react)
  }

  // ------------------------------------------------------------------- accounting

  ghost predicate AcceptedAt(attempts: seq<Attempt>, i: nat) {
    exists a | a in attempts :: a.emission == i && a.seen == Was(Accepts)
  }

  ghost predicate FailedAt(attempts: seq<Attempt>, i: nat, c: ConnectionId) {
    exists a | a in attempts :: a.emission == i && a.id == c && Failed(a.seen)
  }

  /** Attempts follow the order of emission, and none follows an acceptance. */
  ghost predicate InOrder(attempts: seq<Attempt>) {
    forall j, k | 0 <= j < k < |attempts| ::
      && attempts[j].emission <= attempts[k].emission
      && (attempts[j].seen == Was(Accepts) ==> attempts[j].emission < attempts[k].emission)
  }

  /** Attempts carry the event that was emitted to connections captured when it was. */
  ghost predicate Meant(emitted: seq<Emission>, attempts: seq<Attempt>) {
    forall a | a in attempts ::
      a.emission < |emitted| && a.id in emitted[a.emission].captured && a.event == emitted[a.emission].event
  }

  /** An event not accepted has failed at every captured connection that is not still a
      candidate for it. */
  ghost predicate Accounted(p: Post) {
    forall i, c | 0 <= i < |p.emitted| && c in p.emitted[i].captured ::
      || AcceptedAt(p.attempts, i)
      || FailedAt(p.attempts, i, c)
      || (i == |p.emitted| - 1 && p.slot.Pending? && c in Candidates(p.slot.handler))
  }

  ghost predicate SlotOk(p: Post) {
    p.slot.Pending? ==>
      && p.emitted != []
      && var last := p.emitted[|p.emitted| - 1];
         && p.slot.peer == last.peer && p.slot.event == last.event
         && Candidates(p.slot.handler) <= last.captured
         && !AcceptedAt(p.attempts, |p.emitted| - 1)
  }

  ghost predicate Inv(p: Post) {
    InOrder(p.attempts) && Meant(p.emitted, p.attempts) && Accounted(p) && SlotOk(p)
  }

  lemma AppendKeepsOrder(attempts: seq<Attempt>, more: seq<Attempt>, i: nat)
    requires InOrder(attempts) && !AcceptedAt(attempts, i)
    requires forall a | a in attempts :: a.emission <= i
    requires forall k | 0 <= k < |more| :: more[k].emission == i && (k < |more| - 1 ==> more[k].seen != Was(Accepts))
    ensures InOrder(attempts + more)
  {
    var all := attempts + more;
    forall j, k | 0 <= j < k < |all|
      ensures all[j].emission <= all[k].emission
      ensures all[j].seen == Was(Accepts) ==> all[j].emission < all[k].emission
    {
      if j < |attempts| {
        assert all[j] == attempts[j] && attempts[j] in attempts;
      }
    }
  }

  lemma AppendKeepsFailure(attempts: seq<Attempt>, more: seq<Attempt>, i: nat, c: ConnectionId)
    ensures AcceptedAt(attempts, i) ==> AcceptedAt(attempts + more, i)
    ensures FailedAt(attempts, i, c) ==> FailedAt(attempts + more, i, c)
  {
    if AcceptedAt(attempts, i) {
      var a :| a in attempts && a.emission == i && a.seen == Was(Accepts);
      assert a in attempts + more;
    }
    if FailedAt(attempts, i, c) {
      var a :| a in attempts && a.emission == i && a.id == c && Failed(a.seen);
      assert a in attempts + more;
    }
  }

  /** A round of attempts on some of the candidates, which ends with the first that accepts
      and leaves the slot to those that may still become ready. */
  ghost predicate Asking(p: Post, asked: seq<ConnectionId>, slot: Slot,
                         conns: map<ConnectionId, Connection>, react: Readiness)
    requires p.slot.Pending?
  {
    && (forall c | c in asked :: c in Candidates(p.slot.handler))
    && (forall k | 0 <= k < |asked| - 1 :: Look(conns, react, asked[k]) != Was(Accepts))
    && (slot.Pending? ==>
          && slot.peer == p.slot.peer && slot.event == p.slot.event
          && Candidates(slot.handler) <= Candidates(p.slot.handler)
          && forall c | c in asked :: Look(conns, react, c) != Was(Accepts))
    && (asked == [] || Look(conns, react, asked[|asked| - 1]) != Was(Accepts) ==>
          forall c | c in Candidates(p.slot.handler) ::
            (c in asked && Failed(Look(conns, react, c))) || (slot.Pending? && c in Candidates(slot.handler)))
  }

  lemma AskingAccounts(p: Post, asked: seq<ConnectionId>, slot: Slot,
                       conns: map<ConnectionId, Connection>, react: Readiness,
                      more: seq<Attempt>, c: ConnectionId)
    requires p.slot.Pending? && p.emitted != [] && Asking(p, asked, slot, conns, react)
    requires c in Candidates(p.slot.handler)
    requires more == Attempts(|p.emitted| - 1, p.slot.event, asked, conns, react)
    ensures var all, i := p.attempts + more, |p.emitted| - 1;
            AcceptedAt(all, i) || FailedAt(all, i, c) || (slot.Pending? && c in Candidates(slot.handler))
  {
    var all := p.attempts + more;
    if asked != [] && Look(conns, react, asked[|asked| - 1]) == Was(Accepts) {
      assert more[|asked| - 1] in all;
    } else if c in asked && Failed(Look(conns, react, c)) {
      var k :| 0 <= k < |asked| && asked[k] == c;
      assert more[k] in all;
    }
  }

  lemma AskingKeepsInv(p: Post, asked: seq<ConnectionId>, slot: Slot,
                       conns: map<ConnectionId, Connection>, react: Readiness)
    requires Inv(p) && p.slot.Pending? && Asking(p, asked, slot, conns, react)
    ensures Inv(p.(slot := slot, attempts := p.attempts + Attempts(|p.emitted| - 1, p.slot.event, asked, conns, react)))
  {
    var last := |p.emitted| - 1;
    var more := Attempts(last, p.slot.event, asked, conns, react);
    var all := p.attempts + more;
    AppendKeepsOrder(p.attempts, more, last);
    forall i, c | 0 <= i < |p.emitted| && c in p.emitted[i].captured
      ensures AcceptedAt(all, i) || FailedAt(all, i, c) || (i == last && slot.Pending? && c in Candidates(slot.handler))
    {
      AppendKeepsFailure(p.attempts, more, i, c);
      if i == last && c in Candidates(p.slot.handler) {
        AskingAccounts(p, asked, slot, conns, react, more, c);
      }
    }
    forall a | a in all
      ensures && a.emission < |p.emitted| && a.id in p.emitted[a.emission].captured
              && a.event == p.emitted[a.emission].event
      ensures slot.Pending? && a.emission == last ==> a.seen != Was(Accepts)
    {
      if a in more {
        AskingAttempts(p, asked, slot, conns, react, a);
      } else {
        assert a in p.attempts;
      }
    }
  }

  /** A new attempt is at a captured connection, and is not accepted if the event stays pending. */
  lemma AskingAttempts(p: Post, asked: seq<ConnectionId>, slot: Slot,
                       conns: map<ConnectionId, Connection>, react: Readiness, a: Attempt)
    requires Inv(p) && p.slot.Pending? && Asking(p, asked, slot, conns, react)
    requires a in Attempts(|p.emitted| - 1, p.slot.event, asked, conns, react)
    ensures && a.emission == |p.emitted| - 1 && a.id in p.emitted[a.emission].captured
            && a.event == p.emitted[a.emission].event
    ensures slot.Pending? ==> a.seen != Was(Accepts)
  {
    var more := Attempts(|p.emitted| - 1, p.slot.event, asked, conns, react);
    var k :| 0 <= k < |more| && more[k] == a;
    assert asked[k] in asked;
  }

  lemma ThreeWays(o: Observed)
    ensures o == Was(Accepts) || o == Was(NotReady) || Failed(o)
  {
    match o
    case Gone =>
    case Was(NotReady) =>
    case Was(Closing) =>
    case Was(Accepts) =>
    case Was(Refuses) =>
  }

  lemma AnyIsAsking(p: Post, ids: seq<ConnectionId>, conns: map<ConnectionId, Connection>, react: Readiness)
    requires p.slot.Pending? && p.emitted != [] && p.slot.handler == Any(ids)
    ensures Asking(p, Asked(ids, conns, react), Deliver(p, conns, react).slot, conns, react)
  {
    var k := FirstAccepting(ids, conns, react);
    var asked := Asked(ids, conns, react);
    if k == |ids| {
      forall c | c in ids
        ensures Failed(Look(conns, react, c)) || c in Busy(ids, conns, react)
        ensures Look(conns, react, c) != Was(Accepts)
      {
        var i :| 0 <= i < |ids| && ids[i] == c;
        ThreeWays(Look(conns, react, c));
      }
    }
  }

  lemma OneIsAsking(p: Post, id: ConnectionId, conns: map<ConnectionId, Connection>, react: Readiness)
    requires p.slot.Pending? && p.emitted != [] && p.slot.handler == One(id)
    ensures Asking(p, [id], Deliver(p, conns, react).slot, conns, react)
    ensures Attempts(|p.emitted| - 1, p.slot.event, [id], conns, react)
            == [Attempt(|p.emitted| - 1, id, p.slot.event, Look(conns, react, id))]
  {
    assert id in [id];
    ThreeWays(Look(conns, react, id));
  }

  /** The event is kept exactly if no candidate accepts it and some may still become ready,
      and then for just these. */
  lemma KeptIffMayArrive(p: Post, conns: map<ConnectionId, Connection>, react: Readiness)
    requires p.slot.Pending? && p.emitted != []
    ensures var candidates, slot := Candidates(p.slot.handler), Deliver(p, conns, react).slot;
            && (slot.Pending? <==>
                  && (forall c | c in candidates :: Look(conns, react, c) != Was(Accepts))
                  && (exists c | c in candidates :: Look(conns, react, c) == Was(NotReady)))
            && (slot.Pending? ==>
                  forall c :: c in Candidates(slot.handler)
                         <==> c in candidates && Look(conns, react, c) == Was(NotReady))
  {
    match p.slot.handler
    case One(id) =>
    case Any(ids) =>
      var k, busy := FirstAccepting(ids, conns, react), Busy(ids, conns, react);
      if k < |ids| {
        assert ids[k] in Candidates(p.slot.handler);
      } else if busy != [] {
        assert busy[0] in busy;
        forall c | c in ids ensures Look(conns, react, c) != Was(Accepts) {
          var i :| 0 <= i < |ids| && ids[i] == c;
        }
      }
  }

  /** The connections asked in one attempt. */
  function AskedOf(h: NotifyHandler, conns: map<ConnectionId, Connection>, react: Readiness): seq<ConnectionId> {
    match h
    case One(id) => [id]
    case Any(ids) => Asked(ids, conns, react)
  }

  lemma DeliverIsAsking(p: Post, conns: map<ConnectionId, Connection>, react: Readiness)
    requires p.slot.Pending? && p.emitted != []
    ensures var asked, d := AskedOf(p.slot.handler, conns, react), Deliver(p, conns, react);
            && Asking(p, asked, d.slot, conns, react)
            && d == p.(slot := d.slot,
                       attempts := p.attempts + Attempts(|p.emitted| - 1, p.slot.event, asked, conns, react))
  {
    match p.slot.handler
    case One(id) => OneIsAsking(p, id, conns, react);
    case Any(ids) => AnyIsAsking(p, ids, conns, react);
  }

  /** No candidate takes the event, and some may still become ready to. */
  ghost predicate Stuck(candidates: set<ConnectionId>, conns: map<ConnectionId, Connection>, react: Readiness) {
    && (forall c | c in candidates && c in conns :: react(c) != Accepts)
    && (exists c | c in candidates && c in conns :: react(c) == NotReady)
  }

  /** Emission `i` has been tried since: if some candidate accepts, it was handed to one that
      does; otherwise every candidate has been asked. */
  ghost predicate Tried(before: Post, after: Post, i: nat, event: string, candidates: set<ConnectionId>,
                        conns: map<ConnectionId, Connection>, react: Readiness)
  {
    && before.attempts <= after.attempts
    && TriedIn(after.attempts[|before.attempts|..], i, event, candidates, conns, react)
  }

  ghost predicate TriedIn(more: seq<Attempt>, i: nat, event: string, candidates: set<ConnectionId>,
                          conns: map<ConnectionId, Connection>, react: Readiness)
  {
    if exists c | c in candidates && c in conns :: react(c) == Accepts then
      exists c | c in candidates && c in conns :: react(c) == Accepts && Attempt(i, c, event, Was(Accepts)) in more
    else
      forall c | c in candidates :: Attempt(i, c, event, if c in conns then Was(react(c)) else Gone) in more
  }

  /** The slot holds the event for exactly the candidates that are busy. */
  ghost predicate Waits(slot: Slot, event: string, candidates: set<ConnectionId>,
                        conns: map<ConnectionId, Connection>, react: Readiness)
  {
    && slot.Pending? && slot.event == event
    && forall c :: c in Candidates(slot.handler) <==> c in candidates && c in conns && react(c) == NotReady
  }

  /** An attempt at the pending event is made, and leaves it in the slot exactly if it is stuck,
      for those that are busy. */
  lemma DeliveryTries(p: Post, conns: map<ConnectionId, Connection>, react: Readiness)
    requires p.slot.Pending? && p.emitted != []
    ensures var d, candidates := Deliver(p, conns, react), Candidates(p.slot.handler);
            && Tried(p, d, |p.emitted| - 1, p.slot.event, candidates, conns, react) && d.emitted == p.emitted
            && (d.slot.Pending? <==> Stuck(candidates, conns, react))
            && (d.slot.Pending? ==> Waits(d.slot, p.slot.event, candidates, conns, react))
  {
    AttemptsTry(p.slot.handler, |p.emitted| - 1, p.slot.event, conns, react);
    DeliveryAsks(p, Deliver(p, conns, react), conns, react);
    DeliveryKeeps(p, conns, react);
  }

  lemma DeliveryAsks(p: Post, d: Post, conns: map<ConnectionId, Connection>, react: Readiness)
    requires p.slot.Pending? && p.emitted != [] && d == Deliver(p, conns, react)
    ensures var more := Attempts(|p.emitted| - 1, p.slot.event, AskedOf(p.slot.handler, conns, react), conns, react);
            p.attempts <= d.attempts && d.attempts[|p.attempts|..] == more && d.emitted == p.emitted
  {
    DeliverIsAsking(p, conns, react);
  }

  lemma DeliveryKeeps(p: Post, conns: map<ConnectionId, Connection>, react: Readiness)
    requires p.slot.Pending? && p.emitted != []
    ensures var slot, candidates := Deliver(p, conns, react).slot, Candidates(p.slot.handler);
            && (slot.Pending? <==> Stuck(candidates, conns, react))
            && (slot.Pending? ==> Waits(slot, p.slot.event, candidates, conns, react))
  {
    KeptIffMayArrive(p, conns, react);
  }

  lemma AttemptsTry(h: NotifyHandler, i: nat, event: string, conns: map<ConnectionId, Connection>, react: Readiness)
    ensures TriedIn(Attempts(i, event, AskedOf(h, conns, react), conns, react), i, event, Candidates(h), conns, react)
  {
    var asked := AskedOf(h, conns, react);
    var more := Attempts(i, event, asked, conns, react);
    AskedReachesAccepting(h, conns, react);
    if exists c | c in Candidates(h) :: Look(conns, react, c) == Was(Accepts) {
      assert more[|asked| - 1] in more;
    } else {
      forall c | c in Candidates(h) ensures Attempt(i, c, event, Look(conns, react, c)) in more {
        var k :| 0 <= k < |asked| && asked[k] == c;
        assert more[k] in more;
      }
    }
  }

  lemma TriedAndMore(before: Post, middle: Post, after: Post, i: nat, event: string, candidates: set<ConnectionId>,
                     conns: map<ConnectionId, Connection>, react: Readiness)
    requires Tried(before, middle, i, event, candidates, conns, react) && middle.attempts <= after.attempts
    ensures Tried(before, after, i, event, candidates, conns, react)
  {
    var n := |before.attempts|;
    assert middle.attempts[n..] <= after.attempts[n..];
    assert forall a | a in middle.attempts[n..] :: a in after.attempts[n..];
  }

  /** An event that is no longer pending may be followed by others. */
  lemma TriedAtMost(p: Post, d: Post, r: Post, i: nat, event: string, candidates: set<ConnectionId>,
                    conns: map<ConnectionId, Connection>, react: Readiness)
    requires Tried(p, d, i, event, candidates, conns, react) && d.emitted == p.emitted && d.attempts <= r.attempts
    requires d.slot.Pending? <==> Stuck(candidates, conns, react)
    requires d.slot.Pending? ==> r == d && Waits(d.slot, event, candidates, conns, react)
    ensures Tried(p, r, i, event, candidates, conns, react)
    ensures Stuck(candidates, conns, react) ==>
              Waits(r.slot, event, candidates, conns, react) && r.emitted == p.emitted
  {
    TriedAndMore(p, d, r, i, event, candidates, conns, react);
  }

  lemma TriedSince(before: Post, middle: Post, after: Post, i: nat, event: string, candidates: set<ConnectionId>,
                   conns: map<ConnectionId, Connection>, react: Readiness)
    requires before.attempts <= middle.attempts && Tried(middle, after, i, event, candidates, conns, react)
    ensures Tried(before, after, i, event, candidates, conns, react)
  {
    var m, n := |before.attempts|, |middle.attempts|;
    assert after.attempts[m..] == after.attempts[m..n] + after.attempts[n..];
  }

  lemma AskedReachesAccepting(h: NotifyHandler, conns: map<ConnectionId, Connection>, react: Readiness)
    ensures var asked := AskedOf(h, conns, react);
            if exists c | c in Candidates(h) :: Look(conns, react, c) == Was(Accepts) then
              && asked != [] && asked[|asked| - 1] in Candidates(h)
              && Look(conns, react, asked[|asked| - 1]) == Was(Accepts)
            else
              forall c | c in Candidates(h) :: c in asked
  {
    match h
    case One(id) =>
    case Any(ids) =>
      var k := FirstAccepting(ids, conns, react);
      if c :| c in Candidates(h) && Look(conns, react, c) == Was(Accepts) {
        var i :| 0 <= i < |ids| && ids[i] == c;
        assert k <= i;
        assert ids[k] in Candidates(h);
      } else if k < |ids| {
        assert ids[k] in Candidates(h);
      }
  }

  lemma DeliverKeepsInv(p: Post, conns: map<ConnectionId, Connection>, react: Readiness)
    requires Inv(p) && p.slot.Pending?
    ensures Inv(Deliver(p, conns, react))
  {
    DeliverIsAsking(p, conns, react);
    AskingKeepsInv(p, AskedOf(p.slot.handler, conns, react), Deliver(p, conns, react).slot, conns, react);
  }

  lemma EmitKeepsInv(p: Post, peer: PeerId, h: NotifyHandler, event: string,
                     conns: map<ConnectionId, Connection>, react: Readiness)
    requires Inv(p) && p.slot.Empty?
    ensures Inv(Emit(p, peer, h, event, conns, react))
  {
    var q := Post(p.emitted + [Emission(peer, Candidates(h), event)], Pending(peer, h, event), p.attempts);
    DeliverKeepsInv(q, conns, react);
  }
}
