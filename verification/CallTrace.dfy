/** The behaviour that records its callbacks and asserts that they are consistent. */
module CallTrace {
  import opened SwarmReports

  function OnlyEstablished(calls: seq<Call>): seq<Call> {
    if calls == [] then []
    else
      var front, last := OnlyEstablished(calls[..|calls| - 1]), calls[|calls| - 1];
      if last.Established? then front + [last] else front
  }

  function OnlyClosed(calls: seq<Call>): seq<Call> {
    if calls == [] then []
    else
      var front, last := OnlyClosed(calls[..|calls| - 1]), calls[|calls| - 1];
      if last.Closed? then front + [last] else front
  }

  function OnlyEvents(calls: seq<Call>): seq<Call> {
    if calls == [] then []
    else
      var front, last := OnlyEvents(calls[..|calls| - 1]), calls[|calls| - 1];
      if last.Event? then front + [last] else front
  }

  lemma SnocRecords(calls: seq<Call>, call: Call)
    ensures OnlyEstablished(calls + [call])
         == if call.Established? then OnlyEstablished(calls) + [call] else OnlyEstablished(calls)
    ensures OnlyClosed(calls + [call]) == if call.Closed? then OnlyClosed(calls) + [call] else OnlyClosed(calls)
    ensures OnlyEvents(calls + [call]) == if call.Event? then OnlyEvents(calls) + [call] else OnlyEvents(calls)
  {
    assert (calls + [call])[..|calls|] == calls;
  }

  lemma RecordedSnoc(calls: seq<Call>, call: Call, p: PeerId)
    ensures Recorded(calls + [call], p) ==
            (if call.Established? && call.peer == p then [call.other] else []) + Recorded(calls, p)
  {
    assert (calls + [call])[..|calls|] == calls;
  }

  lemma RecordedStep(calls: seq<Call>, i: nat, p: PeerId, taken: seq<nat>)
    requires i < |calls|
    ensures taken + Recorded(calls[..i + 1], p) ==
            if calls[i].Established? && calls[i].peer == p then taken + [calls[i].other] + Recorded(calls[..i], p)
            else taken + Recorded(calls[..i], p)
  {
    assert calls[..i + 1] == calls[..i] + [calls[i]];
    RecordedSnoc(calls[..i], calls[i], p);
  }

  lemma NumSnoc(calls: seq<Call>, call: Call, p: PeerId)
    ensures NumEstablished(calls + [call], p) ==
            NumEstablished(calls, p) + (if call.Established? && call.peer == p then 1 else 0)
    ensures NumClosed(calls + [call], p) == NumClosed(calls, p) + (if call.Closed? && call.peer == p then 1 else 0)
  {
    assert (calls + [call])[..|calls|] == calls;
  }

  lemma {:induction false} RecordsHold(calls: seq<Call>, x: Call)
    ensures x in OnlyEstablished(calls) <==> x in calls && x.Established?
    ensures x in OnlyClosed(calls) <==> x in calls && x.Closed?
  {
    if calls != [] {
      var front, last := calls[..|calls| - 1], calls[|calls| - 1];
      RecordsHold(front, x);
      assert calls == front + [last];
    }
  }

  lemma {:induction false} CountsSuffice(calls: seq<Call>, p: PeerId)
    ensures Recorded(OnlyEstablished(calls), p) == Recorded(calls, p)
    ensures NumEstablished(OnlyEstablished(calls), p) == NumEstablished(calls, p)
    ensures NumClosed(OnlyClosed(calls), p) == NumClosed(calls, p)
  {
    if calls != [] {
      var front, last := calls[..|calls| - 1], calls[|calls| - 1];
      CountsSuffice(front, p);
      RecordedSnoc(OnlyEstablished(front), last, p);
      NumSnoc(OnlyEstablished(front), last, p);
      NumSnoc(OnlyClosed(front), last, p);
    }
  }

  /** The separate records lose nothing the assertions ask about. */
  lemma RecordsSuffice(calls: seq<Call>, p: PeerId, c: ConnectionId)
    ensures Recorded(OnlyEstablished(calls), p) == Recorded(calls, p)
    ensures WasEstablished(OnlyEstablished(calls), p, c) <==> WasEstablished(calls, p, c)
    ensures forall e :: WasEstablishedAt(OnlyEstablished(calls), p, c, e) <==> WasEstablishedAt(calls, p, c, e)
    ensures WasClosed(OnlyClosed(calls), p, c) <==> WasClosed(calls, p, c)
  {
    CountsSuffice(calls, p);
    forall x ensures x in OnlyEstablished(calls) <==> x in calls && x.Established? {
      RecordsHold(calls, x);
    }
    forall x ensures x in OnlyClosed(calls) <==> x in calls && x.Closed? {
      RecordsHold(calls, x);
    }
  }

  method CountFor(calls: seq<Call>, p: PeerId) returns (ups: nat, downs: nat)
    ensures ups == NumEstablished(calls, p) && downs == NumClosed(calls, p)
  {
    ups, downs := 0, 0;
    for i := 0 to |calls|
      invariant ups == NumEstablished(calls[..i], p) && downs == NumClosed(calls[..i], p)
    {
      assert calls[..i + 1] == calls[..i] + [calls[i]];
      NumSnoc(calls[..i], calls[i], p);
      if calls[i].peer == p {
        if calls[i].Established? {
          ups := ups + 1;
        } else if calls[i].Closed? {
          downs := downs + 1;
        }
      }
    }
    assert calls[..|calls|] == calls;
  }

  class CallTraceBehaviour {
    var established: seq<Call>
    var closed: seq<Call>
    var events: seq<Call>
    ghost var calls: seq<Call>

    ghost predicate Valid()
      reads this
    {
      && Faithful(calls)
      && established == OnlyEstablished(calls)
      && closed == OnlyClosed(calls)
      && events == OnlyEvents(calls)
    }

    constructor ()
      ensures Valid() && calls == []
    {
      established, closed, events, calls := [], [], [], [];
    }

    /** Up to `n` of the numbers reported with establishments for a peer, last first. */
    method TakeRecorded(p: PeerId, n: nat) returns (taken: seq<nat>)
      ensures var all := Recorded(established, p);
              taken == if n < |all| then all[..n] else all
    {
      taken := [];
      var i := |established|;
      assert established[..i] == established;
      while i > 0 && |taken| < n
        invariant i <= |established| && |taken| <= n
        invariant Recorded(established, p) == taken + Recorded(established[..i], p)
      {
        i := i - 1;
        RecordedStep(established, i, p, taken);
        if established[i].peer == p && established[i].Established? {
          taken := taken + [established[i].other];
        }
      }
    }

    /** The assertions made about the number of a peer's other connections. */
    method CheckCount(p: PeerId, n: nat)
      requires CountPasses(Recorded(established, p), n)
    {
      var taken := TakeRecorded(p, n);
      if taken != [] {
        var prev := taken[0];
        if prev < n {
          assert prev == n - 1;
        }
        assert |taken| - 1 == n - 1;
      } else {
        assert n == 0;
      }
    }

    method InjectConnectionEstablished(p: PeerId, c: ConnectionId, e: Endpoint, other: nat)
      requires Valid() && Right(calls, Established(p, c, e, other))
      modifies this
      ensures Valid() && calls == old(calls) + [Established(p, c, e, other)]
    {
      var call := Established(p, c, e, other);
      RightPassesOracleIff(calls, call);
      RecordsSuffice(calls, p, c);
      CheckCount(p, other);
      SnocRecords(calls, call);
      Snoc(calls, call);
      established := established + [call];
      calls := calls + [call];
    }

    /** Tells whether the last assertion holds, that the connection was established at this
        endpoint; the others do. */
    method InjectConnectionClosed(p: PeerId, c: ConnectionId, e: Endpoint, remaining: nat) returns (passed: bool)
      requires Valid() && Right(calls, Closed(p, c, e, remaining))
      modifies this
      ensures Valid() && calls == old(calls) + [Closed(p, c, e, remaining)]
      ensures passed <==> AtHome(old(calls), c)
    {
      var call := Closed(p, c, e, remaining);
      RightPassesOracleIff(calls, call);
      ClosedAtHomeIff(calls, call);
      RecordsSuffice(calls, p, c);
      CheckCount(p, remaining);
      passed := WasEstablishedAt(established, p, c, e);
      SnocRecords(calls, call);
      Snoc(calls, call);
      closed := closed + [call];
      calls := calls + [call];
    }

    method InjectEvent(p: PeerId, c: ConnectionId)
      requires Valid() && Right(calls, Event(p, c))
      modifies this
      ensures Valid() && calls == old(calls) + [Event(p, c)]
    {
      var call := Event(p, c);
      RightPassesOracleIff(calls, call);
      RecordsSuffice(calls, p, c);
      assert WasEstablished(established, p, c);
      assert !WasClosed(closed, p, c);
      SnocRecords(calls, call);
      Snoc(calls, call);
      events := events + [call];
      calls := calls + [call];
    }

    /** Not recorded. */
    method InjectAddressChange(p: PeerId, c: ConnectionId, previous: Endpoint, e: Endpoint)
      requires Valid() && Right(calls, AddressChange(p, c, previous, e))
      modifies this`calls
      ensures Valid() && calls == old(calls) + [AddressChange(p, c, previous, e)]
    {
      ghost var call := AddressChange(p, c, previous, e);
      SnocRecords(calls, call);
      Snoc(calls, call);
      calls := calls + [call];
    }

    /** The behaviour's own count of its open connections to a peer. */
    method NumConnectionsToPeer(p: PeerId) returns (n: nat)
      requires Valid()
      ensures n == |OfPeer(Open(calls), p)|
    {
      OwnCount(calls, p);
      CountsSuffice(calls, p);
      var ups, _ := CountFor(established, p);
      var _, downs := CountFor(closed, p);
      n := ups - downs;
    }
  }
}
