/** Whom dials of the in-memory transport reach, over whole runs. */
module MemoryDials {
  import opened MemoryHub

  /** The address names this port, perhaps with a peer after it. */
  predicate Names(addr: seq<Protocol>, p: U64) {
    addr != [] && addr[0] == Memory(p) && (|addr| == 1 || addr[1] == P2p)
  }

  // ------------------------------------------------------------------ single actions

  /** Listening makes a listener at the port asked for, or for zero at a random one, exactly if
      the address names a port and that is free. */
  lemma ListensIff(w: World, addr: seq<Protocol>, random: Port, p: U64)
    requires Names(addr, p) && (p == 0 ==> random !in w.hub)
    ensures var q: Port, v := if p == 0 then random else p, Listening(w, addr, random);
            if q in w.hub then v == w
            else && v.hub == w.hub[q := w.next] && v.objects == w.objects[w.next := Listener(q, true)]
                 && v.queues == w.queues[w.next := []] && v.next == w.next + 1 && v.log == w.log
  {
  }

  /** Dialing makes a dial for the channel registered at the port asked for, exactly if there is
      one. */
  lemma DialsIff(w: World, addr: seq<Protocol>, random: Port, p: U64)
    requires Names(addr, p)
    ensures var v := Dialing(w, addr, random);
            if p == 0 || p !in w.hub then v == w
            else && v.hub == w.hub[random := w.next] && v.next == w.next + 1
                 && v.objects == w.objects[w.next := Dial(random, w.hub[p], true)]
                 && v.queues == w.queues && v.log == w.log
  {
  }

  /** An address that names no port is refused. */
  lemma OthersAreRefused(w: World, addr: seq<Protocol>, random: Port)
    requires forall p: U64 :: !Names(addr, p)
    ensures Listening(w, addr, random) == w == Dialing(w, addr, random)
  {
    if addr != [] && addr[0].Memory? {
      assert !Names(addr, addr[0].port);
    }
  }

  // -------------------------------------------------------------------- dials arrive

  /** What has become of a dial from port `q` to channel `k`: it is unfinished, finished or gone. */
  ghost predicate IsDial(w: World, id: Id, q: Port, k: Id) {
    && id < w.next
    && (id in w.objects ==>
          (w.objects[id].Dial? && w.objects[id].port == q && w.objects[id].target == k) || w.objects[id] == Chan(q))
  }

  lemma ActionKeepsDial(w: World, a: Action, id: Id, q: Port, k: Id)
    requires Inv(w) && Can(w, a) && IsDial(w, id, q, k)
    ensures IsDial(Next(w, a), id, q, k)
  {
    match a
    case ListenOn(_, _) =>
    case DialTo(_, _) =>
    case PollDial(_, _) =>
    case PollListener(_) =>
    case Drop(_) =>
  }

  lemma {:induction false} StaysDial(run: seq<World>, actions: seq<Action>, i: nat, j: nat, id: Id, q: Port, k: Id)
    requires IsRun(run, actions) && i <= j < |run| && IsDial(run[i], id, q, k)
    ensures IsDial(run[j], id, q, k)
  {
    if i < j {
      StaysDial(run, actions, i, j - 1, id, q, k);
      RunKeepsInv(run, actions, j - 1);
      ActionKeepsDial(run[j - 1], actions[j - 1], id, q, k);
    }
  }

  /** A dial was made at step `i` for a port that listener `k` held. As long as both live, polling
      it with a ready sender hands the connection to `k` and to nobody else. */
  lemma DialReaches(run: seq<World>, actions: seq<Action>, i: nat, j: nat, p: Port, c: Id)
    requires IsRun(run, actions) && i < j < |run| && actions[i].DialTo? && Names(actions[i].addr, p) && p in run[i].hub
    requires var id, k := run[i].next, run[i].hub[p];
             && id in run[j].objects && run[j].objects[id].Dial?
             && k in run[j].objects && run[j].objects[k].Listener?
    ensures var id, k, q := run[i].next, run[i].hub[p], actions[i].random;
            var after := DialPolled(run[j], id, SenderOk);
            && SentTo(after.log, c) == SentTo(run[j].log, c) + (if c == k then [Conn(id, q)] else [])
            && TakenFrom(after.log, c) == TakenFrom(run[j].log, c)
            && after.objects[id] == Chan(q) && k in after.queues
            && after.queues[k] == run[j].queues[k] + [Conn(id, q)]
  {
    var id, k, q := run[i].next, run[i].hub[p], actions[i].random;
    RunKeepsInv(run, actions, i);
    RunKeepsInv(run, actions, j);
    DialsIff(run[i], actions[i].addr, q, p);
    StaysDial(run, actions, i + 1, j, id, q, k);
    LogSnoc(run[j].log, Sent(k, Conn(id, q)), c);
  }

  // ------------------------------------------------------------- where values come from

  /** Listener `k` was made by action `i`: it asked for port `q`, or for any free one. */
  ghost predicate ListensSince(run: seq<World>, actions: seq<Action>, i: nat, k: Id, q: Port) {
    && i < |actions| && i < |run| && actions[i].ListenOn? && run[i].next == k && q !in run[i].hub
    && (Names(actions[i].addr, q) || (Names(actions[i].addr, 0) && actions[i].random == q))
  }

  /** Dial `k` was made by action `i`: it has port `q`, and asked for a port that channel `t` was
      registered at. */
  ghost predicate DialsSince(run: seq<World>, actions: seq<Action>, i: nat, k: Id, q: Port, t: Id) {
    && i < |actions| && i < |run| && actions[i].DialTo? && run[i].next == k && actions[i].random == q
    && exists p: Port :: Names(actions[i].addr, p) && p in run[i].hub && run[i].hub[p] == t
  }

  ghost predicate Listened(run: seq<World>, actions: seq<Action>, n: nat, k: Id, q: Port) {
    exists i: nat :: i < n && ListensSince(run, actions, i, k, q)
  }

  ghost predicate Dialed(run: seq<World>, actions: seq<Action>, n: nat, k: Id, q: Port, t: Id) {
    exists i: nat :: i < n && DialsSince(run, actions, i, k, q, t)
  }

  /** The value is what the action that made it has asked for. */
  ghost predicate HasOrigin(run: seq<World>, actions: seq<Action>, n: nat, k: Id, o: Object) {
    match o
    case Listener(q, _) => Listened(run, actions, n, k, q)
    case Dial(q, t, _) => Dialed(run, actions, n, k, q, t)
    case Chan(q) => exists t :: Dialed(run, actions, n, k, q, t)
    case Spent => true
  }

  ghost predicate WasDialed(run: seq<World>, actions: seq<Action>, n: nat, e: Event) {
    e.Sent? ==> Dialed(run, actions, n, e.conn.id, e.conn.port, e.channel)
  }

  ghost predicate Accounted(run: seq<World>, actions: seq<Action>, n: nat, w: World) {
    && (forall k | k in w.objects :: HasOrigin(run, actions, n, k, w.objects[k]))
    && (forall e | e in w.log :: WasDialed(run, actions, n, e))
  }

  lemma LaterAccounted(run: seq<World>, actions: seq<Action>, n: nat, w: World)
    requires Accounted(run, actions, n, w)
    ensures Accounted(run, actions, n + 1, w)
  {
    forall k | k in w.objects ensures HasOrigin(run, actions, n + 1, k, w.objects[k]) {
      LaterOrigin(run, actions, n, k, w.objects[k]);
    }
    forall e | e in w.log ensures WasDialed(run, actions, n + 1, e) {
      assert WasDialed(run, actions, n, e);
    }
  }

  lemma LaterOrigin(run: seq<World>, actions: seq<Action>, n: nat, k: Id, o: Object)
    requires HasOrigin(run, actions, n, k, o)
    ensures HasOrigin(run, actions, n + 1, k, o)
  {
    match o
    case Listener(q, _) =>
      var i: nat :| i < n && ListensSince(run, actions, i, k, q);
      assert i < n + 1;
    case Dial(q, t, _) =>
      var i: nat :| i < n && DialsSince(run, actions, i, k, q, t);
      assert i < n + 1;
    case Chan(q) =>
      var t :| Dialed(run, actions, n, k, q, t);
      assert Dialed(run, actions, n + 1, k, q, t);
    case Spent =>
  }

  lemma NewListenerAccounted(run: seq<World>, actions: seq<Action>, n: nat)
    requires IsRun(run, actions) && n < |actions| && actions[n].ListenOn? && Inv(run[n])
    requires Accounted(run, actions, n + 1, run[n])
    ensures Accounted(run, actions, n + 1, run[n + 1])
  {
    var w, addr, random := run[n], actions[n].addr, actions[n].random;
    if p: U64 :| Names(addr, p) {
      ListensIff(w, addr, random, p);
      var q: Port := if p == 0 then random else p;
      if q !in w.hub {
        assert ListensSince(run, actions, n, w.next, q);
      }
    } else {
      OthersAreRefused(w, addr, random);
    }
  }

  lemma NewDialAccounted(run: seq<World>, actions: seq<Action>, n: nat)
    requires IsRun(run, actions) && n < |actions| && actions[n].DialTo? && Inv(run[n])
    requires Accounted(run, actions, n + 1, run[n])
    ensures Accounted(run, actions, n + 1, run[n + 1])
  {
    var w, addr, random := run[n], actions[n].addr, actions[n].random;
    if p: U64 :| Names(addr, p) {
      DialsIff(w, addr, random, p);
      if p != 0 && p in w.hub {
        assert DialsSince(run, actions, n, w.next, random, w.hub[p]);
      }
    } else {
      OthersAreRefused(w, addr, random);
    }
  }

  lemma PolledDialAccounted(run: seq<World>, actions: seq<Action>, n: nat, w: World, id: Id, poll: SendPoll)
    requires id in w.objects && w.objects[id].Dial? && Accounted(run, actions, n, w)
    ensures Accounted(run, actions, n, DialPolled(w, id, poll))
  {
    var d, v := w.objects[id], DialPolled(w, id, poll);
    assert HasOrigin(run, actions, n, id, d);
    assert Dialed(run, actions, n, id, d.port, d.target);
    forall k | k in v.objects ensures HasOrigin(run, actions, n, k, v.objects[k]) {
      if k != id && k in w.objects {
        assert HasOrigin(run, actions, n, k, w.objects[k]);
      }
    }
    forall e | e in v.log ensures WasDialed(run, actions, n, e) {
      if e in w.log {
        assert WasDialed(run, actions, n, e);
      }
    }
  }

  lemma PolledListenerAccounted(run: seq<World>, actions: seq<Action>, n: nat, w: World, id: Id)
    requires id in w.objects && w.objects[id].Listener? && id in w.queues && Accounted(run, actions, n, w)
    ensures Accounted(run, actions, n, ListenerPolled(w, id))
  {
    var v := ListenerPolled(w, id);
    assert HasOrigin(run, actions, n, id, w.objects[id]);
    forall e | e in v.log ensures WasDialed(run, actions, n, e) {
      if e in w.log {
        assert WasDialed(run, actions, n, e);
      }
    }
  }

  lemma ActionAccounted(run: seq<World>, actions: seq<Action>, n: nat)
    requires IsRun(run, actions) && n < |actions| && Inv(run[n]) && Accounted(run, actions, n + 1, run[n])
    ensures Accounted(run, actions, n + 1, run[n + 1])
  {
    match actions[n]
    case ListenOn(_, _) => NewListenerAccounted(run, actions, n);
    case DialTo(_, _) => NewDialAccounted(run, actions, n);
    case PollDial(id, poll) => PolledDialAccounted(run, actions, n + 1, run[n], id, poll);
    case PollListener(id) => PolledListenerAccounted(run, actions, n + 1, run[n], id);
    case Drop(_) =>
  }

  lemma StepAccounted(run: seq<World>, actions: seq<Action>, n: nat)
    requires IsRun(run, actions) && n < |actions| && Accounted(run, actions, n, run[n])
    ensures Accounted(run, actions, n + 1, run[n + 1])
  {
    RunKeepsInv(run, actions, n);
    LaterAccounted(run, actions, n, run[n]);
    ActionAccounted(run, actions, n);
  }

  lemma {:induction false} RunIsAccounted(run: seq<World>, actions: seq<Action>, n: nat)
    requires IsRun(run, actions) && n < |run|
    ensures Accounted(run, actions, n, run[n])
  {
    if n > 0 {
      RunIsAccounted(run, actions, n - 1);
      StepAccounted(run, actions, n - 1);
    }
  }

  /** Every connection ever sent to a channel is that of a dial for the port it was registered at. */
  lemma SentWasDialed(run: seq<World>, actions: seq<Action>, n: nat, k: Id, c: Conn)
    requires IsRun(run, actions) && n < |run| && Sent(k, c) in run[n].log
    ensures Dialed(run, actions, n, c.id, c.port, k)
  {
    RunIsAccounted(run, actions, n);
    assert WasDialed(run, actions, n, Sent(k, c));
  }

  /** Every listener is at the port it asked for, or at a random one if it asked for any. */
  lemma ListenersAreWhereAsked(run: seq<World>, actions: seq<Action>, n: nat, k: Id)
    requires IsRun(run, actions) && n < |run| && k in run[n].objects && run[n].objects[k].Listener?
    ensures Listened(run, actions, n, k, run[n].objects[k].port)
  {
    RunIsAccounted(run, actions, n);
    assert HasOrigin(run, actions, n, k, run[n].objects[k]);
  }

  // ----------------------------------------------------------- lives, and what is taken

  lemma ActionLives(w: World, a: Action, k: Id)
    requires Inv(w) && Can(w, a)
    ensures k < Next(w, a).next ==> (k in Next(w, a).objects <==> (k in w.objects || k == w.next) && a != Drop(k))
    ensures w.next <= Next(w, a).next <= w.next + 1
  {
    match a
    case ListenOn(_, _) =>
    case DialTo(_, _) =>
    case PollDial(_, _) =>
    case PollListener(_) =>
    case Drop(_) =>
  }

  /** A value lives from when it was made until it is dropped. */
  lemma {:induction false} LivesUntilDropped(run: seq<World>, actions: seq<Action>, n: nat, k: Id)
    requires IsRun(run, actions) && n < |run|
    ensures k in run[n].objects <==> k < run[n].next && forall i | 0 <= i < n :: actions[i] != Drop(k)
  {
    if n > 0 {
      LivesUntilDropped(run, actions, n - 1, k);
      RunKeepsInv(run, actions, n - 1);
      RunKeepsInv(run, actions, n);
      if k < run[n].next {
        ActionLives(run[n - 1], actions[n - 1], k);
        if k == run[n - 1].next {
          NotDroppedBefore(run, actions, n - 1, k);
        }
      }
    }
  }

  lemma {:induction false} NotDroppedBefore(run: seq<World>, actions: seq<Action>, n: nat, k: Id)
    requires IsRun(run, actions) && n < |run| && run[n].next <= k
    ensures forall i | 0 <= i < n :: actions[i] != Drop(k)
  {
    if n > 0 {
      RunKeepsInv(run, actions, n - 1);
      ActionLives(run[n - 1], actions[n - 1], k);
      NotDroppedBefore(run, actions, n - 1, k);
    }
  }

  /** The dial is polled with a receiver that lives. */
  ghost predicate Polls(w: World, a: Action, id: Id, poll: SendPoll) {
    && a == PollDial(id, poll)
    && id in w.objects && w.objects[id].Dial? && w.objects[id].target in w.queues
  }

  ghost predicate Polled(run: seq<World>, actions: seq<Action>, n: nat, id: Id, poll: SendPoll)
    requires |run| == |actions| + 1 && n <= |actions|
  {
    exists i: nat :: i < n && Polls(run[i], actions[i], id, poll)
  }

  lemma PolledOneMore(run: seq<World>, actions: seq<Action>, n: nat, id: Id, poll: SendPoll)
    requires |run| == |actions| + 1 && n < |actions|
    ensures Polled(run, actions, n + 1, id, poll) <==>
            Polled(run, actions, n, id, poll) || Polls(run[n], actions[n], id, poll)
  {
  }

  lemma ActionSends(w: World, a: Action, id: Id)
    requires Inv(w) && Can(w, a)
    ensures var v := Next(w, a);
            && w.next <= v.next
            && (id in v.objects && v.objects[id].Dial? ==>
                  if id == w.next then v.objects[id].toSend
                  else && id in w.objects && w.objects[id].Dial? && !Polls(w, a, id, SenderOk)
                       && (v.objects[id].toSend <==> w.objects[id].toSend && !Polls(w, a, id, LostMeanwhile)))
            && (id in v.objects && v.objects[id].Chan? ==>
                  id in w.objects && (w.objects[id].Chan? || Polls(w, a, id, SenderOk)))
    ensures w.next <= id ==> forall poll :: !Polls(w, a, id, poll)
  {
    match a
    case ListenOn(_, _) =>
    case DialTo(_, _) =>
    case PollDial(_, _) =>
    case PollListener(_) =>
    case Drop(_) =>
  }

  /** A dial completes when its listener takes the connection, and loses the connection only to one
      that went away meanwhile: until then it can be polled again. */
  lemma {:induction false} DialDoneIff(run: seq<World>, actions: seq<Action>, n: nat, id: Id)
    requires IsRun(run, actions) && n < |run|
    ensures id in run[n].objects && run[n].objects[id].Dial? ==>
              && (run[n].objects[id].toSend <==> !Polled(run, actions, n, id, LostMeanwhile))
              && !Polled(run, actions, n, id, SenderOk)
    ensures id in run[n].objects && run[n].objects[id].Chan? ==> Polled(run, actions, n, id, SenderOk)
    ensures run[n].next <= id ==> forall poll :: !Polled(run, actions, n, id, poll)
  {
    if n > 0 {
      DialDoneIff(run, actions, n - 1, id);
      RunKeepsInv(run, actions, n - 1);
      ActionSends(run[n - 1], actions[n - 1], id);
      forall poll ensures Polled(run, actions, n, id, poll) <==>
                          Polled(run, actions, n - 1, id, poll) || Polls(run[n - 1], actions[n - 1], id, poll)
      {
        PolledOneMore(run, actions, n - 1, id, poll);
      }
    }
  }

  /** A listener tells its address when it is first polled, and not again. */
  lemma {:induction false} ToldIffPolled(run: seq<World>, actions: seq<Action>, n: nat, k: Id)
    requires IsRun(run, actions) && n < |run|
    ensures k in run[n].objects && run[n].objects[k].Listener? ==>
              (run[n].objects[k].tell <==> forall i | 0 <= i < n :: actions[i] != PollListener(k))
    ensures run[n].next <= k ==> forall i | 0 <= i < n :: actions[i] != PollListener(k)
  {
    if n > 0 {
      ToldIffPolled(run, actions, n - 1, k);
      RunKeepsInv(run, actions, n - 1);
      ActionTells(run[n - 1], actions[n - 1], k);
    }
  }

  lemma ActionTells(w: World, a: Action, k: Id)
    requires Inv(w) && Can(w, a)
    ensures var v := Next(w, a);
            && w.next <= v.next
            && (k in v.objects && v.objects[k].Listener? ==>
                  if k < w.next then k in w.objects && w.objects[k].Listener?
                                     && (v.objects[k].tell <==> w.objects[k].tell && a != PollListener(k))
                  else v.objects[k].tell && a.ListenOn?)
  {
    match a
    case ListenOn(_, _) =>
    case DialTo(_, _) =>
    case PollDial(_, _) =>
    case PollListener(_) =>
    case Drop(_) =>
  }

  /** Once it has told its address, a listener that is polled takes the next connection sent to it,
      if there is one, and nobody else's. */
  lemma PolledTakesNext(run: seq<World>, actions: seq<Action>, n: nat, k: Id, c: Id)
    requires IsRun(run, actions) && n < |run| && k in run[n].objects && run[n].objects[k].Listener?
    requires k in run[n].queues
    ensures var w, v := run[n], ListenerPolled(run[n], k);
            var sent, taken := SentTo(w.log, c), TakenFrom(w.log, c);
            && SentTo(v.log, c) == sent
            && TakenFrom(v.log, c) ==
               if c == k && !w.objects[k].tell && |taken| < |sent| then sent[..|taken| + 1] else taken
  {
    RunKeepsInv(run, actions, n);
    var w := run[n];
    if !w.objects[k].tell && w.queues[k] != [] {
      LogSnoc(w.log, Taken(k, w.queues[k][0]), c);
    }
  }
}
