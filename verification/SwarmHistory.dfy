/** The runs of the poll loop as runs of the network: every event of the pool, dial, ban and unban
    takes effect, in its order. */
module SwarmHistory {
  import R = SwarmReports
  import opened SwarmBans
  import opened SwarmTurns

  ghost function MoveSteps(s: State, m: Move): seq<R.Step>
    requires Can(s, m)
  {
    match m
    case Poll(t) => RoundSteps(s, t)
    case Use(step) => [step]
  }

  /** All that has happened to the network before state `k`. */
  ghost function History(run: seq<State>, moves: seq<Move>, k: nat): seq<R.Step>
    requires IsRun(run, moves) && k < |run|
  {
    if k == 0 then []
    else
      RunKeepsInv(run, moves, k - 1);
      History(run, moves, k - 1) + MoveSteps(run[k - 1], moves[k - 1])
  }

  lemma MoveStepsLead(s: State, m: Move)
    requires Inv(s) && Can(s, m)
    ensures StepsLead(s.net, MoveSteps(s, m), Next(s, m).net)
  {
    match m
    case Poll(t) => RoundStepsLead(s, t);
    case Use(step) => OneStepLeads(s.net, step);
  }

  lemma OneMore(nets: seq<R.Net>, steps: seq<R.Step>, step: R.Step, m: R.Net)
    requires R.IsRun(nets, steps) && R.Can(nets[|steps|], step) && m == R.Next(nets[|steps|], step)
    ensures R.IsRun(nets + [m], steps + [step])
  {
    var nets', steps' := nets + [m], steps + [step];
    forall i | 0 <= i < |steps'| ensures R.Can(nets'[i], steps'[i]) && nets'[i + 1] == R.Next(nets'[i], steps'[i]) {
      if i < |steps| {
        assert steps'[i] == steps[i] && nets'[i] == nets[i] && nets'[i + 1] == nets[i + 1];
      } else {
        assert steps'[i] == step && nets'[i] == nets[i] && nets'[i + 1] == m;
      }
    }
  }

  lemma {:induction false} ManyMore(nets: seq<R.Net>, steps: seq<R.Step>, more: seq<R.Step>, m: R.Net)
    returns (all: seq<R.Net>)
    requires R.IsRun(nets, steps) && StepsLead(nets[|steps|], more, m)
    ensures R.IsRun(all, steps + more) && all[|steps + more|] == m
    decreases |more|
  {
    if more == [] {
      assert steps + more == steps;
      all := nets;
    } else {
      var next := R.Next(nets[|steps|], more[0]);
      OneMore(nets, steps, more[0], next);
      assert (nets + [next])[|steps + [more[0]]|] == next;
      all := ManyMore(nets + [next], steps + [more[0]], more[1..], m);
      assert steps + [more[0]] + more[1..] == steps + more;
    }
  }

  /** Every run of the poll loop is, for the network, the run of its history. */
  lemma {:induction false} HistoryIsRun(run: seq<State>, moves: seq<Move>, k: nat) returns (nets: seq<R.Net>)
    requires IsRun(run, moves) && k < |run|
    ensures R.IsRun(nets, History(run, moves, k)) && nets[|nets| - 1] == run[k].net
  {
    if k == 0 {
      nets := [R.INIT];
    } else {
      nets := HistoryIsRun(run, moves, k - 1);
      RunKeepsInv(run, moves, k - 1);
      MoveStepsLead(run[k - 1], moves[k - 1]);
      nets := ManyMore(nets, History(run, moves, k - 1), MoveSteps(run[k - 1], moves[k - 1]), run[k].net);
    }
  }

  /** In every run of the poll loop the behaviour hears of a connection exactly if its peer was not
      banned when it was established. */
  lemma SwarmHearsOfIff(run: seq<State>, moves: seq<Move>, k: nat, i: nat, id: R.ConnectionId, c: R.Connection)
    requires IsRun(run, moves) && k < |run| && i < |History(run, moves, k)|
    requires History(run, moves, k)[i] == R.Pool(R.ConnectionEstablished(id, c))
    ensures Mentioned(run[k].net.calls, id) <==> !Banned(History(run, moves, k)[..i], c.peer)
  {
    var steps := History(run, moves, k);
    var nets := HistoryIsRun(run, moves, k);
    HeardOfIff(nets, steps, i, |steps|, id, c);
  }

  /** In every run of the poll loop the banned peers are those last banned and not unbanned, and the
      connections those established and not closed. */
  lemma SwarmFollowsHistory(run: seq<State>, moves: seq<Move>, k: nat, p: R.PeerId, id: R.ConnectionId)
    requires IsRun(run, moves) && k < |run|
    ensures p in run[k].net.bannedPeers <==> Banned(History(run, moves, k), p)
    ensures id in run[k].net.established <==> Lives(History(run, moves, k), id)
  {
    var steps := History(run, moves, k);
    var nets := HistoryIsRun(run, moves, k);
    assert steps[..|steps|] == steps;
    BannedPeersAre(nets, steps, |steps|, p);
    EstablishedAre(nets, steps, |steps|, id);
  }
}
