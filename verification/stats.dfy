/** Session statistics (App.tsx:131-147): a pure recount over the resolved
    signals, with a win rate guarded against an empty session.
 */
module Stats {
  import opened Types
  import Settlement

  /** The resolved signals, in list order. */
  function Finished(signals: seq<SignalLog>): seq<SignalLog>
    decreases |signals|
  {
    if |signals| == 0 then []
    else
      var n := |signals| - 1;
      Finished(signals[..n]) + (if signals[n].outcome.IsResolved() then [signals[n]] else [])
  }

  /** The signals that carry outcome `o`, in list order. */
  function WithOutcome(signals: seq<SignalLog>, o: Outcome): seq<SignalLog>
    decreases |signals|
  {
    if |signals| == 0 then []
    else
      var n := |signals| - 1;
      WithOutcome(signals[..n], o) + (if signals[n].outcome == o then [signals[n]] else [])
  }

  /** The outcome column of the signal list. */
  function Outcomes(signals: seq<SignalLog>): (r: seq<Outcome>)
    ensures |r| == |signals|
    decreases |signals|
  {
    if |signals| == 0 then []
    else
      var n := |signals| - 1;
      Outcomes(signals[..n]) + [signals[n].outcome]
  }

  /** Recomputes the statistics from the signal list. */
  function ComputeStats(signals: seq<SignalLog>): (r: SessionStats)
    ensures r.wins + r.losses + r.draws == r.totalSignals
    ensures r.totalSignals <= |signals|
    ensures r.winRate == WinRate(r.wins, r.totalSignals)
  {
    var finished := Finished(signals);
    var wins := |WithOutcome(finished, Itm)|;
    var losses := |WithOutcome(finished, Otm)|;
    var draws := |WithOutcome(finished, Atm)|;
    FinishedPartition(signals);
    FinishedMatchesTally(signals);
    var total := |finished|;
    SessionStats(wins, losses, draws, WinRate(wins, total), total)
  }

  /** The counter of `stats` that records outcome `o`. */
  function Counter(stats: SessionStats, o: Outcome): nat {
    match o
    case Itm => stats.wins
    case Otm => stats.losses
    case Atm => stats.draws
    case Pending => 0
  }

  /** The counters agree with a plain tally of the outcome column: wins,
      losses and draws count the ITM, OTM and ATM entries. */
  lemma CounterIsTally(signals: seq<SignalLog>, o: Outcome)
    requires o.IsResolved()
    ensures Counter(ComputeStats(signals), o) == multiset(Outcomes(signals))[o]
  {
    CountMatchesTally(signals, o);
  }

  /** The total counts every entry of the outcome column that is not
      PENDING. */
  lemma {:induction false} TotalExcludesPending(signals: seq<SignalLog>)
    ensures ComputeStats(signals).totalSignals + multiset(Outcomes(signals))[Pending] == |signals|
  {
    FinishedMatchesTally(signals);
  }

  /** The share of wins among `total` resolved signals, in percent; zero
      for an empty session rather than a division by zero. */
  function WinRate(wins: nat, total: nat): (r: real)
    requires wins <= total
    ensures total == 0 ==> r == 0.0
    ensures total > 0 ==> r * (total as real) == (wins as real) * 100.0
    ensures 0.0 <= r <= 100.0
  {
    if total > 0 then
      var q := wins as real / total as real;
      assert q * (total as real) == wins as real;
      assert q <= 1.0;
      q * 100.0
    else
      0.0
  }

  lemma TallyStep(signals: seq<SignalLog>)
    requires |signals| > 0
    ensures multiset(Outcomes(signals))
         == multiset(Outcomes(signals[..|signals| - 1])) + multiset{signals[|signals| - 1].outcome}
  {
  }

  /** For each resolved outcome, filtering the finished list and tallying
      the outcome column give the same count. */
  lemma {:induction false} CountMatchesTally(signals: seq<SignalLog>, o: Outcome)
    requires o.IsResolved()
    ensures |WithOutcome(Finished(signals), o)| == multiset(Outcomes(signals))[o]
    decreases |signals|
  {
    if |signals| > 0 {
      var n := |signals| - 1;
      CountMatchesTally(signals[..n], o);
      TallyStep(signals);
      CountStep(signals, o);
    }
  }

  lemma CountStep(signals: seq<SignalLog>, o: Outcome)
    requires |signals| > 0 && o.IsResolved()
    ensures |WithOutcome(Finished(signals), o)|
         == |WithOutcome(Finished(signals[..|signals| - 1]), o)| + (if signals[|signals| - 1].outcome == o then 1 else 0)
  {
    var n := |signals| - 1;
    var extra := if signals[n].outcome.IsResolved() then [signals[n]] else [];
    assert Finished(signals) == Finished(signals[..n]) + extra;
    FilterAppend(Finished(signals[..n]), extra, o);
    if |extra| == 1 {
      assert extra[..0] == [];
    }
  }

  /** The finished list holds every signal but the pending ones. */
  lemma {:induction false} FinishedMatchesTally(signals: seq<SignalLog>)
    ensures |Finished(signals)| + multiset(Outcomes(signals))[Pending] == |signals|
    decreases |signals|
  {
    if |signals| > 0 {
      FinishedMatchesTally(signals[..|signals| - 1]);
      TallyStep(signals);
    }
  }

  /** Every finished signal is a win, a loss or a draw. */
  lemma {:induction false} FinishedPartition(signals: seq<SignalLog>)
    ensures |WithOutcome(Finished(signals), Itm)| + |WithOutcome(Finished(signals), Otm)|
            + |WithOutcome(Finished(signals), Atm)| == |Finished(signals)|
    decreases |signals|
  {
    if |signals| > 0 {
      var n := |signals| - 1;
      var init := signals[..n];
      FinishedPartition(init);
      var extra := if signals[n].outcome.IsResolved() then [signals[n]] else [];
      FilterAppend(Finished(init), extra, Itm);
      FilterAppend(Finished(init), extra, Otm);
      FilterAppend(Finished(init), extra, Atm);
    }
  }

  lemma {:induction false} FilterAppend(a: seq<SignalLog>, b: seq<SignalLog>, o: Outcome)
    ensures WithOutcome(a + b, o) == WithOutcome(a, o) + WithOutcome(b, o)
    decreases |b|
  {
    if |b| > 0 {
      var n := |b| - 1;
      assert (a + b)[..|a + b| - 1] == a + b[..n];
      FilterAppend(a, b[..n], o);
    } else {
      assert a + b == a;
    }
  }

  /** Appending a pending signal leaves the statistics as they were. */
  lemma {:induction false} PendingDoesNotCount(signals: seq<SignalLog>, s: SignalLog)
    requires s.outcome == Pending
    ensures ComputeStats(signals + [s]) == ComputeStats(signals)
  {
    assert (signals + [s])[..|signals|] == signals;
    assert Finished(signals + [s]) == Finished(signals);
  }

  /** A settlement pass never lowers the wins, losses or draws counter:
      resolved signals keep their outcomes and pending ones can only join
      the tally. */
  lemma SettleNeverLowersCounter(signals: seq<SignalLog>, now: int, price: int, o: Outcome)
    ensures Counter(ComputeStats(signals), o) <= Counter(ComputeStats(Settlement.Settle(signals, now, price)), o)
  {
    if o.IsResolved() {
      CounterIsTally(signals, o);
      CounterIsTally(Settlement.Settle(signals, now, price), o);
      SettleRaisesTally(signals, now, price, o);
    }
  }

  /** A settlement pass never lowers the number of finished signals. */
  lemma {:induction false} SettleNeverLowersTotal(signals: seq<SignalLog>, now: int, price: int)
    ensures ComputeStats(signals).totalSignals <= ComputeStats(Settlement.Settle(signals, now, price)).totalSignals
  {
    TotalExcludesPending(signals);
    TotalExcludesPending(Settlement.Settle(signals, now, price));
    SettleLowersPending(signals, now, price);
  }

  /** A pass can only raise the tally of a resolved outcome. */
  lemma {:induction false} SettleRaisesTally(signals: seq<SignalLog>, now: int, price: int, o: Outcome)
    requires o.IsResolved()
    ensures multiset(Outcomes(signals))[o] <= multiset(Outcomes(Settlement.Settle(signals, now, price)))[o]
    decreases |signals|
  {
    if |signals| > 0 {
      var n := |signals| - 1;
      var r := Settlement.Settle(signals, now, price);
      assert r[..n] == Settlement.Settle(signals[..n], now, price);
      SettleRaisesTally(signals[..n], now, price, o);
      TallyCount(signals, o);
      TallyCount(r, o);
      assert r[n].outcome == signals[n].outcome || signals[n].outcome == Pending;
    }
  }

  /** A pass can only lower the number of pending signals. */
  lemma {:induction false} SettleLowersPending(signals: seq<SignalLog>, now: int, price: int)
    ensures multiset(Outcomes(Settlement.Settle(signals, now, price)))[Pending] <= multiset(Outcomes(signals))[Pending]
    decreases |signals|
  {
    if |signals| > 0 {
      var n := |signals| - 1;
      var r := Settlement.Settle(signals, now, price);
      assert r[..n] == Settlement.Settle(signals[..n], now, price);
      SettleLowersPending(signals[..n], now, price);
      TallyCount(signals, Pending);
      TallyCount(r, Pending);
      assert r[n].outcome == signals[n].outcome || signals[n].outcome == Pending;
    }
  }

  lemma TallyCount(signals: seq<SignalLog>, o: Outcome)
    requires |signals| > 0
    ensures multiset(Outcomes(signals))[o]
         == multiset(Outcomes(signals[..|signals| - 1]))[o] + (if signals[|signals| - 1].outcome == o then 1 else 0)
  {
    TallyStep(signals);
  }

  /** The empty session has all-zero statistics. */
  lemma EmptySessionStats()
    ensures ComputeStats([]) == ZeroStats
  {
  }
}
