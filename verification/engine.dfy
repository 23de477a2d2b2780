/** The signal engine of App.tsx as an explicit state machine.  Each timer
    callback, feed handler and button handler of the component becomes one
    event; `Step` applies an event to the session state and `Run` folds a
    whole history of events.
 */
module Engine {
  import opened Types
  import PriceHistory
  import Settlement
  import Stats

  /** Expiry, in seconds, of a freshly opened session (App.tsx:15). */
  const DefaultExpiry: int := 60

  /** Lower bound of the generator period, in milliseconds (App.tsx:180). */
  const MinGeneratorPeriod: int := 5000

  /** Generator period per second of expiry, in milliseconds (App.tsx:180). */
  const PeriodPerExpirySecond: int := 500

  /** The component state the engine reads and writes. */
  datatype Session = Session(
    isRunning: bool,
    expiryTime: int,
    isConnected: bool,
    priceData: seq<PricePoint>,
    currentPrice: int,
    signals: seq<SignalLog>,
    stats: SessionStats,
    nextSignal: SignalType)

  /** The expiries, in seconds, the control panel offers (S30, M1, M5). */
  const ExpiryChoices: set<int> := {30, 60, 300}

  /** The state the component starts in (App.tsx:14-29): stopped,
      disconnected, with no price yet, no signals, zero statistics and a CALL
      as the first direction.  It already satisfies the invariant every
      reachable session keeps. */
  function Initial(): (r: Session)
    ensures !r.isRunning && !r.isConnected && r.currentPrice == 0
    ensures r.signals == [] && r.priceData == [] && r.nextSignal == Call
    ensures r.expiryTime == DefaultExpiry && r.expiryTime in ExpiryChoices
    ensures Consistent(r)
  {
    Stats.EmptySessionStats();
    Session(false, DefaultExpiry, false, [], 0, [], ZeroStats, Call)
  }

  /** Everything that can happen to the engine.  `GeneratorFired` and
      `CheckerFired` are the two interval timers, carrying the clock reading
      (and, for the generator, the id it draws); the others are the feed
      handlers and the session controls. */
  datatype Event =
    | PriceTick(time: int, price: int)
    | FeedOpened
    | FeedClosed
    | ToggleRunning
    | SetExpiry(seconds: int)
    | GeneratorFired(id: nat, now: int)
    | CheckerFired(now: int)
    | ResetSession

  /** The generator period for an expiry of `expiry` seconds: half a second
      per second of expiry, but never less than five seconds. */
  function GeneratorPeriod(expiry: int): (r: int)
    ensures r >= MinGeneratorPeriod
    ensures r >= expiry * PeriodPerExpirySecond
    ensures r == MinGeneratorPeriod || r == expiry * PeriodPerExpirySecond
  {
    var scaled := expiry * PeriodPerExpirySecond;
    if scaled > MinGeneratorPeriod then scaled else MinGeneratorPeriod
  }

  /** The generator timer exists only while the session runs and the feed
      is connected. */
  predicate GeneratorActive(st: Session) {
    st.isRunning && st.isConnected
  }

  /** Emits one signal in the direction of `nextSignal` at the current price
      and flips the direction; does nothing while no price has arrived. */
  function Generate(st: Session, id: nat, now: int): (r: Session)
    ensures st.currentPrice == 0 ==> r == st
    ensures st.currentPrice != 0 ==>
      && |r.signals| == |st.signals| + 1
      && r.signals[..|st.signals|] == st.signals
      && r.signals[|st.signals|].id == id
      && r.signals[|st.signals|].createdAt == now
      && r.signals[|st.signals|].kind == st.nextSignal
      && r.signals[|st.signals|].entryPrice == st.currentPrice
      && r.signals[|st.signals|].durationSeconds == st.expiryTime
      && r.signals[|st.signals|].outcome == Pending
      && r.signals[|st.signals|].closePrice.None?
      && r.signals[|st.signals|].closeTime.None?
      && r.nextSignal != st.nextSignal
      && r.(signals := st.signals, nextSignal := st.nextSignal) == st
  {
    if st.currentPrice == 0 then st
    else
      var signal := SignalLog(id, now, st.nextSignal, st.currentPrice, None, None, st.expiryTime, Pending);
      st.(signals := st.signals + [signal], nextSignal := Opposite(st.nextSignal))
  }

  /** One firing of the outcome checker: settle the list at the current
      price and, when something was resolved, recount the statistics. */
  function Check(st: Session, now: int): (r: Session)
    ensures r.signals == Settlement.Settle(st.signals, now, st.currentPrice)
    ensures r.(signals := st.signals, stats := st.stats) == st
    ensures !Settlement.AnyMatured(st.signals, now) ==> r == st
    ensures Settlement.AnyMatured(st.signals, now) ==> r.stats == Stats.ComputeStats(r.signals)
  {
    if |st.signals| == 0 then st
    else
      var settled := Settlement.Settle(st.signals, now, st.currentPrice);
      if Settlement.AnyMatured(st.signals, now) then
        st.(signals := settled, stats := Stats.ComputeStats(settled))
      else
        Settlement.QuietPassIsIdentity(st.signals, now, st.currentPrice);
        st.(signals := settled)
  }

  /** The session reset: stops the run and clears the signals and the
      statistics, and nothing else. */
  function Reset(st: Session): (r: Session)
    ensures r.signals == [] && r.stats == ZeroStats && !r.isRunning
    ensures r.nextSignal == st.nextSignal
    ensures r.priceData == st.priceData && r.currentPrice == st.currentPrice
    ensures r.isConnected == st.isConnected && r.expiryTime == st.expiryTime
  {
    st.(isRunning := false, signals := [], stats := ZeroStats)
  }

  /** Applies one event.  Only a generator firing while the generator is
      active adds a signal or flips the direction; only the checker and a
      reset touch the existing signals and the statistics; only the feed moves
      the price; the expiry changes only through the control panel, while the
      session is stopped, to one of the offered values. */
  function Step(st: Session, ev: Event): (r: Session)
    ensures |r.signals| > |st.signals| ==> ev.GeneratorFired? && GeneratorActive(st)
    ensures r.nextSignal != st.nextSignal ==> ev.GeneratorFired? && GeneratorActive(st)
    ensures (ev.GeneratorFired? && !GeneratorActive(st)) || ev.PriceTick? || ev.FeedOpened?
            || ev.FeedClosed? || ev.ToggleRunning? || ev.SetExpiry? ==>
              r.signals == st.signals && r.stats == st.stats
    ensures r.currentPrice != st.currentPrice || r.priceData != st.priceData ==> ev.PriceTick?
    ensures ev.PriceTick? ==>
      && r.currentPrice == ev.price
      && |r.priceData| > 0 && r.priceData[|r.priceData| - 1] == PricePoint(ev.time, ev.price)
    ensures r.isConnected != st.isConnected ==> ev.FeedOpened? || ev.FeedClosed?
    ensures ev.FeedOpened? ==> r.isConnected
    ensures ev.FeedClosed? ==> !r.isConnected
    ensures r.isRunning != st.isRunning ==> ev.ToggleRunning? || ev.ResetSession?
    ensures ev.ToggleRunning? ==> r.isRunning == !st.isRunning
    ensures r.expiryTime != st.expiryTime ==> ev.SetExpiry? && !st.isRunning && r.expiryTime in ExpiryChoices
    ensures ev.SetExpiry? && !st.isRunning && ev.seconds in ExpiryChoices ==> r.expiryTime == ev.seconds
    ensures ev.GeneratorFired? && GeneratorActive(st) ==> r == Generate(st, ev.id, ev.now)
    ensures ev.CheckerFired? ==> r == Check(st, ev.now)
    ensures ev.ResetSession? ==> r == Reset(st)
    ensures ev.PriceTick? ==> r.priceData == PriceHistory.Push(st.priceData, PricePoint(ev.time, ev.price))
  {
    match ev
    case PriceTick(time, price) =>
      st.(currentPrice := price,
          priceData := PriceHistory.Push(st.priceData, PricePoint(time, price)))
    case FeedOpened => st.(isConnected := true)
    case FeedClosed => st.(isConnected := false)
    case ToggleRunning => st.(isRunning := !st.isRunning)
    case SetExpiry(seconds) =>
      if st.isRunning || seconds !in ExpiryChoices then st else st.(expiryTime := seconds)
    case GeneratorFired(id, now) => if GeneratorActive(st) then Generate(st, id, now) else st
    case CheckerFired(now) => Check(st, now)
    case ResetSession => Reset(st)
  }

  /** Applies a history of events, oldest first. */
  function Run(st: Session, evs: seq<Event>): Session
    decreases |evs|
  {
    if |evs| == 0 then st else Step(Run(st, evs[..|evs| - 1]), evs[|evs| - 1])
  }

  /** The direction of the signal `back` places before the next one. */
  function DirectionBack(next: SignalType, back: nat): SignalType {
    if back % 2 == 0 then next else Opposite(next)
  }

  /** Consecutive signals alternate, and the last one is the opposite of the
      direction the next one will take. */
  predicate Alternates(signals: seq<SignalLog>, next: SignalType) {
    forall i :: 0 <= i < |signals| ==> signals[i].kind == DirectionBack(next, |signals| - i)
  }

  /** What every reachable session satisfies. */
  predicate Consistent(st: Session) {
    && st.stats == Stats.ComputeStats(st.signals)
    && (forall i :: 0 <= i < |st.signals| ==> st.signals[i].WellFormed())
    && Alternates(st.signals, st.nextSignal)
    && |st.priceData| <= PriceHistory.Capacity
  }

  /** Generation leaves the statistics equal to a recount: the new signal
      is pending and does not count. */
  lemma GenerateKeepsStats(st: Session, id: nat, now: int)
    ensures st.stats == Stats.ComputeStats(st.signals) ==>
      Generate(st, id, now).stats == Stats.ComputeStats(Generate(st, id, now).signals)
  {
    if st.currentPrice != 0 {
      var r := Generate(st, id, now);
      var signal := r.signals[|st.signals|];
      assert r.signals == st.signals + [signal];
      Stats.PendingDoesNotCount(st.signals, signal);
    }
  }

  lemma GenerateKeepsConsistent(st: Session, id: nat, now: int)
    ensures Consistent(st) ==> Consistent(Generate(st, id, now))
  {
    if Consistent(st) && st.currentPrice != 0 {
      var r := Generate(st, id, now);
      var signal := r.signals[|st.signals|];
      assert r.signals == st.signals + [signal];
      assert signal.WellFormed();
      GenerateKeepsStats(st, id, now);
      AppendKeepsAlternation(st.signals, signal, st.nextSignal);
    }
  }

  /** Appending a signal in the expected direction and flipping the
      direction keeps the alternation. */
  lemma AppendKeepsAlternation(signals: seq<SignalLog>, signal: SignalLog, next: SignalType)
    requires Alternates(signals, next)
    requires signal.kind == next
    ensures Alternates(signals + [signal], Opposite(next))
  {
    var grown := signals + [signal];
    forall i | 0 <= i < |grown|
      ensures grown[i].kind == DirectionBack(Opposite(next), |grown| - i)
    {
      if i < |signals| {
        assert grown[i] == signals[i];
      }
    }
  }

  lemma CheckKeepsConsistent(st: Session, now: int)
    ensures Consistent(st) ==> Consistent(Check(st, now))
  {
    if Consistent(st) && |st.signals| > 0 {
      var r := Check(st, now);
      Settlement.SettleKeepsWellFormed(st.signals, now, st.currentPrice);
      CheckKeepsKinds(st, now);
      SameKindsKeepAlternation(st.signals, r.signals, st.nextSignal);
    }
  }

  /** A checker firing keeps every signal's direction and the next
      direction. */
  lemma CheckKeepsKinds(st: Session, now: int)
    ensures |Check(st, now).signals| == |st.signals|
    ensures Check(st, now).nextSignal == st.nextSignal
    ensures forall i :: 0 <= i < |st.signals| ==> Check(st, now).signals[i].kind == st.signals[i].kind
  {
    if |st.signals| > 0 {
      var settled := Settlement.Settle(st.signals, now, st.currentPrice);
      assert forall i :: 0 <= i < |st.signals| ==> Settlement.SameIdentity(st.signals[i], settled[i]);
    }
  }

  lemma SameKindsKeepAlternation(a: seq<SignalLog>, b: seq<SignalLog>, next: SignalType)
    requires Alternates(a, next)
    requires |a| == |b|
    requires forall i :: 0 <= i < |a| ==> b[i].kind == a[i].kind
    ensures Alternates(b, next)
  {
  }

  /** Every event keeps the session consistent. */
  lemma StepKeepsConsistent(st: Session, ev: Event)
    ensures Consistent(st) ==> Consistent(Step(st, ev))
  {
    match ev
    case GeneratorFired(id, now) =>
      if GeneratorActive(st) {
        GenerateKeepsConsistent(st, id, now);
      }
    case CheckerFired(now) =>
      CheckKeepsConsistent(st, now);
    case ResetSession =>
      Stats.EmptySessionStats();
    case _ =>
  }

  /** Every session reachable from a consistent one is consistent: the
      statistics always equal a recount of the signal list, close fields are
      present exactly on resolved signals, directions alternate, and the
      price history stays within its capacity. */
  lemma {:induction false} RunKeepsConsistent(st: Session, evs: seq<Event>)
    ensures Consistent(st) ==> Consistent(Run(st, evs))
    decreases |evs|
  {
    if |evs| > 0 {
      RunKeepsConsistent(st, evs[..|evs| - 1]);
      StepKeepsConsistent(Run(st, evs[..|evs| - 1]), evs[|evs| - 1]);
    }
  }

  /** Every session the component can reach from its initial state is
      consistent; in particular its statistics always equal a recount of its
      signal list. */
  lemma ReachableIsConsistent(evs: seq<Event>)
    ensures Consistent(Run(Initial(), evs))
    ensures Run(Initial(), evs).stats == Stats.ComputeStats(Run(Initial(), evs).signals)
  {
    RunKeepsConsistent(Initial(), evs);
  }

  /** Counting from the first signal of a session that never reset: the
      k-th signal is a CALL exactly when k is even, and the next one will be
      a CALL exactly when an even number has been emitted. */
  predicate CallOnEven(st: Session) {
    && (forall k :: 0 <= k < |st.signals| ==> (st.signals[k].kind == Call <==> k % 2 == 0))
    && (st.nextSignal == Call <==> |st.signals| % 2 == 0)
  }

  lemma StepKeepsCallOnEven(st: Session, ev: Event)
    requires CallOnEven(st)
    requires !ev.ResetSession?
    ensures CallOnEven(Step(st, ev))
  {
    match ev
    case GeneratorFired(id, now) =>
      if GeneratorActive(st) {
        GenerateKeepsCallOnEven(st, id, now);
      }
    case CheckerFired(now) =>
      CheckKeepsKinds(st, now);
    case _ =>
  }

  lemma GenerateKeepsCallOnEven(st: Session, id: nat, now: int)
    requires CallOnEven(st)
    ensures CallOnEven(Generate(st, id, now))
  {
    if st.currentPrice != 0 {
      var r := Generate(st, id, now);
      forall k | 0 <= k < |r.signals|
        ensures r.signals[k].kind == Call <==> k % 2 == 0
      {
        if k < |st.signals| {
          assert r.signals[k] == r.signals[..|st.signals|][k];
        }
      }
    }
  }

  /** Directions strictly alternate from CALL over any history without a
      reset. */
  lemma {:induction false} AlternationFromStart(evs: seq<Event>)
    requires forall e :: e in evs ==> !e.ResetSession?
    ensures CallOnEven(Run(Initial(), evs))
    decreases |evs|
  {
    if |evs| > 0 {
      var init := evs[..|evs| - 1];
      assert forall e :: e in init ==> e in evs;
      AlternationFromStart(init);
      StepKeepsCallOnEven(Run(Initial(), init), evs[|evs| - 1]);
    }
  }

  /** While the feed stays disconnected no signal is generated, whatever
      else happens. */
  lemma {:induction false} NoSignalWhileDisconnected(st: Session, evs: seq<Event>)
    requires !st.isConnected
    requires forall e :: e in evs ==> !e.FeedOpened?
    ensures !Run(st, evs).isConnected
    ensures |Run(st, evs).signals| <= |st.signals|
    decreases |evs|
  {
    if |evs| > 0 {
      var init := evs[..|evs| - 1];
      assert forall e :: e in init ==> e in evs;
      NoSignalWhileDisconnected(st, init);
      assert evs[|evs| - 1] in evs;
    }
  }

  /** While the session is stopped no signal is generated, whatever else
      happens. */
  lemma {:induction false} NoSignalWhileStopped(st: Session, evs: seq<Event>)
    requires !st.isRunning
    requires forall e :: e in evs ==> !e.ToggleRunning?
    ensures !Run(st, evs).isRunning
    ensures |Run(st, evs).signals| <= |st.signals|
    decreases |evs|
  {
    if |evs| > 0 {
      var init := evs[..|evs| - 1];
      assert forall e :: e in init ==> e in evs;
      NoSignalWhileStopped(st, init);
      assert evs[|evs| - 1] in evs;
    }
  }

  /** Until a non-zero price arrives the session holds no signal. */
  lemma {:induction false} NoSignalBeforeFirstPrice(evs: seq<Event>)
    requires forall e :: e in evs && e.PriceTick? ==> e.price == 0
    ensures Run(Initial(), evs).currentPrice == 0
    ensures Run(Initial(), evs).signals == []
    decreases |evs|
  {
    if |evs| > 0 {
      var init := evs[..|evs| - 1];
      assert forall e :: e in init ==> e in evs;
      NoSignalBeforeFirstPrice(init);
      assert evs[|evs| - 1] in evs;
      StepWithoutPrice(Run(Initial(), init), evs[|evs| - 1]);
    }
  }

  lemma StepWithoutPrice(st: Session, ev: Event)
    requires st.currentPrice == 0 && st.signals == []
    requires ev.PriceTick? ==> ev.price == 0
    ensures Step(st, ev).currentPrice == 0 && Step(st, ev).signals == []
  {
  }

  lemma RunSnoc(st: Session, evs: seq<Event>, ev: Event)
    ensures Run(st, evs + [ev]) == Step(Run(st, evs), ev)
  {
    assert (evs + [ev])[..|evs|] == evs;
  }

  /** A reset does not restore the initial direction: after one signal
      (a CALL) and a reset, the first signal of the new run is a PUT. */
  lemma ResetKeepsDirection()
    ensures
      var evs := [PriceTick(0, 100), FeedOpened, ToggleRunning, GeneratorFired(0, 1000),
                  ResetSession, ToggleRunning, GeneratorFired(1, 2000)];
      var st := Run(Initial(), evs);
      |st.signals| == 1 && st.signals[0].kind == Put
  {
    var e0: seq<Event> := [];
    var e1 := e0 + [PriceTick(0, 100)];
    var e2 := e1 + [FeedOpened];
    var e3 := e2 + [ToggleRunning];
    var e4 := e3 + [GeneratorFired(0, 1000)];
    var e5 := e4 + [ResetSession];
    var e6 := e5 + [ToggleRunning];
    var e7 := e6 + [GeneratorFired(1, 2000)];
    RunSnoc(Initial(), e0, PriceTick(0, 100));
    RunSnoc(Initial(), e1, FeedOpened);
    RunSnoc(Initial(), e2, ToggleRunning);
    RunSnoc(Initial(), e3, GeneratorFired(0, 1000));
    RunSnoc(Initial(), e4, ResetSession);
    RunSnoc(Initial(), e5, ToggleRunning);
    RunSnoc(Initial(), e6, GeneratorFired(1, 2000));
    assert Run(Initial(), e4).nextSignal == Put;
    assert Run(Initial(), e6).signals == [] && Run(Initial(), e6).nextSignal == Put;
    assert e7 == [PriceTick(0, 100), FeedOpened, ToggleRunning, GeneratorFired(0, 1000),
                  ResetSession, ToggleRunning, GeneratorFired(1, 2000)];
  }
}
