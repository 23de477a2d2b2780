/** The settlement pass of the binary-option engine (App.tsx:87-117): every
    pending signal whose expiry instant has been reached is resolved against
    the current price; every other signal is returned untouched.
 */
module Settlement {
  import opened Types

  /** The outcome rule.  A CALL wins when the price closed above its entry
      and loses when it closed below; a PUT is the mirror image; equal
      prices are a draw for both. */
  function Judge(kind: SignalType, entry: int, close: int): (r: Outcome)
    ensures r.IsResolved()
    ensures r == Itm <==> (kind == Call && close > entry) || (kind == Put && close < entry)
    ensures r == Otm <==> (kind == Call && close < entry) || (kind == Put && close > entry)
    ensures r == Atm <==> close == entry
  {
    match kind
    case Call => if close > entry then Itm else if close < entry then Otm else Atm
    case Put => if close < entry then Itm else if close > entry then Otm else Atm
  }

  /** +1 for a bet on a rising price, -1 for a bet on a falling one. */
  function Polarity(kind: SignalType): int {
    match kind
    case Call => 1
    case Put => -1
  }

  /** Reads a signed gain as an outcome: positive wins, negative loses. */
  function OutcomeOfGain(gain: int): Outcome {
    if gain > 0 then Itm else if gain < 0 then Otm else Atm
  }

  /** The outcome rule agrees with the reading "a signal wins exactly when
      the price moved in the direction it bet on". */
  lemma JudgeIsSignedMove(kind: SignalType, entry: int, close: int)
    ensures Judge(kind, entry, close) == OutcomeOfGain(Polarity(kind) * (close - entry))
  {
    if kind == Put {
      assert Polarity(kind) * (close - entry) == entry - close;
    }
  }

  /** A PUT judged against a price move is a CALL judged against the
      reversed move. */
  lemma PutMirrorsCall(entry: int, close: int)
    ensures Judge(Put, entry, close) == Judge(Call, close, entry)
  {
  }

  /** Nothing but the outcome and the close fields may differ between the
      two records. */
  predicate SameIdentity(a: SignalLog, b: SignalLog) {
    && a.id == b.id
    && a.createdAt == b.createdAt
    && a.kind == b.kind
    && a.entryPrice == b.entryPrice
    && a.durationSeconds == b.durationSeconds
  }

  /** A pending signal whose expiry instant has been reached at `now`. */
  predicate Matured(s: SignalLog, now: int) {
    s.outcome == Pending && now >= s.ExpiresAt()
  }

  /** The treatment of one signal by the settlement pass. */
  function SettleOne(s: SignalLog, now: int, price: int): (r: SignalLog)
    ensures !Matured(s, now) ==> r == s
    ensures Matured(s, now) ==>
      && SameIdentity(s, r)
      && r.outcome == Judge(s.kind, s.entryPrice, price)
      && r.closePrice == Some(price)
      && r.closeTime == Some(now)
  {
    if s.outcome != Pending then s
    else if now >= s.ExpiresAt() then
      s.(outcome := Judge(s.kind, s.entryPrice, price),
         closePrice := Some(price),
         closeTime := Some(now))
    else s
  }

  /** One settlement pass over the whole signal list at instant `now` with
      current price `price`. */
  function Settle(signals: seq<SignalLog>, now: int, price: int): (r: seq<SignalLog>)
    ensures |r| == |signals|
    ensures forall i :: 0 <= i < |r| ==> SameIdentity(signals[i], r[i])
    ensures forall i :: 0 <= i < |r| && signals[i].outcome.IsResolved() ==> r[i] == signals[i]
    ensures forall i :: 0 <= i < |r| && !Matured(signals[i], now) ==> r[i] == signals[i]
    ensures forall i :: 0 <= i < |r| && Matured(signals[i], now) ==>
      && r[i].outcome == Judge(signals[i].kind, signals[i].entryPrice, price)
      && r[i].closePrice == Some(price)
      && r[i].closeTime == Some(now)
    decreases |signals|
  {
    if |signals| == 0 then []
    else
      var n := |signals| - 1;
      Settle(signals[..n], now, price) + [SettleOne(signals[n], now, price)]
  }

  /** Whether the pass at `now` resolves at least one signal; this is the
      flag that triggers a statistics recomputation. */
  predicate AnyMatured(signals: seq<SignalLog>, now: int) {
    exists i :: 0 <= i < |signals| && Matured(signals[i], now)
  }

  /** The pass as the source performs it: one walk over the list that builds
      the new list and raises a flag when it resolves something. */
  method SettlePass(signals: seq<SignalLog>, now: int, price: int)
    returns (settled: seq<SignalLog>, resolvedAny: bool)
    ensures settled == Settle(signals, now, price)
    ensures resolvedAny <==> AnyMatured(signals, now)
  {
    settled := [];
    resolvedAny := false;
    var k := 0;
    while k < |signals|
      invariant 0 <= k <= |signals|
      invariant settled == Settle(signals[..k], now, price)
      invariant resolvedAny <==> AnyMatured(signals[..k], now)
    {
      if Matured(signals[k], now) {
        resolvedAny := true;
      }
      settled := settled + [SettleOne(signals[k], now, price)];
      assert signals[..k + 1][..k] == signals[..k];
      k := k + 1;
    }
    assert signals[..k] == signals;
  }

  /** When nothing has matured the pass hands back the list it was given. */
  lemma QuietPassIsIdentity(signals: seq<SignalLog>, now: int, price: int)
    requires !AnyMatured(signals, now)
    ensures Settle(signals, now, price) == signals
  {
    var r := Settle(signals, now, price);
    assert forall i :: 0 <= i < |r| ==> r[i] == signals[i];
  }

  /** After a pass no pending signal is left whose expiry has been reached. */
  lemma PassLeavesNothingMatured(signals: seq<SignalLog>, now: int, price: int)
    ensures !AnyMatured(Settle(signals, now, price), now)
  {
    var r := Settle(signals, now, price);
    forall i | 0 <= i < |r|
      ensures !Matured(r[i], now)
    {
      assert SameIdentity(signals[i], r[i]);
    }
  }

  /** Outcomes are write-once: a second pass at the same instant changes
      nothing, whatever the price is by then. */
  lemma SettleIdempotent(signals: seq<SignalLog>, now: int, price: int, laterPrice: int)
    ensures Settle(Settle(signals, now, price), now, laterPrice) == Settle(signals, now, price)
  {
    PassLeavesNothingMatured(signals, now, price);
    QuietPassIsIdentity(Settle(signals, now, price), now, laterPrice);
  }

  /** A pass keeps every signal well formed: close fields appear exactly when
      the outcome is resolved. */
  lemma SettleKeepsWellFormed(signals: seq<SignalLog>, now: int, price: int)
    requires forall i :: 0 <= i < |signals| ==> signals[i].WellFormed()
    ensures forall i :: 0 <= i < |signals| ==> Settle(signals, now, price)[i].WellFormed()
  {
  }

  /** Signal created at 0 ms, CALL at entry 100, sixty seconds: at 60 s with
      the price at 105 it wins and closes at 105; with the price back at 100
      it is a draw; one millisecond earlier it is still pending. */
  lemma SixtySecondCallScenario()
    ensures
      var s := SignalLog(0, 0, Call, 100, None, None, 60, Pending);
      && Settle([s], 60000, 105) == [s.(outcome := Itm, closePrice := Some(105), closeTime := Some(60000))]
      && Settle([s], 60000, 100)[0].outcome == Atm
      && Settle([s], 59999, 105) == [s]
  {
    var s := SignalLog(0, 0, Call, 100, None, None, 60, Pending);
    assert Matured(s, 60000);
    assert !Matured(s, 59999);
  }
}
