/** Record types of the signal engine: directions, outcomes, price points,
    signal logs and session statistics.

    Prices are modelled as integers (the engine only compares them), instants
    are integer milliseconds, and the display strings of the records
    (the clock-time labels) are replaced by the instants they were derived from.
 */
module Types {

  datatype Option<+T> = None | Some(value: T)

  /** The two directions a signal can take: CALL bets on the price going up,
      PUT on the price going down. */
  datatype SignalType = Call | Put

  /** The opposite direction. */
  function Opposite(t: SignalType): (r: SignalType)
    ensures r != t
    ensures r == Put <==> t == Call
  {
    match t
    case Call => Put
    case Put => Call
  }

  /** Pending is the only unresolved state; Itm, Otm and Atm are the three
      resolved states and read as win, loss and draw respectively. */
  datatype Outcome = Pending | Itm | Otm | Atm {

    predicate IsResolved() {
      !Pending?
    }
  }

  /** One observation of the price feed, stamped with the instant it arrived. */
  datatype PricePoint = PricePoint(time: int, value: int)

  /** One emitted signal.  `createdAt` is in milliseconds and
      `durationSeconds` in seconds; `closePrice` and `closeTime` are absent
      until the signal is resolved. */
  datatype SignalLog = SignalLog(
    id: nat,
    createdAt: int,
    kind: SignalType,
    entryPrice: int,
    closePrice: Option<int>,
    closeTime: Option<int>,
    durationSeconds: int,
    outcome: Outcome)
  {
    /** The instant, in milliseconds, at which the signal matures. */
    function ExpiresAt(): int {
      createdAt + durationSeconds * 1000
    }

    /** A signal is well formed when its close fields are present exactly
        when its outcome is resolved. */
    predicate WellFormed() {
      && (outcome.IsResolved() <==> closePrice.Some?)
      && (outcome.IsResolved() <==> closeTime.Some?)
    }
  }

  /** Aggregate counters over the resolved signals of a session. */
  datatype SessionStats = SessionStats(
    wins: nat,
    losses: nat,
    draws: nat,
    winRate: real,
    totalSignals: nat)

  /** The statistics of a session with no resolved signal; also what a reset
      installs. */
  const ZeroStats: SessionStats := SessionStats(0, 0, 0, 0.0, 0)
}
