# Binary-option signal engine — Dafny model

This project models the signal engine of the PocketSignal trading assistant
(`App.tsx` and the record types in `types.ts`). The engine takes a live price
and emits CALL/PUT signals that strictly alternate. After each signal's
expiry it settles the signal as ITM (win), OTM (loss) or ATM (draw). It keeps
session statistics that are recounted from the signal list, and a bounded
rolling price history.

Each React timer callback, feed handler and button handler becomes a pure
function over an explicit `Engine.Session` state:

- `PriceHistory.Push` is the price-buffer updater.
- `Settlement.Settle` is the map the 250 ms outcome checker applies to the
  signal list; `Engine.Check` is one firing of that checker.
- `Stats.ComputeStats` is `updateStats`.
- `Engine.Generate` is `generateSignal`.
- `Engine.Reset` is `handleReset`.
- `Engine.Step` and `Engine.Run` combine all of these into an event-driven
  state machine. The generator timer only exists while the session is
  running and the feed is connected.

Modules: `Types` (types.ts), `PriceHistory`, `Settlement`, `Stats`, `Engine`.

Modelling choices:

- Prices are `int`, because the engine only compares them.
- The win rate is `real`.
- Instants are integer milliseconds. The clock reading is a parameter of the
  timer events.
- Signal ids are supplied by the caller. The source draws them from the
  clock and a random suffix.
- The display strings (`entryTime`, the chart label of a price point, the
  locale string in `closeTime`) are replaced by the instants they were
  formatted from.

Behaviour worth noting:

- A session reset does not restore the initial direction. It also keeps the
  price history and the current price (App.tsx:193-197).
  `Engine.ResetKeepsDirection` exhibits a run in which the first signal
  after a reset is a PUT.
- The expiry setter is reached only through the control panel, whose
  buttons offer 30, 60 and 300 s and are disabled while the session runs
  (components/ControlPanel.tsx:56-60). `Engine.Step` accepts `SetExpiry`
  only under those conditions and ignores it otherwise.
- There is no position/portfolio settlement in this code base, so none is
  modelled.

## Model

| member | source | states |
|---|---|---|
| Types.Opposite | App.tsx:170 | over the two directions of the `SignalType` enum (types.ts:1-4), the flip always changes the direction: CALL becomes PUT and PUT becomes CALL |
| PriceHistory.Push | App.tsx:52-58 | the new point is last; below capacity the point is simply appended; at or above capacity the oldest point is dropped, the rest keep their order, and the length is unchanged; a buffer within capacity stays within capacity |
| PriceHistory.PushAllKeepsMostRecent | App.tsx:52-58 | after any stream of ticks the buffer holds exactly the most recent 150 points of everything seen, in arrival order |
| PriceHistory.PushAllBounded | App.tsx:57 | the buffer never holds more than 150 points |
| Settlement.Judge | App.tsx:96-106 | the result is never PENDING; ITM iff a CALL closed above entry or a PUT closed below it; OTM iff a CALL closed below or a PUT closed above; ATM iff close equals entry |
| Settlement.JudgeIsSignedMove | App.tsx:96-106 | the outcome rule is "the signal wins iff the price moved in the direction it bet on", with the move signed by the direction |
| Settlement.PutMirrorsCall | App.tsx:99-106 | a PUT judged on a move is a CALL judged on the reversed move |
| Settlement.SettleOne | App.tsx:89-115 | a resolved or not-yet-expired signal is returned unchanged; an expired pending one gets the judged outcome, closes at the current price and at the current instant, and keeps id, creation time, direction, entry price and duration |
| Settlement.Settle | App.tsx:87-117 | the pass keeps length, order, ids, directions, entry prices and durations; resolved signals are unchanged (write-once); pending signals before `createdAt + durationSeconds*1000` are unchanged; expired pending ones are resolved by the outcome rule at the current price |
| Settlement.SettlePass | App.tsx:85-117 | the loop that walks the list builds exactly the settled list, and raises the stats-update flag iff some pending signal had expired |
| Settlement.QuietPassIsIdentity | App.tsx:92-115 | when no pending signal has expired the pass returns the list it was given |
| Settlement.PassLeavesNothingMatured | App.tsx:92-113 | after a pass no expired signal is still pending |
| Settlement.SettleIdempotent | App.tsx:88-90 | a second pass at the same instant changes nothing, whatever the price has become (write-once at any later instant is part of `Settlement.Settle`'s contract) |
| Settlement.SettleKeepsWellFormed | types.ts:18-28 | close price and close time are present exactly on resolved signals, before and after a pass |
| Settlement.SixtySecondCallScenario | App.tsx:92-113 | a CALL entered at 100 with a 60 s expiry is ITM closing at 105 when the price is 105 at 60 000 ms; it is ATM at 100; it is still pending at 59 999 ms |
| Stats.ComputeStats | App.tsx:131-147 | wins + losses + draws == totalSignals; the total never exceeds the number of signals; the win rate is the guarded ratio of `Stats.WinRate` |
| Stats.CounterIsTally | App.tsx:134-136 | the wins, losses and draws counters equal the numbers of ITM, OTM and ATM entries in the outcome column |
| Stats.TotalExcludesPending | App.tsx:133-142 | totalSignals equals the number of entries in the outcome column that are not PENDING |
| Stats.WinRate | App.tsx:143 | zero when nothing is finished; otherwise winRate × total == wins × 100; always within [0, 100] |
| Stats.CountMatchesTally | App.tsx:133-136 | filtering the finished list by a resolved outcome counts the same as tallying that outcome over all signals |
| Stats.FinishedMatchesTally | App.tsx:133-142 | the finished list's length is the number of non-PENDING signals |
| Stats.FinishedPartition | App.tsx:133-142 | every finished signal is counted exactly once, as a win, a loss or a draw |
| Stats.PendingDoesNotCount | App.tsx:133 | appending a pending signal leaves the statistics unchanged |
| Stats.SettleNeverLowersCounter | App.tsx:131-147 | a settlement pass never lowers the wins, losses or draws counter |
| Stats.SettleNeverLowersTotal | App.tsx:131-147 | a settlement pass never lowers the number of finished signals |
| Stats.SettleRaisesTally | App.tsx:88-113 | a settlement pass never lowers the number of signals with a given resolved outcome |
| Stats.SettleLowersPending | App.tsx:88-113 | a settlement pass never raises the number of PENDING signals |
| Stats.EmptySessionStats | types.ts:36-42 | the statistics of an empty signal list are all zero |
| Engine.GeneratorPeriod | App.tsx:180 | the period is at least 5000 ms and at least expiry × 500 ms, and is one of the two |
| Engine.Generate | App.tsx:150-172 | no-op when the current price is 0; otherwise exactly one PENDING signal is appended at the end, with the next direction, the current price as entry, the configured expiry as duration, and no close fields; earlier signals are kept; the direction flips; nothing else changes |
| Engine.Check | App.tsx:81-124 | a checker firing replaces the signal list by the settlement pass at the current price and instant, and changes nothing but the signal list and the statistics; with nothing expired it is a no-op; when something resolves, the statistics are recounted from the settled list |
| Engine.Reset | App.tsx:193-197 | signals become empty, statistics zero and running false; the next direction, price history, current price, connection and expiry are untouched |
| Engine.Initial | App.tsx:14-29 | the session starts stopped, disconnected, at price 0, with no signals, an empty price history, CALL as the first direction and a 60 s expiry, and already satisfies the invariant `Engine.Consistent` (statistics equal to a recount, alternation, bounded history) |
| Engine.AppendKeepsAlternation | App.tsx:166-170 | appending a signal in the next direction and then flipping the direction keeps the alternation |
| Engine.GenerateKeepsStats | App.tsx:150-172 | if the statistics equal a recount before generation, they still do after it, because the new signal is pending |
| Engine.GenerateKeepsConsistent | App.tsx:150-172 | applied to a consistent session, generation keeps the statistics equal to a recount, keeps signals well formed, and keeps the alternation |
| Engine.CheckKeepsConsistent | App.tsx:81-124 | applied to a consistent session, a checker firing keeps the statistics equal to a recount, keeps signals well formed, and keeps the alternation |
| Engine.Step | App.tsx:36-197 | an active generator firing is `Engine.Generate`, a checker firing is `Engine.Check`, a reset is `Engine.Reset`, and a tick pushes its point through `PriceHistory.Push`; only a generator firing while running and connected (App.tsx:177) adds a signal or flips the direction; feed, toggle and expiry events leave the signals and statistics alone; only a tick moves the price, and it becomes the tick's price and the newest history point (App.tsx:50-58); only feed open/close changes the connection (App.tsx:43, 64); only the toggle (App.tsx:298) or a reset changes running; the expiry changes only while stopped and only to 30, 60 or 300 s |
| Engine.StepKeepsConsistent | App.tsx:36-197 | every event maps a consistent session to a consistent one |
| Engine.RunKeepsConsistent | App.tsx:36-197 | any history of events applied to a consistent session gives a consistent session |
| Engine.ReachableIsConsistent | App.tsx:12-197 | every session reachable from the initial state is consistent: the statistics always equal a recount of the signal list, close fields appear exactly on resolved signals, directions alternate, and the price history holds at most 150 points |
| Engine.AlternationFromStart | App.tsx:150-172 | over any history without a reset, starting from the initial CALL (App.tsx:29), the k-th signal is a CALL iff k is even, and the next direction is CALL iff an even number of signals were emitted |
| Engine.NoSignalWhileDisconnected | App.tsx:176-190 | while the feed stays disconnected, no event adds a signal |
| Engine.NoSignalWhileStopped | App.tsx:176-190 | while the session stays stopped, no event adds a signal |
| Engine.NoSignalBeforeFirstPrice | App.tsx:151 | until a non-zero price arrives the session has no signals |
| Engine.ResetKeepsDirection | App.tsx:193-197 | after one CALL and a reset, the first signal of the next run is a PUT, because the direction is not restored |

## Left out

- WebSocket connection, reconnection after 3 s, and parsing of ticks (App.tsx:37-76): network I/O. A tick is the event `PriceTick(time, price)` with an already-parsed price. A malformed message (a `NaN` price) is not modelled.
- `setInterval`/`clearInterval` lifecycles and effect re-binding (App.tsx:79-129, 176-190): timer plumbing. The two timers are the events `GeneratorFired` and `CheckerFired`. The generator event only acts while running and connected. Its period is `Engine.GeneratorPeriod`, but the spacing of firings in time is not modelled. Because `generateSignal` depends on the current price (App.tsx:172), the source re-creates the generator interval on every price change (App.tsx:190); on a feed that ticks faster than the period the generator may never fire, which the event model, where firings are free to occur, does not capture.
- Engine.Check: settles at the session's current price. The source's checker closes over the price it saw when its effect was last bound, and re-binds on every price change (App.tsx:129). The model assumes that re-binding keeps up with the feed.
- Engine.Check: assumes the functional state updater inside the checker runs before the `statsUpdated` flag is read. If React deferred the updater, the statistics would not be recounted on that firing. The model does not capture that scheduling.
- Random id generation and clock formatting (App.tsx:54, 111, 157, 161): randomness and display strings. Ids are parameters, and uniqueness of ids is not claimed.
- Floating-point prices and win rate: prices are integers and the win rate is an exact real.
- `services/geminiService.ts` and the advisory panel: an external text-generation call.
- `components/*.tsx`: presentation only.
- Portfolio / position settlement: not present in this code base.
