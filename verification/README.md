# EcoLoop: verified model

EcoLoop is a campus recycling system. A student photographs an item, a station with a
rotating chute drops it into one of four bins, and the backend awards points that buy
rewards. This Dafny project models the parts of it that must not go wrong and proves what
they keep. `dafny verify dfyconfig.toml` checks everything.

## How it is organised

**The points authority (backend).** `Schema` holds the rows of the tables. `Rewards` and
`Deposits` give every service call as a function on the tables: which check refuses it, in
which order, and what it writes. `Database` is the imperative side: a class whose methods
issue the queries, conditional updates, loops and inserts of the services, each proved to
leave exactly the rows its function gives, so that serving any sequence of calls is the run
the theorems speak of (`PointsAuthority.ServeAll`). `MarketRules` and `DepositRules` say the
same of every call on the fields of the rows and the request alone: when it is refused and with
which answer, and what it leaves. On those functions:

- `Ledger`: balances and stock are conserved over every run of calls.
- `Solvency`: nothing is overdrawn or oversold, UNIQUE columns hold, each redemption is
  refunded at most once.
- `Lifecycle`: closed sessions stay closed, a session is confirmed exactly when its accepted
  waste event exists, and points move on confirmation and at no other time.
- `Challenges`: who holds a completion row, and what it paid.
- `Leaderboard`: how far the incremental ranking rows are from a rebuild, over every run.
- `CameraUploads`: retaken photographs leave no trace.
- `Delivery`: at-least-once delivery (MQTT 3.1.1, section 4.3.2) is confluent.

`Interleaving` is the reward market one SQL statement at a time: PostgreSQL READ COMMITTED,
exclusive row locks held to COMMIT, WHERE evaluated on the committed row once the lock is
held, UNIQUE conflicts on INSERT, and an abort possible between any two statements.
`Serializability` proves that every interleaving leaves the tables of the serial run of the
committed calls; `SoloRedeem` and `SoloClose` prove the converse for a redeem, reject, cancel
or mark-used transaction that meets no other, so the statements lose nothing either.
`ApprovalRace` is what approvals and fulfilments do when they overlap such calls. `DepositRace`
is overlapping `deposit_result` transactions, challenge bonuses included, with market calls in
between; `SoloDeposit` ties a lone one to the service call, and `AwardHistory` says what a whole
run of them does to an account.

**The station.** `Circle` and `Rotary` are the chute: arithmetic modulo a turn, shortest
rotation, jams, homing. `Station` and `StationRuns` are the state machine driven through a
deposit plan and through unbounded command sequences; `Simulator` is the imperative runtime
proved against them. `Dedupe` is the duplicate suppression under any interleaving of starts
and finishes. `Firmware` is the ESP32 controller and the drift of its step counter.
`EndToEnd` joins both halves: station run, unreliable delivery, backend verdict.

**Algorithms.** `Split` (the leakage-free data set split), `RateLimiter` (sliding window),
`Tokens` (one-time tokens), `TimeoutCode` (the distance sensor's timeout registers).

`Sums` holds sums over table rows and the two query loops.

## What the proofs say about the code

Several plausible statements are false of the code. Each is replaced by what does hold.

- A jam mark is meant to stop the chute when the chute passes it. `_crosses` reads every step
  clockwise, so this holds for clockwise moves only (`Rotary.ClockwiseJam`). Counter-clockwise,
  any mark anywhere stops a move of five degrees or more, and a shorter move is stopped unless
  the mark lies in its arc (`Rotary.CounterClockwiseJam`).
- `award_points` writes back a balance it read earlier, so what the user's balance went through
  between the SELECT and the COMMIT of an award is overwritten: another award
  (`SoloDeposit.OverlappingReadsLoseAnAward`), or the payment for a redemption, which then costs
  nothing (`SoloDeposit.AwardUndoesPayment`). The ORM writes changed columns only, so an award
  worth nothing, bonus included, overwrites nothing. Over every run of overlapping transactions
  and market calls the account loses exactly what its schedule of reads and commits overwrites
  (`AwardHistory.AccountLoses`), and it is conserved when nothing is overwritten. When the user
  neither spends nor is refunded inside an award it never gains, and is conserved if and only if
  no award worth anything commits between the SELECT and the COMMIT of another one of the same
  user (`AwardHistory.ConservedExactlyWhen`); a payment inside can hide a loss
  (`AwardHistory.LossesCancel`). The whole-run results of `Ledger` take each deposit call as one
  step.
- Approvals and fulfilments read a redemption's status and write the new one unguarded. One that
  is written after a rejection it had not seen revives the redemption, which can then be refunded
  again (`ApprovalRace.RejectedTwice`). A redemption is refunded more than once if and only if it
  is revived twice, or once and refunded again (`ApprovalRace.RefundedAgainExactlyWhen`), and an
  account is conserved if and only if none of its redemptions is revived
  (`ApprovalRace.ConservedExactlyWhen`). `Serializability` and `Solvency` take approvals and
  fulfilments as one step.
- The ranking rows are written before the challenge bonus is added, and redemptions do not write
  them at all. A row is therefore exact right after an award if and only if no active, uncompleted
  challenge of the class with a positive reward was reached (`Leaderboard.RowsExactAfterConfirmWhen`).
  From then on a student's row is short by the last award's bonus less the points the student has
  spent since, net of refunds (`Leaderboard.StudentLagOverRun`, `Leaderboard.FacultyLagOverRun`);
  nothing needs repair if and only if these two cancel everywhere
  (`Leaderboard.NeedsNoRepairExactlyWhen`).
- An unknown compartment or an empty weight timeline leaves `run_plan` by an exception with the
  state machine where it was; from then on every command fails
  (`StationRuns.WedgesExactlyWhen`, `StationRuns.WedgedForever`).
- A misplaced deposit with a final weight of zero is reported as 18.4 g, because zero counts as
  no value; the report carries the plan's own weight if and only if that is given and not zero
  (`EndToEnd.ReportedWeightIsThePlans`). Sound in every other respect, such a deposit is confirmed
  and paid if and only if its weight suffices, or it weighs nothing and the minimum is at most
  18.4 g (`EndToEnd.WeightlessDepositIsPaid`).
- The conversion of microseconds to macro periods and back is accurate if and only if the shifted
  timeout plus half a period fits 32 bits (`TimeoutCode.AccurateExactlyWhen`); the function itself
  checks nothing. The driver's own timeouts always fit (`TimeoutCode.DriverTimeoutsAreAccurate`).
- A `deposit_result` closes a live session if and only if the session is classified and, when
  every gate passes, its user exists (`Delivery.ClosesExactlyWhen`). Otherwise it aborts and
  nothing changes: the waste event's prediction column is NOT NULL.
- The database has UNIQUE (user, idempotency key) on redemptions although the ORM class does not
  declare it; the model follows the migrated schema
  (backend/alembic/versions/0008_rewards.py:83).

## Model

| member | source | states |
|---|---|---|
| Database.PointsAuthority.ReserveUnit | backend/app/services/reward_service.py:110-118 | the conditional UPDATE takes one unit of a limited reward, exactly when one is left |
| Database.PointsAuthority.SpendPoints | backend/app/services/reward_service.py:121-129 | the conditional UPDATE spends points exactly when the balance covers them |
| Database.PointsAuthority.GenerateCode | backend/app/services/reward_service.py:46-56 | the first drawn code that no redemption carries, none when all draws are taken |
| Database.PointsAuthority.Redeem | backend/app/services/reward_service.py:79-159 | the whole new state and the reply of a redemption: earlier redemption with the key, refusal that leaves no trace, or grant |
| Database.PointsAuthority.Reject | backend/app/services/reward_service.py:162-197 | rejection refunds points and unit of a pending or approved redemption, or rolls back when the user is gone |
| Database.PointsAuthority.Cancel | backend/app/services/reward_service.py:200-228 | cancellation refunds points and unit of the owner's available redemption |
| Database.PointsAuthority.RestoreReservedStock | backend/app/services/reward_service.py:65-76 | one unit comes back to a limited reward, an unlimited one is left alone |
| Database.PointsAuthority.MarkUsed | backend/app/routers/admin.py:1000-1021 | only an available code becomes used |
| Database.PointsAuthority.Approve | backend/app/routers/admin.py:944-954 | only a pending redemption becomes approved |
| Database.PointsAuthority.Fulfill | backend/app/routers/admin.py:957-983 | only a cash redemption that is pending or approved becomes fulfilled |
| Database.PointsAuthority.CreateSession | backend/app/services/deposit_service.py:120-223 | a session is opened with a freshly minted operation id and the policy's position and points, or refused for the first failing check |
| Database.PointsAuthority.HandleCapture | backend/app/services/deposit_service.py:227-324 | an uploaded frame classifies the session, lets it be retaken, leaves it analyzing or closes it for low confidence; the caller learns every error, also those raised after the session was set to analyzing |
| DepositService.CaptureError | backend/app/services/deposit_service.py:240-291 | an upload reports no error if and only if it is let in and its frame is usable |
| DepositRules.CreateRule | backend/app/services/deposit_service.py:120-223 | the first failing check of an opened session, from station to policy, and its refusal |
| DepositRules.CreateLeaves | backend/app/services/deposit_service.py:120-223 | every column of the new session and the counter its id is numbered from |
| DepositRules.UploadRule | backend/app/services/deposit_service.py:227-324 | for every upload the error and the session it leaves: turned away, retake, analyzing, pending or closed for low confidence |
| DepositRules.CancelRule | backend/app/services/deposit_service.py:328-338 | a cancellation goes through exactly for the owner of a live session |
| DepositRules.FrameRule | backend/app/services/deposit_service.py:36-56 | a state frame moves a live session to the phase it announces if that is later, and nothing else |
| DepositRules.FrameElsewhere | backend/app/services/deposit_service.py:342-366 | a state frame about a closed or unknown session changes nothing |
| DepositRules.ConfirmsExactlyWhen | backend/app/services/deposit_service.py:370-521 | a message confirms a live session if and only if station, time, classification, claim, position, weight, stability, beam, mechanical confirmation, mechanism, user and event are all right |
| DepositRules.FirstFailingGate | backend/app/services/deposit_service.py:370-521 | the status, the reason and the event the first failing gate leaves, and the rows of a confirmation |
| DepositRules.ResultErrors | backend/app/services/deposit_service.py:377-402 | which messages are errors, and which error they raise |
| DepositRules.ResultIgnored | backend/app/services/deposit_service.py:377-402 | a message about no live, classified session changes nothing |
| Database.PointsAuthority.CancelDeposit | backend/app/services/deposit_service.py:328-338 | the owner's live session becomes cancelled |
| Database.PointsAuthority.ApplyMachineState | backend/app/services/deposit_service.py:342-366 | a state frame moves a live session forward only |
| Database.PointsAuthority.RecordRejection | backend/app/services/points_transaction.py:72-107 | a closed session and its worthless event, written together |
| Database.PointsAuthority.AwardPoints | backend/app/services/points_transaction.py:25-69 | event, session, balance and ranking rows of an award, the rows computed from the balances before the bonus |
| Database.PointsAuthority.OnDepositConfirmed | backend/app/services/challenge_service.py:42-105 | the loop completes and pays every active challenge of the class that the user's confirmed weight has reached, each once |
| Database.PointsAuthority.CompleteFromEvent | backend/app/services/deposit_service.py:370-459 | the whole new state for every terminal message, gate by gate |
| Database.PointsAuthority.RejectSession | backend/app/services/deposit_service.py:463-488 | a live classified session is closed with an auditable event; closed ones are left, unclassified ones abort |
| Database.PointsAuthority.Repair | backend/app/services/leaderboard_service.py:41-77 | the loops leave every student row and every faculty row at the truth |
| Database.PointsAuthority.Serve | backend/app/services/deposit_service.py:120-459 | any call of the services, as the methods carry it out, keeps the tables valid and is one step of a run |
| Database.PointsAuthority.ServeAll | backend/app/services/deposit_service.py:120-459 | the methods, called in any sequence, leave the tables of that run |
| Database.KeyIsUnique | backend/alembic/versions/0008_rewards.py:83 | with the UNIQUE pair a lookup by key has one possible answer |
| MarketRules.GrantedExactlyWhen | backend/app/services/reward_service.py:79-159 | a request is granted if and only if its key is new, the reward exists, is active and has a price, its destination is in order, stock and balance suffice, a code is left and the row's id is free |
| MarketRules.RefusedWith | backend/app/services/reward_service.py:88-157 | the refusal of the first failing check, and the earlier redemption of a known key |
| MarketRules.GrantLeaves | backend/app/services/reward_service.py:110-159 | price, unit, and the user, price, status, code and destination of the new row; nothing at all when not granted |
| MarketRules.RejectRule | backend/app/services/reward_service.py:162-197 | exactly a pending or approved redemption of an existing user is rejected, with points and unit given back |
| MarketRules.CancelRule | backend/app/services/reward_service.py:200-228 | exactly an available redemption of the caller is cancelled, with points and unit given back |
| MarketRules.MarkUsedRule | backend/app/routers/admin.py:1000-1021 | exactly an available code is used |
| MarketRules.ApproveRule | backend/app/routers/admin.py:944-954 | exactly a pending redemption is approved |
| MarketRules.FulfillRule | backend/app/routers/admin.py:957-983 | exactly a pending or approved redemption of a cash reward is fulfilled |
| Database.StepKeepsValid | backend/app/services/reward_service.py:79-228 | every call keeps the tables sound and consistent, which is what each method needs of the one before |
| Ledger.PointsConserved | backend/app/services/points_transaction.py:25-107 | over every run: balance = opening + confirmed awards + challenge rewards - points of redemptions not refunded |
| Ledger.StockConserved | backend/app/services/reward_service.py:110-228 | over every run the units of a limited reward plus its standing redemptions are constant |
| Ledger.ConfirmConserves | backend/app/services/challenge_service.py:66-105 | a confirmation moves the balance by exactly the event's points and the new completion rows |
| Ledger.BonusBalances | backend/app/services/challenge_service.py:66-105 | the bonus returned equals the rewards on the completion rows added |
| Solvency.RunSound | backend/app/services/reward_service.py:79-228 | over every run: no negative balance or stock, one redemption per key and per code |
| Solvency.RefundedAtMostOnce | backend/app/services/reward_service.py:162-228 | a run refunds a redemption at most once, and once exactly when it was standing before and is refunded after |
| Solvency.SettledIsAbsorbing | backend/app/routers/admin.py:944-1021 | a rejected, cancelled, fulfilled or used redemption never changes again |
| Lifecycle.MintedIsFresh | backend/app/services/deposit_service.py:120-223 | the daily counter never hands out an operation id that is taken |
| Lifecycle.RunKeepsInv | backend/app/services/deposit_service.py:120-521 | over every run: at most one event per operation, confirmed if and only if the accepted event exists, and every confirmed session has a policy row's class, position and points, confidence not low, the expected position and enough weight |
| Lifecycle.TerminalIsAbsorbing | backend/app/services/deposit_service.py:328-459 | no run changes a closed session or its event |
| Lifecycle.PointsMoveOnConfirmation | backend/app/services/points_transaction.py:25-69 | the confirming call credits the policy's points and the bonus, any other terminal message credits nothing |
| Lifecycle.StepNeverConfirms | backend/app/services/deposit_service.py:370-459 | only a deposit_result confirms |
| Lifecycle.ConfirmedAtMostOnce | backend/app/models/waste_event.py:23-25 | a run confirms an operation at most once |
| Challenges.RunMatches | backend/app/services/challenge_service.py:42-129 | over every run a user holds an active challenge's row if and only if the user has deposited in the class and reached the target |
| Challenges.PositiveTargetRow | backend/app/services/challenge_service.py:66-71 | for a positive target: if and only if the confirmed weight is at least the target |
| Challenges.CompletedRows | backend/app/services/challenge_service.py:58-90 | which rows one deposit leaves, whatever the catalog order |
| Challenges.NewRowsPayTheirReward | backend/app/services/challenge_service.py:72-105 | a new row records the challenge's reward if that is positive and zero otherwise |
| Challenges.BonusIsTheRewards | backend/app/services/challenge_service.py:58-105 | the bonus is the sum of the positive rewards of exactly the active challenges of the class that were not completed and are reached |
| Challenges.ConfirmPays | backend/app/services/challenge_service.py:66-105 | a confirmation credits its user the session's points and those rewards, measured on the tables before the call, and nobody else |
| Challenges.ConfirmCompletes | backend/app/services/challenge_service.py:66-90 | which completion rows a confirmation adds and what they record |
| Challenges.ZeroBonusExactlyWhen | backend/app/services/challenge_service.py:58-105 | a deposit pays no bonus if and only if no active challenge of the class with a positive reward, not yet completed, is reached |
| Challenges.BonusIsZeroExactlyWhen | backend/app/services/challenge_service.py:66-105 | the same read off the tables before the confirmation |
| Challenges.RowsStay | backend/app/services/challenge_service.py:66-90 | completion rows are never removed or rewritten |
| Leaderboard.RowsAfterConfirm | backend/app/services/points_transaction.py:110-163 | right after an award both rows are short of the truth by exactly that award's bonus |
| Leaderboard.RowsExactAfterConfirmWhen | backend/app/services/points_transaction.py:110-163 | which awards leave exact rows, decided from the tables before the call |
| Leaderboard.StudentLagOverRun | backend/app/services/points_transaction.py:110-129 | over every run from a repaired state, redemptions and refunds included, a student row is short by the last award's bonus less the points spent since, net of refunds |
| Leaderboard.FacultyLagOverRun | backend/app/services/points_transaction.py:132-163 | the same for a faculty row, the last award in the faculty and the spending of its members |
| Leaderboard.NeedsNoRepairExactlyWhen | backend/app/services/leaderboard_service.py:41-77 | after any run a repair changes nothing if and only if every last bonus equals what was spent since, per student and per faculty |
| Leaderboard.StudentLagIsLastBonus | backend/app/services/points_transaction.py:110-129 | over every run of deposit calls from a repaired state a student row lags by the bonus of the student's last award |
| Leaderboard.FacultyLagIsLastBonus | backend/app/services/points_transaction.py:132-163 | over every run of deposit calls a faculty row lags by the bonus of the last award in the faculty |
| Leaderboard.BonusFreeRunNeedsNoRepair | backend/app/services/leaderboard_service.py:41-77 | over every bonus-free run of deposit calls the incremental rows are what a repair would rebuild |
| Serializability.Serializable | backend/app/services/reward_service.py:79-228 | whatever the interleaving of statements and aborts, the committed tables are those of the serial run of the committed calls in commit order |
| Serializability.MarketSafe | backend/app/services/reward_service.py:79-228 | under any interleaving of redeem, reject, cancel and mark-used statements, approvals and fulfilments each in one step: no negative balance or stock, UNIQUE columns hold, spent points and reserved units match the standing redemptions, one refund at most |
| Serializability.CommitIsCall | backend/app/services/reward_service.py:143-159 | what a COMMIT installs is what the service call does at that moment |
| Serializability.FailedLeavesNoTrace | backend/app/database.py:53-58 | no statement of a transaction that does not commit changes the committed tables |
| Serializability.RetryFindsOriginal | backend/app/services/reward_service.py:88-95 | a request answered without committing names the one committed redemption with its user and key |
| Serializability.OverIsAbsorbing | backend/app/services/reward_service.py:143-159 | a transaction that has ended takes no further step |
| Serializability.OnlyCommitWrites | backend/app/services/reward_service.py:143-159 | a transaction changes the committed tables only by committing |
| SoloRedeem.RedeemAlone | backend/app/services/reward_service.py:79-159 | a redeem transaction that meets no other leaves the tables as the service call does and ends as the call answers, in every case |
| SoloClose.CloseAlone | backend/app/services/reward_service.py:162-228 | the same for a rejection, a cancellation and a use, done or refused |
| ApprovalRace.RefundsAndRevivals | backend/app/routers/admin.py:944-983 | over every run with overlapping approvals and fulfilments, refunds of a redemption outnumber its revivals by one exactly when it stood before and ends refunded |
| ApprovalRace.RefundedAgainExactlyWhen | backend/app/routers/admin.py:944-983 | a standing redemption is refunded more than once if and only if it is revived twice, or once and refunded again |
| ApprovalRace.AccountGains | backend/app/routers/admin.py:944-983 | over every such run an account gains exactly the price of each redemption revived |
| ApprovalRace.ConservedExactlyWhen | backend/app/routers/admin.py:944-983 | an account is conserved if and only if no approval or fulfilment of one of its redemptions is written after a refund it had not seen |
| ApprovalRace.RejectedTwice | backend/app/routers/admin.py:944-1000 | a schedule of one approval and two rejections that refunds a redemption twice |
| ApprovalRace.Alone | backend/app/routers/admin.py:944-983 | an approval or fulfilment that nothing overlaps does what the call does |
| DepositRace.OneCommitPerOperation | backend/app/models/waste_event.py:23-25 | of any number of overlapping deposit_result transactions of an operation at most one commits, and its event, session and completion rows stay as it wrote them, market calls included |
| SoloDeposit.DepositAlone | backend/app/services/deposit_service.py:370-459 | a deposit_result transaction that meets no other leaves the tables as the service call does, bonus included, but for the ranking rows |
| SoloDeposit.OverlappingReadsLoseAnAward | backend/app/services/points_transaction.py:55-56 | of two awards of one user that both read before either writes, the later one decides the balance when it is worth anything, so that one of two positive awards is lost |
| SoloDeposit.AwardUndoesPayment | backend/app/services/points_transaction.py:55-56 | a redemption granted inside an award worth anything stands without having been paid for; an award worth nothing leaves the payment alone |
| AwardHistory.AccountLoses | backend/app/services/points_transaction.py:25-69 | over every run of overlapping deposit_result transactions, bonuses included, and market calls, an account loses exactly the points its schedule of reads and commits overwrites |
| AwardHistory.ConservedExactlyWhen | backend/app/services/points_transaction.py:55-56 | for every policy table: without a stale award the account is conserved; when the user neither spends nor is refunded inside an award it never gains, and is conserved if and only if no award worth anything commits between the SELECT and the COMMIT of another such award of the user |
| AwardHistory.LosesNothingWhen | backend/app/services/points_transaction.py:55-56 | a schedule without a stale award loses nothing; one without spending inside an award never gains, and loses nothing only then |
| AwardHistory.DepositsAreCalm | backend/app/services/points_transaction.py:55-56 | in a run of deposit_result transactions alone nobody spends inside an award, so the if and only if holds of it |
| AwardHistory.LossesCancel | backend/app/services/points_transaction.py:55-56 | with spending inside an award a stale award can leave the account even |
| Delivery.Confluent | backend/app/services/deposit_service.py:342-459 | two deliveries of the same set of messages, in any order and number, leave the same database |
| Delivery.ResultAloneDecides | backend/app/services/deposit_service.py:370-459 | once a classified session's result has arrived in time, everything is as if it had come once and alone |
| Delivery.DeliveredOutcome | backend/app/services/deposit_service.py:342-366 | before that, a session stands at the furthest phase that arrived |
| Delivery.ClosesExactlyWhen | backend/app/services/deposit_service.py:370-488 | a result closes a live session if and only if it is classified and, when every gate passes, its user exists; otherwise nothing changes |
| CameraUploads.UnusableUploads | backend/app/services/deposit_service.py:227-324 | of any series of unusable frames only the last shows, and only in the status: retake or analyzing |
| CameraUploads.RetakesLeaveNoTrace | backend/app/services/deposit_service.py:227-324 | however many unusable frames came before, a usable one classifies the session as if it had been the first |
| Circle.ShortestDelta | hardware-simulator/hardware/rotary.py:98-102 | the rotation lies in (-180, 180] and leads to the target |
| Circle.ShortestIsShortest | hardware-simulator/hardware/rotary.py:98-102 | no rotation to the same point is shorter |
| Circle.DistanceTriangle | hardware-simulator/hardware/rotary.py:98-102 | the length of the shorter arc obeys the triangle inequality |
| Circle.CrossesClockwise | hardware-simulator/hardware/rotary.py:221-229 | the crossing test means: the mark lies in the half-open clockwise arc |
| Rotary.KnownPositions | hardware-simulator/hardware/rotary.py:66-90 | a valid table has exactly the compartments 1 to 4 |
| Rotary.ReportsCompartment | hardware-simulator/hardware/rotary.py:211-217 | an angle a route can end at reports its compartment exactly when it is within one degree |
| Rotary.RouteReports | hardware-simulator/hardware/rotary.py:172-217 | after a route that is neither jammed nor refused the commanded compartment is reported, for well-spaced bins and steps of at most two degrees |
| Rotary.StepsCover | hardware-simulator/hardware/rotary.py:193-196 | every step is shorter than five degrees and together they make the rotation |
| Rotary.StepCount | hardware-simulator/hardware/rotary.py:191-193 | the exact number of steps of a rotation |
| Rotary.ArrivalPath | hardware-simulator/hardware/rotary.py:197-209 | a healthy chute arrives, each reported angle one step after the one before |
| Rotary.StaysOnArc | hardware-simulator/hardware/rotary.py:197-209 | every reported angle lies on the one arc to the target, further along than the one before, also when the move jams |
| Rotary.ClockwiseJam | hardware-simulator/hardware/rotary.py:197-206 | a clockwise move jams if and only if the mark lies in the half-open arc from start to target, and stops short of it |
| Rotary.CounterClockwiseJam | hardware-simulator/hardware/rotary.py:197-229 | exactly when a counter-clockwise move jams |
| Rotary.OutcomeExactlyWhen | hardware-simulator/hardware/rotary.py:172-209 | each outcome of a route from any angle, by the length of the shorter arc, the slew rate, the time allowed and the mark |
| Rotary.RefusedExactlyWhen | hardware-simulator/hardware/rotary.py:177-183 | a route is refused exactly when the chute is not homed or the compartment does not exist, and moves nothing then |
| Rotary.CompletesExactlyWhen | hardware-simulator/hardware/rotary.py:172-209 | a route completes if and only if its compartment exists and is within half a motor step, or within reach and not cut off by the mark |
| Rotary.HealthyChuteArrives | hardware-simulator/hardware/rotary.py:172-209 | a chute without a jam mark completes every route within its reach |
| Rotary.HomingSucceeds | hardware-simulator/hardware/rotary.py:146-170 | with a limit of at least a full turn homing never fails |
| Rotary.RotaryChute.Home | hardware-simulator/hardware/rotary.py:146-170 | the seek ends at zero, homed, or fails exactly when its steps exceed the configured rotation |
| Rotary.RotaryChute.RouteToPosition | hardware-simulator/hardware/rotary.py:172-209 | outcome, final angle and reported angles of a route, for every state and position |
| Rotary.RotaryChute.MechanismPosition | hardware-simulator/hardware/rotary.py:211-217 | the first compartment within one degree, or 0 |
| HardwareStateMachine.StateMachine.Transition | hardware-simulator/hardware/state_machine.py:90-97 | the state moves exactly along the table |
| HardwareStateMachine.TableIs | hardware-simulator/hardware/state_machine.py:48-87 | the table has exactly these transitions, and the error states and the confirmation are what a reset follows |
| Station.Published | hardware-simulator/rotary_simulator.py:150-274 | whatever the command, the announced states follow the transition table and the terminal messages are the run's |
| Station.StoppedRule | hardware-simulator/rotary_simulator.py:237-258 | the states and the one message of a jammed or timed out move |
| Station.MisplacedRule | hardware-simulator/rotary_simulator.py:176-187 | the states and the message of a deposit in another compartment, its weight included |
| Station.FaultRule | hardware-simulator/rotary_simulator.py:204-217 | the states and the message of a measured deposit that is not confirmed |
| Station.DeliveryRule | hardware-simulator/rotary_simulator.py:219-233 | the states and the messages of a confirmed deposit |
| Station.CommandOutcome | hardware-simulator/rotary_simulator.py:150-320 | a ready station stays ready exactly when the command is well formed, then publishes exactly one terminal message or two identical ones, and is homed at zero after a fault |
| StationRuns.WedgesExactlyWhen | hardware-simulator/rotary_simulator.py:150-274 | over any command sequence the station ends ready if and only if every command was well formed on arrival |
| StationRuns.NeverWedges | hardware-simulator/rotary_simulator.py:150-274 | with compartments 1 to 4 and weight timelines it always does, and each command publishes its terminal message |
| StationRuns.WedgedForever | hardware-simulator/rotary_simulator.py:141-146 | a wedged station stays as it is and publishes nothing |
| StationRuns.RunsFollowTheTable | hardware-simulator/hardware/state_machine.py:48-103 | every transition announced over any command sequence is in the table |
| Simulator.EcoLoopRotarySimulator.Home | hardware-simulator/rotary_simulator.py:94-102 | the initial homing leaves the chute homed at zero, or fails exactly when the seek does |
| Simulator.EcoLoopRotarySimulator.RunPlan | hardware-simulator/rotary_simulator.py:150-233 | the imperative run has the specified station, log and exception |
| Simulator.EcoLoopRotarySimulator.Reset | hardware-simulator/rotary_simulator.py:260-274 | the machine is back in IDLE, at zero after a fault |
| Simulator.EcoLoopRotarySimulator.Fault | hardware-simulator/rotary_simulator.py:237-258 | a fault is announced, reported, reset and homed |
| Simulator.EcoLoopRotarySimulator.OnRoute | hardware-simulator/rotary_simulator.py:120-146 | a duplicate changes nothing; any other command runs and is remembered among the last 64 however it ends |
| Dedupe.NeverTwiceInFlight | hardware-simulator/rotary_simulator.py:133-146 | in any interleaving of starts and finishes no operation runs twice at once |
| Dedupe.AcceptedExactlyWhen | hardware-simulator/rotary_simulator.py:84-88 | a start is let through if and only if the operation is neither running nor among the last 64 finished executions |
| Dedupe.ExecutionsAreApart | hardware-simulator/rotary_simulator.py:133-146 | two executions of an operation are separated by at least 64 finished executions of pairwise different others |
| EndToEnd.GatesAreExact | backend/app/services/deposit_service.py:490-521 | a station report passes every physical gate if and only if the deposit was genuine |
| EndToEnd.DeliveredReport | backend/app/services/deposit_service.py:370-459 | a timely report, however delivered, settles the session by its physical gates alone |
| EndToEnd.PhasesFollow | backend/app/services/deposit_service.py:342-366 | whatever states are announced, a live session stands at the furthest of their phases |
| EndToEnd.LivePhases | hardware-simulator/rotary_simulator.py:150-274 | whatever the command, the announcements of a ready station take a pending session to moving, to ready or to measuring, as far as the run gets, and no further |
| EndToEnd.AnnouncedPhases | backend/app/services/deposit_service.py:36-56 | the furthest phase among the states a run publishes, for every outcome, destination and plan |
| EndToEnd.Exact | hardware-simulator/rotary_simulator.py:150-316 | a run, delivered at least once in any order, confirms and pays the session if and only if the chute can reach the plan's compartment from where it stands, the plan is confirmed and mechanically confirmed, the weight suffices and the compartment is the expected one; otherwise it rejects it and pays nothing |
| EndToEnd.WellformedExactlyWhen | hardware-simulator/rotary_simulator.py:150-233 | a command is well formed if and only if its compartment exists and its plan has a timeline in case the deposit gets to the scale |
| EndToEnd.WeightlessDepositIsPaid | hardware-simulator/rotary_simulator.py:176-192 | an otherwise sound misplaced deposit is paid if and only if its weight suffices, or is zero with a minimum of at most 18.4 g |
| Firmware.Norm360IsNorm | firmware/rotary-v2/src/bin_map.cpp:29-33 | the truncating remainder, corrected, is the point of [0, 360) |
| Firmware.FirmwareDelta | firmware/rotary-v2/src/bin_map.cpp:15-19 | the firmware's rotation is the simulator's |
| Firmware.RoundingError | firmware/rotary-v2/src/bin_map.cpp:21-27 | rounding a rotation to whole steps is off by at most half a step |
| Firmware.HalvesRoundOut | firmware/rotary-v2/src/bin_map.cpp:21-27 | halves round away from zero |
| Firmware.DriftIsBounded | firmware/rotary-v2/src/rotary_controller.cpp:36-55 | after homing and any calls without a watchdog jam the motor is within half a step per completed move of the logical angle |
| Firmware.NoDrift | firmware/rotary-v2/src/rotary_controller.cpp:102-105 | when a turn and the bins are whole numbers of steps the step counter names the logical angle exactly |
| Firmware.AcceptedRouteReports | firmware/rotary-v2/src/rotary_controller.cpp:30-55 | an accepted route, once it is over, has moved, rests IDLE and reports the commanded compartment; a chute aligned already stays, and reports it if and only if it is within one degree |
| Firmware.RotaryController.StartMoveTo | firmware/rotary-v2/src/rotary_controller.cpp:36-55 | the whole new state: aligned already, refused by the envelope, or moving |
| Firmware.RotaryController.RouteToPosition | firmware/rotary-v2/src/rotary_controller.cpp:30-34 | refused when not homed, moving or stopped, otherwise the move starts |
| Firmware.RouteRule | firmware/rotary-v2/src/rotary_controller.cpp:30-55 | the state every route leaves: refused, aligned, jammed by the time envelope, or moving with a goal within half a motor step |
| Firmware.TickRule | firmware/rotary-v2/src/rotary_controller.cpp:85-106 | the state every tick leaves: watchdog jam, end of the move, or a step |
| Firmware.RotaryController.Tick | firmware/rotary-v2/src/rotary_controller.cpp:85-106 | one pass of a motion: a step, a watchdog jam, or completion |
| Firmware.RotaryController.MechanismPosition | firmware/rotary-v2/src/rotary_controller.cpp:136-142 | the first compartment within one degree, or 0 |
| Split.GroupBySession | ai-service/app/tools/common.py:229-233 | the dictionary loop yields each session's images in order of first appearance |
| Split.GroupingKeepsImages | ai-service/app/tools/common.py:229-233 | grouping neither loses nor repeats an image |
| Split.SessionIsOneObject | ai-service/app/tools/common.py:229-233 | a session holds exactly the images of its key |
| Split.EarliestImageDecides | ai-service/app/tools/common.py:249-252 | a session counts for the class of its earliest image |
| Split.Parts.Distribute | ai-service/app/tools/common.py:248-264 | the first cut keeps every session and gives each class the shares of `Split.SharesAreRounded`, for every shuffle |
| Split.Parts.Inherit | ai-service/app/tools/common.py:279-288 | a part without a class takes the first smallest session of it that train has, else test; every other session of the class and every other class stays where it was, in order |
| Split.Parts.Rebalance | ai-service/app/tools/common.py:275-288 | in any order of the missing classes, each known class the part lacks is inherited in that way, and the sessions of every other class stay in every part |
| Split.FinalTally | ai-service/app/tools/common.py:254-288 | the first cut balanced, train first, leaves the final tally |
| Split.SharesAreRounded | ai-service/app/tools/common.py:254-264 | from three sessions on val and test get the nearest integer to 15 percent, the even one at a tie, but at least one, and train the rest; fewer stay in train at first and serve val, then test, in the end |
| Split.Regroups | ai-service/app/tools/common.py:229-233 | grouping the images of separate sessions gives back the sessions |
| Split.SessionAwareSplit | ai-service/app/tools/common.py:236-290 | the outputs are the input rearranged, no session straddles two of them, the sessions of each known class in the outputs are divided in those shares, and val has every known class with a session, test with two, train with three |
| RateLimiter.MemoryRateLimiter.Hit | backend/app/security/rate_limit.py:31-40 | an attempt is let through if and only if fewer than limit accepted ones lie in the closed window ending now |
| RateLimiter.WindowBound | backend/app/security/rate_limit.py:31-40 | no closed interval as long as the window holds more than limit accepted attempts of a key |
| Tokens.ConsumedAtMostOnce | backend/app/routers/auth.py:108-152 | under any interleaving a token is used exactly when one request won it, and the winner asked for its hash and purpose before it expired |
| Tokens.NeverUsableAgain | backend/app/routers/auth.py:139-148 | a used token keeps its row and can never be selected again |
| Tokens.RequestAlone | backend/app/routers/deposit.py:107-144 | an undisturbed request takes the row it selects exactly when it has not expired |
| Tokens.TokenTable.ConsumeToken | backend/app/routers/auth.py:108-152 | consumption marks one matching, unused, unexpired row, or changes nothing and says why |
| Tokens.TokenTable.MarkUsed | backend/app/routers/auth.py:139-148 | the conditional UPDATE wins exactly when the row was unused |
| TimeoutCode.EncodeTimeout | firmware/rotary-v2/.pio/libdeps/rotary-v2/VL53L1X/VL53L1X.cpp:843-864 | the shifting loop computes mantissa and exponent in 16 bits |
| TimeoutCode.EncodingFits | firmware/rotary-v2/.pio/libdeps/rotary-v2/VL53L1X/VL53L1X.cpp:843-864 | every encoding fits 16 bits with an exponent of at most 24 |
| TimeoutCode.RoundTripError | firmware/rotary-v2/.pio/libdeps/rotary-v2/VL53L1X/VL53L1X.cpp:836-864 | decoding an encoding never exceeds the timeout and falls short by less than a 128th |
| TimeoutCode.EncodeOfDecode | firmware/rotary-v2/.pio/libdeps/rotary-v2/VL53L1X/VL53L1X.cpp:836-864 | encoding is the identity on decoded encodings |
| TimeoutCode.RoundTripMonotone | firmware/rotary-v2/.pio/libdeps/rotary-v2/VL53L1X/VL53L1X.cpp:836-864 | a longer timeout never decodes to a shorter one |
| TimeoutCode.ConversionError | firmware/rotary-v2/.pio/libdeps/rotary-v2/VL53L1X/VL53L1X.cpp:866-880 | microseconds to macro periods and back errs by at most P/8192 + 1/2 while the shifted timeout fits 32 bits |
| TimeoutCode.AccurateExactlyWhen | firmware/rotary-v2/.pio/libdeps/rotary-v2/VL53L1X/VL53L1X.cpp:866-880 | microseconds to macro periods and back errs by at most P/8192 + 1/2 if and only if the shifted and half-rounded timeout fits 32 bits |
| TimeoutCode.DriverTimeoutsAreAccurate | firmware/rotary-v2/.pio/libdeps/rotary-v2/VL53L1X/VL53L1X.cpp:322-375 | the range timeout of every accepted budget (at most 550000 microseconds) and the driver's two constants convert accurately, for every macro period it can compute |
| TimeoutCode.MacroPeriodIsPositive | firmware/rotary-v2/.pio/libdeps/rotary-v2/VL53L1X/VL53L1X.cpp:884-900 | the conversions never divide by zero for the register values the driver writes and oscillator readings from 577 up |
| TimeoutCode.MacroPeriodIs | firmware/rotary-v2/.pio/libdeps/rotary-v2/VL53L1X/VL53L1X.cpp:884-900 | the macro period to the last bit, for the register values the driver writes and oscillator readings from 577 up |
| TimeoutCode.TimingBudgetRule | firmware/rotary-v2/.pio/libdeps/rotary-v2/VL53L1X/VL53L1X.cpp:322-331 | which timing budgets are accepted and the range timeout they give |

## Left out

- Norm: does not round to four decimals as the simulator's `_norm` does; angles are reals and the rotation results are exact.
- Steps and Aligned: likewise on reals, without binary floating-point rounding; firmware angles are `float` in the source.
- Serializability.Serializable: approvals, fulfilments and deposit calls take one step each, when no row they write is locked; the source reads and then writes them without a guard, which `ApprovalRace` and `DepositRace` take apart.
- DepositRace.OneCommitPerOperation: ranking rows are not part of the overlapping transactions, the single-call model has them; session and balance are read in one step.
- Database.PointsAuthority.HandleCapture: the AI call happens inside one step; the source keeps the session object across it.
- Database.PointsAuthority.Redeem: the ten random draws are an input sequence of any length; the generated redemption id is an input.
- Firmware.DriftIsBounded: starts from the homed state and stops at a watchdog jam, after which the logical angle is stale; step counters do not wrap.
- Split.SessionAwareSplit: default ratios only, with 0.15 as an exact fraction rounded half to even.
- TimeoutCode.EncodeTimeout: `ls_byte & 0xFFFFFF00` is written as a comparison with 256 on a word-sized integer.
- Deadlock and progress: redemptions lock reward then user, refunds lock user then reward; only safety is stated.
- Text fields, timestamps and notes that no rule reads: names, admin notes, `fulfilled_at`, rejection messages, the numeric confidence.
- Telemetry: sensor messages, heartbeats, the weight ramp between its end points; the last scale reading is an input.
- The `beam_seen` flag of a plan: the terminal message reports its default whatever the flag says.
- Firmware homing, stepper acceleration, blocking sensor waits and load cells: a motion either reaches its goal or is stopped by the watchdog.
- Administrative edits of points, stock, catalog, roles and faculties, and user deletion: they change the accounts on purpose and are no part of a run.
- HTTP routing, validation, WebSockets, event bus, MQTT clients, mailer, authentication, HTML: plumbing around the calls.
- AI training, inference, calibration and image quality: a prediction is an arbitrary class and confidence.
- The ORM classes, migrations and generated ids beyond the keys and constraints named above.
