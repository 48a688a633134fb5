# Poker club money, sessions and realtime: a verified model

The back end runs a poker club: players hold a wallet, sit at tables with chips, draw on a credit
line, enter tournaments, and are told about changes over sockets. This project models the parts of it
where several pieces of state have to agree, and proves that they do, or exactly when they do.

* **Money.** `financial_transactions` is an append-only log; wallet, credit owed and table chips are
  folds over it. `Ledger` holds the folds, the loop that recomputes them and the credit facility;
  `Postings` the row groups each writer posts and their effect on every fold; `ClubStore` the services
  that write (a class whose methods commit or roll back); `MoneyRuns` what whole runs of them keep;
  `RequestProtocol` approve, reject, create and all three settlement paths as concurrent transactions
  with row locks, beside the updates of a credit request, which take none; `RequestUpdates` when those
  updates undo a decision, and `RequestRaces` runs in which they do; `SettlementRaces` when two
  settlements of one player may overlap; `SettlementLocks` which settlements can come to wait for each
  other; `Tournaments` registration and cancellation.
* **Realtime.** `EventsIndex` is the client/club/player/staff subscription index, `Delivery` the
  at-least-once queue with select, emit, mark and cleanup as separate interleaved steps.
* **Session clock.** `SessionClock` is the play-time arithmetic over any number of pauses and resumes,
  `SessionNotes` the parser of the table's notes, `SessionText` the text that pausing and resuming
  write, with the proof that reading it back always gives the clock.
* **Attendance and affiliates.** `Calendar` is the date and shift arithmetic, `Attendance` the batch
  save and the single create and update paths, `Affiliates` the commission totals.

Amounts are integer paise and times are integer milliseconds. The ledger is that of one club. A row's
notes matter only through the two substrings the folds look for, which are two booleans. In the
methods of `ClubStore` and `Tournaments`, `fault` is the number of write statements that succeed before
one throws, so every contract covers every partial failure.

## What does not hold as the code stands

Each of these is a theorem with a concrete input, next to the exact condition under which the expected
property holds.

* The balance view's loop debits the wallet for every Debit, while the wallet SQL exempts credit line
  repayments: the two agree exactly when those debits sum to zero (`Ledger.LoopVersusSqlWallet`,
  `Ledger.RepaymentSplitsWallets`).
* No settlement locks the player. One that reads the debt while another has read it and not committed
  debits it again: the credit net ends at what it rose by in between less what the first had read, so it
  stays non-negative exactly when it rose by at least that much (`SettlementRaces.StaleRead`); a pending
  buy-out approved while staff buy the player out at the table ends 100 below zero
  (`SettlementRaces.OverlapOverdraws`).
* Updating a credit request's limit or visibility reads the row without a lock and saves all of it. A
  decision stands exactly when none commits between such a read and its save
  (`RequestUpdates.DecisionsStandExactly`), and a request is posted once while approved exactly when no
  approval does (`RequestUpdates.PostedExactlyOnce`): otherwise it is pending again and can be approved and
  posted a second time, 200 on a line of 100 (`RequestRaces.StaleSavePostsAgain`,
  `RequestRaces.PostedTwice`). A player then has two pending requests exactly when the request set back to
  pending meets another one, filed before or just being filed (`RequestUpdates.OnePendingExactly`,
  `RequestRaces.TwoPending`).
* Approving a credit request locks request, club, player; filing one locks player, club. Waits on these
  rows close a cycle exactly when an approval waits for its player's row
  (`RequestProtocol.DeadlockExactly`), which can be reached whenever a player with the line on has a
  pending request and nothing else runs (`RequestRaces.ApprovalMeetsCreate`).
* Whole-table settlements lock seats in the order of their lists. For any number of lists some run ends
  in a ring of waits exactly when each list can be stopped at a sitting player whom the next list names
  before its own stop, no sitting player being named by two lists before their stops
  (`SettlementLocks.RingExactly`; for two lists `SettlementLocks.MutualWaitExactly`). So two players listed
  in opposite orders are enough (`SettlementLocks.OppositeOrdersDeadlock`), and lists in one common order
  (`SettlementLocks.OrderedSettlementsNeverDeadlock`) or with the same first player
  (`SettlementLocks.SameFirstNeverWait`) never do.
* A player who sits down during a pause is credited, after the resume, with the table's carry or with
  the snapshot of an older stint, although the comment at src/utils/table-session-clock.ts:5-6 says
  an old snapshot must not be inherited (`SessionClock.CorrectUnlessInherited`,
  `SessionClock.SittingInAPauseInherits`). The model follows the code.
* Nothing stops a start on a table that is already running; it drops the players' own seconds and the
  open segment (`SessionClock.RestartForgets`, `SessionClock.RestartLosesSegment`,
  `SessionClock.CorrectUnlessReset`).
* Cancelling a rummy registration refunds a buy-in that registering never charged
  (`Tournaments.RegisterThenCancel`, `Tournaments.RummyRefundsUnchargedBuyIn`).
* Available credit falls by exactly the credit a registration draws only if the wallet covers the price
  or the credit net was not negative (`Postings.RegistrationLaw`, `Postings.OverpaidLineAbsorbsDraw`).
* A batch keeps one record per staff member per day exactly when no staff member without a record is named
  by two acceptable entries (`Attendance.OnePerDayExactly`, `Attendance.SameStaffTwice`).
* An affiliate's total is saved after, and apart from, its transaction; a lost save leaves the total
  behind by that amount (`Affiliates.TotalFollowsTransactions`, `Affiliates.LostSaveDesynchronises`).

## Model

| member | source | states |
|---|---|---|
| Ledger.TotalPermutation | src/clubs/entities/financial-transaction.entity.ts:36-66 | every fold (wallet by SQL, wallet by loop, credit net, session chips, session credit, repayments) depends only on which rows there are, not on the order they are fetched in |
| Ledger.LoopVersusSqlWallet | src/auth/auth.service.ts:1344-1406 | for every ledger the loop's cash is the SQL wallet less the player's credit line repayment debits; the two are equal if and only if those sum to zero |
| Ledger.RepaymentSplitsWallets | src/clubs/entities/financial-transaction.entity.ts:41-42 | a repayment of 100 leaves the SQL wallet at 0 and shows −100 in the loop |
| Ledger.GetPlayerBalance | src/auth/auth.service.ts:1249-1512 | the pass over the fetched rows in any order shows the SQL wallet less repayments, the session-chips SQL since `seatedAt` when seated at a table with a known seat time and 0 otherwise, credit on the table up to the session credit and cash beyond it, all of it cash when the line is locked, and the facility for that cash |
| Ledger.Accumulate | src/auth/auth.service.ts:1344-1406 | the accumulating loop itself computes three folds of the rows: cash, table chips and table credit since `seatedAt`, the last two 0 when not seated |
| Ledger.Breakdown | src/clubs/credit-used.util.ts:72-116 | with the line on, used + on line + available is the whole limit and used + on line is what is consumed; while credit is owed none of it counts as used, otherwise none is on line, and nothing is used while the wallet is not overdrawn; a draw of what is available never exceeds the limit |
| Ledger.TotalOfOthers | src/clubs/entities/financial-transaction.entity.ts:36-59 | rows of other players move no fold of this player |
| Ledger.OnlyOutsideMoneyCounts | src/clubs/entities/financial-transaction.entity.ts:36-66 | over every ledger cash plus chips less credit owed is exactly what deposits, club buy-ins, winnings, bonuses and refunds brought in less withdrawals, cashouts, club buy-outs and fees; all other rows cancel out |
| Postings.BuyInEffect | src/clubs/services/buyin-request.service.ts:161-187 | an approved buy-in changes no fold of anybody but the chips of that player, by exactly the amount |
| Postings.CreditEffect | src/clubs/services/credit-requests.service.ts:139-183 | a draw raises credit net, table chips and session credit by the same amount and never touches the wallet |
| Postings.BuyOutEffect | src/clubs/services/buyout-request.service.ts:182-234 | a buy-out adds chips minus debt to the wallet, clears the debt, takes the chips off the table, for every fold and every player |
| Postings.JoinEffect | src/player-tournaments/player-tournaments.service.ts:490-552 | a registration takes its wallet share from both wallets and its credit share onto the credit net; for a seated player buy-in and draw also count as chips, the draw as session credit |
| Postings.RegistrationLaw | src/player-tournaments/player-tournaments.service.ts:381-422 | an accepted registration posts rows totalling the price, draws credit only when the wallet is brought to exactly 0, never leaves the wallet negative or the credit net above the limit; available credit falls by exactly the draw if and only if the wallet covers the price or the credit net was not negative |
| Postings.FeeFirst | src/player-tournaments/player-tournaments.service.ts:490-552 | the wallet pays none of the buy-in before the whole fee, neither part is overpaid, and credit is drawn only when the wallet is used up |
| Postings.OverpaidLineAbsorbsDraw | src/clubs/credit-used.util.ts:89-115 | a player with credit net −50 draws 60 and available credit falls by 10 |
| Postings.LeaveEffect | src/player-tournaments/player-tournaments.service.ts:695-716 | a cancellation refunds the wallet and changes no credit or chips |
| Postings.LeavePostsRefund | src/player-tournaments/player-tournaments.service.ts:695-716 | what is paid back is posted as one refund and nothing else is posted |
| Postings.SettledFolds | src/clubs/services/buyout-request.service.ts:349-405 | for every settlement list, duplicates included, a listed player ends with credit net min(old, 0) and the sum of all that player's amounts less the old debt, taken once; others do not move |
| Postings.SettledChips | src/clubs/services/buyout-request.service.ts:349-405 | session chips of a player fall by exactly the amounts listed for that player |
| Postings.SettledUnlisted | src/clubs/services/buyout-request.service.ts:349-405 | an unlisted player keeps every fold |
| Postings.SettledOnce | src/clubs/services/buyout-request.service.ts:374-390 | the first entry of a player reports the whole debt as settled, every later entry reports none |
| Postings.FacilityAfterDraw | src/clubs/credit-used.util.ts:89-115 | an approved draw within the limit raises what is on line by exactly the draw, and none of it counts as used |
| Postings.FacilityAfterSettlement | src/clubs/credit-used.util.ts:89-115 | for a solvent player within the limit a settlement leaves nothing on line; what was on line and not covered by chips and wallet reappears as used; available credit never falls: it rises by min(debt, chips + wallet) |
| ClubStore.CancelSeats | src/clubs/services/buyout-request.service.ts:228-234 | exactly the player's SEATED rows (at that table, when one is named) are cancelled, in place; no other row changes |
| ClubStore.SeatOf | src/clubs/services/credit-requests.service.ts:126-138 | a SEATED row of the player is found if and only if there is one |
| ClubStore.Store.ApproveBuyIn | src/clubs/services/buyin-request.service.ts:107-220 | the exact reply for every case; on success the request is approved and the two rows posted and nothing else changes; on any failure, partial writes included, nothing changes |
| ClubStore.Store.RejectBuyIn | src/clubs/services/buyin-request.service.ts:222-268 | only a pending request is refused, and only that request changes |
| ClubStore.Store.ApproveBuyOut | src/clubs/services/buyout-request.service.ts:124-277 | the exact reply; on success the chips return, the credit owed is debited and reported, all SEATED rows of the player are cancelled whether or not there were any, and the table frees a seat; on failure nothing changes |
| ClubStore.Store.RejectBuyOut | src/clubs/services/buyout-request.service.ts:279-325 | only a pending request is refused, and only that request changes |
| ClubStore.Store.SettleOne | src/clubs/services/buyout-request.service.ts:349-405 | one loop entry posts its buy-out against the ledger its predecessors left |
| ClubStore.Store.SettleAllPlayersOnTable | src/clubs/services/buyout-request.service.ts:327-462 | the whole list settles in one transaction, each entry reporting the debt it settled; the table is emptied and the rake recorded; on any failure nothing at all changes |
| ClubStore.Store.StaffBuyOut | src/clubs/services/buyout-request.service.ts:470-617 | the exact reply with the amount and the credit settled; only a player seated at that table is settled, only that seat is cancelled; on failure nothing changes |
| ClubStore.Store.CreateCredit | src/clubs/services/credit-requests.service.ts:20-98 | the exact reply; a request is filed only for an enabled player without a pending one |
| ClubStore.Store.ApproveCredit | src/clubs/services/credit-requests.service.ts:186-253 | the exact reply; on success the granted limit is recorded, the request becomes visible and the draw is posted iff the player is seated at a table with a positive draw; on failure nothing changes |
| ClubStore.Store.DenyCredit | src/clubs/services/credit-requests.service.ts:255-290 | only a pending request is denied, its limit set to 0 and the answer shown to the player |
| ClubStore.Store.UpdateLimit | src/clubs/services/credit-requests.service.ts:298-321 | the exact reply; only the limit of an approved request changes, within the cap |
| ClubStore.Store.UpdateVisibility | src/clubs/services/credit-requests.service.ts:292-296 | only the visibility of the request changes, whatever its status |
| MoneyRuns.CreditNetStep | src/clubs/services/buyout-request.service.ts:183-216 | no writer takes a non-negative credit net below zero; an accepted settlement brings it to min(old, 0); no other writer lowers it |
| MoneyRuns.CreditNetNeverNegative | src/clubs/services/buyout-request.service.ts:374-390 | over every run of the writers the credit net of every player stays non-negative |
| MoneyRuns.RunsFromEmptyLedger | src/clubs/services/buyout-request.service.ts:530-551 | from an empty ledger credit nets stay non-negative, and each of the three settlement paths leaves exactly zero |
| MoneyRuns.CancelAllExactly | src/clubs/services/buyout-request.service.ts:396-402 | the settlement loop cancels exactly the SEATED rows of listed players |
| MoneyRuns.SettleAllLaw | src/clubs/services/buyout-request.service.ts:327-462 | after a committed whole-table settlement each listed player has credit net min(old, 0), wallet raised by the returned chips less the old debt, and no SEATED row; unlisted players keep every fold and waitlist row; the table has no seats taken, no other table changes, and a positive rake is recorded with the table's number if it is there and has one |
| MoneyRuns.BuyOutFreesSeats | src/clubs/services/buyout-request.service.ts:228-243 | an approved buy-out cancels exactly the player's SEATED rows, and frees one seat at the table the request names, if it names one |
| MoneyRuns.StaffBuyOutFreesSeat | src/clubs/services/buyout-request.service.ts:470-617 | a staff buy-out needs a SEATED row of the player at that table, cancels the rows there and no others, and frees one seat |
| MoneyRuns.BuyInMovesChips | src/clubs/services/buyin-request.service.ts:140-187 | a buy-in of a positive amount puts just that on the table, any other changes nothing |
| MoneyRuns.UntouchedStep | src/clubs/services/buyin-request.service.ts:161-187 | a writer called for someone else leaves a player's folds and seat alone |
| MoneyRuns.SittingRun | src/clubs/services/credit-requests.service.ts:122-184 | while a player sits, any run of buy-ins, draws and tournaments joined or left adds up: chips rise by what was bought, drawn and staked, the credit net by what was drawn and borrowed, the wallet pays fees and stakes and takes refunds, whatever others do |
| MoneyRuns.NoTournaments | src/clubs/services/credit-requests.service.ts:122-184 | in a sitting without tournaments the wallet and everything borrowed for them stay untouched |
| MoneyRuns.SittingConservation | src/clubs/services/buyout-request.service.ts:182-243 | a whole sitting, tournaments included, ended by a buy-out leaves credit net 0, no chips, no seat and the wallet at start + chips returned − old debt − everything drawn, borrowed, staked and paid in fees + refunds; the buy-out moves the net position by exactly the chips returned minus the chips on the table |
| RequestProtocol.InvAlways | src/clubs/services/credit-requests.service.ts:186-278 | in every interleaving, stale saves included, locks on request, club and player rows are exclusive, a locked row stays as read, what each call is about to write is for its own request, player and amount, and every posting is of the shape its request calls for |
| RequestProtocol.PledgeWasRead | src/clubs/services/buyout-request.service.ts:183-216 | whatever a transaction is about to post, its own earlier read of the committed ledger or waitlist decided |
| RequestProtocol.PostingWasRead | src/clubs/services/buyout-request.service.ts:183-216 | every posting in the log, settlements of a whole table included, was decided by a read of the transaction that later committed it at that place |
| RequestProtocol.ReadIsDue | src/clubs/services/buyout-request.service.ts:144-234 | a read for a pending request decides exactly the rows due by ledger, waitlist, request and call, while its row is locked |
| RequestProtocol.ApprovedStep | src/clubs/services/buyin-request.service.ts:113-160 | a request becomes approved when its approving transaction commits, having not been approved before, for the same player, kind and amount; any other step leaves it approved or not as it is, unless an update saves a row that says otherwise |
| RequestProtocol.RequestRowStep | src/clubs/services/credit-requests.service.ts:292-321 | a request row changes only by the commit of the transaction that owns it while pending, or by the save of an update while nobody owns it, which writes the row as read but for the limit or the visibility; player, kind and amount never change |
| RequestProtocol.DeadlockExactly | src/clubs/services/credit-requests.service.ts:187-211 | of request, club and player row locks: in every reachable state a chain of waits closes if and only if an approval of credit waits for its player's row; otherwise chains have at most three members and never repeat one |
| RequestProtocol.BlockedIsDeadlock | src/clubs/services/credit-requests.service.ts:54-58 | such an approval waits for a new request of the same player, which waits for the club row the approval holds |
| RequestProtocol.NeverStuck | src/clubs/services/credit-requests.service.ts:257-278 | as far as request, club and player row locks go, every transaction in flight can advance without aborting, or waits over at most one other for one that can or for an approval in that deadlock |
| RequestProtocol.CommitFoundLineOn | src/clubs/services/credit-requests.service.ts:203-227 | every approval of credit and every new credit request that commits found its player's line on, as last switched, and limit or amount within the cap, when it locked the player's row |
| RequestProtocol.SettlementsPostedAsDue | src/clubs/services/buyout-request.service.ts:470-617 | every posting without a request is that of a staff or whole-table settlement that owed just these rows when it read ledger and waitlist: the settled amount and a debit of the credit net if positive, by staff only for a player seated at that table |
| RequestProtocol.CommittedExactly | src/clubs/services/buyout-request.service.ts:124-277 | a transaction counts as committed exactly if it has committed, and that only once |
| RequestUpdates.DecisionsStandExactly | src/clubs/services/credit-requests.service.ts:292-321 | in any run every decision on a request stands if and only if none commits between the read and the save of an update of the request, and that is so if and only if every save finds the status it has read; likewise for approvals alone |
| RequestUpdates.DecidedForever | src/clubs/services/buyin-request.service.ts:113-267 | a request that has left pending keeps its status, player, kind and amount in any continuation in which no decision on it falls between an update's read and save; only an approved credit request changes its limit, and only a credit request its visibility |
| RequestUpdates.SavesAsRead | src/clubs/services/credit-requests.service.ts:292-321 | a save writes the row its update had read, status and all, but for the one column; a limit only within the cap and for a request read as approved; no other request changes |
| RequestUpdates.PostedExactlyOnce | src/clubs/services/buyout-request.service.ts:124-234 | in every interleaving the rows posted for a request are those due when the approving transaction read: the amount of the call or the request for a buy-in, the settled amount with a debit of the credit owed on the ledger iff there is any for a buy-out, a credit pair of the smaller of amount and granted limit iff the player is seated at a table and it is positive for a credit; and they are in the ledger exactly once while it is approved and not at all otherwise if and only if no approval of it falls between an update's read and save |
| RequestUpdates.OnePendingExactly | src/clubs/services/credit-requests.service.ts:53-92 | in every interleaving of create, approve, deny and updates no player ever has two pending credit requests if and only if no update sets a decided one back to pending beside another, or between the check and the commit of a new one |
| RequestUpdates.OnePendingAlways | src/clubs/services/credit-requests.service.ts:53-92 | in particular no player ever has two while no decision falls between an update's read and save |
| RequestRaces.StaleSavePostsAgain | src/clubs/services/credit-requests.service.ts:292-296 | from every reachable state with nothing in flight, an update that read a request pending can save after its approval, and a second approval posts its rows again |
| RequestRaces.PostedTwice | src/clubs/services/credit-requests.service.ts:186-253 | a run from an empty ledger that posts a request of 100 twice and leaves the player owing 200 on a line of 100 |
| RequestRaces.TwoPending | src/clubs/services/credit-requests.service.ts:66-75 | a run after which a player has two pending credit requests |
| RequestRaces.ApprovalMeetsCreate | src/clubs/services/credit-requests.service.ts:187-211 | from every reachable state with nothing in flight, the approval of a pending credit request and a new request of the same player can come to wait for each other |
| SettlementRaces.CommitIsAtomicCall | src/clubs/services/buyout-request.service.ts:183-216 | a commit of any job has on ledger and waitlist the effect of the atomic call of the store if and only if what it read is still current: the debts for a settlement, the draw for a credit |
| SettlementRaces.SettledSame | src/clubs/services/buyout-request.service.ts:349-405 | an interleaved whole-table settlement leaves the ledger of the atomic one exactly if every debt it read is still what that call would settle |
| SettlementRaces.ReadPledges | src/clubs/services/buyout-request.service.ts:374-390 | a read of the debt raises what the settlement will debit to the whole credit net; a second entry for the same player debits nothing more unless more was drawn |
| SettlementRaces.ExclusiveSettlementsStaySolvent | src/clubs/services/buyout-request.service.ts:183-216 | while no two transactions have both read a positive debt of one player, no interleaving of the three settlement paths with everything else takes a credit net below zero |
| SettlementRaces.OverlappingSettlements | src/clubs/services/buyout-request.service.ts:183-216 | two settlements about to commit take the credit net to what it was less everything both have read |
| SettlementRaces.StaleRead | src/clubs/services/buyout-request.service.ts:183-216 | a settlement that reads the debt while another has read a and not committed: after both commit the credit net is what it had risen by in between less a, non-negative if and only if it rose by at least a |
| SettlementRaces.OverlapOverdraws | src/clubs/services/buyout-request.service.ts:124-216 | a run in which a pending buy-out of a player who owes 100 is approved while staff buy the same player out at the table, leaving the credit net at −100 |
| SettlementLocks.CyclesAreRings | src/clubs/services/buyout-request.service.ts:396-402 | in every reachable state a closed chain of waits on request, club, player and waitlist rows contains a blocked credit approval or is a ring of whole-table settlements, each waiting for seats the next one holds |
| SettlementLocks.OrderedSettlementsNeverDeadlock | src/clubs/services/buyout-request.service.ts:349-405 | no wait chain without a blocked credit approval closes a cycle in any interleaving as long as whole-table settlements list their players in one common order |
| SettlementLocks.RingExactly | src/clubs/services/buyout-request.service.ts:349-405 | for all lists, however many: some run that keeps to the seat locks, with the listed players staying where they sit, ends in a ring of waits if and only if each list can be stopped at a sitting player whom the next list names before its own stop, no sitting player being named by two lists before their stops |
| SettlementLocks.MutualWaitExactly | src/clubs/services/buyout-request.service.ts:349-405 | two settlements come to wait for each other in such a run if and only if each has an entry of a sitting player whom the other lists earlier, and before these entries they list no sitting player in common |
| SettlementLocks.SeatsExclusive | src/clubs/services/buyout-request.service.ts:396-402 | in a run that keeps to the seat locks no two settlements ever hold the seats of one sitting player |
| SettlementLocks.SameFirstNeverWait | src/clubs/services/buyout-request.service.ts:349-405 | two lists that begin with the same sitting player never do |
| SettlementLocks.OppositeOrdersDeadlock | src/clubs/services/buyout-request.service.ts:396-402 | any two sitting players listed in opposite orders are enough |
| Tournaments.TournamentDesk.PostPrice | src/player-tournaments/player-tournaments.service.ts:490-552 | the ledger rows of a registration, fee before buy-in before credit |
| Tournaments.TournamentDesk.RegisterForTournament | src/player-tournaments/player-tournaments.service.ts:374-563 | the exact reply in the order of the checks; on success registration, seat counter, late entry and rows together; on failure nothing changes |
| Tournaments.RegistersExactly | src/player-tournaments/player-tournaments.service.ts:331-437 | a call registers the player if and only if the tournament is open, has a seat free, is within its late minutes if active, the player is not registered yet and the funds suffice; otherwise nothing changes |
| Tournaments.RefusedForFunds | src/player-tournaments/player-tournaments.service.ts:403-422 | for want of funds a call is refused exactly if the wallet is overdrawn, or fee and buy-in charged exceed wallet and available credit |
| Tournaments.RegistrationAffordable | src/player-tournaments/player-tournaments.service.ts:381-422 | an accepted registration leaves the wallet non-negative and takes exactly the price from wallet and line; credit is drawn only on a line that is on, with the wallet used up, within the limit; a player who can pay is never refused for funds |
| Tournaments.CallsAreMoneyOps | src/player-tournaments/player-tournaments.service.ts:490-552 | on the ledger the calls are the operations of the money runs, so what every run keeps holds of them |
| Tournaments.OnlyThisTournament | src/player-tournaments/player-tournaments.service.ts:456-489 | besides ledger and registrations a call touches only that tournament's seat counter and, when it is active, the late entry, which adds the buy-in charged and keeps an earlier start |
| Tournaments.Enrol | src/player-tournaments/player-tournaments.service.ts:473-488 | a late entry is active and not exited, keeps the first start time, and its stake is added to what was invested before; nobody else changes |
| Tournaments.TournamentDesk.CancelRegistration | src/player-tournaments/player-tournaments.service.ts:615-736 | only a registered player is cancelled; on failure nothing changes |
| Tournaments.UnregisterOne | src/player-tournaments/player-tournaments.service.ts:682-685 | the delete removes exactly the one row of that tournament and player |
| Tournaments.AlwaysConsistent | sql/0019_tournament_registrations.sql:2-12 | over every run from a consistent start the seat counter equals the number of registrations, never exceeds capacity, and nobody is registered twice |
| Tournaments.RegisterThenCancel | src/player-tournaments/player-tournaments.service.ts:670-716 | registering then cancelling moves wallet minus credit net by minus fee, minus buy-in charged, plus buy-in refunded; by exactly minus the fee if and only if the tournament is not rummy or has no buy-in |
| Tournaments.RummyRefundsUnchargedBuyIn | src/player-tournaments/player-tournaments.service.ts:386 | a rummy player with 10 ends with 50 after registering and cancelling |
| EventsIndex.TagsUnambiguous | src/events/events.service.ts:229-246 | tags of different kinds or ids never collide and stripping the prefix gives the id back, whatever the id contains |
| EventsIndex.ListenersDetermined | src/events/events.service.ts:126-227 | two well-kept indexes that agree on each client's tags have identical listener maps |
| EventsIndex.IndexAfterAnyCalls | src/events/events.service.ts:126-246 | after any calls a client is listed under an id exactly when its own calls leave it holding the tag, and no listener set is empty |
| EventsIndex.EraseMirrors | src/events/events.service.ts:229-246 | erasing a client keeps the two directions inverse and every other client's tags |
| EventsIndex.RemovedEverywhere | src/events/events.service.ts:229-246 | any well-kept index that only lost one client is the simple erasure of that client |
| EventsIndex.EventsService.constructor | src/events/events.service.ts:16-30 | a new service holds nothing and is well kept |
| EventsIndex.EventsService.SubscribeToClub | src/events/events.service.ts:126-146 | the client gains exactly the club tag, and the player tag when an id is given; nobody else changes |
| EventsIndex.EventsService.SubscribeToPlayer | src/events/events.service.ts:148-164 | the client gains exactly the player and the club tag |
| EventsIndex.EventsService.SubscribeToStaff | src/events/events.service.ts:196-212 | the client gains exactly the staff and the club tag |
| EventsIndex.EventsService.UnsubscribeFromClub | src/events/events.service.ts:166-179 | the client loses exactly that tag and an emptied listener set disappears |
| EventsIndex.EventsService.UnsubscribeFromPlayer | src/events/events.service.ts:181-194 | the client loses exactly that tag and an emptied listener set disappears |
| EventsIndex.EventsService.UnsubscribeFromStaff | src/events/events.service.ts:214-227 | the client loses exactly that tag and an emptied listener set disappears |
| EventsIndex.EventsService.DropTag | src/events/events.service.ts:232-243 | the callback recovers channel and id from the tag and removes exactly that tag |
| EventsIndex.EventsService.RemoveClient | src/events/events.service.ts:229-246 | although it deletes from the set it iterates, in any order, the result is the simple erasure: the client is nowhere, no other client changes |
| EventsIndex.EventsService.ClientsOf | src/events/events.service.ts:106-124 | an event for a recipient goes to exactly the clients holding the recipient's tag |
| Delivery.FlushLoop | src/events/events.service.ts:50-87 | the loop emits in queue order and reports exactly the ids of the rows it emitted, each emission and id of the same row and none twice |
| Delivery.Mark | src/events/events.service.ts:76-82 | exactly the listed rows become delivered |
| Delivery.Sweep | src/events/events.service.ts:89-104 | exactly the rows delivered more than an hour ago go |
| Delivery.NoMessageLost | src/events/events.service.ts:35-124 | in every interleaving a guaranteed message has been emitted to a client that subscribed as its recipient, or awaits its insert, or is stored undelivered |
| Delivery.SendReachesEveryone | src/events/events.service.ts:106-124 | a send reaches every client whose last call as the recipient was to subscribe, once each and nobody else; it is queued exactly if there is none |
| Delivery.MarkedNeverSelected | src/events/events.service.ts:50-82 | what a flush has marked no later select returns |
| Delivery.KeptAnHour | src/events/events.service.ts:89-104 | at a cleanup exactly the rows that some flush marked more than an hour ago go |
| Delivery.RowAsInserted | src/events/events.service.ts:35-48 | a stored row is the one its insert made, with the queue time it was given |
| Delivery.FlushAsStarted | src/events/events.service.ts:50-58 | a flush is for the recipient and the client it was started for |
| Delivery.MarkedOnlyAfterEmission | src/events/events.service.ts:73-104 | a row is marked or deleted only after its message was emitted |
| Delivery.FlushDeliversSelection | src/events/events.service.ts:50-87 | a flush itself emits to its own client, and reports, every row that was stored for its recipient at its select and whose payload can be emitted, whatever rows are broken and whatever happens in between |
| SessionClock.PlaySecondsExactly | src/utils/table-session-clock.ts:88-136 | for every history, second starts included, and every player the clock shows the sum of floored running segments since the player sat plus an explicit error |
| SessionClock.ExtraIsLastReset | src/utils/table-session-clock.ts:88-136 | that error is the one of the last start that did not continue the player's own count, and 0 when there was none |
| SessionClock.CorrectUnlessReset | src/utils/table-session-clock.ts:88-136 | the clock shows exactly the floored running segments if and only if the last such start, if any, credited just what had been played |
| SessionClock.CorrectUnlessInherited | src/utils/table-session-clock.ts:1-7 | on a table never started while running, the clock is right if and only if the player did not sit down during a since-resumed pause that left something to inherit |
| SessionClock.SittingInAPauseInherits | src/utils/table-session-clock.ts:118-132 | a history in which the clock shows 610 seconds for 10 seconds of play |
| SessionClock.RestartForgets | src/clubs/clubs.controller.ts:6791-6824 | after a start on a running table a player seated before it is shown the table's carry plus the time since, whatever was shown before; that is right exactly if the carry equals what was shown |
| SessionClock.RestartLosesSegment | src/clubs/clubs.controller.ts:6791-6824 | a history in which the clock shows 10 seconds for 610 seconds of play |
| SessionClock.IdlePause | src/clubs/clubs.controller.ts:6601-6604 | pausing a table that is not running changes nothing |
| SessionClock.CarryIsClosedSegments | src/clubs/clubs.controller.ts:6601-6650 | the staff clock's carry is exactly the sum of the floored segments the pauses closed |
| SessionClock.NeverStarted | src/utils/table-session-clock.ts:125-136 | on a table never started the clock counts from when the player sat down |
| SessionClock.WithoutTimesOrId | src/utils/table-session-clock.ts:88-116 | a paused clock whose notes lack the times falls back to the table's carry, and a call without a player id ignores everybody's seconds |
| SessionClock.RoundingBound | src/utils/table-session-clock.ts:88-136 | the floored sum never exceeds true running time and falls short by less than one second per segment |
| SessionClock.ClockMonotone | src/utils/table-session-clock.ts:97-135 | constant in now while paused, non-decreasing while running |
| SessionClock.PauseAndResumeContinue | src/clubs/clubs.controller.ts:6601-6650 | a pause freezes what the running clock showed and a resume continues from it, for every player seated at the pause |
| SessionNotes.ParsePlayerBaselineMap | src/utils/table-session-clock.ts:19-37 | the loop computes the map of the chosen field; every key is a lower-cased 36-character id and every value non-negative |
| SessionNotes.NumberOfDigits | src/utils/table-session-clock.ts:32-34 | printing a number in base ten and parsing it gives it back |
| SessionNotes.FieldFound | src/utils/table-session-clock.ts:23-27 | a field is captured whole wherever it stands, unless its key occurs earlier |
| SessionNotes.BaselineRoundTrip | src/utils/table-session-clock.ts:19-37 | printed seconds come back: a running session reads PlayerCarry whatever PausedPlayers says, a paused one only PausedPlayers, a running one without PlayerCarry falls back; ids lower-cased, later duplicates win |
| SessionNotes.DistinctMeaning | src/utils/table-session-clock.ts:30-35 | with distinct lower-cased ids the map is exactly the printed one |
| SessionNotes.MalformedSkipped | src/utils/table-session-clock.ts:31-33 | a malformed pair changes nothing wherever it stands |
| SessionText.FieldOf | src/utils/table-session-clock.ts:39-86 | each of the six fields is read as written, wherever it stands among the others |
| SessionText.StripText | src/clubs/clubs.controller.ts:6622-6629 | removing a field by its pattern removes exactly that field and leaves the others readable |
| SessionText.HeadSilent | src/clubs/clubs.controller.ts:6621-6633 | after the six removals no session data is left in the notes |
| SessionText.ReadPaused | src/utils/table-session-clock.ts:60-76 | paused notes parse to the elapsed seconds, both times and every player's seconds that were written |
| SessionText.ReadRunning | src/utils/table-session-clock.ts:41-58 | running notes parse to the start, the carried total and every player's carry that were written |
| SessionText.SnapshotMeaning | src/clubs/clubs.controller.ts:6634-6647 | the snapshot a pause writes means each seated player's computed seconds |
| SessionText.NotesFollowClock | src/clubs/clubs.controller.ts:6791-6824 | over any number of starts and pauses in any order, with any other text in the notes, parsing the notes gives exactly the clock of the history |
| SessionText.ShownFromNotes | src/utils/table-session-clock.ts:39-136 | the seconds computed from the text of the notes are the floored running segments if and only if the last start that did not continue the player's count credited just that |
| Calendar.FromNumber | src/clubs/services/attendance-tracking.service.ts:209-213 | every day number is that of the valid calendar day returned |
| Calendar.NumbersFollowCalendar | src/clubs/services/attendance-tracking.service.ts:209-213 | day numbers order days as the calendar does |
| Calendar.AddDaysRoundTrip | src/clubs/services/attendance-tracking.service.ts:209-213 | adding days moves the day number by exactly that many and is undone by taking them away, over month and year ends |
| Calendar.NextDay | src/clubs/services/attendance-tracking.service.ts:209-213 | the next day at month ends, leap days and year ends |
| Calendar.ShiftLength | src/clubs/services/attendance-tracking.service.ts:193-213 | logout minus login is (end − start) mod 24 h on every day: strictly between 0 and 24 h, or exactly 0 for equal times |
| Attendance.RunBatch | src/clubs/services/attendance-tracking.service.ts:766-893 | the batch loop judges each entry against the records its predecessors left, editing loaded ones in place and collecting new ones |
| Attendance.AttendanceBook.BulkCreate | src/clubs/services/attendance-tracking.service.ts:710-920 | a batch is saved whole or not at all, a future date is refused, results and records are those of the entries in order, and no surviving record's tier falls |
| Attendance.JudgeEntry | src/clubs/services/attendance-tracking.service.ts:766-893 | one pass of the batch loop refuses an entry with the first check that fails and otherwise yields the record it is saved as |
| Attendance.AttendanceBook.CreateRecord | src/clubs/services/attendance-tracking.service.ts:321-453 | the exact reply and the exact records left; one record per staff per day and all tiers are kept |
| Attendance.AttendanceBook.UpdateRecord | src/clubs/services/attendance-tracking.service.ts:476-540 | the exact reply and the exact record left; one record per staff per day and all tiers are kept |
| Attendance.TiersNeverFall | src/common/rbac/attendance-authority.util.ts:32-35 | over any batch each loaded record keeps its staff and day and its tier never falls |
| Attendance.ChangedOnlyBySuccess | src/clubs/services/attendance-tracking.service.ts:840-872 | a record the batch changed is that of an entry reported as updated, whose staff is known and not on leave and whose logout is after login |
| Attendance.AddedOnlyBySuccess | src/clubs/services/attendance-tracking.service.ts:873-892 | a record the batch added is that of an entry reported as created, with the same guarantees |
| Attendance.OneResultPerEntry | src/clubs/services/attendance-tracking.service.ts:766-893 | one result per entry, in order |
| Attendance.SuccessSaved | src/clubs/services/attendance-tracking.service.ts:860-897 | a staff member's last entry, when it succeeds, is what is saved for the day |
| Attendance.RefusalsChangeNothing | src/clubs/services/attendance-tracking.service.ts:766-858 | a staff member without a successful entry keeps exactly the records there were |
| Attendance.OnePerDayExactly | src/clubs/services/attendance-tracking.service.ts:751-893 | one record per staff per day is kept if and only if no staff member without a record of the day is named by two acceptable entries: of the day, known, not on leave, with times that can be set in order |
| Attendance.CreatedExactly | src/clubs/services/attendance-tracking.service.ts:766-893 | an entry creates a record if and only if the staff member had none before the batch and the entry is acceptable, whatever the other entries do |
| Attendance.DistinctStaffOnePerDay | src/clubs/services/attendance-tracking.service.ts:751-893 | a batch with distinct staff keeps one record per staff per day |
| Attendance.SameStaffTwice | src/clubs/services/attendance-tracking.service.ts:751-893 | a batch naming the same staff member twice reports both as created and leaves two records for the day |
| Attendance.ShiftEntryJudged | src/clubs/services/attendance-tracking.service.ts:193-213 | an entry saved from its shift starts at the shift's start on the day and lasts (end − start) mod 24 h; it is saved exactly when privilege and leave allow it and the shift does not end in the minute it starts |
| Attendance.TemplateEntryJudged | src/clubs/services/attendance-tracking.service.ts:807-819 | an entry saved from the roster template starts at the template's start on the day and lasts end − start, with 24 h more exactly if it crosses midnight; it is saved exactly if that is positive and off day, privilege, leave and staff allow it |
| Attendance.TypedEntryJudged | src/clubs/services/attendance-tracking.service.ts:833-848 | an entry with typed times is saved with just these, exactly if off day, privilege, leave and staff allow it and the logout is not at or before the login |
| Attendance.NothingToSetTimesFrom | src/clubs/services/attendance-tracking.service.ts:794-832 | without a shift, or on an off day without a template, no times are set unless typed in, and the refusal says which |
| Attendance.RecordOfEntry | src/clubs/services/attendance-tracking.service.ts:855-892 | a saved record carries the marker's tier, the overtime given or none, and counts as off-day work exactly if the shift of the day is an off day |
| Attendance.CanOverride | src/common/rbac/attendance-authority.util.ts:32-35 | a mark replaces one exactly if it is privileged and of no lower tier |
| Affiliates.AffiliateAccounts.ProcessPayment | src/clubs/services/affiliates.service.ts:571-605 | a payment to a known affiliate is recorded once and, unless the second save is lost, added to the total |
| Affiliates.AffiliateAccounts.OverrideTransaction | src/clubs/services/affiliates.service.ts:611-662 | a valid override replaces the amount, keeps the first one as original and moves the total by the difference |
| Affiliates.TotalFollowsTransactions | src/clubs/services/affiliates.service.ts:583-599 | over every run the total moves with the sum of current amounts, exactly if and only if lost total saves sum to zero |
| Affiliates.LostSaveDesynchronises | src/clubs/services/affiliates.service.ts:583-599 | a payment of 30 whose total save fails leaves the list at 30 and the total at 0 |
| Affiliates.OriginalAmountKept | src/clubs/services/affiliates.service.ts:634-656 | however often it is overridden a transaction's original amount stays its very first amount |

## Left out

- Money as floating point and decimal strings: amounts are integers, so rounding and decimal decoding do not appear; the settled amount of a buy-out approval is an input.
- Notes, names and free text of ledger rows: only the wallet pair marker and the repayment marker are kept, as booleans; a tournament name that contains a marker is not modelled.
- More than one club, `game_type`, player and collector names, audit rows and events emitted after a commit.
- Ledger.GetPlayerBalance: takes the credit net the query returns as given, and a seat with a known table number; a seated row without a seat time shows no chips, as in the code.
- ClubStore.SeatOf: LIMIT 1 without ORDER BY is taken to return the first SEATED row.
- ClubStore.Store.SettleAllPlayersOnTable: its exact fault threshold is given only as a sufficient bound.
- RequestUpdates.PostedExactlyOnce: NOW() is taken at the start of the transaction.
- RequestUpdates.DecisionsStandExactly: a save's own select and update are one step, so a decision that commits between these two is not modelled; the join that finds a credit request or its player is taken to lock the club row with it.
- RequestProtocol.DeadlockExactly: table rows, ledger rows and the foreign keys of inserts are not modelled, and waitlist rows only in SettlementLocks.
- RequestProtocol.NeverStuck: request, club and player rows only, as for DeadlockExactly.
- SettlementRaces.ExclusiveSettlementsStaySolvent: writers outside the protocol are taken to lower no credit net, so the cashier's repayment of a credit line is left out.
- SettlementLocks.OrderedSettlementsNeverDeadlock: a settlement's last update, of its table row, is left out; whoever holds that row waits for nothing more.
- SettlementLocks.RingExactly: an update of seats is taken to happen when its settlement goes on, players not in the lists may move, and a player seated anew after the update counts as held.
- Tournaments.AlwaysConsistent: register and cancel are atomic steps; their capacity check takes no lock, and nothing is claimed about concurrent registrations.
- KYC and club membership checks, the cached balance field of registration, and a balance view that fails during registration, which counts as an empty wallet.
- playerTableBuyInRequest, waitlist seating and the repayment writer outside the files cited.
- Delivery.NoMessageLost: queue inserts are taken to succeed; payloads and event names are not modelled.
- SessionText.NotesFollowClock: the initial notes name none of the six fields, and the date printer and parser are parameters that agree on the times used.
- SessionNotes.NumberOfDigits: seconds are unbounded, so values beyond double precision are not modelled.
- Attendance.AttendanceBook.BulkCreate: dates are valid calendar days and times parsed instants or invalid; the building of the roster template map, deletions and total hours are not modelled.
- Calendar.FromNumber: years are unbounded above, so the four-digit form of dates outside 1000 to 9999 is not modelled.
- Affiliates.TotalFollowsTransactions: calls run one after the other; lost updates between concurrent payments are not modelled.
