# Library circulation: a Dafny model

This project models the circulation engine of the library management platform: what its services do to the books,
loans, reservations and members tables, how its refresh tokens rotate, and how its transactions nest and interleave.
`dafny verify dfyconfig.toml` checks everything.

## How it is laid out

| file | content |
|---|---|
| `Prelude.dfy`, `Domain.dfy`, `Repositories.dfy` | counting over tables, the rows, and the repositories' queries |
| `Circulation.dfy` | each service transaction as a function from tables to committed tables or a raised error |
| `Services.dfy` | the services as classes that write rows in place, each method tied to its transaction function |
| `Machine.dfy` | the state machine: one step is one outermost service call, a change of a member, or the clock moving on |
| `Inventory.dfy` | what every step keeps: row rules, copy conservation, limits |
| `Queue.dfy`, `Fairness.dfy`, `Waiting.dfy` | holds accounted for, first come first served, bounded waiting |
| `Sweep.dfy` | the loop over expired holds as one batch |
| `Decisions.dfy` | exactly when each transaction goes through, in terms of members, loans and holds instead of counters |
| `Refusals.dfy` | which error a call raises, in the same terms |
| `Effects.dfy` | what a step does to a reservation and where a released copy goes, with every field spelled out |
| `Lifecycles.dfy` | what becomes of a loan, an overdue member and a deleted book over whole runs |
| `Promises.dfy`, `LookBack.dfy` | promises of the code and its design documents, with the exact condition where one fails |
| `Witness.dfy`, `BusyReader.dfy` | runs of ordinary calls from the empty database in which those conditions fail |
| `Fines.dfy`, `Dashboard.dfy` | the fine, and the dashboard's totals |
| `Interleaving.dfy` | `borrow_book` and `update_book` statement by statement, any number at once |
| `Transactions.dfy`, `Atomicity.dfy` | the `@transactional` wrapper, and the circulation calls that nest run under it |
| `Auth.dfy`, `Sessions.dfy` | token families under the wrapper, and what a login session can count on |

Every copy of a book is in one of three places: on the shelf (`available_copies`), out on an active loan, or behind a
HOLD. Transactions move copies between these through nested calls, and between two flushes a released copy is briefly in
none of them; `Inventory.Conserved` carries that copy along. A run is any sequence of steps from the empty database.

Where the code leaves something open, the model leaves it open too and the theorems hold for every choice: which of two
reservations with equal `reserved_at` the FIFO query returns, the order in which the sweep lists expired holds, which of
several loans with equal dates the twenty-row history query shows, generated ids (fresh), and when the clock moves.
Times are integers in microseconds, money is in cents. A step that raises leaves the tables as they were; `Atomicity.dfy`
proves that from the wrapper for the calls that write before they may raise.

`Machine.History` keeps what the tables forget: the promotions in order, since when each hold has been held, which holds
were cancelled, and which loans gave their copy back.

## Where the code and its documents part

- ADR 0019 lets the holder of a HOLD borrow within 48 hours. With two HOLDs on one book the hold query finds two rows
  and the loan is rolled back, for both holders; and `delete_book` does not look at holds, so the holder of a deleted
  book is told that there is no such book. `Promises.HolderMayBorrow` gives the exact condition, and
  `Witness.TwoHoldersStuck` and `Witness.HolderOfDeletedBook` are runs that end there.
- ADR 0019 lets a hold lapse after 48 hours. `borrow_book` never looks at `expires_at`, so until a sweep comes by an
  expired hold is as good as any: `Promises.ExpiryIsNotChecked`, and the run `Witness.ExpiredHoldCollected`.
- ADR 0019 gives a copy to the queue before the shelf. Raising `total_copies`, or returning through a `BorrowService`
  built without a `ReservationService`, puts copies on the shelf over the heads of those waiting; these are the only two
  ways (`Promises.QueueServedBeforeShelf`), and `Witness.BoughtPastTheQueue` and `Witness.ReturnedPastTheQueue` are runs
  that take them. The shipped wiring always passes a `ReservationService` (app/dependencies/auth.py:143-162), so there
  only the first can happen.
- A member must not reserve a book they have out, but the look-back sees twenty loans. `LookBack.RefusedExactly` says
  when the test cannot be missed: exactly when fewer than twenty other loans of the member are at least as recent.
  `BusyReader.ReservesOwnCopy` is a run in which twenty short loans hide it, `BusyReader.RefusedAfterNineteen` one in
  which nineteen do not.
- `promote_next_reservation` can be called by itself, and then places a copy nobody released. Only nested calls exist in
  the code. `Promises.StandalonePromotion` says exactly when such a call would still leave copies conserved,
  and `Witness.PromotedFromNothing` a reachable state in which it would not.
- "Count any partial day as a full day overdue": the code looks at whole seconds only, so the first second of an overdue
  day is free. `Fines.PartialDaysCharged` gives the exact condition.
- Marking an expired or ownerless refresh token as revoked is rolled back by the exception that follows, while burning a
  reused family is not: `Auth.RefreshUnderTransaction`, and `Auth.ExpiredMarkIsLost` for one such token.

## Model

| member | source | states |
|---|---|---|
| `Services.Database.Flush` | app/models/book.py:32-93 | a books row is written exactly when it satisfies the CHECKs and fits its columns; otherwise nothing changes |
| `Services.BookService.CreateBook` | app/services/book_service.py:55-93 | commits a new row with every copy on the shelf, or raises on a live or deleted row with the ISBN or a forbidden count |
| `Services.BookService.UpdateBook` | app/services/book_service.py:95-141 | moves available_copies by the change of total_copies, or raises in the source's order of checks and changes nothing |
| `Services.BookService.DeleteBook` | app/services/book_service.py:143-156 | soft-deletes a live book, raises for any other |
| `Services.ReservationService.PlaceReservation` | app/services/reservation_service.py:65-130 | queues the member or raises the first failing check, including the loop over the history rows |
| `Services.ReservationService.PromoteNextReservation` | app/services/reservation_service.py:171-201 | moves some oldest waiting reservation to HOLD for 48 hours, or shelves the copy when nobody waits and the book lives |
| `Services.ReservationService.CancelReservation` | app/services/reservation_service.py:132-169 | withdraws an active reservation of this member and, if it was a hold, passes the copy on; all of it or nothing |
| `Services.ReservationService.ExpireHold` | app/services/reservation_service.py:214-229 | one round of the sweep: the hold expires and its copy goes to the next in line |
| `Services.ReservationService.ProcessExpiredHolds` | app/services/reservation_service.py:203-232 | the loop does the rounds in some order, counts them, and ends in the batch outcome; it cannot fail from a sound state |
| `Services.ReservationService.GetActiveReservations` | app/services/reservation_service.py:234-255 | lists exactly the member's active reservations, each once, oldest first, with live positions for those waiting |
| `Services.BorrowService.ValidateMemberForBorrow` | app/services/borrow_service.py:133-162 | rejects for status, overdue loans, or five active loans, in that order |
| `Services.BorrowService.BorrowBook` | app/services/borrow_service.py:164-269 | lends a shelf copy or the member's own sole held copy, or raises and changes nothing |
| `Services.BorrowService.ReturnBook` | app/services/borrow_service.py:271-328 | closes the loan once, computes the fine, and promotes or shelves; a replay changes nothing |
| `Services.BorrowService.RenewBook` | app/services/borrow_service.py:330-409 | extends an open, on-time loan by fourteen days at most twice |
| `Repositories.FifoAnswers` | app/repositories/reservation_repository.py:52-64 | the FIFO query finds somebody exactly when somebody waits |
| `Inventory.ShelfHasRoom` | app/services/reservation_service.py:195-201 | putting a released copy back on a live book's shelf cannot violate available_copies <= total_copies |
| `Inventory.PromotionSettles` | app/services/reservation_service.py:171-201 | a released copy always finds its place, so after promotion nothing is loose |
| `Inventory.ReturnKeepsSound` | app/services/borrow_service.py:299-316 | a return fails only for an unknown loan and keeps rows, conservation and limits |
| `Inventory.CancelKeepsSound` | app/services/reservation_service.py:144-169 | a cancellation succeeds exactly for the owner's active reservations and keeps rows, conservation and limits |
| `Inventory.SweepKeepsSound` | app/services/reservation_service.py:212-232 | a sweep never aborts half way and keeps rows, conservation and limits |
| `Inventory.BorrowKeepsSound` | app/services/borrow_service.py:180-265 | a loan takes exactly one copy from shelf or hold |
| `Inventory.UpdateKeepsSound` | app/services/book_service.py:114-137 | changing total_copies changes the shelf by the same amount |
| `Inventory.RunsStaySound` | app/models/book.py:83-93 | in every state of every run: CHECKs and row rules hold, live books have total = shelf + out + held and deleted books at least that, at most five loans and three reservations per member and one per member and book |
| `Queue.PromotionIsFaithful` | app/services/reservation_service.py:177-193 | promoting the head of the queue overtakes nobody still waiting and starts a 48-hour hold |
| `Queue.RunsStayFaithful` | app/services/reservation_service.py:65-232 | in every state of every run the log of promotions, hold times and releases is what the tables show, and nobody has been overtaken |
| `Queue.HoldsAreAccountedFor` | app/domain/enums.py:73-80 | over any run promotions = HOLD + COMPLETED + EXPIRED + holds cancelled |
| `Queue.ReleasesAreReturns` | app/services/borrow_service.py:290-305 | over any run as many copies were given back as loans are RETURNED |
| `Fairness.StepEvolves` | app/services/reservation_service.py:65-232 | no step removes a row, reopens a closed one, or changes who reserved what when |
| `Fairness.PositionNeverRises` | app/repositories/reservation_repository.py:66-81 | over any stretch of any run a computed queue position does not rise |
| `Fairness.FirstComeFirstServed` | app/repositories/reservation_repository.py:52-64 | once a reservation has been on HOLD, none placed earlier for that book waits at any later point of the run |
| `Waiting.PromotionKeepsTurn` | app/repositories/reservation_repository.py:52-81 | with distinct timestamps each promotion for the book either serves a waiting reservation at position one or moves it up by one |
| `Waiting.PositionIsPromotionsToGo` | app/repositories/reservation_repository.py:66-81 | at position p with nobody giving up, a reservation is promoted by exactly the p-th later promotion, and moves up one place with each until then |
| `Waiting.WaitIsBounded` | app/repositories/reservation_repository.py:52-81 | whoever gives up, promotions seen while waiting plus the position now never exceed the position then |
| `Sweep.RoundIsBatched` | app/services/reservation_service.py:214-229 | one more round extends the batch by one hold |
| `Sweep.SweepIsBatch` | app/services/reservation_service.py:203-232 | for every listing order and tie-break: all e expired holds become EXPIRED with no expiry, the earliest min(e, p) of p waiting are put on HOLD for 48 hours, and max(0, e - p) copies go back to a live book's shelf |
| `Sweep.SweepIgnoresOrder` | app/services/reservation_service.py:213-229 | with distinct timestamps every order of the list ends in the same tables |
| `Sweep.SweepIsComplete` | app/services/reservation_service.py:203-208 | after a sweep no hold is overdue, and a second sweep at the same time changes nothing |
| `Sweep.SweepHasAnswers` | app/services/reservation_service.py:213-229 | every listing of the expired holds can be worked through |
| `Sweep.SweepIsPossible` | app/services/reservation_service.py:209-213 | in every sound state a sweep can be run through |
| `Decisions.BorrowExactly` | app/services/borrow_service.py:180-240 | a loan goes through if and only if the member is active with under five loans and none overdue, and either nothing is on hold and fewer copies are engaged than exist, or the only hold is theirs |
| `Decisions.PlaceExactly` | app/services/reservation_service.py:72-117 | a reservation goes through if and only if every copy is out or held, the member is active, under three, without one for this book, and the look-back shows no open loan of it |
| `Decisions.CreateExactly` | app/services/book_service.py:62-93 | a book is created if and only if no row, live or deleted, has its ISBN and its count and ISBN fit their columns |
| `Decisions.UpdateExactly` | app/services/book_service.py:105-137 | total_copies may become exactly what lies between the copies out or held and the column width, with an ISBN that is free and fits; the shelf gets the difference; which error otherwise |
| `Decisions.LimitsAlways` | app/services/reservation_service.py:81-90 | in every state of every run, counted from the rows, a member has at most five loans out and three active reservations, one for a book |
| `Refusals.BorrowRefused` | app/services/borrow_service.py:133-240 | which error borrow_book raises: the member's standing first, then the book, the holds, the shelf; none otherwise |
| `Refusals.PlaceRefused` | app/services/reservation_service.py:72-109 | which error place_reservation raises: stock, the member's reservations, the member, the loans shown; none otherwise |
| `Refusals.CancelRefused` | app/services/reservation_service.py:138-150 | which error cancel_reservation raises; somebody else's reservation counts as none |
| `Refusals.RenewRefused` | app/services/borrow_service.py:344-388 | which error a loan's n-th renewal raises at any point of any run; none otherwise |
| `Refusals.ReturnAndDeleteRefused` | app/services/borrow_service.py:285-316 | a return and a deletion fail only for what is not there |
| `Effects.HoldsEndForAReason` | app/services/reservation_service.py:209-229 | at any step of any run a hold turns EXPIRED exactly in a sweep more than 48 hours after its promotion, COMPLETED exactly by its holder's loan of the book, CANCELLED exactly by its holder; otherwise its row stays |
| `Effects.HoldsBeginForTwoDays` | app/services/reservation_service.py:177-193 | whoever comes on hold was waiting while a copy came free, and holds it until 48 hours from that moment |
| `Effects.CancelledForGood` | app/services/reservation_service.py:144-161 | a cancelled reservation, waiting or held, is at every later point its former row with status CANCELLED and no expiry |
| `Effects.CancelWaiting` | app/services/reservation_service.py:151-169 | cancelling a waiting reservation changes its row and nothing else |
| `Effects.CancelHold` | app/services/reservation_service.py:151-169 | cancelling a hold changes its row and hands its copy to an oldest waiting member, or to a live book's shelf, and does nothing else |
| `Effects.ReturnPassesOn` | app/services/borrow_service.py:295-316 | a return changes its row and hands the copy to an oldest waiting member, or to a live book's shelf, and does nothing else |
| `Effects.ClosedStays` | app/domain/enums.py:73-80 | COMPLETED, EXPIRED and CANCELLED are final along any run |
| `Effects.PlaceAdds` | app/services/reservation_service.py:111-119 | a reservation that goes through adds one PENDING row dated now and does nothing else |
| `Effects.OnlyPlacingAdds` | app/services/reservation_service.py:111-119 | no other step adds a reservation |
| `Effects.BorrowTakes` | app/services/borrow_service.py:222-256 | a loan adds its row and either completes its holder's hold or takes one copy off the shelf, and does nothing else |
| `Lifecycles.LoanMoves` | app/services/borrow_service.py:291-394 | only its own renewal and its own return ever change a loan, and only a loan call makes one; every field of the new row |
| `Lifecycles.BorrowAdds` | app/services/borrow_service.py:243-256 | borrowing adds exactly the row asked for, dated at the moment of borrowing and due 14 days later, and every other loan stays |
| `Lifecycles.PeriodsAreGranted` | app/services/borrow_service.py:360-394 | at most two renewals of a loan succeed in any run, and it is due 14 days after it began for each period granted |
| `Lifecycles.RenewExactly` | app/services/borrow_service.py:352-394 | at any point of any run a loan's n-th renewal is granted if and only if n <= 2, it is out and unblocked, and at most 14 * n days have passed since it began |
| `Lifecycles.ReturnsAreStamped` | app/services/borrow_service.py:295-300 | a loan is closed by its own return only, with that moment as return date, and released once |
| `Lifecycles.LateUntilReturned` | app/services/borrow_service.py:383-388 | once overdue, a loan's row does not change until it is returned |
| `Lifecycles.OverdueBlocksBorrowing` | app/services/borrow_service.py:149-153 | along any run a member with an overdue loan borrows nothing before returning it |
| `Lifecycles.DeletedForGood` | app/repositories/book_repository.py:38-43 | a deleted book's row never changes again, nobody borrows or reserves it, and its ISBN stays taken |
| `Lifecycles.DeletionDeletes` | app/services/book_service.py:143-156 | deleting a live book freezes its row with that moment's stamp for the rest of the run |
| `Promises.StepServesQueueFirst` | app/services/reservation_service.py:77-78 | from a state where awaited books have empty shelves, a step leaves it so exactly unless it raises total_copies or returns without the queue |
| `Promises.QueueServedBeforeShelf` | docs/adr/0019-reservation-queue-hold-strategy.md:7-15 | along any run without such a step, a book somebody waits for has available_copies = 0 |
| `Promises.HoldsAreForTheirHolder` | app/services/borrow_service.py:214-230 | while a book has holds, only the member with the one hold borrows, and it is used up without touching the shelf |
| `Promises.HolderMayBorrow` | app/services/borrow_service.py:191-221 | an eligible holder can borrow if and only if the book is live and theirs is the only hold on it; which error otherwise |
| `Promises.ExpiryIsNotChecked` | app/services/borrow_service.py:203-221 | the outcome of a loan does not depend on when a hold expires |
| `Promises.StandalonePromotion` | app/services/reservation_service.py:171-201 | exactly when a promotion with no released copy behind it leaves copies conserved |
| `Promises.HoldsLast48Hours` | app/services/reservation_service.py:182-217 | a hold expires only in a sweep, more than 48 hours after its promotion |
| `Promises.ExpiryTakes48Hours` | app/core/config.py:47 | from any moment a reservation waits to its expiry more than 48 hours pass |
| `Promises.ChecksNeverStopCirculation` | app/models/book.py:84-92 | from a sound state no CHECK aborts a loan, return, cancellation, deletion or sweep |
| `Promises.LookupIsUnique` | app/repositories/reservation_repository.py:39-50 | in no state of any run does the uniqueness lookup meet two rows |
| `Promises.ReturnIsFinal` | app/services/borrow_service.py:290-293 | a returned loan never changes again, and returning it again changes nothing |
| `Promises.LoanPeriods` | app/services/borrow_service.py:357-394 | every loan is due 14 days * (1 + renewals) after it began, with at most two renewals |
| `LookBack.HistoryHasAnswer` | app/repositories/borrow_repository.py:56-68 | the twenty-row history query has an answer in every state |
| `LookBack.MissedExactly` | app/services/reservation_service.py:101-109 | some answer of the twenty-row history query shows none of the copies a member has out, if and only if twenty other loans of theirs are at least as recent |
| `LookBack.RefusedExactly` | app/services/reservation_service.py:101-109 | the member is refused for having the book out, whatever the query answers, if and only if fewer than 20 other loans are at least as recent |
| `LookBack.ReservedWhileBorrowed` | app/services/reservation_service.py:101-109 | a reservation placed for a book the member has out implies a full window of loans at least as recent |
| `BusyReader.ReservesOwnCopy` | app/services/reservation_service.py:101-109 | a run in which a member comes to wait for a book they have out |
| `BusyReader.RefusedAfterNineteen` | app/services/reservation_service.py:101-109 | a run with one short loan fewer, after which the member is refused whatever the query answers |
| `Witness.TwoHoldersStuck` | app/services/borrow_service.py:203-212 | a run in which two holders of one book both fail to borrow it |
| `Witness.HolderOfDeletedBook` | app/services/book_service.py:143-156 | a run in which the only holder of a book fails to borrow it because it was deleted |
| `Witness.ExpiredHoldCollected` | app/services/borrow_service.py:203-230 | a run in which a copy is collected an hour after its hold expired |
| `Witness.BoughtPastTheQueue` | app/services/book_service.py:120-132 | a run in which a new copy goes to the shelf while two members wait |
| `Witness.ReturnedPastTheQueue` | app/services/borrow_service.py:305-316 | a run in which a return without the queue goes to the shelf while two members wait |
| `Witness.PromotedFromNothing` | app/services/reservation_service.py:195-201 | a reachable state in which promotion with no released copy adds a copy to the shelf that does not exist |
| `Fines.FineIsCeilingOfSeconds` | app/services/borrow_service.py:55-72 | the fine is 50 cents per started day of the whole seconds overdue, at most 5000 |
| `Fines.FineIsMonotone` | app/services/borrow_service.py:55-72 | later returns never cost less and later due dates never cost more |
| `Fines.PartialDaysCharged` | app/services/borrow_service.py:65-68 | exactly when the fine charges every started day as its comment says |
| `Fines.HalfASecondLate` | app/services/borrow_service.py:65-68 | an input on which the fine is not the one its comment says |
| `Fines.RenewalsNeverRaiseTheFine` | app/services/borrow_service.py:391-394 | between any two moments of any run the fine for a given return time does not go up |
| `Dashboard.DashboardAddsUp` | app/repositories/dashboard_repository.py:20-53 | in every reachable state total <= available + checked out + held, with equality exactly when no deleted book has a copy out or held |
| `Dashboard.FiguresOverRuns` | app/repositories/dashboard_repository.py:32-39 | over any run, checked out is what was lent and not given back, and held is what was promoted and neither borrowed, expired nor cancelled |
| `Dashboard.CountByBook` | app/repositories/dashboard_repository.py:32-39 | counting rows book by book counts each once |
| `Interleaving.CommitIsInvisible` | app/services/borrow_service.py:180-256 | a commit changes nothing another transaction's row locks protect |
| `Interleaving.CommitIsAtomic` | app/services/borrow_service.py:180-265 | a commit publishes what the whole call would do alone at that moment |
| `Interleaving.RefusalsAreSequential` | app/services/borrow_service.py:133-240 | in any interleaving a call raises only what the whole call would raise alone at that moment |
| `Interleaving.InterleavingsAreRuns` | docs/adr/0018-use-pessimistic-locking.md:7-17 | whatever the interleaving, continuing any run to the start by exactly the committed calls, in commit order, each of them going through, reaches the committed tables |
| `Interleaving.EndsWellByCommitting` | app/services/borrow_service.py:180-265 | a call ended without an error if and only if it committed, and it committed once |
| `Interleaving.InterleavingsAreSound` | docs/adr/0018-use-pessimistic-locking.md:14-17 | so at every moment committed copies are conserved, CHECKs hold and no member is over a limit |
| `Interleaving.SomebodyAdvances` | app/services/borrow_service.py:168-211 | while a call is unfinished some call can execute its next statement |
| `Interleaving.StatementsRunOut` | app/services/borrow_service.py:180-265 | every statement brings its call nearer its end |
| `Transactions.Session.Transactional` | app/db/transaction.py:25-47 | the depth is restored on every path; an inner call only runs its body, the outermost one commits or rolls back |
| `Transactions.NestingIsTransparent` | app/db/transaction.py:30-35 | in a tree with no explicit commit, nested calls do their writes and nothing else |
| `Transactions.AllOrNothing` | app/db/transaction.py:36-47 | for such trees one commit on return, none on an exception, and then the state the transaction began with; an implicit transaction found open is committed first and stays so |
| `Transactions.ExceptionsUndoUncommitted` | app/db/transaction.py:36-47 | for all trees, an escaping exception undoes exactly what no body committed |
| `Transactions.CommitEndsTransaction` | app/db/transaction.py:43-45 | after a body has committed by itself, anything it does next on the session raises, and the commit stands |
| `Transactions.NestedIsNoSavepoint` | app/db/transaction.py:30-35 | writes of a nested call whose exception is handled are kept |
| `Atomicity.CancelIsAtomic` | app/services/reservation_service.py:132-169 | under the wrapper the cancellation and the nested promotion are committed together, or nothing is |
| `Atomicity.ReturnIsAtomic` | app/services/borrow_service.py:271-316 | under the wrapper the closed loan and the placement of its copy are committed together, or nothing is |
| `Atomicity.SweepIsAtomic` | app/services/reservation_service.py:203-232 | under the wrapper all rounds of the sweep are committed together, or none |
| `Auth.AuthService.DoLogin` | app/services/auth_service.py:99-154 | starts a new family with one live token, or refuses an unknown address, an inactive user or a wrong password, in that order |
| `Auth.AuthService.RefreshInTransaction` | app/services/auth_service.py:171-247 | the branches of the exchange, with the burnt family committed before the exception |
| `Auth.AuthService.DoRefresh` | app/services/auth_service.py:156-247 | what an exchange leaves committed, whether it issues or raises |
| `Auth.AuthService.RevokeFamily` | app/services/auth_service.py:185-190 | the loop revokes every token of the family and no other |
| `Auth.AuthService.DoLogout` | app/services/auth_service.py:249-261 | revokes the presented token, if there is one |
| `Auth.RefreshUnderTransaction` | app/services/auth_service.py:180-219 | under the wrapper the burn survives its exception, the marks of expired or ownerless tokens do not |
| `Auth.ExpiredMarkIsLost` | app/services/auth_service.py:196-207 | an expired token that the call marks as revoked and that is committed unmarked |
| `Auth.LineageIsLinear` | app/services/auth_service.py:209-245 | in every reachable state each family has at most one live token, its newest, and every other token was exchanged for the next |
| `Auth.SingleUse` | app/services/auth_service.py:178-194 | a raw token once exchanged is never exchanged again, and presenting it again burns its family |
| `Auth.DeadForever` | app/services/auth_service.py:180-247 | a family without live tokens gains none and is never exchanged from again |
| `Auth.BurnedFamilyStaysDead` | app/services/auth_service.py:180-194 | after a revoked token is presented its family is dead at every later point of the run |
| `Sessions.RefreshExactly` | app/services/auth_service.py:171-219 | an exchange succeeds if and only if the token is known, live, unexpired and its user active |
| `Sessions.RefreshRefusals` | app/services/auth_service.py:174-219 | which exception an exchange raises, from the row presented |
| `Sessions.LoginExactly` | app/services/auth_service.py:113-122 | a login issues a token exactly for the right password of a known, active account; which exception otherwise |
| `Sessions.TokensAreEarned` | app/services/auth_service.py:135-247 | in any run a new token is for the verified account of its login or continues the live token presented, and is good for seven days |
| `Sessions.SessionLastsSevenDays` | app/services/auth_service.py:209-245 | the newest token of a family nobody else presents can be exchanged for exactly seven days, if its user is active then |
| `Sessions.LogoutKills` | app/services/auth_service.py:249-261 | logging out kills the family exactly when the token is its live one (or it was dead), and a spent token changes nothing |
| `Sessions.LogoutEndsSession` | app/services/auth_service.py:249-261 | after a logout with the live token nothing of its family is ever exchanged |
| `Sessions.FamiliesHaveOneUser` | app/services/auth_service.py:213-245 | in every run a family stays with one user, and tokens are only issued to active users |

## Left out

- Row objects: rows are values in the tables, so the identity map and two variables naming one row are not modelled.
- `update_book` with an explicit null, or with a raw `available_copies` key: the API schema offers neither the second nor
  a use for the first.
- Concurrent interleavings of returns, cancellations, reservations, sweeps and token exchanges: these start from unlocked
  reads or lock rows in other orders, so each is one atomic step, and no deadlock claim is made that includes them.
- Among the interleaved calls, `update_book` calls that change an ISBN or no count: the first would also need the locks
  of the unique index, the second changes nothing modelled.
- Lock waits that time out, gap locks, and rounding of stored times to whole seconds.
- Two readings of the clock inside one call, except in `borrow_book` and in the interleavings.
- Fine rates other than the default: with 50 cents and 50 dollars the floating-point result is exact.
- Titles, authors, genres and other metadata, catalogue search, pagination, and the remaining dashboard figures.
- Registration, roles, JWT contents, hashing and token generation: the password check is an answer, raw tokens and
  family ids are taken to be fresh and fingerprints injective.
- The OVERDUE loan status exists in the enum and in queries, but no service assigns it; `Inventory.RunsStaySound`
  includes that it never occurs.
- HTTP routes, logging and metrics.
