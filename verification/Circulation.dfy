/** Every service transaction as a function of the tables it starts from: the tables it commits, or the error it raises.
    What the code leaves open (which row a tied query returns, generated ids, the order of a result list) is an
    argument. */
module Circulation {
  import opened Prelude
  import opened Domain
  import opened Repositories

  type Outcome = Result<Tables, Error>

  function PutBook(t: Tables, b: Id, book: Book): Tables { t.(books := t.books[b := book]) }
  function PutLoan(t: Tables, i: Id, loan: Loan): Tables { t.(loans := t.loans[i := loan]) }
  function PutReservation(t: Tables, i: Id, r: Reservation): Tables { t.(reservations := t.reservations[i := r]) }

  /** A flush of one books row. */
  function FlushBook(t: Tables, b: Id, book: Book): Outcome {
    if BookRowAllowed(book) then Success(PutBook(t, b, book)) else Failure(IntegrityError)
  }

  // ----- BookService -----

  function CreateBook(t: Tables, b: Id, isbn: string, total: int): Outcome {
    if Where(t.books, LiveWithIsbn(isbn)) != {} then Failure(IsbnTaken)
    else if Where(t.books, WithIsbn(isbn)) != {} then Failure(IntegrityError) // UNIQUE also covers deleted rows
    else FlushBook(t, b, Book(isbn, total, total, None))
  }

  function UpdateBook(t: Tables, b: Id, total: Option<int>, isbn: Option<string>): Outcome {
    match GetBookForUpdate(t.books, b)
    case None => Failure(BookNotFound)
    case Some(book) =>
      if total.Some? && total.value < 0 then Failure(NegativeTotal)
      else if total.Some? && book.available + (total.value - book.total) < 0 then Failure(BelowCheckedOut)
      else
        var counted := if total.None? then book
                       else book.(total := total.value, available := book.available + (total.value - book.total));
        if isbn.Some? && Where(t.books, WithIsbn(isbn.value)) - {b} != {} then Failure(IntegrityError)
        else FlushBook(t, b, if isbn.None? then counted else counted.(isbn := isbn.value))
  }

  function DeleteBook(t: Tables, b: Id): Outcome {
    match GetBookForUpdate(t.books, b)
    case None => Failure(BookNotFound)
    case Some(book) => FlushBook(t, b, book.(deletedAt := Some(t.now)))
  }

  // ----- the queue -----

  /** Puts one copy on the shelf; a deleted book is not found, and its copy goes nowhere. */
  function ShelveCopy(t: Tables, b: Id): Outcome {
    match GetBookForUpdate(t.books, b)
    case None => Success(t)
    case Some(book) => FlushBook(t, b, book.(available := book.available + 1))
  }

  function Promoted(r: Reservation, now: Time): Reservation {
    r.(status := Hold, expiresAt := Some(now + HOLD_DURATION))
  }

  function PromoteNext(t: Tables, b: Id, pick: Option<Id>): Outcome
    requires IsFifoAnswer(t.reservations, b, pick)
  {
    match pick
    case Some(i) => Success(PutReservation(t, i, Promoted(t.reservations[i], t.now)))
    case None => ShelveCopy(t, b)
  }

  // ----- BorrowService -----

  function MemberRejection(t: Tables, m: Id, member: Member, checkedAt: Time): Option<Error> {
    if member.status.Suspended? then Some(MemberSuspended)
    else if !member.status.Active? then Some(MemberInactive)
    else if Count(t.loans, OverdueOfMember(m, checkedAt)) > 0 then Some(OverdueMember)
    else if Count(t.loans, ActiveOfMember(m)) >= MAX_ACTIVE_LOANS then Some(BorrowLimitExceeded)
    else None
  }

  function NewLoan(m: Id, b: Id, at: Time): Loan {
    Loan(m, b, at, at + BORROW_PERIOD, None, 0, Borrowed)
  }

  function Fulfilled(r: Reservation): Reservation { r.(status := Completed, expiresAt := None) }

  /** The clock is read twice: `checkedAt` by the overdue query, `borrowedAt` for the loan. */
  function BorrowBook(t: Tables, m: Id, b: Id, loan: Id, checkedAt: Time, borrowedAt: Time): Outcome {
    match GetMemberForUpdate(t.members, m)
    case None => Failure(MemberNotFound)
    case Some(member) =>
      match MemberRejection(t, m, member, checkedAt)
      case Some(e) => Failure(e)
      case None =>
        match GetBookForUpdate(t.books, b)
        case None => Failure(BookNotFound)
        case Some(book) => LendCopy(t, m, b, book, loan, borrowedAt)
  }

  function LendCopy(t: Tables, m: Id, b: Id, book: Book, loan: Id, borrowedAt: Time): Outcome {
    var holds := Where(t.reservations, HoldsOf(b));
    if |holds| > 1 then Failure(MultipleResultsFound)
    else if |holds| == 1 then
      var h := TheOnly(holds);
      if t.reservations[h].member != m then Failure(ReservationNotHeld)
      else Success(PutLoan(PutReservation(t, h, Fulfilled(t.reservations[h])), loan, NewLoan(m, b, borrowedAt)))
    else if book.available <= 0 then Failure(BookUnavailable)
    else
      match FlushBook(t, b, book.(available := book.available - 1))
      case Failure(e) => Failure(e)
      case Success(t') => Success(PutLoan(t', loan, NewLoan(m, b, borrowedAt)))
  }

  predicate Releases(t: Tables, loan: Id) { loan in t.loans && !t.loans[loan].status.Returned? }

  function Closed(loan: Loan, now: Time): Loan { loan.(returnDate := Some(now), status := Returned) }

  /** `queued` says whether a ReservationService is wired in; without one the copy goes straight to the shelf. */
  function ReturnBook(t: Tables, loan: Id, queued: bool, pick: Option<Id>): Outcome
    requires Releases(t, loan) && queued ==> IsFifoAnswer(t.reservations, t.loans[loan].book, pick)
  {
    if loan !in t.loans then Failure(LoanNotFound)
    else if t.loans[loan].status.Returned? then Success(t)
    else
      var released := PutLoan(t, loan, Closed(t.loans[loan], t.now));
      if queued then PromoteNext(released, t.loans[loan].book, pick) else ShelveCopy(released, t.loans[loan].book)
  }

  function Extended(loan: Loan): Loan {
    loan.(dueDate := loan.dueDate + RENEWAL_PERIOD, renewals := loan.renewals + 1, status := Renewed)
  }

  /** `blocked` is the answer of the injected ReservationPolicy; the default policy always answers false. */
  function RenewBook(t: Tables, loan: Id, blocked: bool): Outcome {
    if loan !in t.loans then Failure(LoanNotFound)
    else
      var l := t.loans[loan];
      if l.status.Returned? then Failure(BookAlreadyReturned)
      else if l.renewals >= MAX_RENEWALS then Failure(RenewalLimitExceeded)
      else if blocked then Failure(RenewalBlocked)
      else if t.now > l.dueDate then Failure(OverdueMember)
      else Success(PutLoan(t, loan, Extended(l)))
  }

  // ----- ReservationService -----

  function PlaceReservation(t: Tables, m: Id, b: Id, reservation: Id, window: set<Id>): Outcome {
    match GetBookForUpdate(t.books, b)
    case None => Failure(BookNotFound)
    case Some(book) =>
      if book.available > 0 then Failure(BookInStock)
      else if Count(t.reservations, ActiveReservationsOf(m)) >= MAX_ACTIVE_RESERVATIONS
        then Failure(ReservationLimitExceeded)
      else if Count(t.reservations, ActiveReservationsOn(m, b)) > 1 then Failure(MultipleResultsFound)
      else if Count(t.reservations, ActiveReservationsOn(m, b)) == 1 then Failure(AlreadyReserved)
      else
        match GetMemberForUpdate(t.members, m)
        case None => Failure(MemberInactive)
        case Some(member) =>
          if member.status.Inactive? then Failure(MemberInactive)
          else if member.status.Suspended? then Failure(MemberSuspended)
          else if exists i :: i in window && i in t.loans && OutOfBook(b)(t.loans[i]) then Failure(BookAlreadyBorrowed)
          else Success(PutReservation(t, reservation, Reservation(m, b, t.now, None, Pending)))
  }

  predicate Cancellable(t: Tables, reservation: Id, m: Id) {
    reservation in t.reservations && t.reservations[reservation].member == m && IsActive(t.reservations[reservation])
  }

  predicate CancelsHold(t: Tables, reservation: Id, m: Id) {
    Cancellable(t, reservation, m) && t.reservations[reservation].status.Hold?
  }

  function Withdrawn(r: Reservation): Reservation { r.(status := Cancelled, expiresAt := None) }

  function CancelReservation(t: Tables, reservation: Id, m: Id, pick: Option<Id>): Outcome
    requires CancelsHold(t, reservation, m) ==> IsFifoAnswer(t.reservations, t.reservations[reservation].book, pick)
  {
    if reservation !in t.reservations || t.reservations[reservation].member != m then Failure(ReservationNotFound)
    else
      var r := t.reservations[reservation];
      if !IsActive(r) then Failure(NotCancellable)
      else
        var cancelled := PutReservation(t, reservation, Withdrawn(r));
        if r.status.Hold? then
          QueueUnmoved(t.reservations, reservation, Withdrawn(r), r.book, pick);
          PromoteNext(cancelled, r.book, pick)
        else Success(cancelled)
  }

  /** Rewriting a row that does not wait, into one that does not wait, leaves the queue as it was. */
  lemma QueueUnmoved(rs: map<Id, Reservation>, i: Id, r: Reservation, b: Id, pick: Option<Id>)
    requires i in rs && !rs[i].status.Pending? && !r.status.Pending?
    ensures Where(rs[i := r], PendingOf(b)) == Where(rs, PendingOf(b))
    ensures IsFifoAnswer(rs[i := r], b, pick) <==> IsFifoAnswer(rs, b, pick)
  {
    var rs' := rs[i := r];
    assert Where(rs', PendingOf(b)) == Where(rs, PendingOf(b));
    assert FifoHeads(rs', b) == FifoHeads(rs, b);
  }

  function Lapsed(r: Reservation): Reservation { r.(status := Expired, expiresAt := None) }

  /** One round of the sweep: this hold expires, and its copy goes to the next in line. */
  function ExpireOne(t: Tables, i: Id, pick: Option<Id>): Outcome
    requires i in t.reservations && t.reservations[i].status.Hold?
    requires IsFifoAnswer(t.reservations, t.reservations[i].book, pick)
  {
    var r := t.reservations[i];
    QueueUnmoved(t.reservations, i, Lapsed(r), r.book, pick);
    PromoteNext(PutReservation(t, i, Lapsed(r)), r.book, pick)
  }

  /** The answers `picks` are ones the FIFO query may give, round by round. */
  predicate SweepAnswers(t: Tables, order: seq<Id>, picks: seq<Option<Id>>)
    decreases |order|, 0
  {
    && |order| == |picks|
    && (order != [] ==>
          var n := |order| - 1;
          && SweepAnswers(t, order[..n], picks[..n])
          && (SweepRounds(t, order[..n], picks[..n]).Success? ==>
                var u := SweepRounds(t, order[..n], picks[..n]).value;
                && order[n] in u.reservations && u.reservations[order[n]].status.Hold?
                && IsFifoAnswer(u.reservations, u.reservations[order[n]].book, picks[n])))
  }

  function SweepRounds(t: Tables, order: seq<Id>, picks: seq<Option<Id>>): Outcome
    requires SweepAnswers(t, order, picks)
    decreases |order|, 1
  {
    if order == [] then Success(t)
    else
      var n := |order| - 1;
      match SweepRounds(t, order[..n], picks[..n])
      case Failure(e) => Failure(e)
      case Success(u) => ExpireOne(u, order[n], picks[n])
  }

  /** `order` lists the expired holds, each once, in the order the query happened to return them. */
  predicate ListsExpired(t: Tables, order: seq<Id>) {
    && (forall i, j :: 0 <= i < j < |order| ==> order[i] != order[j])
    && Elements(order) == Where(t.reservations, HoldExpiredBefore(t.now))
  }
}
