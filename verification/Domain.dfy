/** Rows of the four circulation tables. Instants are integers, in microseconds. */
module Domain {
  import opened Prelude

  type Id = nat
  type Time = int

  const SECOND: Time := 1_000_000
  const HOUR: Time := 3_600 * SECOND
  const DAY: Time := 24 * HOUR

  const MAX_ACTIVE_LOANS: nat := 5
  const MAX_ACTIVE_RESERVATIONS: nat := 3
  const MAX_RENEWALS: nat := 2
  const HISTORY_WINDOW: nat := 20
  const BORROW_PERIOD: Time := 14 * DAY
  const RENEWAL_PERIOD: Time := 14 * DAY
  const HOLD_DURATION: Time := 48 * HOUR
  const SMALLINT_MAX: int := 32_767
  const ISBN_WIDTH: nat := 20

  datatype Book = Book(isbn: string, total: int, available: int, deletedAt: Option<Time>) {
    predicate Live() { deletedAt.None? }
  }

  datatype MembershipStatus = Active | Inactive | Suspended

  datatype Member = Member(status: MembershipStatus, deleted: bool)

  datatype BorrowStatus = Borrowed | Renewed | Returned | Overdue

  datatype Loan = Loan(
    member: Id, book: Id, borrowDate: Time, dueDate: Time,
    returnDate: Option<Time>, renewals: int, status: BorrowStatus)

  datatype ReservationStatus = Pending | Hold | Completed | Cancelled | Expired

  datatype Reservation = Reservation(
    member: Id, book: Id, reservedAt: Time, expiresAt: Option<Time>, status: ReservationStatus)

  /** The database together with the clock its transactions read. */
  datatype Tables = Tables(
    books: map<Id, Book>, loans: map<Id, Loan>,
    reservations: map<Id, Reservation>, members: map<Id, Member>, now: Time)

  /** What every flush demands of a books row: the CHECK constraints and the widths of its columns. */
  predicate BookRowAllowed(book: Book) {
    0 <= book.available <= book.total <= SMALLINT_MAX && |book.isbn| <= ISBN_WIDTH
  }

  datatype Error =
    | BookNotFound | BookInStock | BookUnavailable | IsbnTaken | NegativeTotal | BelowCheckedOut
    | MemberNotFound | MemberInactive | MemberSuspended | OverdueMember | BorrowLimitExceeded
    | ReservationLimitExceeded | AlreadyReserved | BookAlreadyBorrowed
    | ReservationNotFound | NotCancellable | ReservationNotHeld
    | LoanNotFound | BookAlreadyReturned | RenewalLimitExceeded | RenewalBlocked
    | MultipleResultsFound | IntegrityError
}
