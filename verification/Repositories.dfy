/** The repositories' queries, as functions of the tables. */
module Repositories {
  import opened Prelude
  import opened Domain

  // ----- books and members -----

  /** SELECT ... WHERE id = b AND is_deleted = FALSE FOR UPDATE. */
  function GetBookForUpdate(books: map<Id, Book>, b: Id): Option<Book> {
    if b in books && books[b].Live() then Some(books[b]) else None
  }

  function GetMemberForUpdate(members: map<Id, Member>, m: Id): Option<Member> {
    if m in members && !members[m].deleted then Some(members[m]) else None
  }

  function WithIsbn(isbn: string): Book -> bool { (book: Book) => book.isbn == isbn }
  function LiveWithIsbn(isbn: string): Book -> bool { (book: Book) => book.isbn == isbn && book.Live() }

  // ----- loans -----

  /** A copy is out of the building: every status but RETURNED. */
  predicate IsOut(loan: Loan) { !loan.status.Returned? }

  function OutOfBook(b: Id): Loan -> bool { (loan: Loan) => IsOut(loan) && loan.book == b }
  function ActiveOfMember(m: Id): Loan -> bool {
    (loan: Loan) => loan.member == m && (loan.status.Borrowed? || loan.status.Renewed?)
  }
  function OverdueOfMember(m: Id, now: Time): Loan -> bool {
    (loan: Loan) => loan.member == m && (loan.status.Borrowed? || loan.status.Renewed?) && loan.dueDate < now
  }
  function OfMember(m: Id): Loan -> bool { (loan: Loan) => loan.member == m }

  /** A possible answer of the newest-first history query with LIMIT 20; equal dates may fall either way. */
  ghost predicate IsNewestWindow(loans: map<Id, Loan>, m: Id, window: set<Id>) {
    var all := Where(loans, OfMember(m));
    && window <= all
    && |window| == (if |all| <= HISTORY_WINDOW then |all| else HISTORY_WINDOW)
    && forall i, j :: i in window && j in all - window ==> loans[j].borrowDate <= loans[i].borrowDate
  }

  // ----- reservations -----

  predicate IsActive(r: Reservation) { r.status.Pending? || r.status.Hold? }

  function ActiveReservationsOf(m: Id): Reservation -> bool { (r: Reservation) => r.member == m && IsActive(r) }
  function ActiveReservationsOn(m: Id, b: Id): Reservation -> bool {
    (r: Reservation) => r.member == m && r.book == b && IsActive(r)
  }
  function PendingOf(b: Id): Reservation -> bool { (r: Reservation) => r.book == b && r.status.Pending? }
  function HoldsOf(b: Id): Reservation -> bool { (r: Reservation) => r.book == b && r.status.Hold? }
  function PendingBefore(b: Id, at: Time): Reservation -> bool {
    (r: Reservation) => r.book == b && r.status.Pending? && r.reservedAt < at
  }
  function HoldExpiredBefore(now: Time): Reservation -> bool {
    (r: Reservation) => r.status.Hold? && r.expiresAt.Some? && r.expiresAt.value < now
  }

  /** The rows ORDER BY reserved_at LIMIT 1 may return: the query does not break ties. */
  function FifoHeads(rs: map<Id, Reservation>, b: Id): set<Id> {
    set i | i in Where(rs, PendingOf(b)) &&
            forall j :: j in Where(rs, PendingOf(b)) ==> rs[i].reservedAt <= rs[j].reservedAt
  }

  /** One possible answer of get_fifo_pending_by_book_id. */
  predicate IsFifoAnswer(rs: map<Id, Reservation>, b: Id, pick: Option<Id>) {
    match pick
    case None => Where(rs, PendingOf(b)) == {}
    case Some(i) => i in FifoHeads(rs, b)
  }

  function QueuePosition(rs: map<Id, Reservation>, b: Id, at: Time): nat {
    Count(rs, PendingBefore(b, at)) + 1
  }

  /** The FIFO query always has an answer, and it finds nobody exactly when nobody waits. */
  lemma FifoAnswers(rs: map<Id, Reservation>, b: Id)
    ensures FifoHeads(rs, b) == {} <==> Where(rs, PendingOf(b)) == {}
  {
    var waiting := Where(rs, PendingOf(b));
    if waiting != {} {
      HasLeast(waiting, (i: Id) => if i in rs then rs[i].reservedAt else 0);
      var h :| h in waiting && forall j :: j in waiting ==>
        (if h in rs then rs[h].reservedAt else 0) <= (if j in rs then rs[j].reservedAt else 0);
      assert h in FifoHeads(rs, b);
    }
  }
}
