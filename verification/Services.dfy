/** The services, writing rows in place. Each method does what its transaction function says, and an error leaves
    the database as it was. */
module Services {
  import opened Prelude
  import opened Domain
  import opened Repositories
  import opened Circulation
  import opened Machine
  import opened Inventory
  import opened Sweep
  import opened Fairness
  import opened Fines

  /** The session's view of the database. */
  class Database {
    var books: map<Id, Book>
    var loans: map<Id, Loan>
    var reservations: map<Id, Reservation>
    var members: map<Id, Member>
    var now: Time

    constructor (now: Time)
      ensures State() == Empty(now).t
    {
      books, loans, reservations, members := map[], map[], map[], map[];
      this.now := now;
    }

    function State(): Tables
      reads this
    {
      Tables(books, loans, reservations, members, now)
    }

    /** Rolls the transaction back to where it began. */
    method Rollback(start: Tables)
      modifies this
      ensures State() == start
    {
      books, loans, reservations := start.books, start.loans, start.reservations;
      members, now := start.members, start.now;
    }

    method Flush(b: Id, book: Book) returns (error: Option<Error>)
      modifies this`books
      ensures Commits(old(State()), FlushBook(old(State()), b, book), error, State())
    {
      if 0 <= book.available && book.available <= book.total && book.total <= SMALLINT_MAX
        && |book.isbn| <= ISBN_WIDTH {
        books := books[b := book];
        error := None;
      } else {
        error := Some(IntegrityError);
      }
    }
  }

  /** The call ends as `o` says: committed, or raised with everything as before. */
  predicate Commits(before: Tables, o: Outcome, error: Option<Error>, after: Tables) {
    match o
    case Success(t') => error == None && after == t'
    case Failure(e) => error == Some(e) && after == before
  }

  class BookService {
    const db: Database

    constructor (db: Database)
      ensures this.db == db
    {
      this.db := db;
    }

    method CreateBook(b: Id, isbn: string, copies: int) returns (error: Option<Error>)
      requires b !in db.books // a fresh uuid4
      modifies db
      ensures Commits(old(db.State()), Circulation.CreateBook(old(db.State()), b, isbn, copies), error, db.State())
    {
      if Where(db.books, LiveWithIsbn(isbn)) != {} {
        return Some(IsbnTaken);
      }
      if Where(db.books, WithIsbn(isbn)) != {} {
        return Some(IntegrityError);
      }
      error := db.Flush(b, Book(isbn, copies, copies, None));
    }

    method UpdateBook(b: Id, total: Option<int>, isbn: Option<string>) returns (error: Option<Error>)
      modifies db
      ensures Commits(old(db.State()), Circulation.UpdateBook(old(db.State()), b, total, isbn), error, db.State())
    {
      var found := GetBookForUpdate(db.books, b);
      if found.None? {
        return Some(BookNotFound);
      }
      var book := found.value;
      if total.Some? {
        if total.value < 0 {
          return Some(NegativeTotal);
        }
        var diff := total.value - book.total;
        var available := book.available + diff;
        if available < 0 {
          return Some(BelowCheckedOut);
        }
        book := book.(total := total.value);
        book := book.(available := available);
      }
      if isbn.Some? {
        if Where(db.books, WithIsbn(isbn.value)) - {b} != {} {
          return Some(IntegrityError);
        }
        book := book.(isbn := isbn.value);
      }
      error := db.Flush(b, book);
    }

    method DeleteBook(b: Id) returns (error: Option<Error>)
      modifies db
      ensures Commits(old(db.State()), Circulation.DeleteBook(old(db.State()), b), error, db.State())
    {
      var found := GetBookForUpdate(db.books, b);
      if found.None? {
        return Some(BookNotFound);
      }
      error := db.Flush(b, found.value.(deletedAt := Some(db.now)));
    }
  }

  datatype ActiveReservation = ActiveReservation(id: Id, row: Reservation, position: Option<nat>)

  class ReservationService {
    const db: Database

    constructor (db: Database)
      ensures this.db == db
    {
      this.db := db;
    }

    method PlaceReservation(m: Id, b: Id, id: Id, window: set<Id>) returns (error: Option<Error>)
      requires id !in db.reservations // a fresh uuid4
      modifies db
      ensures Commits(old(db.State()), Circulation.PlaceReservation(old(db.State()), m, b, id, window), error,
        db.State())
    {
      var book := GetBookForUpdate(db.books, b);
      if book.None? {
        return Some(BookNotFound);
      }
      if book.value.available > 0 {
        return Some(BookInStock);
      }
      if Count(db.reservations, ActiveReservationsOf(m)) >= MAX_ACTIVE_RESERVATIONS {
        return Some(ReservationLimitExceeded);
      }
      var existing := Where(db.reservations, ActiveReservationsOn(m, b));
      if |existing| > 1 {
        return Some(MultipleResultsFound);
      }
      if |existing| == 1 {
        return Some(AlreadyReserved);
      }
      var member := GetMemberForUpdate(db.members, m);
      if member.None? || member.value.status.Inactive? {
        return Some(MemberInactive);
      }
      if member.value.status.Suspended? {
        return Some(MemberSuspended);
      }
      var seen := window;
      while seen != {}
        invariant seen <= window
        invariant db.State() == old(db.State())
        invariant forall i :: i in window - seen ==> !(i in db.loans && OutOfBook(b)(db.loans[i]))
        decreases |seen|
      {
        var i :| i in seen;
        if i in db.loans && db.loans[i].book == b && !db.loans[i].status.Returned? {
          return Some(BookAlreadyBorrowed);
        }
        seen := seen - {i};
      }
      db.reservations := db.reservations[id := Reservation(m, b, db.now, None, Pending)];
      error := None;
    }

    /** The FIFO query breaks ties as it likes; `pick` records its answer. */
    method PromoteNextReservation(b: Id) returns (error: Option<Error>, ghost pick: Option<Id>)
      modifies db
      ensures IsFifoAnswer(old(db.reservations), b, pick)
      ensures Commits(old(db.State()), PromoteNext(old(db.State()), b, pick), error, db.State())
    {
      FifoAnswers(db.reservations, b);
      var heads := FifoHeads(db.reservations, b);
      if heads != {} {
        var next :| next in heads;
        pick := Some(next);
        var row := db.reservations[next].(status := Hold);
        row := row.(expiresAt := Some(db.now + HOLD_DURATION));
        db.reservations := db.reservations[next := row];
        error := None;
      } else {
        pick := None;
        var book := GetBookForUpdate(db.books, b);
        error := None;
        if book.Some? {
          error := db.Flush(b, book.value.(available := book.value.available + 1));
        }
      }
    }

    method CancelReservation(id: Id, m: Id) returns (error: Option<Error>, ghost pick: Option<Id>)
      modifies db
      ensures CancelsHold(old(db.State()), id, m) ==>
        IsFifoAnswer(old(db.reservations), old(db.reservations)[id].book, pick)
      ensures Commits(old(db.State()), Circulation.CancelReservation(old(db.State()), id, m, pick), error, db.State())
    {
      pick := None;
      if id !in db.reservations || db.reservations[id].member != m {
        return Some(ReservationNotFound), None;
      }
      var start := db.State();
      var row := db.reservations[id];
      if !row.status.Pending? && !row.status.Hold? {
        return Some(NotCancellable), None;
      }
      var wasHold := row.status.Hold?;
      row := row.(status := Cancelled);
      row := row.(expiresAt := None);
      db.reservations := db.reservations[id := row];
      error := None;
      if wasHold {
        error, pick := PromoteNextReservation(row.book);
        QueueUnmoved(start.reservations, id, row, row.book, pick);
        if error.Some? {
          db.Rollback(start);
        }
      }
    }

    /** One round of the sweep. When it raises, what it wrote is left to the caller's rollback. */
    method ExpireHold(i: Id) returns (error: Option<Error>, ghost pick: Option<Id>)
      requires i in db.reservations && db.reservations[i].status.Hold?
      modifies db
      ensures IsFifoAnswer(old(db.reservations), old(db.reservations)[i].book, pick)
      ensures match ExpireOne(old(db.State()), i, pick)
              case Success(v) => error == None && db.State() == v
              case Failure(e) => error == Some(e)
    {
      ghost var u := db.State();
      var row := db.reservations[i].(status := Expired);
      row := row.(expiresAt := None);
      db.reservations := db.reservations[i := row];
      error, pick := PromoteNextReservation(row.book);
      QueueUnmoved(u.reservations, i, row, row.book, pick);
    }

    /** The sweep. `order` and `picks` record how the queries answered; on success they cover every expired hold. */
    method ProcessExpiredHolds() returns (error: Option<Error>, expired: nat, ghost order: seq<Id>,
        ghost picks: seq<Option<Id>>)
      modifies db
      ensures SweepAnswers(old(db.State()), order, picks)
      ensures Commits(old(db.State()), SweepRounds(old(db.State()), order, picks), error, db.State())
      ensures error.None? ==> ListsExpired(old(db.State()), order) && expired == |order|
      ensures error.None? ==>
        Batch(old(db.State()), Where(old(db.reservations), HoldExpiredBefore(old(db.now))), db.State())
      ensures Sound(old(db.State()), None) ==> error.None?
    {
      var start := db.State();
      var todo := Where(db.reservations, HoldExpiredBefore(db.now));
      order, picks, expired, error := [], [], 0, None;
      SweepBegins(start);
      while todo != {}
        invariant Sweeping(start, todo, order, picks, db.State())
        invariant error == None && expired == |order|
        decreases |todo|
      {
        var i :| i in todo;
        ghost var u := db.State();
        ghost var pick;
        error, pick := ExpireHold(i);
        expired := expired + 1;
        SweepGoesOn(start, todo, order, picks, u, i, pick);
        order, picks, todo := order + [i], picks + [pick], todo - {i};
        if error.Some? {
          db.Rollback(start);
          SweepSucceeds(start, order, picks);
          return;
        }
      }
      SweepEnds(start, order, picks, db.State());
    }

    /** Lists the member's active reservations, oldest first, with the live position of those that wait. */
    method GetActiveReservations(m: Id) returns (results: seq<ActiveReservation>)
      ensures forall k :: 0 <= k < |results| ==> Describes(db.State(), results[k])
      ensures IdsOf(results) == Where(db.reservations, ActiveReservationsOf(m))
      ensures OldestFirst(results)
    {
      var todo := Where(db.reservations, ActiveReservationsOf(m));
      results := [];
      while todo != {}
        invariant Listing(db.State(), m, todo, results)
        decreases |todo|
      {
        var i := Oldest(db.reservations, todo);
        var row := db.reservations[i];
        var position: Option<nat> := None;
        if row.status.Pending? {
          position := Some(QueuePosition(db.reservations, row.book, row.reservedAt));
        }
        ListsOneMore(db.State(), m, todo, results, ActiveReservation(i, row, position));
        results := results + [ActiveReservation(i, row, position)];
        todo := todo - {i};
      }
    }
  }

  predicate Describes(t: Tables, e: ActiveReservation) {
    && e.id in t.reservations && e.row == t.reservations[e.id]
    && e.position == if e.row.status.Pending? then Some(Position(t, e.id)) else None
  }

  function IdsOf(results: seq<ActiveReservation>): set<Id> {
    set e | e in results :: e.id
  }

  /** Each row once, in ascending reserved_at. */
  predicate OldestFirst(results: seq<ActiveReservation>) {
    forall j, k :: 0 <= j < k < |results| ==>
      results[j].id != results[k].id && results[j].row.reservedAt <= results[k].row.reservedAt
  }

  /** The list so far, when `todo` are the rows still to come. */
  predicate Listing(t: Tables, m: Id, todo: set<Id>, results: seq<ActiveReservation>) {
    && todo <= Where(t.reservations, ActiveReservationsOf(m))
    && IdsOf(results) == Where(t.reservations, ActiveReservationsOf(m)) - todo
    && OldestFirst(results)
    && (forall k :: 0 <= k < |results| ==> Describes(t, results[k]))
    && (forall k, i :: 0 <= k < |results| && i in todo ==> results[k].row.reservedAt <= t.reservations[i].reservedAt)
  }

  lemma ListsOneMore(t: Tables, m: Id, todo: set<Id>, results: seq<ActiveReservation>, e: ActiveReservation)
    requires Listing(t, m, todo, results) && e.id in todo && Describes(t, e)
    requires forall j :: j in todo ==> e.row.reservedAt <= t.reservations[j].reservedAt
    ensures Listing(t, m, todo - {e.id}, results + [e])
  {
    assert forall x :: x in results + [e] <==> x in results || x == e;
    assert IdsOf(results + [e]) == IdsOf(results) + {e.id};
    assert forall k :: 0 <= k < |results| ==> results[k].id in IdsOf(results);
  }

  /** The rounds done so far. */
  ghost predicate Swept(start: Tables, order: seq<Id>, picks: seq<Option<Id>>, u: Tables) {
    && (forall i, j :: 0 <= i < j < |order| ==> order[i] != order[j])
    && SweepAnswers(start, order, picks) && SweepRounds(start, order, picks) == Success(u)
  }

  /** The expired holds still to come are as the query found them. */
  predicate Untouched(start: Tables, todo: set<Id>, u: Tables) {
    forall i :: i in todo ==>
      i in start.reservations && start.reservations[i].status.Hold? && i in u.reservations
        && u.reservations[i] == start.reservations[i]
  }

  ghost predicate Sweeping(start: Tables, todo: set<Id>, order: seq<Id>, picks: seq<Option<Id>>, u: Tables) {
    var listed := Where(start.reservations, HoldExpiredBefore(start.now));
    todo <= listed && Elements(order) == listed - todo && Swept(start, order, picks, u) && Untouched(start, todo, u)
  }

  lemma SweepBegins(start: Tables)
    ensures Sweeping(start, Where(start.reservations, HoldExpiredBefore(start.now)), [], [], start)
  {
    assert Elements<Id>([]) == {};
  }

  lemma OthersUntouched(start: Tables, todo: set<Id>, u: Tables, i: Id, pick: Option<Id>)
    requires Untouched(start, todo, u) && i in todo
    requires IsFifoAnswer(u.reservations, u.reservations[i].book, pick) && ExpireOne(u, i, pick).Success?
    ensures Untouched(start, todo - {i}, ExpireOne(u, i, pick).value)
  {
    ExpireOneRows(u, i, pick);
  }

  lemma SweepGoesOn(start: Tables, todo: set<Id>, order: seq<Id>, picks: seq<Option<Id>>, u: Tables, i: Id,
      pick: Option<Id>)
    requires Sweeping(start, todo, order, picks, u) && i in todo
    requires IsFifoAnswer(u.reservations, u.reservations[i].book, pick)
    ensures SweepAnswers(start, order + [i], picks + [pick])
    ensures SweepRounds(start, order + [i], picks + [pick]) == ExpireOne(u, i, pick)
    ensures ExpireOne(u, i, pick).Success? ==>
      Sweeping(start, todo - {i}, order + [i], picks + [pick], ExpireOne(u, i, pick).value)
  {
    RoundExtends(start, order, picks, u, i, pick);
    assert i !in Elements(order);
    assert Elements(order + [i]) == Elements(order) + {i};
    if ExpireOne(u, i, pick).Success? { OthersUntouched(start, todo, u, i, pick); }
  }

  lemma SweepEnds(start: Tables, order: seq<Id>, picks: seq<Option<Id>>, u: Tables)
    requires Sweeping(start, {}, order, picks, u)
    ensures ListsExpired(start, order)
    ensures Batch(start, Where(start.reservations, HoldExpiredBefore(start.now)), u)
  {
    RoundsAreBatch(start, order, picks);
  }

  /** The next row of a list ordered by reserved_at. */
  method Oldest(rs: map<Id, Reservation>, s: set<Id>) returns (i: Id)
    requires s != {} && s <= rs.Keys
    ensures i in s && forall j :: j in s ==> rs[i].reservedAt <= rs[j].reservedAt
  {
    i :| i in s;
    var rest := s - {i};
    while rest != {}
      invariant i in s && rest <= s
      invariant forall j :: j in s - rest ==> rs[i].reservedAt <= rs[j].reservedAt
      decreases |rest|
    {
      var j :| j in rest;
      if rs[j].reservedAt < rs[i].reservedAt {
        i := j;
      }
      rest := rest - {j};
    }
  }

  lemma SweepSucceeds(t: Tables, order: seq<Id>, picks: seq<Option<Id>>)
    requires SweepAnswers(t, order, picks)
    ensures Sound(t, None) ==> SweepRounds(t, order, picks).Success?
  {
    if Sound(t, None) { SweepKeepsSound(t, order, picks); }
  }

  class BorrowService {
    const db: Database
    const reservationService: ReservationService?

    constructor (db: Database, reservationService: ReservationService?)
      requires reservationService != null ==> reservationService.db == db
      ensures this.db == db && this.reservationService == reservationService
    {
      this.db := db;
      this.reservationService := reservationService;
    }

    method ValidateMemberForBorrow(m: Id, member: Member) returns (error: Option<Error>)
      ensures error == MemberRejection(db.State(), m, member, db.now)
    {
      if member.status != Active {
        if member.status == Suspended {
          return Some(MemberSuspended);
        }
        return Some(MemberInactive);
      }
      if Count(db.loans, OverdueOfMember(m, db.now)) > 0 {
        return Some(OverdueMember);
      }
      if Count(db.loans, ActiveOfMember(m)) >= MAX_ACTIVE_LOANS {
        return Some(BorrowLimitExceeded);
      }
      error := None;
    }

    method BorrowBook(m: Id, b: Id, id: Id) returns (error: Option<Error>)
      requires id !in db.loans // a fresh uuid4
      modifies db
      ensures Commits(old(db.State()), Circulation.BorrowBook(old(db.State()), m, b, id, old(db.now), old(db.now)),
        error, db.State())
    {
      var start := db.State();
      var member := GetMemberForUpdate(db.members, m);
      if member.None? {
        return Some(MemberNotFound);
      }
      error := ValidateMemberForBorrow(m, member.value);
      if error.Some? {
        return;
      }
      var book := GetBookForUpdate(db.books, b);
      if book.None? {
        return Some(BookNotFound);
      }
      var holds := Where(db.reservations, HoldsOf(b));
      if |holds| > 1 {
        return Some(MultipleResultsFound);
      }
      var completed := false;
      if |holds| == 1 {
        var hold := TheOnly(holds);
        assert hold in holds;
        if db.reservations[hold].member != m {
          return Some(ReservationNotHeld);
        }
        var row := db.reservations[hold].(status := Completed);
        row := row.(expiresAt := None);
        db.reservations := db.reservations[hold := row];
        completed := true;
      }
      if !completed && book.value.available <= 0 {
        return Some(BookUnavailable);
      }
      if !completed {
        error := db.Flush(b, book.value.(available := book.value.available - 1));
        if error.Some? {
          return;
        }
      }
      db.loans := db.loans[id := Loan(m, b, db.now, db.now + BORROW_PERIOD, None, 0, Borrowed)];
    }

    /** Returns the fine, or none when the loan had been returned before. */
    method ReturnBook(id: Id) returns (error: Option<Error>, fine: Option<nat>, ghost pick: Option<Id>)
      requires reservationService != null ==> reservationService.db == db
      modifies db
      ensures Releases(old(db.State()), id) && reservationService != null ==>
        IsFifoAnswer(old(db.reservations), old(db.loans)[id].book, pick)
      ensures Commits(old(db.State()),
        Circulation.ReturnBook(old(db.State()), id, reservationService != null, pick), error, db.State())
      ensures error.None? ==> fine == if Releases(old(db.State()), id)
                                      then Some(CalculateFine(old(db.loans)[id].dueDate, old(db.now))) else None
    {
      pick, fine := None, None;
      if id !in db.loans {
        return Some(LoanNotFound), None, None;
      }
      if db.loans[id].status.Returned? {
        return None, None, None;
      }
      var start := db.State();
      var row := db.loans[id];
      fine := Some(CalculateFine(row.dueDate, db.now));
      row := row.(returnDate := Some(db.now));
      row := row.(status := Returned);
      db.loans := db.loans[id := row];
      if reservationService != null {
        error, pick := reservationService.PromoteNextReservation(row.book);
      } else {
        var book := GetBookForUpdate(db.books, row.book);
        error := None;
        if book.Some? {
          error := db.Flush(row.book, book.value.(available := book.value.available + 1));
        }
      }
      if error.Some? {
        db.Rollback(start);
      }
    }

    method RenewBook(id: Id, blocked: bool) returns (error: Option<Error>)
      modifies db
      ensures Commits(old(db.State()), Circulation.RenewBook(old(db.State()), id, blocked), error, db.State())
    {
      if id !in db.loans {
        return Some(LoanNotFound);
      }
      var row := db.loans[id];
      if row.status.Returned? {
        return Some(BookAlreadyReturned);
      }
      if row.renewals >= MAX_RENEWALS {
        return Some(RenewalLimitExceeded);
      }
      if blocked {
        return Some(RenewalBlocked);
      }
      if db.now > row.dueDate {
        return Some(OverdueMember);
      }
      row := row.(dueDate := row.dueDate + RENEWAL_PERIOD);
      row := row.(renewals := row.renewals + 1);
      row := row.(status := Renewed);
      db.loans := db.loans[id := row];
      error := None;
    }
  }
}
