/** What every transaction keeps: row rules, copy conservation, and the per-member limits. */
module Inventory {
  import opened Prelude
  import opened Domain
  import opened Repositories
  import opened Circulation
  import opened Machine

  /** Copies of `b` that are neither on the shelf, nor out on loan, nor held for anyone. */
  function Missing(t: Tables, b: Id): int
    requires b in t.books
  {
    t.books[b].total - t.books[b].available - Count(t.loans, OutOfBook(b)) - Count(t.reservations, HoldsOf(b))
  }

  /** Every copy is accounted for. `loose` is the book of a copy a transaction has released and not yet placed.
      A deleted book may have lost copies, never gained one. */
  ghost predicate Conserved(t: Tables, loose: Option<Id>) {
    forall b :: b in t.books ==>
      && Missing(t, b) >= Indicator(loose == Some(b))
      && (t.books[b].Live() ==> Missing(t, b) == Indicator(loose == Some(b)))
  }

  predicate LoanRow(l: Loan, now: Time) {
    && 0 <= l.renewals <= MAX_RENEWALS
    && l.dueDate == l.borrowDate + BORROW_PERIOD + RENEWAL_PERIOD * l.renewals
    && l.borrowDate <= now
    && (l.status.Borrowed? ==> l.renewals == 0)
    && (l.status.Renewed? ==> l.renewals > 0)
    && !l.status.Overdue?
    && (l.status.Returned? <==> l.returnDate.Some?)
  }

  predicate ReservationRow(r: Reservation, now: Time) {
    r.reservedAt <= now && (r.status.Hold? <==> r.expiresAt.Some?)
  }

  ghost predicate RowRules(t: Tables) {
    && (forall b :: b in t.books ==> BookRowAllowed(t.books[b]))
    && (forall i :: i in t.loans ==> LoanRow(t.loans[i], t.now) && t.loans[i].book in t.books)
    && (forall i :: i in t.reservations ==>
          ReservationRow(t.reservations[i], t.now) && t.reservations[i].book in t.books)
  }

  ghost predicate IsbnsUnique(t: Tables) {
    forall a, b :: a in t.books && b in t.books && t.books[a].isbn == t.books[b].isbn ==> a == b
  }

  ghost predicate Limits(t: Tables) {
    && (forall m: Id :: Count(t.loans, ActiveOfMember(m)) <= MAX_ACTIVE_LOANS)
    && (forall m: Id :: Count(t.reservations, ActiveReservationsOf(m)) <= MAX_ACTIVE_RESERVATIONS)
    && (forall m: Id, b: Id :: Count(t.reservations, ActiveReservationsOn(m, b)) <= 1)
  }

  ghost predicate Sound(t: Tables, loose: Option<Id>) {
    RowRules(t) && IsbnsUnique(t) && Conserved(t, loose) && Limits(t)
  }

  // ----- single row writes -----

  lemma BookKeepsRows(t: Tables, b: Id, book: Book)
    requires RowRules(t) && IsbnsUnique(t) && BookRowAllowed(book) && Where(t.books, WithIsbn(book.isbn)) <= {b}
    ensures RowRules(PutBook(t, b, book)) && IsbnsUnique(PutBook(t, b, book))
  {
    forall a | a in t.books && a != b ensures t.books[a].isbn != book.isbn {
      assert a !in Where(t.books, WithIsbn(book.isbn));
    }
  }

  lemma LoanKeepsRows(t: Tables, i: Id, l: Loan)
    requires RowRules(t) && LoanRow(l, t.now) && l.book in t.books
    ensures RowRules(PutLoan(t, i, l))
  {
  }

  lemma ReservationKeepsRows(t: Tables, i: Id, r: Reservation)
    requires RowRules(t) && ReservationRow(r, t.now) && r.book in t.books
    ensures RowRules(PutReservation(t, i, r))
  {
  }

  lemma LoanKeepsLimits(t: Tables, i: Id, l: Loan)
    requires Limits(t)
    requires ActiveOfMember(l.member)(l) ==>
      || Count(t.loans, ActiveOfMember(l.member)) < MAX_ACTIVE_LOANS
      || (i in t.loans && ActiveOfMember(l.member)(t.loans[i]))
    ensures Limits(PutLoan(t, i, l))
  {
    forall m: Id { CountPut(t.loans, i, l, ActiveOfMember(m)); }
  }

  lemma ReservationKeepsLimits(t: Tables, i: Id, r: Reservation)
    requires Limits(t)
    requires IsActive(r) ==>
      || (Count(t.reservations, ActiveReservationsOf(r.member)) < MAX_ACTIVE_RESERVATIONS
          && Count(t.reservations, ActiveReservationsOn(r.member, r.book)) == 0)
      || (i in t.reservations && ActiveReservationsOn(r.member, r.book)(t.reservations[i]))
    ensures Limits(PutReservation(t, i, r))
  {
    forall m: Id { CountPut(t.reservations, i, r, ActiveReservationsOf(m)); }
    forall m: Id, b: Id { CountPut(t.reservations, i, r, ActiveReservationsOn(m, b)); }
  }

  /** Rewriting a loan moves the loose copy by exactly what the loan held before and holds after. */
  lemma LoanConserves(t: Tables, i: Id, l: Loan, loose: Option<Id>, loose': Option<Id>)
    requires Conserved(t, loose)
    requires forall b :: b in t.books ==>
      Indicator(loose' == Some(b)) == Indicator(loose == Some(b))
        + Indicator(i in t.loans && IsOut(t.loans[i]) && t.loans[i].book == b) - Indicator(IsOut(l) && l.book == b)
    ensures Conserved(PutLoan(t, i, l), loose')
  {
    forall b | b in t.books { CountPut(t.loans, i, l, OutOfBook(b)); }
  }

  lemma ReservationConserves(t: Tables, i: Id, r: Reservation, loose: Option<Id>, loose': Option<Id>)
    requires Conserved(t, loose)
    requires forall b :: b in t.books ==>
      Indicator(loose' == Some(b)) == Indicator(loose == Some(b))
        + Indicator(i in t.reservations && t.reservations[i].status.Hold? && t.reservations[i].book == b)
        - Indicator(r.status.Hold? && r.book == b)
    ensures Conserved(PutReservation(t, i, r), loose')
  {
    forall b | b in t.books { CountPut(t.reservations, i, r, HoldsOf(b)); }
  }

  lemma BookConserves(t: Tables, b: Id, book: Book, loose: Option<Id>, loose': Option<Id>)
    requires Conserved(t, loose)
    requires b in t.books && (book.Live() ==> t.books[b].Live())
    requires forall a :: a in t.books && a != b ==> Indicator(loose' == Some(a)) == Indicator(loose == Some(a))
    requires (book.total - book.available) - (t.books[b].total - t.books[b].available)
          == Indicator(loose' == Some(b)) - Indicator(loose == Some(b))
    ensures Conserved(PutBook(t, b, book), loose')
  {
    var t' := PutBook(t, b, book);
    assert forall a :: a in t.books && a != b ==> Missing(t', a) == Missing(t, a);
  }

  /** A reservation row rewritten for the same member and book, without becoming active again. */
  lemma ReservationMoved(t: Tables, i: Id, r: Reservation, loose: Option<Id>, loose': Option<Id>)
    requires Sound(t, loose)
    requires i in t.reservations
    requires r.member == t.reservations[i].member && r.book == t.reservations[i].book
    requires ReservationRow(r, t.now)
    requires IsActive(r) ==> IsActive(t.reservations[i])
    requires forall b :: b in t.books ==>
      Indicator(loose' == Some(b)) == Indicator(loose == Some(b))
        + Indicator(t.reservations[i].status.Hold? && r.book == b) - Indicator(r.status.Hold? && r.book == b)
    ensures Sound(PutReservation(t, i, r), loose')
  {
    ReservationKeepsRows(t, i, r);
    ReservationConserves(t, i, r, loose, loose');
    ReservationKeepsLimits(t, i, r);
  }

  lemma LoanMoved(t: Tables, i: Id, l: Loan, loose: Option<Id>, loose': Option<Id>)
    requires Sound(t, loose)
    requires i in t.loans
    requires l.member == t.loans[i].member && l.book == t.loans[i].book
    requires LoanRow(l, t.now)
    requires IsOut(l) ==> IsOut(t.loans[i])
    requires forall b :: b in t.books ==>
      Indicator(loose' == Some(b)) == Indicator(loose == Some(b))
        + Indicator(IsOut(t.loans[i]) && l.book == b) - Indicator(IsOut(l) && l.book == b)
    ensures Sound(PutLoan(t, i, l), loose')
  {
    LoanKeepsRows(t, i, l);
    LoanConserves(t, i, l, loose, loose');
    LoanKeepsLimits(t, i, l);
  }

  /** A loose copy goes out on a new loan. */
  lemma LoanAdded(t: Tables, i: Id, l: Loan)
    requires Sound(t, Some(l.book))
    requires i !in t.loans && IsOut(l) && l.book in t.books && LoanRow(l, t.now)
    requires Count(t.loans, ActiveOfMember(l.member)) < MAX_ACTIVE_LOANS
    ensures Sound(PutLoan(t, i, l), None)
  {
    LoanKeepsRows(t, i, l);
    LoanConserves(t, i, l, Some(l.book), None);
    LoanKeepsLimits(t, i, l);
  }

  /** A books row rewritten within its CHECKs, under an ISBN no other row has. */
  lemma BookMoved(t: Tables, b: Id, book: Book, loose: Option<Id>, loose': Option<Id>)
    requires Sound(t, loose)
    requires b in t.books && BookRowAllowed(book)
    requires book.Live() ==> t.books[b].Live()
    requires Where(t.books, WithIsbn(book.isbn)) <= {b}
    requires forall a :: a in t.books && a != b ==> Indicator(loose' == Some(a)) == Indicator(loose == Some(a))
    requires (book.total - book.available) - (t.books[b].total - t.books[b].available)
          == Indicator(loose' == Some(b)) - Indicator(loose == Some(b))
    ensures Sound(PutBook(t, b, book), loose')
  {
    BookKeepsRows(t, b, book);
    BookConserves(t, b, book, loose, loose');
  }

  lemma IsbnIsOwn(t: Tables, b: Id)
    requires IsbnsUnique(t) && b in t.books
    ensures Where(t.books, WithIsbn(t.books[b].isbn)) <= {b}
  {
  }

  // ----- transactions -----

  /** The copy of a deleted book is lost rather than loose. */
  lemma NothingLoose(t: Tables, b: Id)
    requires Sound(t, Some(b)) && b in t.books && !t.books[b].Live()
    ensures Sound(t, None)
  {
  }

  function Shelved(book: Book): Book { book.(available := book.available + 1) }

  /** While a copy is loose its shelf has room for it: putting it back cannot violate a CHECK. */
  lemma ShelfHasRoom(t: Tables, b: Id)
    requires Conserved(t, Some(b)) && b in t.books && t.books[b].Live() && BookRowAllowed(t.books[b])
    ensures BookRowAllowed(Shelved(t.books[b]))
  {
    assert Missing(t, b) == 1;
  }

  lemma ShelvedKeepsSound(t: Tables, b: Id)
    requires Sound(t, Some(b)) && b in t.books && t.books[b].Live() && BookRowAllowed(Shelved(t.books[b]))
    ensures Sound(PutBook(t, b, Shelved(t.books[b])), None)
  {
    IsbnIsOwn(t, b);
    BookMoved(t, b, Shelved(t.books[b]), Some(b), None);
  }

  lemma ShelvingWrites(t: Tables, b: Id)
    requires b in t.books
    ensures ShelveCopy(t, b) ==
      if !t.books[b].Live() then Success(t)
      else if BookRowAllowed(Shelved(t.books[b])) then Success(PutBook(t, b, Shelved(t.books[b])))
      else Failure(IntegrityError)
  {
  }

  /** A released copy always finds a place: the flush passes its CHECKs and nothing is loose any more. */
  lemma ShelvingSettles(t: Tables, b: Id)
    requires Sound(t, Some(b)) && b in t.books
    ensures ShelveCopy(t, b).Success? && Sound(ShelveCopy(t, b).value, None)
  {
    ShelvingWrites(t, b);
    if t.books[b].Live() {
      ShelfHasRoom(t, b);
      ShelvedKeepsSound(t, b);
    } else {
      NothingLoose(t, b);
    }
  }

  lemma PromotionSettles(t: Tables, b: Id, pick: Option<Id>)
    requires Sound(t, Some(b)) && b in t.books
    requires IsFifoAnswer(t.reservations, b, pick)
    ensures PromoteNext(t, b, pick).Success? && Sound(PromoteNext(t, b, pick).value, None)
  {
    match pick
    case Some(i) =>
      var r := t.reservations[i];
      ReservationMoved(t, i, Promoted(r, t.now), Some(b), None);
    case None => ShelvingSettles(t, b);
  }

  lemma ReturnKeepsSound(t: Tables, loan: Id, queued: bool, pick: Option<Id>)
    requires Sound(t, None) && Feasible(t, Return(loan, queued, pick))
    ensures var o := ReturnBook(t, loan, queued, pick);
      (o.Failure? <==> loan !in t.loans) && (o.Success? ==> Sound(o.value, None))
  {
    if Releases(t, loan) {
      var b := t.loans[loan].book;
      var released := PutLoan(t, loan, Closed(t.loans[loan], t.now));
      LoanMoved(t, loan, Closed(t.loans[loan], t.now), None, Some(b));
      if queued { PromotionSettles(released, b, pick); } else { ShelvingSettles(released, b); }
    }
  }

  lemma CancelKeepsSound(t: Tables, i: Id, m: Id, pick: Option<Id>)
    requires Sound(t, None) && Feasible(t, Cancel(i, m, pick))
    ensures var o := CancelReservation(t, i, m, pick);
      (o.Success? <==> Cancellable(t, i, m)) && (o.Success? ==> Sound(o.value, None))
  {
    if Cancellable(t, i, m) {
      var r := t.reservations[i];
      var cancelled := PutReservation(t, i, Withdrawn(r));
      ReservationMoved(t, i, Withdrawn(r), None, if r.status.Hold? then Some(r.book) else None);
      if r.status.Hold? {
        QueueUnmoved(t.reservations, i, Withdrawn(r), r.book, pick);
        PromotionSettles(cancelled, r.book, pick);
      }
    }
  }

  lemma ExpireOneKeepsSound(t: Tables, i: Id, pick: Option<Id>)
    requires Sound(t, None)
    requires i in t.reservations && t.reservations[i].status.Hold?
    requires IsFifoAnswer(t.reservations, t.reservations[i].book, pick)
    ensures ExpireOne(t, i, pick).Success? && Sound(ExpireOne(t, i, pick).value, None)
  {
    var r := t.reservations[i];
    ReservationMoved(t, i, Lapsed(r), None, Some(r.book));
    QueueUnmoved(t.reservations, i, Lapsed(r), r.book, pick);
    PromotionSettles(PutReservation(t, i, Lapsed(r)), r.book, pick);
  }

  /** The sweep never aborts half way, whatever the order and however many rounds. */
  lemma {:induction false} SweepKeepsSound(t: Tables, order: seq<Id>, picks: seq<Option<Id>>)
    requires Sound(t, None) && SweepAnswers(t, order, picks)
    ensures SweepRounds(t, order, picks).Success? && Sound(SweepRounds(t, order, picks).value, None)
    decreases |order|
  {
    if order != [] {
      var n := |order| - 1;
      SweepKeepsSound(t, order[..n], picks[..n]);
      ExpireOneKeepsSound(SweepRounds(t, order[..n], picks[..n]).value, order[n], picks[n]);
    }
  }

  lemma BorrowKeepsSound(t: Tables, m: Id, b: Id, loan: Id, checkedAt: Time, borrowedAt: Time)
    requires Sound(t, None) && Feasible(t, Borrow(m, b, loan, checkedAt, borrowedAt))
    ensures var o := BorrowBook(t, m, b, loan, checkedAt, borrowedAt);
      o.Success? ==> Sound(o.value, None)
  {
    if BorrowBook(t, m, b, loan, checkedAt, borrowedAt).Success? {
      LendKeepsSound(t, m, b, loan, borrowedAt);
    }
  }

  lemma HeldLoanKeepsSound(t: Tables, m: Id, h: Id, loan: Id, borrowedAt: Time)
    requires Sound(t, None) && loan !in t.loans && borrowedAt <= t.now
    requires h in t.reservations && t.reservations[h].status.Hold?
    requires Count(t.loans, ActiveOfMember(m)) < MAX_ACTIVE_LOANS
    ensures Sound(PutLoan(PutReservation(t, h, Fulfilled(t.reservations[h])), loan,
                          NewLoan(m, t.reservations[h].book, borrowedAt)), None)
  {
    var r := t.reservations[h];
    ReservationMoved(t, h, Fulfilled(r), None, Some(r.book));
    LoanAdded(PutReservation(t, h, Fulfilled(r)), loan, NewLoan(m, r.book, borrowedAt));
  }

  lemma ShelfLoanKeepsSound(t: Tables, m: Id, b: Id, loan: Id, borrowedAt: Time)
    requires Sound(t, None) && loan !in t.loans && borrowedAt <= t.now
    requires b in t.books && t.books[b].Live() && t.books[b].available > 0
    requires Count(t.loans, ActiveOfMember(m)) < MAX_ACTIVE_LOANS
    ensures Sound(PutLoan(PutBook(t, b, t.books[b].(available := t.books[b].available - 1)), loan,
                          NewLoan(m, b, borrowedAt)), None)
  {
    var book := t.books[b].(available := t.books[b].available - 1);
    IsbnIsOwn(t, b);
    BookMoved(t, b, book, None, Some(b));
    LoanAdded(PutBook(t, b, book), loan, NewLoan(m, b, borrowedAt));
  }

  lemma LendKeepsSound(t: Tables, m: Id, b: Id, loan: Id, borrowedAt: Time)
    requires Sound(t, None) && loan !in t.loans && borrowedAt <= t.now
    requires b in t.books && t.books[b].Live()
    requires Count(t.loans, ActiveOfMember(m)) < MAX_ACTIVE_LOANS
    ensures var o := LendCopy(t, m, b, t.books[b], loan, borrowedAt); o.Success? ==> Sound(o.value, None)
  {
    var holds := Where(t.reservations, HoldsOf(b));
    if LendCopy(t, m, b, t.books[b], loan, borrowedAt).Success? {
      if |holds| == 1 {
        assert TheOnly(holds) in holds;
        HeldLoanKeepsSound(t, m, TheOnly(holds), loan, borrowedAt);
      } else {
        ShelfLoanKeepsSound(t, m, b, loan, borrowedAt);
      }
    }
  }

  lemma ExtendedRow(l: Loan, now: Time)
    requires LoanRow(l, now) && IsOut(l) && l.renewals < MAX_RENEWALS
    ensures LoanRow(Extended(l), now)
  {
  }

  lemma RenewKeepsSound(t: Tables, loan: Id, blocked: bool)
    requires Sound(t, None)
    ensures RenewBook(t, loan, blocked).Success? ==> Sound(RenewBook(t, loan, blocked).value, None)
  {
    if RenewBook(t, loan, blocked).Success? {
      ExtendedRow(t.loans[loan], t.now);
      LoanMoved(t, loan, Extended(t.loans[loan]), None, None);
    }
  }

  lemma EnqueuedKeepsSound(t: Tables, i: Id, r: Reservation)
    requires Sound(t, None) && i !in t.reservations
    requires r.status.Pending? && ReservationRow(r, t.now) && r.book in t.books
    requires Count(t.reservations, ActiveReservationsOf(r.member)) < MAX_ACTIVE_RESERVATIONS
    requires Count(t.reservations, ActiveReservationsOn(r.member, r.book)) == 0
    ensures Sound(PutReservation(t, i, r), None)
  {
    ReservationKeepsRows(t, i, r);
    ReservationConserves(t, i, r, None, None);
    ReservationKeepsLimits(t, i, r);
  }

  lemma PlaceEnqueues(t: Tables, m: Id, b: Id, i: Id, window: set<Id>)
    requires PlaceReservation(t, m, b, i, window).Success?
    ensures PlaceReservation(t, m, b, i, window).value == PutReservation(t, i, Reservation(m, b, t.now, None, Pending))
    ensures b in t.books && Count(t.reservations, ActiveReservationsOf(m)) < MAX_ACTIVE_RESERVATIONS
    ensures Count(t.reservations, ActiveReservationsOn(m, b)) == 0
  {
  }

  lemma PlaceKeepsSound(t: Tables, m: Id, b: Id, i: Id, window: set<Id>)
    requires Sound(t, None) && i !in t.reservations
    ensures var o := PlaceReservation(t, m, b, i, window); o.Success? ==> Sound(o.value, None)
  {
    var o := PlaceReservation(t, m, b, i, window);
    if o.Success? {
      PlaceEnqueues(t, m, b, i, window);
      EnqueuedKeepsSound(t, i, Reservation(m, b, t.now, None, Pending));
    }
  }

  lemma NewBookConserves(t: Tables, b: Id, book: Book)
    requires RowRules(t) && Conserved(t, None) && b !in t.books && book.available == book.total
    ensures Conserved(PutBook(t, b, book), None)
  {
    assert Where(t.loans, OutOfBook(b)) == {};
    assert Where(t.reservations, HoldsOf(b)) == {};
    var t' := PutBook(t, b, book);
    assert forall a :: a in t.books ==> Missing(t', a) == Missing(t, a);
  }

  lemma CreateKeepsSound(t: Tables, b: Id, isbn: string, copies: int)
    requires Sound(t, None) && b !in t.books
    ensures var o := Circulation.CreateBook(t, b, isbn, copies); o.Success? ==> Sound(o.value, None)
  {
    var o := Circulation.CreateBook(t, b, isbn, copies);
    if o.Success? {
      BookKeepsRows(t, b, Book(isbn, copies, copies, None));
      NewBookConserves(t, b, Book(isbn, copies, copies, None));
    }
  }

  lemma UpdateKeepsSound(t: Tables, b: Id, total: Option<int>, isbn: Option<string>)
    requires Sound(t, None)
    ensures var o := Circulation.UpdateBook(t, b, total, isbn); o.Success? ==> Sound(o.value, None)
  {
    var o := Circulation.UpdateBook(t, b, total, isbn);
    if o.Success? {
      IsbnIsOwn(t, b);
      BookMoved(t, b, o.value.books[b], None, None);
    }
  }

  lemma DeleteKeepsSound(t: Tables, b: Id)
    requires Sound(t, None)
    ensures Circulation.DeleteBook(t, b).Success? ==> Sound(Circulation.DeleteBook(t, b).value, None)
  {
    if Circulation.DeleteBook(t, b).Success? {
      IsbnIsOwn(t, b);
      BookMoved(t, b, t.books[b].(deletedAt := Some(t.now)), None, None);
    }
  }

  lemma MembersKeepSound(t: Tables, members: map<Id, Member>)
    requires Sound(t, None)
    ensures Sound(t.(members := members), None)
  {
    var t' := t.(members := members);
    assert forall b :: b in t.books ==> Missing(t, b) == Missing(t', b);
  }

  lemma ClockKeepsSound(t: Tables, elapsed: nat)
    requires Sound(t, None)
    ensures Sound(t.(now := t.now + elapsed), None)
  {
    var t' := t.(now := t.now + elapsed);
    assert forall b :: b in t.books ==> Missing(t, b) == Missing(t', b);
  }

  lemma CatalogueKeepsSound(t: Tables, op: Op)
    requires Sound(t, None) && Feasible(t, op) && (op.CreateBook? || op.UpdateBook? || op.DeleteBook?)
    ensures Apply(t, op).Success? ==> Sound(Apply(t, op).value, None)
  {
    match op
    case CreateBook(b, isbn, copies) => CreateKeepsSound(t, b, isbn, copies);
    case UpdateBook(b, total, isbn) => UpdateKeepsSound(t, b, total, isbn);
    case DeleteBook(b) => DeleteKeepsSound(t, b);
  }

  lemma DeskKeepsSound(t: Tables, op: Op)
    requires Sound(t, None) && Feasible(t, op) && (op.Borrow? || op.Return? || op.Renew?)
    ensures Apply(t, op).Success? ==> Sound(Apply(t, op).value, None)
  {
    match op
    case Borrow(m, b, loan, checkedAt, borrowedAt) => BorrowKeepsSound(t, m, b, loan, checkedAt, borrowedAt);
    case Return(loan, queued, pick) => ReturnKeepsSound(t, loan, queued, pick);
    case Renew(loan, blocked) => RenewKeepsSound(t, loan, blocked);
  }

  lemma QueueKeepsSound(t: Tables, op: Op)
    requires Sound(t, None) && Feasible(t, op) && (op.Place? || op.Cancel? || op.Sweep?)
    ensures Apply(t, op).Success? ==> Sound(Apply(t, op).value, None)
  {
    match op
    case Place(m, b, i, window) => PlaceKeepsSound(t, m, b, i, window);
    case Cancel(i, m, pick) => CancelKeepsSound(t, i, m, pick);
    case Sweep(order, picks) => SweepKeepsSound(t, order, picks);
  }

  lemma StepKeepsSound(t: Tables, op: Op)
    requires Sound(t, None) && Feasible(t, op)
    ensures Apply(t, op).Success? ==> Sound(Apply(t, op).value, None)
  {
    if op.CreateBook? || op.UpdateBook? || op.DeleteBook? {
      CatalogueKeepsSound(t, op);
    } else if op.Borrow? || op.Return? || op.Renew? {
      DeskKeepsSound(t, op);
    } else if op.SetMember? {
      MembersKeepSound(t, t.members[op.member := op.row]);
    } else if op.Tick? {
      ClockKeepsSound(t, op.elapsed);
    } else {
      QueueKeepsSound(t, op);
    }
  }

  lemma EmptyIsSound(start: Time)
    ensures Sound(Empty(start).t, None)
  {
    var t := Empty(start).t;
    assert forall m: Id ::
      Where(t.loans, ActiveOfMember(m)) == {} && Where(t.reservations, ActiveReservationsOf(m)) == {};
    assert forall m: Id, b: Id :: Where(t.reservations, ActiveReservationsOn(m, b)) == {};
  }

  /** In every state of every run from the empty database: the CHECKs hold, copies are conserved, limits are kept. */
  lemma {:induction false} RunsStaySound(run: seq<World>, ops: seq<Op>, k: nat)
    requires IsRun(run, ops) && k < |run|
    ensures Sound(run[k].t, None)
  {
    if k == 0 {
      EmptyIsSound(run[0].t.now);
    } else {
      RunsStaySound(run, ops, k - 1);
      assert run[k - 1 + 1] == Step(run[k - 1], ops[k - 1]);
      StepKeepsSound(run[k - 1].t, ops[k - 1]);
    }
  }
}
