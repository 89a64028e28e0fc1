/** Which error a call raises, told from the rows alone. */
module Refusals {
  import opened Prelude
  import opened Domain
  import opened Repositories
  import opened Circulation
  import opened Machine
  import opened Inventory
  import opened LookBack
  import opened Decisions
  import Lifecycles

  predicate Known(t: Tables, m: Id) { m in t.members && !t.members[m].deleted }
  predicate OnOffer(t: Tables, b: Id) { b in t.books && t.books[b].deletedAt == None }

  function HeldFor(t: Tables, b: Id): set<Id> {
    set i | i in t.reservations && t.reservations[i].book == b && t.reservations[i].status == Hold
  }

  ghost predicate HasOverdue(t: Tables, m: Id, at: Time) {
    exists i :: i in OpenLoans(t, m) && t.loans[i].dueDate < at
  }

  /** Why the member may not borrow anything. */
  ghost function MemberRefusal(t: Tables, m: Id, at: Time): Option<Error> {
    if !Known(t, m) then Some(MemberNotFound)
    else if t.members[m].status == Suspended then Some(MemberSuspended)
    else if t.members[m].status == Inactive then Some(MemberInactive)
    else if HasOverdue(t, m, at) then Some(OverdueMember)
    else if |OpenLoans(t, m)| >= 5 then Some(BorrowLimitExceeded)
    else None
  }

  /** Why the member may not borrow this book. */
  ghost function CopyRefusal(t: Tables, m: Id, b: Id): Option<Error> {
    if !OnOffer(t, b) then Some(BookNotFound)
    else if |HeldFor(t, b)| >= 2 then Some(MultipleResultsFound)
    else if exists h :: h in HeldFor(t, b) && t.reservations[h].member != m then Some(ReservationNotHeld)
    else if HeldFor(t, b) == {} && Engaged(t, b) == t.books[b].total then Some(BookUnavailable)
    else None
  }

  ghost predicate FailsBy(o: Outcome, refusal: Option<Error>) {
    if refusal.Some? then o == Failure(refusal.value) else o.Success?
  }

  lemma MemberRefused(t: Tables, m: Id, at: Time)
    requires RowRules(t)
    ensures MemberRefusal(t, m, at) == if GetMemberForUpdate(t.members, m).None? then Some(MemberNotFound)
                                       else MemberRejection(t, m, t.members[m], at)
  {
    forall i | i in t.loans ensures !t.loans[i].status.Overdue? { assert LoanRow(t.loans[i], t.now); }
    assert OpenLoans(t, m) == Where(t.loans, ActiveOfMember(m));
    var late := Where(t.loans, OverdueOfMember(m, at));
    assert late == set i | i in OpenLoans(t, m) && t.loans[i].dueDate < at;
    if HasOverdue(t, m, at) {
      var i :| i in OpenLoans(t, m) && t.loans[i].dueDate < at;
      assert i in late;
    } else {
      assert late == {};
    }
  }

  lemma CopyRefused(t: Tables, m: Id, b: Id, loan: Id, at: Time)
    requires OnOffer(t, b) && BookRowAllowed(t.books[b]) && t.books[b].available == t.books[b].total - Engaged(t, b)
    ensures FailsBy(LendCopy(t, m, b, t.books[b], loan, at), CopyRefusal(t, m, b))
  {
    assert HeldFor(t, b) == Where(t.reservations, HoldsOf(b));
    if |HeldFor(t, b)| == 1 {
      var h := TheOnly(HeldFor(t, b));
      assert h in HeldFor(t, b);
    }
  }

  /** The error of borrow_book: the member's standing comes before the book, and the holds before the shelf. */
  lemma BorrowRefused(t: Tables, m: Id, b: Id, loan: Id, checkedAt: Time, borrowedAt: Time)
    requires RowRules(t) && Conserved(t, None)
    ensures FailsBy(BorrowBook(t, m, b, loan, checkedAt, borrowedAt),
      if MemberRefusal(t, m, checkedAt).Some? then MemberRefusal(t, m, checkedAt) else CopyRefusal(t, m, b))
  {
    MemberRefused(t, m, checkedAt);
    if OnOffer(t, b) {
      ShelfIsTheRest(t, b);
      CopyRefused(t, m, b, loan, borrowedAt);
    }
  }

  predicate HasOutIn(t: Tables, b: Id, window: set<Id>) {
    exists l :: l in window && l in t.loans && t.loans[l].book == b && t.loans[l].status != Returned
  }

  /** Why the member may not queue for the book, given the loans the history query showed. */
  ghost function PlaceRefusal(t: Tables, m: Id, b: Id, window: set<Id>): Option<Error> {
    if !OnOffer(t, b) then Some(BookNotFound)
    else if Engaged(t, b) < t.books[b].total then Some(BookInStock)
    else if |ActiveReservations(t, m)| >= 3 then Some(ReservationLimitExceeded)
    else if exists r :: r in ActiveReservations(t, m) && t.reservations[r].book == b then Some(AlreadyReserved)
    else if !Known(t, m) || t.members[m].status == Inactive then Some(MemberInactive)
    else if t.members[m].status == Suspended then Some(MemberSuspended)
    else if HasOutIn(t, b, window) then Some(BookAlreadyBorrowed)
    else None
  }

  lemma SeenOut(t: Tables, b: Id, window: set<Id>)
    ensures HasOutIn(t, b, window) <==> exists l :: l in window && l in t.loans && OutOfBook(b)(t.loans[l])
  {
    if l :| l in window && l in t.loans && t.loans[l].book == b && t.loans[l].status != Returned {
      assert OutOfBook(b)(t.loans[l]);
    }
  }

  lemma PlaceRefusedFrom(t: Tables, m: Id, b: Id, i: Id, window: set<Id>)
    requires OnOffer(t, b) ==> t.books[b].available == t.books[b].total - Engaged(t, b) && t.books[b].available >= 0
    requires Count(t.reservations, ActiveReservationsOn(m, b)) <= 1
    ensures FailsBy(PlaceReservation(t, m, b, i, window), PlaceRefusal(t, m, b, window))
  {
    assert ActiveReservations(t, m) == Where(t.reservations, ActiveReservationsOf(m));
    NoneOwn(t, m, b);
    SeenOut(t, b, window);
  }

  /** The error of place_reservation: stock first, then the member's reservations, then the member, then the loans. */
  lemma PlaceRefused(t: Tables, m: Id, b: Id, i: Id, window: set<Id>)
    requires Sound(t, None)
    ensures FailsBy(PlaceReservation(t, m, b, i, window), PlaceRefusal(t, m, b, window))
  {
    if OnOffer(t, b) { ShelfIsTheRest(t, b); }
    assert Count(t.reservations, ActiveReservationsOn(m, b)) <= 1;
    PlaceRefusedFrom(t, m, b, i, window);
  }

  /** The error of cancel_reservation: somebody else's reservation is as good as none. */
  lemma CancelRefused(t: Tables, i: Id, m: Id, pick: Option<Id>)
    requires Sound(t, None) && Feasible(t, Cancel(i, m, pick))
    ensures FailsBy(CancelReservation(t, i, m, pick),
      if i !in t.reservations || t.reservations[i].member != m then Some(ReservationNotFound)
      else if i !in ActiveReservations(t, m) then Some(NotCancellable) else None)
  {
    CancelKeepsSound(t, i, m, pick);
  }

  /** The error of renew_book at any point of any run, for the loan's `n`-th renewal. */
  lemma {:induction false} RenewRefused(run: seq<World>, ops: seq<Op>, k: nat)
    requires IsRun(run, ops) && k < |ops| && ops[k].Renew?
    ensures var t, loan := run[k].t, ops[k].loan;
      var n := Lifecycles.Granted(run, ops, loan, k) + 1;
      FailsBy(Apply(t, ops[k]),
        if loan !in t.loans then Some(LoanNotFound)
        else if t.loans[loan].status == Returned then Some(BookAlreadyReturned)
        else if n > 2 then Some(RenewalLimitExceeded)
        else if ops[k].blocked then Some(RenewalBlocked)
        else if t.now > t.loans[loan].borrowDate + 14 * DAY * n then Some(OverdueMember)
        else None)
  {
    Lifecycles.PeriodsAreGranted(run, ops, k, ops[k].loan);
    Lifecycles.RenewalsRecorded(run, ops, k, ops[k].loan);
  }

  /** The error of return_book and delete_book: only for what is not there. */
  lemma ReturnAndDeleteRefused(t: Tables, op: Op)
    requires Sound(t, None) && Feasible(t, op) && (op.Return? || op.DeleteBook?)
    ensures FailsBy(Apply(t, op),
      if op.Return? && op.loan !in t.loans then Some(LoanNotFound)
      else if op.DeleteBook? && !OnOffer(t, op.book) then Some(BookNotFound) else None)
  {
    if op.Return? {
      ReturnKeepsSound(t, op.loan, op.queued, op.pick);
    } else if OnOffer(t, op.book) {
      assert BookRowAllowed(t.books[op.book]);
    }
  }
}
