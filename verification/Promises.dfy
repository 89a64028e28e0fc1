/** Promises of the design documents: which hold, and exactly when the others do. */
module Promises {
  import opened Prelude
  import opened Domain
  import opened Repositories
  import opened Circulation
  import opened Machine
  import opened Inventory
  import opened Queue
  import opened Fairness
  import opened Sweep

  // ----- the queue is served before the shelf -----

  predicate Awaited(t: Tables, b: Id) {
    Where(t.reservations, PendingOf(b)) != {}
  }

  /** A book somebody waits for has no copy on the shelf. */
  ghost predicate QueueFirst(t: Tables) {
    forall b :: b in t.books && Awaited(t, b) ==> t.books[b].available == 0
  }

  /** The steps that put a copy on the shelf over the heads of a queue: buying copies, and returning through a
      BorrowService with no ReservationService. */
  predicate Bypasses(t: Tables, op: Op) {
    match op
    case UpdateBook(b, total, _) => b in t.books && total.Some? && total.value > t.books[b].total && Awaited(t, b)
    case Return(loan, queued, _) =>
      !queued && Releases(t, loan) && GetBookForUpdate(t.books, t.loans[loan].book).Some?
        && Awaited(t, t.loans[loan].book)
    case _ => false
  }

  /** Nobody joins the queues, and the shelves are as they were or emptier. */
  ghost predicate Tidier(t: Tables, t': Tables) {
    forall b :: b in t'.books && Awaited(t', b) ==>
      b in t.books && (t'.books[b].available == t.books[b].available) && Awaited(t, b)
  }

  lemma PromoteNextTidies(t: Tables, b: Id, pick: Option<Id>)
    requires IsFifoAnswer(t.reservations, b, pick) && PromoteNext(t, b, pick).Success?
    ensures Tidier(t, PromoteNext(t, b, pick).value)
  {
    var t' := PromoteNext(t, b, pick).value;
    if pick.Some? {
      HeadIsOldest(t.reservations, b, pick.value);
      forall a: Id ensures Where(t'.reservations, PendingOf(a)) <= Where(t.reservations, PendingOf(a)) {}
    }
  }

  lemma ClosingTidies(t: Tables, i: Id, r: Reservation)
    requires i in t.reservations && !r.status.Pending?
    ensures Tidier(t, PutReservation(t, i, r))
  {
    forall a: Id
      ensures Where(PutReservation(t, i, r).reservations, PendingOf(a)) <= Where(t.reservations, PendingOf(a))
    {
    }
  }

  lemma ReturnServesQueueFirst(t: Tables, loan: Id, queued: bool, pick: Option<Id>)
    requires QueueFirst(t) && Releases(t, loan) && Feasible(t, Return(loan, queued, pick))
    requires ReturnBook(t, loan, queued, pick).Success?
    ensures QueueFirst(ReturnBook(t, loan, queued, pick).value) <==> !Bypasses(t, Return(loan, queued, pick))
  {
    var b := t.loans[loan].book;
    var t' := ReturnBook(t, loan, queued, pick).value;
    var released := PutLoan(t, loan, Closed(t.loans[loan], t.now));
    assert Tidier(t, released);
    if queued {
      PromoteNextTidies(released, b, pick);
    } else if Bypasses(t, Return(loan, queued, pick)) {
      assert t'.books[b].available == 1 && Awaited(t', b);
    }
  }

  lemma ExpireOneServesQueueFirst(t: Tables, i: Id, pick: Option<Id>)
    requires QueueFirst(t) && i in t.reservations && t.reservations[i].status.Hold?
    requires IsFifoAnswer(t.reservations, t.reservations[i].book, pick) && ExpireOne(t, i, pick).Success?
    ensures QueueFirst(ExpireOne(t, i, pick).value)
  {
    var r := t.reservations[i];
    ClosingTidies(t, i, Lapsed(r));
    QueueUnmoved(t.reservations, i, Lapsed(r), r.book, pick);
    PromoteNextTidies(PutReservation(t, i, Lapsed(r)), r.book, pick);
  }

  lemma {:induction false} SweepServesQueueFirst(t: Tables, order: seq<Id>, picks: seq<Option<Id>>)
    requires QueueFirst(t) && SweepAnswers(t, order, picks) && SweepRounds(t, order, picks).Success?
    ensures QueueFirst(SweepRounds(t, order, picks).value)
    decreases |order|
  {
    if order != [] {
      var n := |order| - 1;
      SweepServesQueueFirst(t, order[..n], picks[..n]);
      ExpireOneServesQueueFirst(SweepRounds(t, order[..n], picks[..n]).value, order[n], picks[n]);
    }
  }

  lemma CancelServesQueueFirst(t: Tables, i: Id, m: Id, pick: Option<Id>)
    requires QueueFirst(t) && Feasible(t, Cancel(i, m, pick)) && CancelReservation(t, i, m, pick).Success?
    ensures QueueFirst(CancelReservation(t, i, m, pick).value)
  {
    var r := t.reservations[i];
    ClosingTidies(t, i, Withdrawn(r));
    if r.status.Hold? {
      QueueUnmoved(t.reservations, i, Withdrawn(r), r.book, pick);
      PromoteNextTidies(PutReservation(t, i, Withdrawn(r)), r.book, pick);
    }
  }

  lemma BorrowServesQueueFirst(t: Tables, m: Id, b: Id, loan: Id, checkedAt: Time, borrowedAt: Time)
    requires QueueFirst(t) && BorrowBook(t, m, b, loan, checkedAt, borrowedAt).Success?
    ensures QueueFirst(BorrowBook(t, m, b, loan, checkedAt, borrowedAt).value)
  {
    var holds := Where(t.reservations, HoldsOf(b));
    if |holds| == 1 {
      assert TheOnly(holds) in holds;
      ClosingTidies(t, TheOnly(holds), Fulfilled(t.reservations[TheOnly(holds)]));
    }
  }

  lemma PlaceServesQueueFirst(t: Tables, m: Id, b: Id, i: Id, window: set<Id>)
    requires QueueFirst(t) && RowRules(t) && PlaceReservation(t, m, b, i, window).Success? && i !in t.reservations
    ensures QueueFirst(PlaceReservation(t, m, b, i, window).value)
  {
    var t' := PlaceReservation(t, m, b, i, window).value;
    forall a | a in t'.books && a != b && Awaited(t', a) ensures Awaited(t, a) {
      var j :| j in Where(t'.reservations, PendingOf(a));
      assert j in Where(t.reservations, PendingOf(a));
    }
    assert BookRowAllowed(t.books[b]);
  }

  lemma CatalogueServesQueueFirst(t: Tables, op: Op)
    requires QueueFirst(t) && RowRules(t) && Feasible(t, op) && Apply(t, op).Success?
    requires op.CreateBook? || op.UpdateBook? || op.DeleteBook?
    ensures QueueFirst(Apply(t, op).value) <==> !Bypasses(t, op)
  {
    var t' := Apply(t, op).value;
    assert forall a: Id :: Awaited(t', a) == Awaited(t, a);
    if op.CreateBook? {
      assert Where(t.reservations, PendingOf(op.book)) == {};
    }
  }

  lemma StepServesQueueFirst(t: Tables, op: Op)
    requires QueueFirst(t) && RowRules(t) && Feasible(t, op) && Apply(t, op).Success?
    ensures QueueFirst(Apply(t, op).value) <==> !Bypasses(t, op)
  {
    match op
    case Return(loan, queued, pick) => if Releases(t, loan) { ReturnServesQueueFirst(t, loan, queued, pick); }
    case Cancel(i, m, pick) => CancelServesQueueFirst(t, i, m, pick);
    case Sweep(order, picks) => SweepServesQueueFirst(t, order, picks);
    case Borrow(m, b, loan, checkedAt, borrowedAt) => BorrowServesQueueFirst(t, m, b, loan, checkedAt, borrowedAt);
    case Place(m, b, i, window) => PlaceServesQueueFirst(t, m, b, i, window);
    case CreateBook(_, _, _) => CatalogueServesQueueFirst(t, op);
    case UpdateBook(_, _, _) => CatalogueServesQueueFirst(t, op);
    case DeleteBook(_) => CatalogueServesQueueFirst(t, op);
    case _ => assert Tidier(t, Apply(t, op).value);
  }

  /** Along any run without a bypassing step, no copy is on the shelf while somebody waits for the book; and the
      first bypassing step that goes through puts one there. */
  lemma {:induction false} QueueServedBeforeShelf(run: seq<World>, ops: seq<Op>, k: nat)
    requires IsRun(run, ops) && k < |run|
    requires forall j :: 0 <= j < k ==> !Bypasses(run[j].t, ops[j])
    ensures QueueFirst(run[k].t)
    ensures k < |ops| && Apply(run[k].t, ops[k]).Success? ==>
      (QueueFirst(run[k + 1].t) <==> !Bypasses(run[k].t, ops[k]))
  {
    RunsStaySound(run, ops, k);
    if k > 0 {
      QueueServedBeforeShelf(run, ops, k - 1);
      assert run[k - 1 + 1] == Step(run[k - 1], ops[k - 1]);
    }
    if k < |ops| && Apply(run[k].t, ops[k]).Success? {
      StepServesQueueFirst(run[k].t, ops[k]);
    }
  }

  // ----- holds are for their holder -----

  /** While a book has holds, a loan goes through only for the member with the one hold, and uses it up. */
  lemma HoldsAreForTheirHolder(t: Tables, m: Id, b: Id, loan: Id, checkedAt: Time, borrowedAt: Time)
    requires BorrowBook(t, m, b, loan, checkedAt, borrowedAt).Success?
    requires Where(t.reservations, HoldsOf(b)) != {}
    ensures exists h ::
      && Where(t.reservations, HoldsOf(b)) == {h} && t.reservations[h].member == m
      && var t' := BorrowBook(t, m, b, loan, checkedAt, borrowedAt).value;
         t'.books == t.books && Where(t'.reservations, HoldsOf(b)) == {} && t'.reservations[h].status.Completed?
  {
    var h := TheOnly(Where(t.reservations, HoldsOf(b)));
    var t' := BorrowBook(t, m, b, loan, checkedAt, borrowedAt).value;
    assert h in Where(t.reservations, HoldsOf(b));
    forall i | i in t'.reservations ensures !HoldsOf(b)(t'.reservations[i]) {
      assert i in Where(t.reservations, HoldsOf(b)) <==> i == h;
    }
    assert Where(t'.reservations, HoldsOf(b)) == {};
  }

  /** ADR 0019 lets the holder borrow while the hold lasts. The code does so exactly when the book has not been deleted
      meanwhile and no other copy of it is on hold: with two holds the hold query finds several rows. */
  lemma HolderMayBorrow(t: Tables, m: Id, b: Id, h: Id, loan: Id, checkedAt: Time, borrowedAt: Time)
    requires GetMemberForUpdate(t.members, m).Some? && MemberRejection(t, m, t.members[m], checkedAt).None?
    requires h in Where(t.reservations, HoldsOf(b)) && t.reservations[h].member == m
    ensures var o := BorrowBook(t, m, b, loan, checkedAt, borrowedAt);
      var live := b in t.books && t.books[b].Live();
      && (o.Success? <==> live && Count(t.reservations, HoldsOf(b)) == 1)
      && (!live ==> o == Failure(BookNotFound))
      && (live && Count(t.reservations, HoldsOf(b)) != 1 ==> o == Failure(MultipleResultsFound))
  {
    var holds := Where(t.reservations, HoldsOf(b));
    SubsetSize({h}, holds);
    if |holds| == 1 {
      assert TheOnly(holds) in holds;
    }
  }

  /** Nothing in a loan depends on when a hold expires: until a sweep comes by, an expired hold is as good as any. */
  lemma ExpiryIsNotChecked(t: Tables, h: Id, expires: Option<Time>, m: Id, b: Id, loan: Id, checkedAt: Time,
      borrowedAt: Time)
    requires h in t.reservations && t.reservations[h].status.Hold?
    ensures var t' := PutReservation(t, h, t.reservations[h].(expiresAt := expires));
      var o, o' := BorrowBook(t, m, b, loan, checkedAt, borrowedAt), BorrowBook(t', m, b, loan, checkedAt, borrowedAt);
      && (o'.Success? <==> o.Success?)
      && (o.Failure? ==> o' == o)
      && (o.Success? && t.reservations[h].book == b ==> o' == o)
  {
    var row := t.reservations[h].(expiresAt := expires);
    var t' := PutReservation(t, h, row);
    assert Where(t'.reservations, HoldsOf(b)) == Where(t.reservations, HoldsOf(b));
    var holds := Where(t.reservations, HoldsOf(b));
    if |holds| == 1 {
      var x := TheOnly(holds);
      assert x in holds;
      if h == x {
        assert Fulfilled(row) == Fulfilled(t.reservations[h]);
        assert t'.reservations[h := Fulfilled(row)] == t.reservations[h := Fulfilled(row)];
      } else if t.reservations[h].book == b {
        assert h in holds;
      }
    } else if t.reservations[h].book == b {
      assert h in holds;
    }
  }

  // ----- promotion outside a transaction that released a copy -----

  /** promote_next_reservation called on its own has no released copy to place. It then keeps copies conserved exactly
      when the CHECK stops it, or when the book is deleted and either nobody waits or a copy had been lost. */
  lemma StandalonePromotion(t: Tables, b: Id, pick: Option<Id>)
    requires Sound(t, None) && b in t.books && IsFifoAnswer(t.reservations, b, pick)
    ensures var o := PromoteNext(t, b, pick);
      var t' := if o.Success? then o.value else t;
      Conserved(t', None) <==>
        if t.books[b].Live() then pick.None? && !BookRowAllowed(t.books[b].(available := t.books[b].available + 1))
        else pick.None? || Missing(t, b) > 0
  {
    if pick.Some? { UnpaidPromotion(t, b, pick.value); } else { UnpaidShelving(t, b); }
  }

  lemma UnpaidPromotion(t: Tables, b: Id, i: Id)
    requires Conserved(t, None) && b in t.books && i in FifoHeads(t.reservations, b)
    ensures Conserved(PutReservation(t, i, Promoted(t.reservations[i], t.now)), None) <==>
      !t.books[b].Live() && Missing(t, b) > 0
  {
    var t' := PutReservation(t, i, Promoted(t.reservations[i], t.now));
    HeadIsOldest(t.reservations, b, i);
    forall a | a in t.books ensures Missing(t', a) == Missing(t, a) - Indicator(a == b) {
      CountPut(t.reservations, i, Promoted(t.reservations[i], t.now), HoldsOf(a));
    }
    assert b in t'.books;
  }

  lemma UnpaidShelving(t: Tables, b: Id)
    requires Conserved(t, None) && b in t.books
    ensures var o := ShelveCopy(t, b);
      Conserved(if o.Success? then o.value else t, None) <==> !t.books[b].Live() || o.Failure?
  {
    var o := ShelveCopy(t, b);
    if o.Success? && t.books[b].Live() {
      assert Missing(o.value, b) == Missing(t, b) - 1;
      assert b in o.value.books;
    }
  }

  // ----- expiry -----

  lemma PromoteNextExpiresNobody(t: Tables, b: Id, pick: Option<Id>, i: Id)
    requires IsFifoAnswer(t.reservations, b, pick) && PromoteNext(t, b, pick).Success? && i in t.reservations
    ensures PromoteNext(t, b, pick).value.reservations[i].status.Expired? ==> t.reservations[i].status.Expired?
  {
  }

  lemma OnlySweepsExpire(t: Tables, op: Op, i: Id)
    requires Feasible(t, op) && Apply(t, op).Success? && !op.Sweep?
    requires i in t.reservations && t.reservations[i].status.Hold?
    ensures i in Apply(t, op).value.reservations && !Apply(t, op).value.reservations[i].status.Expired?
  {
    match op
    case Return(loan, queued, pick) =>
      if Releases(t, loan) && queued {
        var released := PutLoan(t, loan, Closed(t.loans[loan], t.now));
        PromoteNextExpiresNobody(released, t.loans[loan].book, pick, i);
      }
    case Cancel(c, m, pick) =>
      var r := t.reservations[c];
      if r.status.Hold? {
        QueueUnmoved(t.reservations, c, Withdrawn(r), r.book, pick);
        PromoteNextExpiresNobody(PutReservation(t, c, Withdrawn(r)), r.book, pick, i);
      }
    case _ =>
  }

  /** A hold expires only in a sweep, more than 48 hours after its promotion. */
  lemma HoldsLast48Hours(run: seq<World>, ops: seq<Op>, k: nat, i: Id)
    requires IsRun(run, ops) && k < |ops|
    requires i in run[k].t.reservations && run[k].t.reservations[i].status.Hold?
    requires i in run[k + 1].t.reservations && run[k + 1].t.reservations[i].status.Expired?
    ensures ops[k].Sweep? && i in run[k].h.heldSince && run[k].h.heldSince[i] + 48 * HOUR < run[k].t.now
  {
    RunsStaySound(run, ops, k);
    assert run[k + 1] == Step(run[k], ops[k]);
    StepExpiresOverdue(run[k], ops[k], i);
    RunsStayFaithful(run, ops, k);
    assert i in run[k].h.heldSince by { assert WasHeld(run[k].t, run[k].h, i); }
  }

  lemma StepExpiresOverdue(w: World, op: Op, i: Id)
    requires Sound(w.t, None) && Feasible(w.t, op)
    requires i in w.t.reservations && w.t.reservations[i].status.Hold?
    requires i in Step(w, op).t.reservations && Step(w, op).t.reservations[i].status.Expired?
    ensures op.Sweep? && HoldExpiredBefore(w.t.now)(w.t.reservations[i])
  {
    if op.Sweep? {
      SweepExpiresOverdue(w.t, op.order, op.picks, i);
    } else if Apply(w.t, op).Success? {
      OnlySweepsExpire(w.t, op, i);
    }
  }

  lemma SweepExpiresOverdue(t: Tables, order: seq<Id>, picks: seq<Option<Id>>, i: Id)
    requires Sound(t, None) && ListsExpired(t, order) && SweepAnswers(t, order, picks)
    requires i in t.reservations && t.reservations[i].status.Hold?
    ensures SweepRounds(t, order, picks).Success? && i in SweepRounds(t, order, picks).value.reservations
    ensures SweepRounds(t, order, picks).value.reservations[i].status.Expired? ==>
      HoldExpiredBefore(t.now)(t.reservations[i])
  {
    SweepIsBatch(t, order, picks);
    assert i in Where(t.reservations, HoldExpiredBefore(t.now)) <==> HoldExpiredBefore(t.now)(t.reservations[i]);
  }

  lemma {:induction false} SweepRecordsNow(h: History, t: Tables, order: seq<Id>, picks: seq<Option<Id>>, i: Id)
    requires |order| == |picks| && forall x :: x in order ==> x in t.reservations
    requires i in NoteSweep(h, t, order, picks).heldSince
    ensures var at := NoteSweep(h, t, order, picks).heldSince[i];
      at == t.now || (i in h.heldSince && at == h.heldSince[i])
    decreases |order|
  {
    if order != [] {
      var n := |order| - 1;
      if i in NoteSweep(h, t, order[..n], picks[..n]).heldSince { SweepRecordsNow(h, t, order[..n], picks[..n], i); }
    }
  }

  lemma StepRecordsNow(w: World, op: Op, i: Id)
    requires Feasible(w.t, op) && i in Step(w, op).h.heldSince
    ensures var at := Step(w, op).h.heldSince[i];
      at == w.t.now || (i in w.h.heldSince && at == w.h.heldSince[i])
  {
    if op.Sweep? && Apply(w.t, op).Success? {
      assert forall x :: x in op.order ==> x in Elements(op.order);
      SweepRecordsNow(w.h, w.t, op.order, op.picks, i);
    }
  }

  lemma ClockRunsOn(run: seq<World>, ops: seq<Op>, j: nat, k: nat)
    requires IsRun(run, ops) && j <= k < |run|
    ensures run[j].t.now <= run[k].t.now
  {
    RunEvolves(run, ops, j, k);
  }

  lemma {:induction false} HeldSinceSeenWaiting(run: seq<World>, ops: seq<Op>, j: nat, k: nat, i: Id)
    requires IsRun(run, ops) && j <= k < |run| && i !in run[j].h.heldSince && i in run[k].h.heldSince
    ensures run[j].t.now <= run[k].h.heldSince[i]
    decreases k
  {
    assert run[k - 1 + 1] == Step(run[k - 1], ops[k - 1]);
    StepRecordsNow(run[k - 1], ops[k - 1], i);
    ClockRunsOn(run, ops, j, k - 1);
    if i in run[k - 1].h.heldSince { HeldSinceSeenWaiting(run, ops, j, k - 1, i); }
  }

  /** Seen from outside: from any moment a reservation waits to the sweep that expires it, more than 48 hours pass. */
  lemma ExpiryTakes48Hours(run: seq<World>, ops: seq<Op>, j: nat, k: nat, i: Id)
    requires IsRun(run, ops) && j <= k < |ops|
    requires i in run[j].t.reservations && run[j].t.reservations[i].status.Pending?
    requires i in run[k].t.reservations && run[k].t.reservations[i].status.Hold?
    requires i in run[k + 1].t.reservations && run[k + 1].t.reservations[i].status.Expired?
    ensures run[j].t.now + 48 * HOUR < run[k].t.now
  {
    HoldsLast48Hours(run, ops, k, i);
    RunsStayFaithful(run, ops, j);
    assert i !in run[j].h.heldSince by { assert !WasHeld(run[j].t, run[j].h, i); }
    HeldSinceSeenWaiting(run, ops, j, k, i);
  }

  // ----- errors that never happen -----

  /** In a sound state no CHECK ever stops a loan, a return, a cancellation, a deletion or a sweep. */
  lemma ChecksNeverStopCirculation(t: Tables, op: Op)
    requires Sound(t, None) && Feasible(t, op)
    requires op.Return? || op.Cancel? || op.Sweep? || op.Borrow? || op.DeleteBook?
    ensures Apply(t, op) != Failure(IntegrityError)
  {
    if op.Return? {
      ReturnKeepsSound(t, op.loan, op.queued, op.pick);
    } else if op.Cancel? {
      CancelKeepsSound(t, op.reservation, op.member, op.pick);
    } else if op.Sweep? {
      SweepKeepsSound(t, op.order, op.picks);
    } else if op.Borrow? {
      LoanPassesChecks(t, op.member, op.book, op.loan, op.checkedAt, op.borrowedAt);
    }
  }

  lemma LoanPassesChecks(t: Tables, m: Id, b: Id, loan: Id, checkedAt: Time, borrowedAt: Time)
    requires RowRules(t)
    ensures BorrowBook(t, m, b, loan, checkedAt, borrowedAt) != Failure(IntegrityError)
  {
    if b in t.books { assert BookRowAllowed(t.books[b]); }
  }

  /** In no state of any run does the uniqueness lookup of place_reservation meet two rows. */
  lemma LookupIsUnique(run: seq<World>, ops: seq<Op>, k: nat, m: Id, b: Id, i: Id, window: set<Id>)
    requires IsRun(run, ops) && k < |run|
    ensures |Where(run[k].t.reservations, ActiveReservationsOn(m, b))| <= 1
    ensures PlaceReservation(run[k].t, m, b, i, window) != Failure(MultipleResultsFound)
  {
    RunsStaySound(run, ops, k);
    assert Count(run[k].t.reservations, ActiveReservationsOn(m, b)) <= 1;
  }

  // ----- returning again -----

  /** Once a loan is returned, its row never changes again and every further return of it changes nothing. */
  lemma ReturnIsFinal(run: seq<World>, ops: seq<Op>, j: nat, k: nat, loan: Id)
    requires IsRun(run, ops) && j <= k < |run|
    requires loan in run[j].t.loans && run[j].t.loans[loan].status.Returned?
    ensures loan in run[k].t.loans && run[k].t.loans[loan] == run[j].t.loans[loan]
    ensures k < |ops| && ops[k].Return? && ops[k].loan == loan ==> run[k + 1] == run[k]
  {
    RunEvolves(run, ops, j, k);
    assert LoanEvolves(run[j].t.loans[loan], run[k].t.loans[loan]);
  }

  /** Every loan of every run is due fourteen days after it began for each period granted, at most three of them. */
  lemma LoanPeriods(run: seq<World>, ops: seq<Op>, k: nat, loan: Id)
    requires IsRun(run, ops) && k < |run| && loan in run[k].t.loans
    ensures var l := run[k].t.loans[loan];
      0 <= l.renewals <= 2 && l.dueDate == l.borrowDate + 14 * DAY * (1 + l.renewals)
  {
    RunsStaySound(run, ops, k);
    assert LoanRow(run[k].t.loans[loan], run[k].t.now);
  }
}
