/** What a waiting member can count on, over whole runs. */
module Fairness {
  import opened Prelude
  import opened Domain
  import opened Repositories
  import opened Circulation
  import opened Machine
  import opened Inventory
  import opened Queue

  // ----- what no step ever undoes -----

  predicate ReservationEvolves(r: Reservation, r': Reservation) {
    && r'.member == r.member && r'.book == r.book && r'.reservedAt == r.reservedAt
    && (r'.status.Pending? ==> r.status.Pending?)
    && (r'.status.Hold? ==> IsActive(r))
    && (!IsActive(r) ==> r' == r)
  }

  predicate LoanEvolves(l: Loan, l': Loan) {
    && l'.member == l.member && l'.book == l.book && l'.borrowDate == l.borrowDate
    && l.renewals <= l'.renewals && l.dueDate <= l'.dueDate
    && (l.status.Returned? ==> l' == l)
  }

  /** Rows are never removed, who and when never changes, and closed rows stay as they are. */
  ghost predicate Evolves(t: Tables, t': Tables) {
    && t.now <= t'.now
    && (forall b :: b in t.books ==> b in t'.books && (t'.books[b].Live() ==> t.books[b].Live()))
    && (forall i :: i in t.loans ==> i in t'.loans && LoanEvolves(t.loans[i], t'.loans[i]))
    && (forall i :: i in t.reservations ==>
          i in t'.reservations && ReservationEvolves(t.reservations[i], t'.reservations[i]))
    && (forall i :: i in t'.reservations && i !in t.reservations ==> t.now <= t'.reservations[i].reservedAt)
  }

  lemma EvolvesTransitively(t: Tables, u: Tables, v: Tables)
    requires Evolves(t, u) && Evolves(u, v)
    ensures Evolves(t, v)
  {
  }

  lemma PromoteNextEvolves(t: Tables, b: Id, pick: Option<Id>)
    requires IsFifoAnswer(t.reservations, b, pick) && PromoteNext(t, b, pick).Success?
    ensures Evolves(t, PromoteNext(t, b, pick).value)
  {
    if pick.Some? { HeadIsOldest(t.reservations, b, pick.value); }
  }

  lemma ReturnEvolves(t: Tables, loan: Id, queued: bool, pick: Option<Id>)
    requires Feasible(t, Return(loan, queued, pick)) && ReturnBook(t, loan, queued, pick).Success?
    ensures Evolves(t, ReturnBook(t, loan, queued, pick).value)
  {
    if Releases(t, loan) {
      var released := PutLoan(t, loan, Closed(t.loans[loan], t.now));
      assert Evolves(t, released);
      if queued { PromoteNextEvolves(released, t.loans[loan].book, pick); }
      EvolvesTransitively(t, released, ReturnBook(t, loan, queued, pick).value);
    }
  }

  lemma CancelEvolves(t: Tables, i: Id, m: Id, pick: Option<Id>)
    requires Feasible(t, Cancel(i, m, pick)) && CancelReservation(t, i, m, pick).Success?
    ensures Evolves(t, CancelReservation(t, i, m, pick).value)
  {
    var r := t.reservations[i];
    var cancelled := PutReservation(t, i, Withdrawn(r));
    assert Evolves(t, cancelled);
    if r.status.Hold? {
      QueueUnmoved(t.reservations, i, Withdrawn(r), r.book, pick);
      PromoteNextEvolves(cancelled, r.book, pick);
      EvolvesTransitively(t, cancelled, CancelReservation(t, i, m, pick).value);
    }
  }

  lemma ExpireOneEvolves(t: Tables, i: Id, pick: Option<Id>)
    requires i in t.reservations && t.reservations[i].status.Hold?
    requires IsFifoAnswer(t.reservations, t.reservations[i].book, pick)
    requires ExpireOne(t, i, pick).Success?
    ensures Evolves(t, ExpireOne(t, i, pick).value)
  {
    var r := t.reservations[i];
    QueueUnmoved(t.reservations, i, Lapsed(r), r.book, pick);
    var lapsed := PutReservation(t, i, Lapsed(r));
    assert Evolves(t, lapsed);
    PromoteNextEvolves(lapsed, r.book, pick);
    EvolvesTransitively(t, lapsed, ExpireOne(t, i, pick).value);
  }

  lemma {:induction false} SweepEvolves(t: Tables, order: seq<Id>, picks: seq<Option<Id>>)
    requires SweepAnswers(t, order, picks) && SweepRounds(t, order, picks).Success?
    ensures Evolves(t, SweepRounds(t, order, picks).value)
    decreases |order|
  {
    if order != [] {
      var n := |order| - 1;
      SweepEvolves(t, order[..n], picks[..n]);
      var u := SweepRounds(t, order[..n], picks[..n]).value;
      ExpireOneEvolves(u, order[n], picks[n]);
      EvolvesTransitively(t, u, SweepRounds(t, order, picks).value);
    }
  }

  lemma BorrowEvolves(t: Tables, m: Id, b: Id, loan: Id, checkedAt: Time, borrowedAt: Time)
    requires loan !in t.loans && BorrowBook(t, m, b, loan, checkedAt, borrowedAt).Success?
    ensures Evolves(t, BorrowBook(t, m, b, loan, checkedAt, borrowedAt).value)
  {
    var holds := Where(t.reservations, HoldsOf(b));
    if |holds| == 1 {
      assert TheOnly(holds) in holds;
    }
  }

  lemma RenewEvolves(t: Tables, loan: Id, blocked: bool)
    requires RenewBook(t, loan, blocked).Success?
    ensures Evolves(t, RenewBook(t, loan, blocked).value)
  {
    assert LoanEvolves(t.loans[loan], Extended(t.loans[loan]));
  }

  lemma PlaceEvolves(t: Tables, m: Id, b: Id, i: Id, window: set<Id>)
    requires i !in t.reservations && PlaceReservation(t, m, b, i, window).Success?
    ensures Evolves(t, PlaceReservation(t, m, b, i, window).value)
  {
  }

  lemma CatalogueEvolves(t: Tables, op: Op)
    requires Feasible(t, op) && Apply(t, op).Success? && (op.CreateBook? || op.UpdateBook? || op.DeleteBook?)
    ensures Evolves(t, Apply(t, op).value)
  {
  }

  lemma StepEvolves(w: World, op: Op)
    requires Feasible(w.t, op)
    ensures Evolves(w.t, Step(w, op).t)
  {
    if Apply(w.t, op).Success? {
      match op
      case Return(loan, queued, pick) => ReturnEvolves(w.t, loan, queued, pick);
      case Cancel(i, m, pick) => CancelEvolves(w.t, i, m, pick);
      case Sweep(order, picks) => SweepEvolves(w.t, order, picks);
      case Borrow(m, b, loan, checkedAt, borrowedAt) => BorrowEvolves(w.t, m, b, loan, checkedAt, borrowedAt);
      case Renew(loan, blocked) => RenewEvolves(w.t, loan, blocked);
      case Place(m, b, i, window) => PlaceEvolves(w.t, m, b, i, window);
      case SetMember(_, _) =>
      case Tick(_) =>
      case _ => CatalogueEvolves(w.t, op);
    }
  }

  lemma {:induction false} RunEvolves(run: seq<World>, ops: seq<Op>, j: nat, k: nat)
    requires IsRun(run, ops) && j <= k < |run|
    ensures Evolves(run[j].t, run[k].t)
    decreases k
  {
    if j < k {
      RunEvolves(run, ops, j, k - 1);
      assert run[k - 1 + 1] == Step(run[k - 1], ops[k - 1]);
      StepEvolves(run[k - 1], ops[k - 1]);
      EvolvesTransitively(run[j].t, run[k - 1].t, run[k].t);
    }
  }

  // ----- positions -----

  function Position(t: Tables, i: Id): nat
    requires i in t.reservations
  {
    QueuePosition(t.reservations, t.reservations[i].book, t.reservations[i].reservedAt)
  }

  lemma PositionFalls(t: Tables, t': Tables, i: Id)
    requires Evolves(t, t') && i in t.reservations && t.reservations[i].reservedAt <= t.now
    ensures Position(t', i) <= Position(t, i)
  {
    var b, at := t.reservations[i].book, t.reservations[i].reservedAt;
    SubsetSize(Where(t'.reservations, PendingBefore(b, at)), Where(t.reservations, PendingBefore(b, at)));
  }

  /** Over any stretch of any run, nobody's computed queue position ever rises. */
  lemma PositionNeverRises(run: seq<World>, ops: seq<Op>, j: nat, k: nat, i: Id)
    requires IsRun(run, ops) && j <= k < |run| && i in run[j].t.reservations
    ensures i in run[k].t.reservations && Position(run[k].t, i) <= Position(run[j].t, i)
  {
    RunsStaySound(run, ops, j);
    RunEvolves(run, ops, j, k);
    PositionFalls(run[j].t, run[k].t, i);
  }

  lemma NotOvertaken(t: Tables, h: History, t': Tables, early: Id, late: Id)
    requires LogAgrees(t, h) && NoOvertaking(t, h) && Evolves(t, t')
    requires late in t.reservations && t.reservations[late].status.Hold? && t.reservations[late].reservedAt <= t.now
    requires early in t'.reservations && t'.reservations[early].book == t.reservations[late].book
    requires t'.reservations[early].reservedAt < t.reservations[late].reservedAt
    ensures !t'.reservations[early].status.Pending?
  {
    assert late in h.heldSince by { assert WasHeld(t, h, late); }
    assert early in t.reservations;
  }

  /** First come, first served: once `late` has been on hold, an earlier reservation for the book no longer waits,
      at any later point of any run. */
  lemma FirstComeFirstServed(run: seq<World>, ops: seq<Op>, j: nat, k: nat, early: Id, late: Id)
    requires IsRun(run, ops) && j <= k < |run|
    requires late in run[j].t.reservations && run[j].t.reservations[late].status.Hold?
    requires early in run[k].t.reservations
    requires run[k].t.reservations[early].book == run[j].t.reservations[late].book
    requires run[k].t.reservations[early].reservedAt < run[j].t.reservations[late].reservedAt
    ensures !run[k].t.reservations[early].status.Pending?
  {
    RunsStayFaithful(run, ops, j);
    RunsStaySound(run, ops, j);
    RunEvolves(run, ops, j, k);
    NotOvertaken(run[j].t, run[j].h, run[k].t, early, late);
  }
}
