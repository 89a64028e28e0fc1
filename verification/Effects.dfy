/** What each step does to a reservation, with every field of the new row spelled out, and where that leads over
    runs. */
module Effects {
  import opened Prelude
  import opened Domain
  import opened Repositories
  import opened Circulation
  import opened Machine
  import opened Inventory
  import opened Queue
  import opened Fairness
  import opened Sweep
  import opened Promises
  import Lifecycles

  /** The row, with a new status and expiry. */
  function Turned(r: Reservation, status: ReservationStatus, expiresAt: Option<Time>): Reservation {
    Reservation(r.member, r.book, r.reservedAt, expiresAt, status)
  }

  /** The sweep lists this hold. */
  predicate IsSwept(t: Tables, op: Op, i: Id)
    requires i in t.reservations
  {
    && op.Sweep? && t.reservations[i].status == Hold
    && t.reservations[i].expiresAt.Some? && t.reservations[i].expiresAt.value < t.now
  }

  /** Its own holder borrows the book it is held for. */
  ghost predicate IsCollected(t: Tables, op: Op, i: Id)
    requires i in t.reservations && Feasible(t, op)
  {
    && op.Borrow? && Apply(t, op).Success? && t.reservations[i].status == Hold
    && op.member == t.reservations[i].member && op.book == t.reservations[i].book
  }

  /** Its own member cancels it, while it waits or is held. */
  predicate IsCancelled(t: Tables, op: Op, i: Id)
    requires i in t.reservations
  {
    && op.Cancel? && op.reservation == i && op.member == t.reservations[i].member
    && (t.reservations[i].status == Pending || t.reservations[i].status == Hold)
  }

  /** A copy came free in this step. */
  predicate FreesCopies(op: Op) { op.Return? || op.Cancel? || op.Sweep? }

  /** The rows a step may leave in the place of row `i`. */
  ghost predicate MovesRow(t: Tables, op: Op, i: Id, r': Reservation)
    requires i in t.reservations && Feasible(t, op)
  {
    var r := t.reservations[i];
    if IsSwept(t, op, i) then r' == Turned(r, Expired, None)
    else if IsCollected(t, op, i) then r' == Turned(r, Completed, None)
    else if IsCancelled(t, op, i) then r' == Turned(r, Cancelled, None)
    else r' == r || (r.status == Pending && FreesCopies(op) && r' == Turned(r, Hold, Some(t.now + 48 * HOUR)))
  }

  lemma PromoteNextMoves(t: Tables, b: Id, pick: Option<Id>, i: Id)
    requires IsFifoAnswer(t.reservations, b, pick) && PromoteNext(t, b, pick).Success? && i in t.reservations
    ensures var t' := PromoteNext(t, b, pick).value;
      && t'.reservations.Keys == t.reservations.Keys
      && (t'.reservations[i] == t.reservations[i]
          || (t.reservations[i].status == Pending
              && t'.reservations[i] == Turned(t.reservations[i], Hold, Some(t.now + 48 * HOUR))))
  {
    if pick.Some? { HeadIsOldest(t.reservations, b, pick.value); }
  }

  lemma ReturnMoves(t: Tables, loan: Id, queued: bool, pick: Option<Id>, i: Id)
    requires Feasible(t, Return(loan, queued, pick)) && ReturnBook(t, loan, queued, pick).Success?
    requires i in t.reservations
    ensures var t' := ReturnBook(t, loan, queued, pick).value;
      t'.reservations.Keys == t.reservations.Keys && MovesRow(t, Return(loan, queued, pick), i, t'.reservations[i])
  {
    if Releases(t, loan) && queued {
      PromoteNextMoves(PutLoan(t, loan, Closed(t.loans[loan], t.now)), t.loans[loan].book, pick, i);
    }
  }

  lemma CancelMoves(t: Tables, c: Id, m: Id, pick: Option<Id>, i: Id)
    requires Feasible(t, Cancel(c, m, pick)) && CancelReservation(t, c, m, pick).Success? && i in t.reservations
    ensures var t' := CancelReservation(t, c, m, pick).value;
      t'.reservations.Keys == t.reservations.Keys && MovesRow(t, Cancel(c, m, pick), i, t'.reservations[i])
  {
    var r := t.reservations[c];
    if r.status.Hold? {
      QueueUnmoved(t.reservations, c, Withdrawn(r), r.book, pick);
      PromoteNextMoves(PutReservation(t, c, Withdrawn(r)), r.book, pick, i);
    }
  }

  lemma BatchMoves(t: Tables, order: seq<Id>, picks: seq<Option<Id>>, u: Tables, i: Id)
    requires i in t.reservations && Feasible(t, Op.Sweep(order, picks))
    requires RowsBatched(t, Where(t.reservations, HoldExpiredBefore(t.now)), u)
    ensures i in u.reservations && MovesRow(t, Op.Sweep(order, picks), i, u.reservations[i])
  {
    assert i in Where(t.reservations, HoldExpiredBefore(t.now)) <==> IsSwept(t, Op.Sweep(order, picks), i);
  }

  lemma SweepMoves(t: Tables, order: seq<Id>, picks: seq<Option<Id>>, i: Id)
    requires Sound(t, None) && Feasible(t, Op.Sweep(order, picks)) && i in t.reservations
    ensures SweepRounds(t, order, picks).Success?
    ensures var t' := SweepRounds(t, order, picks).value;
      i in t'.reservations && MovesRow(t, Op.Sweep(order, picks), i, t'.reservations[i])
  {
    SweepIsBatch(t, order, picks);
    BatchMoves(t, order, picks, SweepRounds(t, order, picks).value, i);
  }

  lemma BorrowMoves(t: Tables, m: Id, b: Id, loan: Id, checkedAt: Time, borrowedAt: Time, i: Id)
    requires Feasible(t, Borrow(m, b, loan, checkedAt, borrowedAt)) && i in t.reservations
    requires BorrowBook(t, m, b, loan, checkedAt, borrowedAt).Success?
    ensures var t' := BorrowBook(t, m, b, loan, checkedAt, borrowedAt).value;
      && t'.reservations.Keys == t.reservations.Keys
      && MovesRow(t, Borrow(m, b, loan, checkedAt, borrowedAt), i, t'.reservations[i])
  {
    var holds := Where(t.reservations, HoldsOf(b));
    assert i in holds <==> t.reservations[i].status == Hold && t.reservations[i].book == b;
    if |holds| == 1 {
      assert TheOnly(holds) in holds;
    }
  }

  lemma OthersMoveNothing(t: Tables, op: Op, i: Id)
    requires Feasible(t, op) && Apply(t, op).Success? && i in t.reservations && !FreesCopies(op) && !op.Borrow?
    ensures i in Apply(t, op).value.reservations && Apply(t, op).value.reservations[i] == t.reservations[i]
  {
  }

  lemma RefusedMovesNothing(t: Tables, op: Op, i: Id)
    requires Sound(t, None) && Feasible(t, op) && Apply(t, op).Failure? && i in t.reservations
    ensures MovesRow(t, op, i, t.reservations[i])
  {
    SweepsAndCancelsGoThrough(t, op);
  }

  lemma SweepsAndCancelsGoThrough(t: Tables, op: Op)
    requires Sound(t, None) && Feasible(t, op) && Apply(t, op).Failure?
    ensures !op.Sweep? && (op.Cancel? ==> !Cancellable(t, op.reservation, op.member))
  {
    if op.Cancel? { CancelKeepsSound(t, op.reservation, op.member, op.pick); }
    if op.Sweep? { SweepKeepsSound(t, op.order, op.picks); }
  }

  lemma FreeingMoves(t: Tables, op: Op, i: Id)
    requires Sound(t, None) && Feasible(t, op) && Apply(t, op).Success? && i in t.reservations && FreesCopies(op)
    ensures i in Apply(t, op).value.reservations && MovesRow(t, op, i, Apply(t, op).value.reservations[i])
  {
    match op
    case Return(loan, queued, pick) => ReturnMoves(t, loan, queued, pick, i);
    case Cancel(c, m, pick) => CancelMoves(t, c, m, pick, i);
    case Sweep(order, picks) => SweepMoves(t, order, picks, i);
  }

  lemma AllowedMoves(t: Tables, op: Op, i: Id)
    requires Sound(t, None) && Feasible(t, op) && Apply(t, op).Success? && i in t.reservations
    ensures i in Apply(t, op).value.reservations && MovesRow(t, op, i, Apply(t, op).value.reservations[i])
  {
    if FreesCopies(op) {
      FreeingMoves(t, op, i);
    } else if op.Borrow? {
      BorrowMoves(t, op.member, op.book, op.loan, op.checkedAt, op.borrowedAt, i);
    } else {
      OthersMoveNothing(t, op, i);
    }
  }

  /** What any step does to the reservation rows that are there. */
  lemma ReservationMoves(w: World, op: Op, i: Id)
    requires Sound(w.t, None) && Feasible(w.t, op) && i in w.t.reservations
    ensures i in Step(w, op).t.reservations && MovesRow(w.t, op, i, Step(w, op).t.reservations[i])
  {
    if Apply(w.t, op).Failure? {
      RefusedMovesNothing(w.t, op, i);
    } else {
      AllowedMoves(w.t, op, i);
    }
  }

  /** A hold ends for one of three reasons, which its row then names; otherwise it is left alone. It expires exactly in
      a sweep more than 48 hours after its promotion, is completed exactly by its holder's loan of the book, and is
      cancelled exactly by its holder. */
  lemma HoldsEndForAReason(run: seq<World>, ops: seq<Op>, k: nat, i: Id)
    requires IsRun(run, ops) && k < |ops|
    requires i in run[k].t.reservations && run[k].t.reservations[i].status == Hold
    ensures i in run[k + 1].t.reservations && i in run[k].h.heldSince
    ensures var r, r', op := run[k].t.reservations[i], run[k + 1].t.reservations[i], ops[k];
      && (r'.status == Expired <==> op.Sweep? && run[k].h.heldSince[i] + 48 * HOUR < run[k].t.now)
      && (r'.status == Completed <==>
            op.Borrow? && Apply(run[k].t, op).Success? && op.member == r.member && op.book == r.book)
      && (r'.status == Cancelled <==> op.Cancel? && op.reservation == i && op.member == r.member)
      && (r' == r || (r'.status != Hold && r' == Turned(r, r'.status, None)))
  {
    RunsStaySound(run, ops, k);
    RunsStayFaithful(run, ops, k);
    assert run[k + 1] == Step(run[k], ops[k]);
    ReservationMoves(run[k], ops[k], i);
    HoldClockShows(run[k], i);
  }

  lemma HoldClockShows(w: World, i: Id)
    requires Faithful(w.t, w.h) && i in w.t.reservations && w.t.reservations[i].status == Hold
    ensures i in w.h.heldSince && w.t.reservations[i].expiresAt == Some(w.h.heldSince[i] + 48 * HOUR)
  {
    assert WasHeld(w.t, w.h, i);
  }

  /** Whoever comes on hold has waited, while a copy came free, and holds it for 48 hours from that moment. */
  lemma HoldsBeginForTwoDays(run: seq<World>, ops: seq<Op>, k: nat, i: Id)
    requires IsRun(run, ops) && k < |ops|
    requires i in run[k].t.reservations && run[k].t.reservations[i].status != Hold
    requires i in run[k + 1].t.reservations && run[k + 1].t.reservations[i].status == Hold
    ensures run[k].t.reservations[i].status == Pending && FreesCopies(ops[k])
    ensures run[k + 1].t.reservations[i] == Turned(run[k].t.reservations[i], Hold, Some(run[k].t.now + 48 * HOUR))
    ensures i in run[k + 1].h.heldSince && run[k + 1].h.heldSince[i] == run[k].t.now
  {
    RunsStaySound(run, ops, k);
    RunsStayFaithful(run, ops, k + 1);
    assert run[k + 1] == Step(run[k], ops[k]);
    ReservationMoves(run[k], ops[k], i);
    HoldClockShows(run[k + 1], i);
  }

  /** A cancellation by the member of an active reservation always goes through, and at every later point of the run the
      row is what it was, but CANCELLED and with no expiry. */
  lemma CancelledForGood(run: seq<World>, ops: seq<Op>, j: nat, k: nat, i: Id)
    requires IsRun(run, ops) && j < k < |run| && i in run[j].t.reservations && IsCancelled(run[j].t, ops[j], i)
    ensures Apply(run[j].t, ops[j]).Success?
    ensures i in run[k].t.reservations && run[k].t.reservations[i] == Turned(run[j].t.reservations[i], Cancelled, None)
  {
    RunsStaySound(run, ops, j);
    CancelCloses(run[j], ops[j], i);
    assert run[j + 1] == Step(run[j], ops[j]);
    ClosedStays(run, ops, j + 1, k, i);
  }

  lemma CancelCloses(w: World, op: Op, i: Id)
    requires Sound(w.t, None) && Feasible(w.t, op) && i in w.t.reservations && IsCancelled(w.t, op, i)
    ensures Apply(w.t, op).Success? && i in Step(w, op).t.reservations
    ensures Step(w, op).t.reservations[i] == Turned(w.t.reservations[i], Cancelled, None)
  {
    CancelKeepsSound(w.t, i, op.member, op.pick);
    ReservationMoves(w, op, i);
  }

  /** COMPLETED, EXPIRED and CANCELLED are final. */
  lemma ClosedStays(run: seq<World>, ops: seq<Op>, j: nat, k: nat, i: Id)
    requires IsRun(run, ops) && j <= k < |run| && i in run[j].t.reservations
    requires run[j].t.reservations[i].status != Pending && run[j].t.reservations[i].status != Hold
    ensures i in run[k].t.reservations && run[k].t.reservations[i] == run[j].t.reservations[i]
  {
    RunEvolves(run, ops, j, k);
    assert ReservationEvolves(run[j].t.reservations[i], run[k].t.reservations[i]);
  }

  /** Who only waited gives up nothing but the place in the queue. */
  lemma CancelWaiting(t: Tables, i: Id, m: Id, pick: Option<Id>)
    requires i in t.reservations && t.reservations[i].status == Pending && t.reservations[i].member == m
    ensures CancelReservation(t, i, m, pick)
         == Success(t.(reservations := t.reservations[i := Turned(t.reservations[i], Cancelled, None)]))
  {
  }

  /** The copy of `b` goes to an oldest waiting member, `i`, for 48 hours. */
  predicate GoesTo(t: Tables, b: Id, i: Id, t': Tables) {
    && i in t.reservations && t.reservations[i].status == Pending && t.reservations[i].book == b
    && (forall j :: j in t.reservations && t.reservations[j].status == Pending && t.reservations[j].book == b ==>
          t.reservations[i].reservedAt <= t.reservations[j].reservedAt)
    && t' == t.(reservations := t.reservations[i := Turned(t.reservations[i], Hold, Some(t.now + 48 * HOUR))])
  }

  /** Nobody waits for the copy of `b`: it goes to the shelf, if the book lives. */
  predicate GoesToShelf(t: Tables, b: Id, t': Tables) {
    && (forall j :: j in t.reservations && t.reservations[j].book == b ==> t.reservations[j].status != Pending)
    && t' == if b in t.books && t.books[b].deletedAt == None
             then t.(books := t.books[b := t.books[b].(available := t.books[b].available + 1)]) else t
  }

  ghost predicate PassedOn(t: Tables, b: Id, t': Tables) {
    GoesToShelf(t, b, t') || exists i :: GoesTo(t, b, i, t')
  }

  lemma PromoteNextPassesOn(t: Tables, b: Id, pick: Option<Id>)
    requires IsFifoAnswer(t.reservations, b, pick) && PromoteNext(t, b, pick).Success?
    ensures PassedOn(t, b, PromoteNext(t, b, pick).value)
  {
    if pick.Some? {
      HeadIsOldest(t.reservations, b, pick.value);
      assert GoesTo(t, b, pick.value, PromoteNext(t, b, pick).value);
    } else {
      forall j | j in t.reservations && t.reservations[j].book == b ensures t.reservations[j].status != Pending {
        assert j !in Where(t.reservations, PendingOf(b));
      }
      assert GoesToShelf(t, b, PromoteNext(t, b, pick).value);
    }
  }

  /** Cancelling a hold closes its row and passes its copy on, and does nothing else. */
  lemma CancelHold(t: Tables, i: Id, m: Id, pick: Option<Id>)
    requires Sound(t, None) && Feasible(t, Cancel(i, m, pick))
    requires i in t.reservations && t.reservations[i].status == Hold && t.reservations[i].member == m
    ensures var o := CancelReservation(t, i, m, pick);
      && o.Success?
      && PassedOn(t.(reservations := t.reservations[i := Turned(t.reservations[i], Cancelled, None)]),
                  t.reservations[i].book, o.value)
  {
    var r := t.reservations[i];
    CancelKeepsSound(t, i, m, pick);
    QueueUnmoved(t.reservations, i, Withdrawn(r), r.book, pick);
    PromoteNextPassesOn(PutReservation(t, i, Withdrawn(r)), r.book, pick);
  }

  /** Returning a loan closes its row and passes its copy on, and does nothing else. */
  lemma ReturnPassesOn(t: Tables, loan: Id, pick: Option<Id>)
    requires Sound(t, None) && Feasible(t, Return(loan, true, pick))
    requires loan in t.loans && t.loans[loan].status != Returned
    ensures var l, o := t.loans[loan], ReturnBook(t, loan, true, pick);
      && o.Success?
      && var l' := Loan(l.member, l.book, l.borrowDate, l.dueDate, Some(t.now), l.renewals, Returned);
         PassedOn(t.(loans := t.loans[loan := l']), l.book, o.value)
  {
    ReturnKeepsSound(t, loan, true, pick);
    PromoteNextPassesOn(PutLoan(t, loan, Closed(t.loans[loan], t.now)), t.loans[loan].book, pick);
  }

  /** A reservation that goes through adds its row, waiting from that moment, and does nothing else. */
  lemma PlaceAdds(t: Tables, m: Id, b: Id, i: Id, window: set<Id>)
    requires PlaceReservation(t, m, b, i, window).Success?
    ensures PlaceReservation(t, m, b, i, window).value
         == t.(reservations := t.reservations[i := Reservation(m, b, t.now, None, Pending)])
  {
  }

  /** No other step adds a reservation. */
  lemma OnlyPlacingAdds(w: World, op: Op)
    requires Feasible(w.t, op) && !op.Place?
    ensures Step(w, op).t.reservations.Keys == w.t.reservations.Keys
  {
    StepEvolves(w, op);
    if Apply(w.t, op).Success? {
      if FreesCopies(op) {
        FreeingAddsNobody(w.t, op);
      } else {
        NobodyAdded(w.t, op);
      }
    }
  }

  lemma FreeingAddsNobody(t: Tables, op: Op)
    requires Feasible(t, op) && Apply(t, op).Success? && FreesCopies(op)
    ensures Apply(t, op).value.reservations.Keys <= t.reservations.Keys
  {
    match op
    case Return(loan, queued, pick) => if Releases(t, loan) { Lifecycles.ReturnLeaves(t, loan, queued, pick); }
    case Cancel(c, m, pick) => Lifecycles.CancelLeaves(t, c, m, pick);
    case Sweep(order, picks) => Lifecycles.SweepLeaves(t, order, picks);
  }

  lemma NobodyAdded(t: Tables, op: Op)
    requires Feasible(t, op) && Apply(t, op).Success? && !FreesCopies(op) && !op.Place?
    ensures Apply(t, op).value.reservations.Keys <= t.reservations.Keys
  {
    if op.Borrow? {
      var holds := Where(t.reservations, HoldsOf(op.book));
      if |holds| == 1 { assert TheOnly(holds) in holds; }
    }
  }

  /** A loan uses up its holder's hold, if there is one, or else takes one copy off the shelf. */
  lemma BorrowTakes(t: Tables, m: Id, b: Id, loan: Id, checkedAt: Time, borrowedAt: Time)
    requires BorrowBook(t, m, b, loan, checkedAt, borrowedAt).Success?
    ensures b in t.books
    ensures var t' := BorrowBook(t, m, b, loan, checkedAt, borrowedAt).value;
      && t'.loans == t.loans[loan := Loan(m, b, borrowedAt, borrowedAt + 14 * DAY, None, 0, Borrowed)]
      && t'.members == t.members && t'.now == t.now
      && ((exists h :: h in t.reservations && t.reservations[h].status == Hold
              && t.reservations[h].member == m && t.reservations[h].book == b
              && t'.reservations == t.reservations[h := Turned(t.reservations[h], Completed, None)]
              && t'.books == t.books)
          || (t'.reservations == t.reservations
              && t'.books == t.books[b := t.books[b].(available := t.books[b].available - 1)]))
  {
    var holds := Where(t.reservations, HoldsOf(b));
    if |holds| == 1 { assert TheOnly(holds) in holds; }
  }
}
