/** The reservation queue over whole runs: first come first served, and every hold accounted for. */
module Queue {
  import opened Prelude
  import opened Domain
  import opened Repositories
  import opened Circulation
  import opened Machine
  import opened Inventory

  /** A status reached only through HOLD, or a hold that was cancelled. */
  predicate WasHeld(t: Tables, h: History, i: Id)
    requires i in t.reservations
  {
    var s := t.reservations[i].status;
    s.Hold? || s.Completed? || s.Expired? || i in h.cancelledHolds
  }

  /** The log has one entry for each reservation that was ever put on hold, with its book. */
  ghost predicate EntriesAgree(t: Tables, h: History) {
    && |h.promotions| == |h.heldSince.Keys|
    && forall k :: 0 <= k < |h.promotions| ==>
         && h.promotions[k].reservation in h.heldSince && h.promotions[k].reservation in t.reservations
         && t.reservations[h.promotions[k].reservation].book == h.promotions[k].book
  }

  /** The records name exactly the reservations that were ever put on hold. */
  ghost predicate LogAgrees(t: Tables, h: History) {
    && EntriesAgree(t, h)
    && (forall i :: i in h.heldSince || i in h.cancelledHolds ==> i in t.reservations)
    && (forall i :: i in t.reservations ==> (i in h.heldSince <==> WasHeld(t, h, i)))
    && (forall i :: i in h.cancelledHolds ==> t.reservations[i].status.Cancelled?)
  }

  /** A hold runs out 48 hours after its promotion. */
  ghost predicate HoldClock(t: Tables, h: History) {
    && (forall i :: i in h.heldSince ==> h.heldSince[i] <= t.now)
    && (forall i :: i in h.heldSince && i in t.reservations && t.reservations[i].status.Hold? ==>
          t.reservations[i].expiresAt == Some(h.heldSince[i] + 48 * HOUR))
  }

  /** Nobody still waiting came before somebody who was ever promoted for the same book. */
  ghost predicate NoOvertaking(t: Tables, h: History) {
    forall i, a ::
      i in h.heldSince && i in t.reservations && a in t.reservations && t.reservations[a].status.Pending?
      && t.reservations[a].book == t.reservations[i].book ==>
        t.reservations[i].reservedAt <= t.reservations[a].reservedAt
  }

  /** Each returned loan gave its copy back, and none did twice. */
  ghost predicate ReleasesAgree(t: Tables, h: History) {
    && (forall j, k :: 0 <= j < k < |h.releases| ==> h.releases[j] != h.releases[k])
    && (forall k :: 0 <= k < |h.releases| ==> h.releases[k] in t.loans)
    && (forall i :: i in t.loans ==> (t.loans[i].status.Returned? <==> i in h.releases))
  }

  ghost predicate Faithful(t: Tables, h: History) {
    LogAgrees(t, h) && HoldClock(t, h) && NoOvertaking(t, h) && ReleasesAgree(t, h)
  }

  // ----- single writes -----

  lemma PromotionEntered(t: Tables, h: History, b: Id, i: Id)
    requires EntriesAgree(t, h) && i in t.reservations && t.reservations[i].book == b && i !in h.heldSince
    ensures EntriesAgree(PutReservation(t, i, Promoted(t.reservations[i], t.now)), Note(h, b, Some(i), t.now))
  {
    assert Note(h, b, Some(i), t.now).heldSince.Keys == h.heldSince.Keys + {i};
  }

  lemma PromotionLogs(t: Tables, h: History, b: Id, i: Id)
    requires LogAgrees(t, h) && i in t.reservations && t.reservations[i].status.Pending? && t.reservations[i].book == b
    ensures LogAgrees(PutReservation(t, i, Promoted(t.reservations[i], t.now)), Note(h, b, Some(i), t.now))
  {
    var t', h' := PutReservation(t, i, Promoted(t.reservations[i], t.now)), Note(h, b, Some(i), t.now);
    assert i !in h.heldSince by { assert !WasHeld(t, h, i); }
    PromotionEntered(t, h, b, i);
    forall j | j in t'.reservations ensures j in h'.heldSince <==> WasHeld(t', h', j) {
      assert j in h.heldSince <==> WasHeld(t, h, j);
    }
  }

  lemma PromotionOvertakesNobody(t: Tables, h: History, b: Id, i: Id)
    requires NoOvertaking(t, h) && i in t.reservations && t.reservations[i].book == b
    requires forall j :: j in t.reservations && t.reservations[j].status.Pending? && t.reservations[j].book == b ==>
      t.reservations[i].reservedAt <= t.reservations[j].reservedAt
    ensures NoOvertaking(PutReservation(t, i, Promoted(t.reservations[i], t.now)), Note(h, b, Some(i), t.now))
  {
  }

  lemma PromotionTimed(t: Tables, h: History, b: Id, i: Id)
    requires HoldClock(t, h) && i in t.reservations
    ensures HoldClock(PutReservation(t, i, Promoted(t.reservations[i], t.now)), Note(h, b, Some(i), t.now))
  {
  }

  /** Promoting the head of the queue keeps every record true. */
  lemma PromotionIsFaithful(t: Tables, h: History, b: Id, i: Id)
    requires Faithful(t, h) && i in FifoHeads(t.reservations, b)
    ensures Faithful(PutReservation(t, i, Promoted(t.reservations[i], t.now)), Note(h, b, Some(i), t.now))
  {
    HeadIsOldest(t.reservations, b, i);
    PromotionLogs(t, h, b, i);
    PromotionTimed(t, h, b, i);
    PromotionOvertakesNobody(t, h, b, i);
  }

  lemma HeadIsOldest(rs: map<Id, Reservation>, b: Id, i: Id)
    requires i in FifoHeads(rs, b)
    ensures i in rs && rs[i].status.Pending? && rs[i].book == b
    ensures forall j :: j in rs && rs[j].status.Pending? && rs[j].book == b ==> rs[i].reservedAt <= rs[j].reservedAt
  {
    forall j | j in rs && rs[j].status.Pending? && rs[j].book == b
      ensures rs[i].reservedAt <= rs[j].reservedAt
    {
      assert j in Where(rs, PendingOf(b));
    }
  }

  /** How a reservation already in the table may be closed, and what the records must say about it. */
  predicate Closes(h: History, h': History, i: Id, r: Reservation, r': Reservation) {
    && r'.book == r.book && r'.reservedAt == r.reservedAt
    && if r.status.Hold? && (r'.status.Completed? || r'.status.Expired?) then h' == h
       else if r.status.Hold? then r'.status.Cancelled? && h' == h.(cancelledHolds := h.cancelledHolds + {i})
       else r.status.Pending? && r'.status.Cancelled? && h' == h
  }

  lemma ClosingLogs(t: Tables, h: History, h': History, i: Id, r: Reservation)
    requires LogAgrees(t, h) && i in t.reservations && Closes(h, h', i, t.reservations[i], r)
    ensures LogAgrees(PutReservation(t, i, r), h')
  {
    assert i in h.heldSince <==> WasHeld(t, h, i);
  }

  lemma ClosingIsFaithful(t: Tables, h: History, h': History, i: Id, r: Reservation)
    requires Faithful(t, h) && i in t.reservations && Closes(h, h', i, t.reservations[i], r)
    ensures Faithful(PutReservation(t, i, r), h')
  {
    ClosingLogs(t, h, h', i, r);
    assert HoldClock(PutReservation(t, i, r), h');
    assert NoOvertaking(PutReservation(t, i, r), h');
  }

  lemma EnqueuedIsFaithful(t: Tables, h: History, i: Id, r: Reservation)
    requires Faithful(t, h)
    requires forall j :: j in t.reservations ==> t.reservations[j].reservedAt <= r.reservedAt
    requires i !in t.reservations && r.status.Pending?
    ensures Faithful(PutReservation(t, i, r), h)
  {
    assert LogAgrees(PutReservation(t, i, r), h);
    assert HoldClock(PutReservation(t, i, r), h);
    assert NoOvertaking(PutReservation(t, i, r), h);
  }

  lemma ReleaseAgrees(t: Tables, h: History, loan: Id)
    requires ReleasesAgree(t, h) && Releases(t, loan)
    ensures ReleasesAgree(PutLoan(t, loan, Closed(t.loans[loan], t.now)), h.(releases := h.releases + [loan]))
  {
    var h' := h.(releases := h.releases + [loan]);
    forall i | i in t.loans ensures i in h'.releases <==> i == loan || i in h.releases {
      assert h'.releases[|h.releases|] == loan;
      if i in h.releases {
        var k :| 0 <= k < |h.releases| && h.releases[k] == i;
        assert h'.releases[k] == i;
      }
    }
    assert loan !in h.releases;
  }

  lemma ReleaseIsFaithful(t: Tables, h: History, loan: Id)
    requires Faithful(t, h) && Releases(t, loan)
    ensures Faithful(PutLoan(t, loan, Closed(t.loans[loan], t.now)), h.(releases := h.releases + [loan]))
  {
    ReleaseAgrees(t, h, loan);
    var t', h' := PutLoan(t, loan, Closed(t.loans[loan], t.now)), h.(releases := h.releases + [loan]);
    assert LogAgrees(t', h') by { assert forall i :: i in t.reservations ==> WasHeld(t', h', i) == WasHeld(t, h, i); }
  }

  predicate SameReturns(t: Tables, t': Tables) {
    && (forall i :: i in t.loans ==> i in t'.loans && t'.loans[i].status.Returned? == t.loans[i].status.Returned?)
    && (forall i :: i in t'.loans && i !in t.loans ==> !t'.loans[i].status.Returned?)
  }

  /** Writes that leave reservations and returned loans alone, as time goes on. */
  lemma FrameIsFaithful(t: Tables, h: History, t': Tables)
    requires Faithful(t, h) && t'.reservations == t.reservations && t.now <= t'.now && SameReturns(t, t')
    ensures Faithful(t', h)
  {
    assert LogAgrees(t', h) by { assert forall i :: i in t.reservations ==> WasHeld(t', h, i) == WasHeld(t, h, i); }
    assert ReleasesAgree(t', h) by { assert forall k :: 0 <= k < |h.releases| ==> h.releases[k] in t.loans; }
  }

  // ----- transactions -----

  lemma PromoteNextIsFaithful(t: Tables, h: History, b: Id, pick: Option<Id>)
    requires Faithful(t, h) && IsFifoAnswer(t.reservations, b, pick) && PromoteNext(t, b, pick).Success?
    ensures Faithful(PromoteNext(t, b, pick).value, Note(h, b, pick, t.now))
  {
    if pick.Some? {
      PromotionIsFaithful(t, h, b, pick.value);
    } else {
      FrameIsFaithful(t, h, PromoteNext(t, b, pick).value);
    }
  }

  lemma ReturnIsFaithful(t: Tables, h: History, loan: Id, queued: bool, pick: Option<Id>)
    requires Faithful(t, h) && Releases(t, loan) && Feasible(t, Return(loan, queued, pick))
    requires ReturnBook(t, loan, queued, pick).Success?
    ensures Faithful(ReturnBook(t, loan, queued, pick).value, Record(h, t, Return(loan, queued, pick)))
  {
    var b := t.loans[loan].book;
    var released := PutLoan(t, loan, Closed(t.loans[loan], t.now));
    var h' := h.(releases := h.releases + [loan]);
    ReleaseIsFaithful(t, h, loan);
    if queued {
      PromoteNextIsFaithful(released, h', b, pick);
    } else {
      FrameIsFaithful(released, h', ShelveCopy(released, b).value);
    }
  }

  lemma CancelIsFaithful(t: Tables, h: History, i: Id, m: Id, pick: Option<Id>)
    requires Faithful(t, h) && Feasible(t, Cancel(i, m, pick)) && CancelReservation(t, i, m, pick).Success?
    ensures Faithful(CancelReservation(t, i, m, pick).value, Record(h, t, Cancel(i, m, pick)))
  {
    var r := t.reservations[i];
    var cancelled := PutReservation(t, i, Withdrawn(r));
    var h' := if r.status.Hold? then h.(cancelledHolds := h.cancelledHolds + {i}) else h;
    ClosingIsFaithful(t, h, h', i, Withdrawn(r));
    if r.status.Hold? {
      QueueUnmoved(t.reservations, i, Withdrawn(r), r.book, pick);
      PromoteNextIsFaithful(cancelled, h', r.book, pick);
    }
  }

  lemma ExpireOneIsFaithful(t: Tables, h: History, i: Id, pick: Option<Id>)
    requires Faithful(t, h)
    requires i in t.reservations && t.reservations[i].status.Hold?
    requires IsFifoAnswer(t.reservations, t.reservations[i].book, pick)
    requires ExpireOne(t, i, pick).Success?
    ensures Faithful(ExpireOne(t, i, pick).value, Note(h, t.reservations[i].book, pick, t.now))
  {
    var r := t.reservations[i];
    ClosingIsFaithful(t, h, h, i, Lapsed(r));
    QueueUnmoved(t.reservations, i, Lapsed(r), r.book, pick);
    PromoteNextIsFaithful(PutReservation(t, i, Lapsed(r)), h, r.book, pick);
  }

  /** What no round of a sweep touches. */
  predicate SameRows(t: Tables, u: Tables) {
    && u.now == t.now && u.loans == t.loans && u.members == t.members
    && u.books.Keys == t.books.Keys && u.reservations.Keys == t.reservations.Keys
    && forall i :: i in t.reservations ==>
         && u.reservations[i].book == t.reservations[i].book
         && u.reservations[i].member == t.reservations[i].member
         && u.reservations[i].reservedAt == t.reservations[i].reservedAt
  }

  lemma ExpireOneSameRows(t: Tables, i: Id, pick: Option<Id>)
    requires i in t.reservations && t.reservations[i].status.Hold?
    requires IsFifoAnswer(t.reservations, t.reservations[i].book, pick)
    requires ExpireOne(t, i, pick).Success?
    ensures SameRows(t, ExpireOne(t, i, pick).value)
  {
    if pick.Some? { HeadIsOldest(t.reservations, t.reservations[i].book, pick.value); }
  }

  lemma {:induction false} SweepIsFaithful(t: Tables, h: History, order: seq<Id>, picks: seq<Option<Id>>)
    requires Faithful(t, h) && SweepAnswers(t, order, picks)
    requires forall i :: i in order ==> i in t.reservations
    requires SweepRounds(t, order, picks).Success?
    ensures SameRows(t, SweepRounds(t, order, picks).value)
    ensures Faithful(SweepRounds(t, order, picks).value, NoteSweep(h, t, order, picks))
    decreases |order|
  {
    if order != [] {
      var n := |order| - 1;
      SweepIsFaithful(t, h, order[..n], picks[..n]);
      var u := SweepRounds(t, order[..n], picks[..n]).value;
      ExpireOneIsFaithful(u, NoteSweep(h, t, order[..n], picks[..n]), order[n], picks[n]);
      ExpireOneSameRows(u, order[n], picks[n]);
    }
  }

  lemma BorrowIsFaithful(t: Tables, h: History, m: Id, b: Id, loan: Id, checkedAt: Time, borrowedAt: Time)
    requires Faithful(t, h) && loan !in t.loans && BorrowBook(t, m, b, loan, checkedAt, borrowedAt).Success?
    ensures Faithful(BorrowBook(t, m, b, loan, checkedAt, borrowedAt).value, h)
  {
    var holds := Where(t.reservations, HoldsOf(b));
    if |holds| == 1 {
      var i := TheOnly(holds);
      assert i in holds;
      var served := PutReservation(t, i, Fulfilled(t.reservations[i]));
      ClosingIsFaithful(t, h, h, i, Fulfilled(t.reservations[i]));
      FrameIsFaithful(served, h, PutLoan(served, loan, NewLoan(m, b, borrowedAt)));
    } else {
      FrameIsFaithful(t, h, BorrowBook(t, m, b, loan, checkedAt, borrowedAt).value);
    }
  }

  lemma PlaceIsFaithful(t: Tables, h: History, m: Id, b: Id, i: Id, window: set<Id>)
    requires Faithful(t, h) && i !in t.reservations && PlaceReservation(t, m, b, i, window).Success?
    requires forall j :: j in t.reservations ==> t.reservations[j].reservedAt <= t.now
    ensures Faithful(PlaceReservation(t, m, b, i, window).value, h)
  {
    EnqueuedIsFaithful(t, h, i, Reservation(m, b, t.now, None, Pending));
  }

  lemma OtherIsFaithful(t: Tables, h: History, op: Op)
    requires Faithful(t, h) && Feasible(t, op) && Apply(t, op).Success?
    requires op.CreateBook? || op.UpdateBook? || op.DeleteBook? || op.Renew? || op.SetMember? || op.Tick?
    ensures Faithful(Apply(t, op).value, h)
  {
    FrameIsFaithful(t, h, Apply(t, op).value);
  }

  lemma StepIsFaithful(w: World, op: Op)
    requires RowRules(w.t) && Faithful(w.t, w.h) && Feasible(w.t, op)
    ensures Faithful(Step(w, op).t, Step(w, op).h)
  {
    if Apply(w.t, op).Success? {
      match op
      case Return(loan, queued, pick) => if Releases(w.t, loan) { ReturnIsFaithful(w.t, w.h, loan, queued, pick); }
      case Cancel(i, m, pick) => CancelIsFaithful(w.t, w.h, i, m, pick);
      case Sweep(order, picks) =>
        assert forall i :: i in order ==> i in Elements(order);
        SweepIsFaithful(w.t, w.h, order, picks);
      case Borrow(m, b, loan, checkedAt, borrowedAt) => BorrowIsFaithful(w.t, w.h, m, b, loan, checkedAt, borrowedAt);
      case Place(m, b, i, window) => PlaceIsFaithful(w.t, w.h, m, b, i, window);
      case _ => OtherIsFaithful(w.t, w.h, op);
    }
  }

  /** Every record of every run from the empty database is true. */
  lemma {:induction false} RunsStayFaithful(run: seq<World>, ops: seq<Op>, k: nat)
    requires IsRun(run, ops) && k < |run|
    ensures Faithful(run[k].t, run[k].h)
  {
    if k > 0 {
      RunsStayFaithful(run, ops, k - 1);
      RunsStaySound(run, ops, k - 1);
      assert run[k - 1 + 1] == Step(run[k - 1], ops[k - 1]);
      StepIsFaithful(run[k - 1], ops[k - 1]);
    }
  }

  function InStatus(s: ReservationStatus): Reservation -> bool { (r: Reservation) => r.status == s }
  function IsReturned(): Loan -> bool { (l: Loan) => l.status.Returned? }

  lemma HoldTally(t: Tables, h: History)
    requires LogAgrees(t, h)
    ensures |h.promotions| == Count(t.reservations, InStatus(Hold)) + Count(t.reservations, InStatus(Completed))
                            + Count(t.reservations, InStatus(Expired)) + |h.cancelledHolds|
  {
    var held, done := Where(t.reservations, InStatus(Hold)), Where(t.reservations, InStatus(Completed));
    var gone, off := Where(t.reservations, InStatus(Expired)), h.cancelledHolds;
    forall i ensures i in h.heldSince.Keys <==> i in held || i in done || i in gone || i in off {
      if i in t.reservations { assert i in h.heldSince <==> WasHeld(t, h, i); }
    }
    PartitionSize(h.heldSince.Keys, held, done, gone, off);
  }

  /** Every promotion ever made is accounted for: still held, borrowed, expired, or cancelled while held. */
  lemma HoldsAreAccountedFor(run: seq<World>, ops: seq<Op>, k: nat)
    requires IsRun(run, ops) && k < |run|
    ensures var w := run[k];
      |w.h.promotions| == Count(w.t.reservations, InStatus(Hold)) + Count(w.t.reservations, InStatus(Completed))
                        + Count(w.t.reservations, InStatus(Expired)) + |w.h.cancelledHolds|
  {
    RunsStayFaithful(run, ops, k);
    HoldTally(run[k].t, run[k].h);
  }

  /** As many copies were given back as there are returned loans, over any run. */
  lemma ReleasesAreReturns(run: seq<World>, ops: seq<Op>, k: nat)
    requires IsRun(run, ops) && k < |run|
    ensures |run[k].h.releases| == Count(run[k].t.loans, IsReturned())
  {
    RunsStayFaithful(run, ops, k);
    DistinctCount(run[k].h.releases);
    assert Elements(run[k].h.releases) == Where(run[k].t.loans, IsReturned());
  }
}
