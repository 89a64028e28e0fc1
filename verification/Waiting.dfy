/** How long the queue makes a member wait: a queue position is the number of promotions still to come. */
module Waiting {
  import opened Prelude
  import opened Domain
  import opened Repositories
  import opened Circulation
  import opened Machine
  import opened Inventory
  import opened Queue
  import opened Fairness

  /** The promotions made for one book, in order. */
  function OfBook(log: seq<Promotion>, b: Id): seq<Id> {
    if log == [] then []
    else
      var n := |log| - 1;
      OfBook(log[..n], b) + (if log[n].book == b then [log[n].reservation] else [])
  }

  lemma OfBookGrows(log: seq<Promotion>, p: Promotion, b: Id)
    ensures OfBook(log + [p], b) == OfBook(log, b) + (if p.book == b then [p.reservation] else [])
  {
    assert (log + [p])[..|log|] == log;
  }

  ghost predicate DistinctTimes(rs: map<Id, Reservation>, b: Id) {
    forall i, j ::
      i in rs && j in rs && rs[i].book == b && rs[j].book == b && rs[i].reservedAt == rs[j].reservedAt ==> i == j
  }

  /** With a firm turn, reservation `r` is, or will be, promotion number `turn` for its book. When others may give up,
      a waiting `r` is promoted by then at the latest. */
  ghost predicate HasTurn(t: Tables, h: History, r: Id, turn: nat, firm: bool) {
    && r in t.reservations
    && var log := OfBook(h.promotions, t.reservations[r].book);
       if !firm then t.reservations[r].status.Pending? ==> |log| + Position(t, r) <= turn
       else if 1 <= turn <= |log| then log[turn - 1] == r
       else t.reservations[r].status.Pending? && |log| + Position(t, r) == turn
  }

  /** Promoting the head of the queue moves everybody else who waits for that book up by one. */
  lemma PromotionMovesUp(t: Tables, b: Id, i: Id, r: Id)
    requires r in t.reservations && i in FifoHeads(t.reservations, b)
    requires DistinctTimes(t.reservations, t.reservations[r].book)
    ensures var t' := PutReservation(t, i, Promoted(t.reservations[i], t.now));
      && (i == r ==> Position(t, r) == 1)
      && (t.reservations[r].book != b ==> Position(t', r) == Position(t, r))
      && (t.reservations[r].book == b && i != r && t.reservations[r].status.Pending? ==>
        Position(t', r) == Position(t, r) - 1)
  {
    var own, at := t.reservations[r].book, t.reservations[r].reservedAt;
    HeadIsOldest(t.reservations, b, i);
    CountPut(t.reservations, i, Promoted(t.reservations[i], t.now), PendingBefore(own, at));
    if i == r {
      assert Where(t.reservations, PendingBefore(own, at)) == {};
    }
  }

  lemma PromotionKeepsTurn(t: Tables, h: History, r: Id, turn: nat, firm: bool, b: Id, i: Id)
    requires HasTurn(t, h, r, turn, firm) && i in FifoHeads(t.reservations, b)
    requires DistinctTimes(t.reservations, t.reservations[r].book)
    ensures HasTurn(PutReservation(t, i, Promoted(t.reservations[i], t.now)), Note(h, b, Some(i), t.now), r, turn, firm)
  {
    HeadIsOldest(t.reservations, b, i);
    OfBookGrows(h.promotions, Promotion(i, b), t.reservations[r].book);
    PromotionMovesUp(t, b, i, r);
  }

  /** A row rewritten behind `r`, or one that does not wait, moves nobody's turn. */
  lemma OtherWritesKeepTurn(t: Tables, h: History, r: Id, turn: nat, firm: bool, i: Id, row: Reservation)
    requires HasTurn(t, h, r, turn, firm)
    requires i in t.reservations ==>
      row.book == t.reservations[i].book && row.reservedAt == t.reservations[i].reservedAt
    requires var ahead := PendingBefore(t.reservations[r].book, t.reservations[r].reservedAt);
      var was := i in t.reservations && ahead(t.reservations[i]);
      (ahead(row) ==> was) && (firm ==> ahead(row) == was)
    requires i == r && row.status.Pending? ==> t.reservations[r].status.Pending?
    requires i == r && firm && t.reservations[r].status.Pending? ==> row.status.Pending?
    ensures HasTurn(PutReservation(t, i, row), h, r, turn, firm)
  {
    CountPut(t.reservations, i, row, PendingBefore(t.reservations[r].book, t.reservations[r].reservedAt));
  }

  lemma FrameKeepsTurn(t: Tables, h: History, r: Id, turn: nat, firm: bool, t': Tables, h': History)
    requires HasTurn(t, h, r, turn, firm) && t'.reservations == t.reservations && h'.promotions == h.promotions
    ensures HasTurn(t', h', r, turn, firm)
  {
  }

  lemma PromoteNextKeepsTurn(t: Tables, h: History, r: Id, turn: nat, firm: bool, b: Id, pick: Option<Id>)
    requires HasTurn(t, h, r, turn, firm) && IsFifoAnswer(t.reservations, b, pick) && PromoteNext(t, b, pick).Success?
    requires DistinctTimes(t.reservations, t.reservations[r].book)
    ensures HasTurn(PromoteNext(t, b, pick).value, Note(h, b, pick, t.now), r, turn, firm)
  {
    if pick.Some? {
      PromotionKeepsTurn(t, h, r, turn, firm, b, pick.value);
    } else {
      FrameKeepsTurn(t, h, r, turn, firm, PromoteNext(t, b, pick).value, h);
    }
  }

  /** No waiting reservation for the book is withdrawn by this step. */
  predicate NoWithdrawal(t: Tables, op: Op, b: Id) {
    op.Cancel? && Cancellable(t, op.reservation, op.member) && t.reservations[op.reservation].book == b ==>
      t.reservations[op.reservation].status.Hold?
  }

  lemma ReturnKeepsTurn(t: Tables, h: History, r: Id, turn: nat, firm: bool, loan: Id, queued: bool, pick: Option<Id>)
    requires HasTurn(t, h, r, turn, firm) && DistinctTimes(t.reservations, t.reservations[r].book)
    requires Releases(t, loan) && Feasible(t, Return(loan, queued, pick)) && ReturnBook(t, loan, queued, pick).Success?
    ensures HasTurn(ReturnBook(t, loan, queued, pick).value, Record(h, t, Return(loan, queued, pick)), r, turn, firm)
  {
    var released := PutLoan(t, loan, Closed(t.loans[loan], t.now));
    var h' := h.(releases := h.releases + [loan]);
    FrameKeepsTurn(t, h, r, turn, firm, released, h');
    if queued {
      PromoteNextKeepsTurn(released, h', r, turn, firm, t.loans[loan].book, pick);
    } else {
      FrameKeepsTurn(released, h', r, turn, firm, ShelveCopy(released, t.loans[loan].book).value, h');
    }
  }

  lemma CancelKeepsTurn(t: Tables, h: History, r: Id, turn: nat, firm: bool, i: Id, m: Id, pick: Option<Id>)
    requires HasTurn(t, h, r, turn, firm) && DistinctTimes(t.reservations, t.reservations[r].book)
    requires Feasible(t, Cancel(i, m, pick)) && CancelReservation(t, i, m, pick).Success?
    requires firm ==> NoWithdrawal(t, Cancel(i, m, pick), t.reservations[r].book)
    ensures HasTurn(CancelReservation(t, i, m, pick).value, Record(h, t, Cancel(i, m, pick)), r, turn, firm)
  {
    var row := t.reservations[i];
    OtherWritesKeepTurn(t, h, r, turn, firm, i, Withdrawn(row));
    if row.status.Hold? {
      var cancelled := PutReservation(t, i, Withdrawn(row));
      var h' := h.(cancelledHolds := h.cancelledHolds + {i});
      FrameKeepsTurn(cancelled, h, r, turn, firm, cancelled, h');
      QueueUnmoved(t.reservations, i, Withdrawn(row), row.book, pick);
      PromoteNextKeepsTurn(cancelled, h', r, turn, firm, row.book, pick);
    }
  }

  lemma ExpireOneKeepsTurn(t: Tables, h: History, r: Id, turn: nat, firm: bool, i: Id, pick: Option<Id>)
    requires HasTurn(t, h, r, turn, firm) && DistinctTimes(t.reservations, t.reservations[r].book)
    requires i in t.reservations && t.reservations[i].status.Hold?
    requires IsFifoAnswer(t.reservations, t.reservations[i].book, pick) && ExpireOne(t, i, pick).Success?
    ensures HasTurn(ExpireOne(t, i, pick).value, Note(h, t.reservations[i].book, pick, t.now), r, turn, firm)
  {
    var row := t.reservations[i];
    OtherWritesKeepTurn(t, h, r, turn, firm, i, Lapsed(row));
    QueueUnmoved(t.reservations, i, Lapsed(row), row.book, pick);
    PromoteNextKeepsTurn(PutReservation(t, i, Lapsed(row)), h, r, turn, firm, row.book, pick);
  }

  lemma DistinctTimesSurvive(t: Tables, u: Tables, b: Id)
    requires SameRows(t, u) && DistinctTimes(t.reservations, b)
    ensures DistinctTimes(u.reservations, b)
  {
  }

  lemma {:induction false} SweepKeepsTurn(t: Tables, h: History, r: Id, turn: nat, firm: bool, order: seq<Id>,
      picks: seq<Option<Id>>)
    requires HasTurn(t, h, r, turn, firm) && DistinctTimes(t.reservations, t.reservations[r].book)
    requires SweepAnswers(t, order, picks) && SweepRounds(t, order, picks).Success?
    requires forall i :: i in order ==> i in t.reservations
    ensures SameRows(t, SweepRounds(t, order, picks).value)
    ensures HasTurn(SweepRounds(t, order, picks).value, NoteSweep(h, t, order, picks), r, turn, firm)
    decreases |order|
  {
    if order != [] {
      var n := |order| - 1;
      SweepKeepsTurn(t, h, r, turn, firm, order[..n], picks[..n]);
      var u := SweepRounds(t, order[..n], picks[..n]).value;
      DistinctTimesSurvive(t, u, t.reservations[r].book);
      ExpireOneKeepsTurn(u, NoteSweep(h, t, order[..n], picks[..n]), r, turn, firm, order[n], picks[n]);
      ExpireOneSameRows(u, order[n], picks[n]);
    }
  }

  lemma BorrowKeepsTurn(t: Tables, h: History, r: Id, turn: nat, firm: bool, m: Id, b: Id, loan: Id,
      checkedAt: Time, borrowedAt: Time)
    requires HasTurn(t, h, r, turn, firm) && BorrowBook(t, m, b, loan, checkedAt, borrowedAt).Success?
    ensures HasTurn(BorrowBook(t, m, b, loan, checkedAt, borrowedAt).value, h, r, turn, firm)
  {
    var t' := BorrowBook(t, m, b, loan, checkedAt, borrowedAt).value;
    var holds := Where(t.reservations, HoldsOf(b));
    if |holds| == 1 {
      var i := TheOnly(holds);
      assert i in holds;
      OtherWritesKeepTurn(t, h, r, turn, firm, i, Fulfilled(t.reservations[i]));
      FrameKeepsTurn(PutReservation(t, i, Fulfilled(t.reservations[i])), h, r, turn, firm, t', h);
    } else {
      FrameKeepsTurn(t, h, r, turn, firm, t', h);
    }
  }

  lemma PlaceKeepsTurn(t: Tables, h: History, r: Id, turn: nat, firm: bool, m: Id, b: Id, i: Id, window: set<Id>)
    requires HasTurn(t, h, r, turn, firm) && t.reservations[r].reservedAt <= t.now && i !in t.reservations
    requires PlaceReservation(t, m, b, i, window).Success?
    ensures HasTurn(PlaceReservation(t, m, b, i, window).value, h, r, turn, firm)
  {
    OtherWritesKeepTurn(t, h, r, turn, firm, i, Reservation(m, b, t.now, None, Pending));
  }

  lemma StepKeepsTurn(w: World, op: Op, r: Id, turn: nat, firm: bool)
    requires HasTurn(w.t, w.h, r, turn, firm) && Feasible(w.t, op)
    requires DistinctTimes(w.t.reservations, w.t.reservations[r].book) && w.t.reservations[r].reservedAt <= w.t.now
    requires firm ==> NoWithdrawal(w.t, op, w.t.reservations[r].book)
    ensures HasTurn(Step(w, op).t, Step(w, op).h, r, turn, firm)
  {
    var t, h := w.t, w.h;
    if Apply(t, op).Success? {
      match op
      case Return(loan, queued, pick) =>
        if Releases(t, loan) { ReturnKeepsTurn(t, h, r, turn, firm, loan, queued, pick); }
      case Cancel(i, m, pick) => CancelKeepsTurn(t, h, r, turn, firm, i, m, pick);
      case Sweep(order, picks) =>
        assert forall i :: i in order ==> i in Elements(order);
        SweepKeepsTurn(t, h, r, turn, firm, order, picks);
      case Borrow(m, b, loan, checkedAt, borrowedAt) =>
        BorrowKeepsTurn(t, h, r, turn, firm, m, b, loan, checkedAt, borrowedAt);
      case Place(m, b, i, window) => PlaceKeepsTurn(t, h, r, turn, firm, m, b, i, window);
      case _ => FrameKeepsTurn(t, h, r, turn, firm, Apply(t, op).value, h);
    }
  }

  lemma DistinctTimesEarlier(t: Tables, t': Tables, b: Id)
    requires Evolves(t, t') && DistinctTimes(t'.reservations, b)
    ensures DistinctTimes(t.reservations, b)
  {
    forall i, j | i in t.reservations && j in t.reservations
                  && t.reservations[i].book == b && t.reservations[j].book == b
                  && t.reservations[i].reservedAt == t.reservations[j].reservedAt
      ensures i == j
    {
      assert ReservationEvolves(t.reservations[i], t'.reservations[i]);
      assert ReservationEvolves(t.reservations[j], t'.reservations[j]);
    }
  }

  lemma ReservedBefore(run: seq<World>, ops: seq<Op>, n: nat, r: Id)
    requires IsRun(run, ops) && n < |run| && r in run[n].t.reservations
    ensures run[n].t.reservations[r].reservedAt <= run[n].t.now
  {
    RunsStaySound(run, ops, n);
  }

  lemma {:induction false} TurnIsKept(run: seq<World>, ops: seq<Op>, j: nat, k: nat, r: Id, turn: nat, firm: bool)
    requires IsRun(run, ops) && j <= k < |run|
    requires HasTurn(run[j].t, run[j].h, r, turn, firm)
    requires DistinctTimes(run[k].t.reservations, run[j].t.reservations[r].book)
    requires firm ==> forall n :: j <= n < k ==> NoWithdrawal(run[n].t, ops[n], run[j].t.reservations[r].book)
    ensures HasTurn(run[k].t, run[k].h, r, turn, firm)
    decreases k
  {
    if j < k {
      var n := k - 1;
      RunEvolves(run, ops, n, k);
      DistinctTimesEarlier(run[n].t, run[k].t, run[j].t.reservations[r].book);
      TurnIsKept(run, ops, j, n, r, turn, firm);
      RunEvolves(run, ops, j, n);
      ReservedBefore(run, ops, n, r);
      assert run[n + 1] == Step(run[n], ops[n]);
      StepKeepsTurn(run[n], ops[n], r, turn, firm);
    }
  }

  /** Bounded waiting: with distinct timestamps and nobody in the queue giving up, a reservation that waits at
      position p is promoted by exactly the p-th later promotion for its book, and until then moves up one
      place with each. */
  lemma PositionIsPromotionsToGo(run: seq<World>, ops: seq<Op>, j: nat, k: nat, r: Id)
    requires IsRun(run, ops) && j <= k < |run|
    requires r in run[j].t.reservations && run[j].t.reservations[r].status.Pending?
    requires DistinctTimes(run[k].t.reservations, run[j].t.reservations[r].book)
    requires forall n :: j <= n < k ==> NoWithdrawal(run[n].t, ops[n], run[j].t.reservations[r].book)
    ensures var b, p := run[j].t.reservations[r].book, Position(run[j].t, r);
      var before, after := OfBook(run[j].h.promotions, b), OfBook(run[k].h.promotions, b);
      && r in run[k].t.reservations
      && (|after| < |before| + p ==>
            run[k].t.reservations[r].status.Pending? && Position(run[k].t, r) == |before| + p - |after|)
      && (|after| >= |before| + p ==> after[|before| + p - 1] == r)
  {
    var turn := |OfBook(run[j].h.promotions, run[j].t.reservations[r].book)| + Position(run[j].t, r);
    TurnIsKept(run, ops, j, k, r, turn, true);
    RunEvolves(run, ops, j, k);
  }

  /** Others giving up can only shorten the wait: a reservation that waits at position p, and still waits, has seen
      fewer than p promotions for its book, and each has brought it at least one place forward. */
  lemma WaitIsBounded(run: seq<World>, ops: seq<Op>, j: nat, k: nat, r: Id)
    requires IsRun(run, ops) && j <= k < |run|
    requires r in run[j].t.reservations
    requires r in run[k].t.reservations && run[k].t.reservations[r].status.Pending?
    requires DistinctTimes(run[k].t.reservations, run[k].t.reservations[r].book)
    ensures var b, p := run[k].t.reservations[r].book, Position(run[j].t, r);
      var before, after := OfBook(run[j].h.promotions, b), OfBook(run[k].h.promotions, b);
      |after| - |before| + Position(run[k].t, r) <= p
  {
    RunEvolves(run, ops, j, k);
    var turn := |OfBook(run[j].h.promotions, run[j].t.reservations[r].book)| + Position(run[j].t, r);
    TurnIsKept(run, ops, j, k, r, turn, false);
  }
}
