/** What becomes of a loan and of a deleted book over whole runs. */
module Lifecycles {
  import opened Prelude
  import opened Domain
  import opened Repositories
  import opened Circulation
  import opened Machine
  import opened Inventory
  import opened Decisions
  import Fairness
  import Promises

  // ----- loans -----

  ghost predicate Grants(t: Tables, op: Op, loan: Id) {
    op.Renew? && op.loan == loan && Feasible(t, op) && Apply(t, op).Success?
  }

  ghost predicate Closes(t: Tables, op: Op, loan: Id) {
    op.Return? && op.loan == loan && Releases(t, loan) && Feasible(t, op) && Apply(t, op).Success?
  }

  lemma PromoteNextLeaves(t: Tables, b: Id, pick: Option<Id>)
    requires IsFifoAnswer(t.reservations, b, pick) && PromoteNext(t, b, pick).Success?
    ensures var t' := PromoteNext(t, b, pick).value; t'.loans == t.loans && SameRetired(t, t')
  {
  }

  /** No deleted book's row differs, and nobody reserved anything. */
  predicate SameRetired(t: Tables, t': Tables) {
    && (forall b :: b in t.books && !t.books[b].Live() ==> b in t'.books && t'.books[b] == t.books[b])
    && (forall i :: i in t'.reservations ==> i in t.reservations)
  }

  lemma {:induction false} SweepLeaves(t: Tables, order: seq<Id>, picks: seq<Option<Id>>)
    requires SweepAnswers(t, order, picks) && SweepRounds(t, order, picks).Success?
    ensures var t' := SweepRounds(t, order, picks).value; t'.loans == t.loans && SameRetired(t, t')
    decreases |order|
  {
    if order != [] {
      var n := |order| - 1;
      SweepLeaves(t, order[..n], picks[..n]);
      var u := SweepRounds(t, order[..n], picks[..n]).value;
      var r := u.reservations[order[n]];
      QueueUnmoved(u.reservations, order[n], Lapsed(r), r.book, picks[n]);
      PromoteNextLeaves(PutReservation(u, order[n], Lapsed(r)), r.book, picks[n]);
    }
  }

  lemma ReturnLeaves(t: Tables, loan: Id, queued: bool, pick: Option<Id>)
    requires Feasible(t, Return(loan, queued, pick)) && Releases(t, loan) && ReturnBook(t, loan, queued, pick).Success?
    ensures var t' := ReturnBook(t, loan, queued, pick).value;
      t'.loans == t.loans[loan := Closed(t.loans[loan], t.now)] && SameRetired(t, t')
  {
    if queued {
      PromoteNextLeaves(PutLoan(t, loan, Closed(t.loans[loan], t.now)), t.loans[loan].book, pick);
    }
  }

  lemma CancelLeaves(t: Tables, i: Id, m: Id, pick: Option<Id>)
    requires Feasible(t, Cancel(i, m, pick)) && CancelReservation(t, i, m, pick).Success?
    ensures var t' := CancelReservation(t, i, m, pick).value; t'.loans == t.loans && SameRetired(t, t')
  {
    var r := t.reservations[i];
    if r.status.Hold? {
      QueueUnmoved(t.reservations, i, Withdrawn(r), r.book, pick);
      PromoteNextLeaves(PutReservation(t, i, Withdrawn(r)), r.book, pick);
    }
  }

  /** Only its own renewals and its own return ever touch a loan, and only a loan call creates one. */
  lemma LoanMoves(w: World, op: Op, loan: Id)
    requires Feasible(w.t, op)
    ensures var t, t' := w.t, Step(w, op).t;
      if loan in t.loans then
        && loan in t'.loans
        && var l := t.loans[loan];
           t'.loans[loan] ==
             if Grants(t, op, loan) then
               Loan(l.member, l.book, l.borrowDate, l.dueDate + 14 * DAY, l.returnDate, l.renewals + 1, Renewed)
             else if Closes(t, op, loan) then
               Loan(l.member, l.book, l.borrowDate, l.dueDate, Some(t.now), l.renewals, Returned)
             else l
      else
        && (loan in t'.loans <==> op.Borrow? && op.loan == loan && Apply(t, op).Success?)
        && (loan in t'.loans ==>
              t'.loans[loan] == Loan(op.member, op.book, op.borrowedAt, op.borrowedAt + 14 * DAY, None, 0, Borrowed))
  {
    if Apply(w.t, op).Success? {
      match op
      case Return(i, queued, pick) => if Releases(w.t, i) { ReturnLeaves(w.t, i, queued, pick); }
      case Cancel(i, m, pick) => CancelLeaves(w.t, i, m, pick);
      case Sweep(order, picks) => SweepLeaves(w.t, order, picks);
      case _ =>
    }
  }

  /** Borrowing adds exactly the row asked for, dated and due from the moment of borrowing; all others stay. */
  lemma BorrowAdds(run: seq<World>, ops: seq<Op>, k: nat)
    requires IsRun(run, ops) && k < |ops| && ops[k].Borrow? && Apply(run[k].t, ops[k]).Success?
    ensures ops[k].loan !in run[k].t.loans
    ensures run[k + 1].t.loans == run[k].t.loans[ops[k].loan :=
      Loan(ops[k].member, ops[k].book, ops[k].borrowedAt, ops[k].borrowedAt + 14 * DAY, None, 0, Borrowed)]
  {
    assert run[k + 1] == Step(run[k], ops[k]);
    forall i | i in run[k].t.loans ensures i in run[k + 1].t.loans && run[k + 1].t.loans[i] == run[k].t.loans[i] {
      LoanMoves(run[k], ops[k], i);
    }
    forall i | i in run[k + 1].t.loans && i !in run[k].t.loans ensures i == ops[k].loan {
      LoanMoves(run[k], ops[k], i);
    }
    LoanMoves(run[k], ops[k], ops[k].loan);
  }

  /** The renewals granted to a loan in the first `k` steps. */
  ghost function Granted(run: seq<World>, ops: seq<Op>, loan: Id, k: nat): nat
    requires |run| == |ops| + 1 && k <= |ops|
  {
    if k == 0 then 0 else Granted(run, ops, loan, k - 1) + Indicator(Grants(run[k - 1].t, ops[k - 1], loan))
  }

  lemma {:induction false} RenewalsRecorded(run: seq<World>, ops: seq<Op>, k: nat, loan: Id)
    requires IsRun(run, ops) && k < |run|
    ensures Granted(run, ops, loan, k) == if loan in run[k].t.loans then run[k].t.loans[loan].renewals else 0
  {
    if k > 0 {
      RenewalsRecorded(run, ops, k - 1, loan);
      assert run[k - 1 + 1] == Step(run[k - 1], ops[k - 1]);
      LoanMoves(run[k - 1], ops[k - 1], loan);
    }
  }

  /** In any run a loan is renewed at most twice, and is due fourteen days after it began for each period granted. */
  lemma {:induction false} PeriodsAreGranted(run: seq<World>, ops: seq<Op>, k: nat, loan: Id)
    requires IsRun(run, ops) && k < |run|
    ensures Granted(run, ops, loan, k) <= 2
    ensures loan in run[k].t.loans ==>
      run[k].t.loans[loan].dueDate == run[k].t.loans[loan].borrowDate + 14 * DAY * (1 + Granted(run, ops, loan, k))
  {
    RenewalsRecorded(run, ops, k, loan);
    if loan in run[k].t.loans { Promises.LoanPeriods(run, ops, k, loan); }
  }

  /** At any point of any run, a loan's next renewal, its `n`-th, is granted exactly if it is one of the first two, the
      loan is out and unblocked, and `n` periods have not yet passed since it began. */
  lemma {:induction false} RenewExactly(run: seq<World>, ops: seq<Op>, k: nat)
    requires IsRun(run, ops) && k < |ops| && ops[k].Renew?
    ensures var t, loan := run[k].t, ops[k].loan;
      var n := Granted(run, ops, loan, k) + 1;
      Apply(t, ops[k]).Success? <==>
        && n <= 2 && !ops[k].blocked
        && loan in t.loans && IsOut(t.loans[loan]) && t.now <= t.loans[loan].borrowDate + 14 * DAY * n
  {
    PeriodsAreGranted(run, ops, k, ops[k].loan);
    RenewalsRecorded(run, ops, k, ops[k].loan);
  }

  /** A loan is closed by its own return only, which stamps it with its time. */
  lemma ReturnsAreStamped(run: seq<World>, ops: seq<Op>, k: nat, loan: Id)
    requires IsRun(run, ops) && k < |ops|
    requires loan in run[k].t.loans && IsOut(run[k].t.loans[loan])
    requires loan in run[k + 1].t.loans && run[k + 1].t.loans[loan].status.Returned?
    ensures ops[k].Return? && ops[k].loan == loan
    ensures var l := run[k].t.loans[loan];
      run[k + 1].t.loans[loan]
        == Loan(l.member, l.book, l.borrowDate, l.dueDate, Some(run[k].t.now), l.renewals, Returned)
    ensures run[k + 1].h.releases == run[k].h.releases + [loan]
  {
    assert run[k + 1] == Step(run[k], ops[k]);
    LoanMoves(run[k], ops[k], loan);
  }

  predicate Late(t: Tables, loan: Id) {
    loan in t.loans && IsOut(t.loans[loan]) && t.loans[loan].dueDate < t.now
  }

  /** The loan is still the overdue `row`, or back. */
  predicate LateOrBack(row: Loan, t: Tables, loan: Id) {
    loan in t.loans && (IsOut(t.loans[loan]) ==> t.loans[loan] == row && Late(t, loan))
  }

  lemma LateStep(row: Loan, w: World, op: Op, loan: Id)
    requires Feasible(w.t, op) && LateOrBack(row, w.t, loan)
    ensures LateOrBack(row, Step(w, op).t, loan)
  {
    LoanMoves(w, op, loan);
    Fairness.StepEvolves(w, op);
  }

  lemma LateNext(run: seq<World>, ops: seq<Op>, k: nat, row: Loan, loan: Id)
    requires IsRun(run, ops) && k < |ops| && LateOrBack(row, run[k].t, loan)
    ensures LateOrBack(row, run[k + 1].t, loan)
  {
    LateStep(row, run[k], ops[k], loan);
  }

  /** Once overdue, a loan stays as it is until it is returned: no renewal gets it out. */
  lemma {:induction false} LateUntilReturned(run: seq<World>, ops: seq<Op>, j: nat, k: nat, loan: Id)
    requires IsRun(run, ops) && j <= k < |run| && Late(run[j].t, loan)
    ensures LateOrBack(run[j].t.loans[loan], run[k].t, loan)
    decreases k
  {
    if j < k {
      LateUntilReturned(run, ops, j, k - 1, loan);
      LateNext(run, ops, k - 1, run[j].t.loans[loan], loan);
    }
  }

  lemma NoneLate(t: Tables, m: Id, at: Time, loan: Id)
    requires RowRules(t) && loan in t.loans && t.loans[loan].member == m
    requires GetMemberForUpdate(t.members, m).Some? && MemberRejection(t, m, t.members[m], at).None?
    ensures IsOut(t.loans[loan]) ==> at <= t.loans[loan].dueDate
  {
    GoodStanding(t, m, at);
    assert IsOut(t.loans[loan]) ==> loan in OpenLoans(t, m);
  }

  /** A member with an overdue loan borrows nothing, at any later point of any run, until that loan is back. */
  lemma OverdueBlocksBorrowing(run: seq<World>, ops: seq<Op>, j: nat, k: nat, loan: Id)
    requires IsRun(run, ops) && j <= k < |ops| && Late(run[j].t, loan)
    requires ops[k].Borrow? && ops[k].member == run[j].t.loans[loan].member && run[j].t.now <= ops[k].checkedAt
    ensures loan in run[k].t.loans
    ensures Apply(run[k].t, ops[k]).Success? ==> run[k].t.loans[loan].status.Returned?
  {
    LateUntilReturned(run, ops, j, k, loan);
    RunsStaySound(run, ops, k);
    if Apply(run[k].t, ops[k]).Success? && IsOut(run[k].t.loans[loan]) {
      NoneLate(run[k].t, ops[k].member, ops[k].checkedAt, loan);
    }
  }

  // ----- deleted books -----

  predicate Deleted(t: Tables, b: Id) { b in t.books && !t.books[b].Live() }

  /** The row of a deleted book is frozen, and no new loan or reservation is for it. */
  lemma DeletedIsFrozen(w: World, op: Op, b: Id)
    requires Feasible(w.t, op) && Deleted(w.t, b)
    ensures var t' := Step(w, op).t;
      && b in t'.books && t'.books[b] == w.t.books[b]
      && (forall i :: i in t'.loans && i !in w.t.loans ==> t'.loans[i].book != b)
      && (forall i :: i in t'.reservations && i !in w.t.reservations ==> t'.reservations[i].book != b)
  {
    if Apply(w.t, op).Success? {
      match op
      case Return(i, queued, pick) => if Releases(w.t, i) { ReturnLeaves(w.t, i, queued, pick); }
      case Cancel(i, m, pick) => CancelLeaves(w.t, i, m, pick);
      case Sweep(order, picks) => SweepLeaves(w.t, order, picks);
      case Borrow(m, a, loan, _, borrowedAt) => assert a != b;
      case _ =>
    }
  }

  /** Deletion is for good: from then on the row never changes, though copies come back, and nobody borrows or reserves
      the book; its ISBN stays taken. */
  lemma {:induction false} DeletedForGood(run: seq<World>, ops: seq<Op>, j: nat, k: nat, b: Id)
    requires IsRun(run, ops) && j <= k < |run| && Deleted(run[j].t, b)
    ensures b in run[k].t.books && run[k].t.books[b] == run[j].t.books[b]
    ensures forall i :: i in run[k].t.loans && run[k].t.loans[i].book == b ==> i in run[j].t.loans
    ensures forall i :: i in run[k].t.reservations && run[k].t.reservations[i].book == b ==> i in run[j].t.reservations
    ensures k < |ops| && ops[k].CreateBook? && ops[k].isbn == run[j].t.books[b].isbn ==>
      Apply(run[k].t, ops[k]).Failure?
    decreases k
  {
    if j < k {
      DeletedForGood(run, ops, j, k - 1, b);
      assert run[k - 1 + 1] == Step(run[k - 1], ops[k - 1]);
      DeletedIsFrozen(run[k - 1], ops[k - 1], b);
      Fairness.StepEvolves(run[k - 1], ops[k - 1]);
    }
    if k < |ops| && ops[k].CreateBook? && ops[k].isbn == run[j].t.books[b].isbn {
      assert b in Where(run[k].t.books, WithIsbn(ops[k].isbn));
    }
  }

  /** A deletion goes through exactly for live books, and is stamped with its time. */
  lemma DeletionDeletes(run: seq<World>, ops: seq<Op>, j: nat, k: nat)
    requires IsRun(run, ops) && j < k < |run| && ops[j].DeleteBook?
    requires ops[j].book in run[j].t.books && run[j].t.books[ops[j].book].Live()
    ensures ops[j].book in run[k].t.books
    ensures run[k].t.books[ops[j].book] == run[j].t.books[ops[j].book].(deletedAt := Some(run[j].t.now))
  {
    RunsStaySound(run, ops, j);
    assert run[j + 1] == Step(run[j], ops[j]);
    assert BookRowAllowed(run[j].t.books[ops[j].book]);
    DeletedForGood(run, ops, j + 1, k, ops[j].book);
  }
}
