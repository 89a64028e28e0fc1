/** borrow_book and update_book statement by statement, any number at once. SELECT ... FOR UPDATE takes an exclusive row
    lock held to the end; other reads see what is committed; a transaction's writes are published when it commits. */
module Interleaving {
  import opened Prelude
  import opened Domain
  import opened Repositories
  import opened Circulation
  import opened Machine
  import opened Inventory

  datatype Request = BorrowRequest(member: Id, book: Id, loan: Id) | UpdateRequest(book: Id, total: int)

  /** How far a transaction has come, with what it has read or is about to write. */
  datatype Phase =
    | BorrowStart
    | MemberLocked(row: Member)
    | OverdueChecked(checkedAt: Time)
    | Validated(checkedAt: Time)
    | BookLocked(checkedAt: Time, book: Book)
    | HoldsLocked(checkedAt: Time, book: Book, hold: Option<Id>)
    | CopyTaken(checkedAt: Time, book: Book, hold: Option<Id>)
    | LoanFlushed(checkedAt: Time, book: Book, hold: Option<Id>, borrowedAt: Time)
    | UpdateStart
    | UpdateLocked(book: Book)
    | UpdateWritten(book: Book)
    | Finished(error: Option<Error>)

  datatype Tx = Tx(request: Request, phase: Phase)

  /** The committed tables, and every transaction ever begun. */
  datatype Sys = Sys(db: Tables, txs: map<Id, Tx>)

  datatype Event = Begin(tx: Id, request: Request) | Advance(tx: Id) | Wait(elapsed: nat)

  // ----- locks -----

  predicate HasBorrowBook(p: Phase) { p.BookLocked? || p.HoldsLocked? || p.CopyTaken? || p.LoanFlushed? }
  predicate HasUpdateBook(p: Phase) { p.UpdateLocked? || p.UpdateWritten? }
  predicate HasMember(p: Phase) { p.MemberLocked? || p.OverdueChecked? || p.Validated? || HasBorrowBook(p) }

  predicate WellPaired(x: Tx) {
    match x.request
    case BorrowRequest(_, _, _) => x.phase.BorrowStart? || HasMember(x.phase) || x.phase.Finished?
    case UpdateRequest(_, _) => x.phase.UpdateStart? || HasUpdateBook(x.phase) || x.phase.Finished?
  }

  predicate LocksMember(x: Tx, m: Id) { x.request.BorrowRequest? && HasMember(x.phase) && x.request.member == m }
  predicate LocksBook(x: Tx, b: Id) { (HasBorrowBook(x.phase) || HasUpdateBook(x.phase)) && x.request.book == b }
  predicate LocksReservation(x: Tx, r: Id) {
    (x.phase.HoldsLocked? || x.phase.CopyTaken? || x.phase.LoanFlushed?) && x.phase.hold == Some(r)
  }

  /** The next statement of `i` need not wait for a row that another transaction has locked. */
  predicate CanAdvance(s: Sys, i: Id) {
    && i in s.txs && WellPaired(s.txs[i]) && !s.txs[i].phase.Finished?
    && var x := s.txs[i];
       match x.phase
       case BorrowStart => forall j :: j in s.txs && j != i ==> !LocksMember(s.txs[j], x.request.member)
       case Validated(_) => forall j :: j in s.txs && j != i ==> !LocksBook(s.txs[j], x.request.book)
       case UpdateStart => forall j :: j in s.txs && j != i ==> !LocksBook(s.txs[j], x.request.book)
       case BookLocked(_, _) =>
         forall j, r :: j in s.txs && j != i && r in Where(s.db.reservations, HoldsOf(x.request.book)) ==>
           !LocksReservation(s.txs[j], r)
       case _ => true
  }

  // ----- statements -----

  function Raise(e: Error): Phase { Finished(Some(e)) }

  function NextBorrowPhase(db: Tables, x: Tx): Phase
    requires x.request.BorrowRequest? && (x.phase.BorrowStart? || HasMember(x.phase))
  {
    var m, b := x.request.member, x.request.book;
    match x.phase
    case BorrowStart =>
      var row := GetMemberForUpdate(db.members, m);
      if row.None? then Raise(MemberNotFound) else MemberLocked(row.value)
    case MemberLocked(row) =>
      if row.status.Suspended? then Raise(MemberSuspended)
      else if !row.status.Active? then Raise(MemberInactive)
      else if Count(db.loans, OverdueOfMember(m, db.now)) > 0 then Raise(OverdueMember)
      else OverdueChecked(db.now)
    case OverdueChecked(checkedAt) =>
      if Count(db.loans, ActiveOfMember(m)) >= MAX_ACTIVE_LOANS
        then Raise(BorrowLimitExceeded) else Validated(checkedAt)
    case Validated(checkedAt) =>
      var book := GetBookForUpdate(db.books, b);
      if book.None? then Raise(BookNotFound) else BookLocked(checkedAt, book.value)
    case BookLocked(checkedAt, book) =>
      var holds := Where(db.reservations, HoldsOf(b));
      if |holds| > 1 then Raise(MultipleResultsFound)
      else HoldsLocked(checkedAt, book, if |holds| == 1 then Some(TheOnly(holds)) else None)
    case HoldsLocked(checkedAt, book, hold) =>
      if hold.Some? then
        if hold.value in db.reservations && db.reservations[hold.value].member == m
          then CopyTaken(checkedAt, book, hold)
        else Raise(ReservationNotHeld)
      else if book.available <= 0 then Raise(BookUnavailable)
      else if !BookRowAllowed(book.(available := book.available - 1)) then Raise(IntegrityError)
      else CopyTaken(checkedAt, book.(available := book.available - 1), hold)
    case CopyTaken(checkedAt, book, hold) => LoanFlushed(checkedAt, book, hold, db.now)
    case LoanFlushed(_, _, _, _) => Finished(None)
  }

  function NextUpdatePhase(db: Tables, x: Tx): Phase
    requires x.request.UpdateRequest? && (x.phase.UpdateStart? || HasUpdateBook(x.phase))
  {
    match x.phase
    case UpdateStart =>
      var book := GetBookForUpdate(db.books, x.request.book);
      if book.None? then Raise(BookNotFound) else UpdateLocked(book.value)
    case UpdateLocked(book) =>
      var available := book.available + (x.request.total - book.total);
      var changed := book.(total := x.request.total, available := available);
      if x.request.total < 0 then Raise(NegativeTotal)
      else if available < 0 then Raise(BelowCheckedOut)
      else if !BookRowAllowed(changed) then Raise(IntegrityError)
      else UpdateWritten(changed)
    case UpdateWritten(_) => Finished(None)
  }

  function NextPhase(db: Tables, x: Tx): Phase
    requires WellPaired(x) && !x.phase.Finished?
  {
    if x.request.BorrowRequest? then NextBorrowPhase(db, x) else NextUpdatePhase(db, x)
  }

  /** What the next statement of `x` publishes: nothing, unless it is the commit. */
  function Published(db: Tables, x: Tx): Tables
    requires WellPaired(x)
  {
    match x.phase
    case LoanFlushed(_, book, hold, borrowedAt) =>
      var moved := if hold.Some? && hold.value in db.reservations
                   then PutReservation(db, hold.value, Fulfilled(db.reservations[hold.value]))
                   else PutBook(db, x.request.book, book);
      PutLoan(moved, x.request.loan, NewLoan(x.request.member, x.request.book, borrowedAt))
    case UpdateWritten(book) => PutBook(db, x.request.book, book)
    case _ => db
  }

  predicate Possible(s: Sys, e: Event) {
    match e
    case Begin(i, request) =>
      && i !in s.txs
      && (request.BorrowRequest? ==> // a fresh uuid4
            && request.loan !in s.db.loans
            && forall j :: j in s.txs && s.txs[j].request.BorrowRequest? ==> s.txs[j].request.loan != request.loan)
    case Advance(i) => CanAdvance(s, i)
    case Wait(_) => true
  }

  function Next(s: Sys, e: Event): Sys
    requires Possible(s, e)
  {
    match e
    case Begin(i, request) =>
      s.(txs := s.txs[i := Tx(request, if request.BorrowRequest? then BorrowStart else UpdateStart)])
    case Advance(i) =>
      Sys(Published(s.db, s.txs[i]), s.txs[i := s.txs[i].(phase := NextPhase(s.db, s.txs[i]))])
    case Wait(elapsed) => s.(db := s.db.(now := s.db.now + elapsed))
  }

  /** Some interleaving of the statements of any number of transactions, from a committed state. */
  ghost predicate IsInterleaving(states: seq<Sys>, events: seq<Event>) {
    && |states| == |events| + 1 && states[0].txs == map[]
    && forall k :: 0 <= k < |events| ==> Possible(states[k], events[k]) && states[k + 1] == Next(states[k], events[k])
  }

  // ----- what locking guarantees -----

  ghost predicate RowsLockedOnce(txs: map<Id, Tx>) {
    && (forall i, j, m :: i in txs && j in txs && i != j && LocksMember(txs[i], m) ==> !LocksMember(txs[j], m))
    && (forall i, j, b :: i in txs && j in txs && i != j && LocksBook(txs[i], b) ==> !LocksBook(txs[j], b))
  }

  ghost predicate LoanIdsUnique(s: Sys) {
    && (forall i, j ::
          i in s.txs && j in s.txs && i != j && s.txs[i].request.BorrowRequest? && s.txs[j].request.BorrowRequest? ==>
            s.txs[i].request.loan != s.txs[j].request.loan)
    && (forall i :: i in s.txs && s.txs[i].request.BorrowRequest? && !s.txs[i].phase.Finished? ==>
          s.txs[i].request.loan !in s.db.loans)
  }

  /** No row is locked twice, and no two loans share an id. */
  ghost predicate Exclusive(s: Sys) {
    (forall i :: i in s.txs ==> WellPaired(s.txs[i])) && RowsLockedOnce(s.txs) && LoanIdsUnique(s)
  }

  predicate MemberFresh(db: Tables, x: Tx)
    requires x.request.BorrowRequest?
  {
    var m, p := x.request.member, x.phase;
    && (HasMember(p) ==> GetMemberForUpdate(db.members, m).Some?)
    && (p.MemberLocked? ==> db.members[m] == p.row)
    && (HasMember(p) && !p.MemberLocked? ==>
          db.members[m].status.Active? && p.checkedAt <= db.now
            && Count(db.loans, OverdueOfMember(m, p.checkedAt)) == 0)
    && (p.Validated? || HasBorrowBook(p) ==> Count(db.loans, ActiveOfMember(m)) < MAX_ACTIVE_LOANS)
  }

  predicate BookFresh(db: Tables, x: Tx)
    requires x.request.BorrowRequest?
  {
    var b, p := x.request.book, x.phase;
    var holds := Where(db.reservations, HoldsOf(b));
    && (HasBorrowBook(p) ==> GetBookForUpdate(db.books, b).Some?)
    && (p.BookLocked? || p.HoldsLocked? ==> db.books[b] == p.book)
    && (p.HoldsLocked? || p.CopyTaken? || p.LoanFlushed? ==> holds == if p.hold.Some? then {p.hold.value} else {})
    && (p.CopyTaken? || p.LoanFlushed? ==>
          if p.hold.Some? then db.books[b] == p.book && db.reservations[p.hold.value].member == x.request.member
          else db.books[b].available > 0 && p.book == db.books[b].(available := db.books[b].available - 1)
               && BookRowAllowed(p.book))
    && (p.LoanFlushed? ==> p.checkedAt <= p.borrowedAt <= db.now)
  }

  predicate UpdateFresh(db: Tables, x: Tx)
    requires x.request.UpdateRequest?
  {
    var b, p := x.request.book, x.phase;
    && (HasUpdateBook(p) ==> GetBookForUpdate(db.books, b).Some?)
    && (p.UpdateLocked? ==> db.books[b] == p.book)
    && (p.UpdateWritten? ==>
          && x.request.total >= 0
          && db.books[b].available + (x.request.total - db.books[b].total) >= 0
          && p.book == db.books[b].(total := x.request.total,
                                    available := db.books[b].available + (x.request.total - db.books[b].total))
          && BookRowAllowed(p.book))
  }

  /** What a transaction remembers is still what the committed tables say: its locks keep it so. */
  predicate Fresh(db: Tables, x: Tx) {
    if x.request.BorrowRequest? then MemberFresh(db, x) && BookFresh(db, x) else UpdateFresh(db, x)
  }

  ghost predicate AllFresh(s: Sys) {
    forall i :: i in s.txs ==> Fresh(s.db, s.txs[i])
  }

  /** A commit by `x` leaves alone whatever another transaction's locks protect. */
  lemma CommitIsInvisible(db: Tables, x: Tx, y: Tx)
    requires WellPaired(x) && WellPaired(y) && Fresh(db, x) && Fresh(db, y)
    requires forall m :: LocksMember(x, m) ==> !LocksMember(y, m)
    requires forall b :: LocksBook(x, b) ==> !LocksBook(y, b)
    requires x.request.BorrowRequest? ==> x.request.loan !in db.loans
    ensures Fresh(Published(db, x), y)
  {
    if x.phase.LoanFlushed? {
      LoanIsInvisible(db, x, y);
    } else if x.phase.UpdateWritten? {
      assert LocksBook(x, x.request.book);
    }
  }

  lemma LoanIsInvisible(db: Tables, x: Tx, y: Tx)
    requires WellPaired(x) && WellPaired(y) && Fresh(db, x) && Fresh(db, y) && x.phase.LoanFlushed?
    requires forall m :: LocksMember(x, m) ==> !LocksMember(y, m)
    requires forall b :: LocksBook(x, b) ==> !LocksBook(y, b)
    requires x.request.loan !in db.loans
    ensures Fresh(Published(db, x), y)
  {
    assert LocksMember(x, x.request.member) && LocksBook(x, x.request.book);
    if y.request.BorrowRequest? {
      if HasMember(y.phase) { LoanOfOthers(db, x, y); }
      if HasBorrowBook(y.phase) { HoldsOfOthers(db, x, y.request.book); }
    }
  }

  lemma LoanOfOthers(db: Tables, x: Tx, y: Tx)
    requires WellPaired(x) && x.phase.LoanFlushed? && x.request.loan !in db.loans
    requires y.request.BorrowRequest? && MemberFresh(db, y) && y.request.member != x.request.member
    ensures MemberFresh(Published(db, x), y)
  {
    var l := NewLoan(x.request.member, x.request.book, x.phase.borrowedAt);
    CountPut(db.loans, x.request.loan, l, ActiveOfMember(y.request.member));
    if HasMember(y.phase) && !y.phase.MemberLocked? {
      CountPut(db.loans, x.request.loan, l, OverdueOfMember(y.request.member, y.phase.checkedAt));
    }
  }

  lemma HoldsOfOthers(db: Tables, x: Tx, b: Id)
    requires WellPaired(x) && x.request.BorrowRequest? && BookFresh(db, x) && x.phase.LoanFlushed?
      && b != x.request.book
    ensures Where(Published(db, x).reservations, HoldsOf(b)) == Where(db.reservations, HoldsOf(b))
  {
    if x.phase.hold.Some? {
      assert x.phase.hold.value in Where(db.reservations, HoldsOf(x.request.book));
    }
  }

  lemma BorrowStatementIsFresh(db: Tables, x: Tx)
    requires WellPaired(x) && !x.phase.Finished? && Fresh(db, x) && x.request.BorrowRequest?
    ensures Fresh(db, x.(phase := NextBorrowPhase(db, x)))
  {
    if x.phase.HoldsLocked? && x.phase.hold.Some? {
      assert x.phase.hold.value in Where(db.reservations, HoldsOf(x.request.book));
    }
  }

  lemma UpdateStatementIsFresh(db: Tables, x: Tx)
    requires WellPaired(x) && !x.phase.Finished? && Fresh(db, x) && x.request.UpdateRequest?
    ensures Fresh(db, x.(phase := NextUpdatePhase(db, x)))
  {
  }

  /** A transaction's own statement keeps what it remembers true. */
  lemma StatementIsFresh(db: Tables, x: Tx)
    requires WellPaired(x) && !x.phase.Finished? && Fresh(db, x)
    ensures Fresh(db, x.(phase := NextPhase(db, x)))
    ensures Published(db, x) != db ==> NextPhase(db, x) == Finished(None)
    ensures WellPaired(x.(phase := NextPhase(db, x)))
  {
    if x.request.BorrowRequest? { BorrowStatementIsFresh(db, x); } else { UpdateStatementIsFresh(db, x); }
  }

  lemma FinishedIsFresh(db: Tables, x: Tx)
    requires x.phase.Finished?
    ensures Fresh(db, x)
  {
  }

  lemma WaitingIsFresh(db: Tables, x: Tx, elapsed: nat)
    requires Fresh(db, x)
    ensures Fresh(db.(now := db.now + elapsed), x)
  {
  }

  lemma AdvanceKeepsLocks(s: Sys, i: Id)
    requires RowsLockedOnce(s.txs) && CanAdvance(s, i)
    ensures RowsLockedOnce(Next(s, Advance(i)).txs)
  {
    AdvanceLocksFreeRows(s, i);
  }

  lemma AdvanceKeepsLoanIds(s: Sys, i: Id)
    requires LoanIdsUnique(s) && CanAdvance(s, i)
    ensures LoanIdsUnique(Next(s, Advance(i)))
  {
  }

  lemma BeginKeepsExclusive(s: Sys, i: Id, request: Request)
    requires Exclusive(s) && Possible(s, Begin(i, request))
    ensures Exclusive(Next(s, Begin(i, request)))
  {
  }

  lemma AdvanceKeepsExclusive(s: Sys, i: Id)
    requires Exclusive(s) && CanAdvance(s, i) && Fresh(s.db, s.txs[i])
    ensures Exclusive(Next(s, Advance(i)))
  {
    StatementIsFresh(s.db, s.txs[i]);
    AdvanceKeepsLocks(s, i);
    AdvanceKeepsLoanIds(s, i);
  }

  lemma StepKeepsExclusive(s: Sys, e: Event)
    requires Exclusive(s) && AllFresh(s) && Possible(s, e)
    ensures Exclusive(Next(s, e))
  {
    match e
    case Begin(i, request) => BeginKeepsExclusive(s, i, request);
    case Wait(_) =>
    case Advance(i) => AdvanceKeepsExclusive(s, i);
  }

  /** A statement gets at most the locks it was free to take. */
  lemma AdvanceLocksFreeRows(s: Sys, i: Id)
    requires CanAdvance(s, i)
    ensures var x' := s.txs[i].(phase := NextPhase(s.db, s.txs[i]));
      && (forall m, j :: LocksMember(x', m) && j in s.txs && j != i && LocksMember(s.txs[j], m) ==>
        LocksMember(s.txs[i], m))
      && (forall b, j :: LocksBook(x', b) && j in s.txs && j != i && LocksBook(s.txs[j], b) ==> LocksBook(s.txs[i], b))
  {
  }

  lemma StepKeepsFresh(s: Sys, e: Event)
    requires Exclusive(s) && AllFresh(s) && Possible(s, e)
    ensures AllFresh(Next(s, e))
  {
    var s' := Next(s, e);
    forall j | j in s'.txs ensures Fresh(s'.db, s'.txs[j]) {
      match e
      case Begin(i, _) =>
      case Wait(elapsed) => WaitingIsFresh(s.db, s.txs[j], elapsed);
      case Advance(i) =>
        if j != i {
          CommitIsInvisible(s.db, s.txs[i], s.txs[j]);
        } else {
          StatementIsFresh(s.db, s.txs[i]);
          if Published(s.db, s.txs[i]) != s.db { FinishedIsFresh(s'.db, s'.txs[i]); }
        }
    }
  }

  lemma {:induction false} LocksHold(states: seq<Sys>, events: seq<Event>, k: nat)
    requires IsInterleaving(states, events) && k < |states|
    ensures Exclusive(states[k]) && AllFresh(states[k])
  {
    if k > 0 {
      LocksHold(states, events, k - 1);
      assert states[k - 1 + 1] == Next(states[k - 1], events[k - 1]);
      StepKeepsExclusive(states[k - 1], events[k - 1]);
      StepKeepsFresh(states[k - 1], events[k - 1]);
    }
  }

  // ----- interleavings are sequential runs -----

  /** The sequential step a statement amounts to: the whole transaction for a commit, no step otherwise. */
  function Amounts(x: Tx): Option<Op> {
    match x.phase
    case LoanFlushed(checkedAt, _, _, borrowedAt) =>
      if x.request.BorrowRequest?
      then Some(Borrow(x.request.member, x.request.book, x.request.loan, checkedAt, borrowedAt)) else None
    case UpdateWritten(_) =>
      if x.request.UpdateRequest?
      then Some(Op.UpdateBook(x.request.book, Some(x.request.total), None)) else None
    case _ => None
  }

  /** A commit publishes what the whole call would do if it ran alone at that moment. */
  lemma CommitIsAtomic(db: Tables, x: Tx)
    requires WellPaired(x) && Fresh(db, x) && Amounts(x).Some?
    requires x.request.BorrowRequest? ==> x.request.loan !in db.loans
    ensures Feasible(db, Amounts(x).value) && Apply(db, Amounts(x).value) == Success(Published(db, x))
  {
    if x.request.BorrowRequest? {
      if x.phase.hold.Some? {
        assert Where(db.reservations, HoldsOf(x.request.book)) == {x.phase.hold.value};
        assert x.phase.hold.value in Where(db.reservations, HoldsOf(x.request.book));
      }
    }
  }

  /** The whole call, alone on tables `db`; the overdue query's clock reading stands if it has been taken. */
  function Alone(db: Tables, x: Tx): Outcome {
    match x.request
    case BorrowRequest(m, b, loan) =>
      var checkedAt := if x.phase.OverdueChecked? || x.phase.Validated? || HasBorrowBook(x.phase)
        then x.phase.checkedAt else db.now;
      BorrowBook(db, m, b, loan, checkedAt, db.now)
    case UpdateRequest(b, total) => Circulation.UpdateBook(db, b, Some(total), None)
  }

  /** A call that gives up does so with the error the whole call would raise if it ran alone at that moment: no
      interleaving refuses a request for a reason no sequential run knows. */
  lemma RefusalIsAtomic(db: Tables, x: Tx)
    requires WellPaired(x) && !x.phase.Finished? && Fresh(db, x)
    requires NextPhase(db, x).Finished? && NextPhase(db, x).error.Some?
    ensures Alone(db, x) == Failure(NextPhase(db, x).error.value)
  {
    if x.phase.HoldsLocked? && x.phase.hold.Some? {
      assert Where(db.reservations, HoldsOf(x.request.book)) == {x.phase.hold.value};
      assert x.phase.hold.value in Where(db.reservations, HoldsOf(x.request.book));
    }
  }

  lemma OthersPublishNothing(db: Tables, x: Tx)
    requires WellPaired(x) && Amounts(x).None?
    ensures Published(db, x) == db
  {
  }

  /** What one event commits: a whole call, the clock's move, or nothing. */
  ghost function Commits(s: Sys, e: Event): seq<Op>
    requires Possible(s, e)
  {
    match e
    case Begin(_, _) => []
    case Wait(elapsed) => [Tick(elapsed)]
    case Advance(i) => if Amounts(s.txs[i]).Some? then [Amounts(s.txs[i]).value] else []
  }

  /** The calls committed by the first `k` events, in the order of their commits. */
  ghost function Committed(states: seq<Sys>, events: seq<Event>, k: nat): seq<Op>
    requires IsInterleaving(states, events) && k <= |events|
  {
    if k == 0 then [] else Committed(states, events, k - 1) + Commits(states[k - 1], events[k - 1])
  }

  /** `run` does `ops`, of which those from `from` on all go through, and ends in `t`. */
  ghost predicate EndsIn(run: seq<World>, ops: seq<Op>, from: nat, t: Tables) {
    && IsRun(run, ops) && from <= |ops| && run[|ops|].t == t
    && forall n :: from <= n < |ops| ==> Feasible(run[n].t, ops[n]) && Apply(run[n].t, ops[n]).Success?
  }

  lemma OpExtends(run: seq<World>, ops: seq<Op>, from: nat, t: Tables, op: Op) returns (run': seq<World>)
    requires EndsIn(run, ops, from, t) && Feasible(t, op) && Apply(t, op).Success?
    ensures EndsIn(run', ops + [op], from, Apply(t, op).value) && run <= run'
  {
    RunExtends(run, ops, op);
    run' := run + [Step(run[|ops|], op)];
    var ops' := ops + [op];
    forall n | from <= n < |ops'| ensures Feasible(run'[n].t, ops'[n]) && Apply(run'[n].t, ops'[n]).Success? {
      if n < |ops| { assert run'[n] == run[n] && ops'[n] == ops[n]; }
    }
  }

  lemma EventExtends(run: seq<World>, ops: seq<Op>, from: nat, s: Sys, e: Event) returns (run': seq<World>)
    requires EndsIn(run, ops, from, s.db) && Exclusive(s) && AllFresh(s) && Possible(s, e)
    ensures EndsIn(run', ops + Commits(s, e), from, Next(s, e).db) && run <= run'
  {
    run' := run;
    assert ops + [] == ops;
    match e
    case Begin(_, _) =>
    case Wait(elapsed) => run' := OpExtends(run, ops, from, s.db, Tick(elapsed));
    case Advance(i) =>
      if Amounts(s.txs[i]).Some? {
        CommitIsAtomic(s.db, s.txs[i]);
        run' := OpExtends(run, ops, from, s.db, Amounts(s.txs[i]).value);
      } else {
        OthersPublishNothing(s.db, s.txs[i]);
      }
  }

  lemma {:induction false} Serialized(states: seq<Sys>, events: seq<Event>, k: nat, start: seq<World>, ops: seq<Op>)
    returns (run: seq<World>)
    requires IsInterleaving(states, events) && k <= |events|
    requires IsRun(start, ops) && start[|ops|].t == states[0].db
    ensures EndsIn(run, ops + Committed(states, events, k), |ops|, states[k].db) && start <= run
    decreases k
  {
    if k == 0 {
      run := start;
      assert ops + [] == ops;
    } else {
      var before := Serialized(states, events, k - 1, start, ops);
      var done := Committed(states, events, k - 1);
      LocksHold(states, events, k - 1);
      assert states[k - 1 + 1] == Next(states[k - 1], events[k - 1]);
      run := EventExtends(before, ops + done, |ops|, states[k - 1], events[k - 1]);
      assert ops + done + Commits(states[k - 1], events[k - 1]) == ops + Committed(states, events, k);
    }
  }

  /** Serializability: any number of concurrent borrow_book and update_book calls, in any interleaving of their
      statements, commit what the committed calls do one after the other, each going through, in the order of their
      commits: continuing any run that reaches the tables at the start by those calls reaches the tables at the end. */
  lemma InterleavingsAreRuns(states: seq<Sys>, events: seq<Event>, k: nat, start: seq<World>, ops: seq<Op>)
    requires IsInterleaving(states, events) && k <= |events|
    requires IsRun(start, ops) && start[|ops|].t == states[0].db
    ensures exists run ::
      EndsIn(run, ops + Committed(states, events, k), |ops|, states[k].db) && start <= run
  {
    var run := Serialized(states, events, k, start, ops);
  }

  /** A call that ends well has committed: exactly one of its statements did, and published the whole call. */
  lemma {:induction false} EndsWellByCommitting(states: seq<Sys>, events: seq<Event>, k: nat, i: Id)
    requires IsInterleaving(states, events) && k <= |events|
    ensures i in states[k].txs && states[k].txs[i].phase == Finished(None) <==>
      exists n :: 0 <= n < k && events[n] == Advance(i) && Amounts(states[n].txs[i]).Some?
    ensures forall n, n' :: 0 <= n < n' < k && events[n] == Advance(i) && Amounts(states[n].txs[i]).Some? ==>
      !(events[n'] == Advance(i) && Amounts(states[n'].txs[i]).Some?)
  {
    if k > 0 {
      EndsWellByCommitting(states, events, k - 1, i);
      assert states[k - 1 + 1] == Next(states[k - 1], events[k - 1]);
      assert Possible(states[k - 1], events[k - 1]);
    }
  }

  /** So the committed state is sound at every moment: copies conserved, available_copies within its CHECKs, and no
      member over a limit, for locked and unlocked rows alike. */
  lemma InterleavingsAreSound(states: seq<Sys>, events: seq<Event>, k: nat)
    requires IsInterleaving(states, events) && Reachable(states[0].db) && k < |states|
    ensures Sound(states[k].db, None)
  {
    var start: seq<World>, ops: seq<Op> :| IsRun(start, ops) && start[|ops|].t == states[0].db;
    var run := Serialized(states, events, k, start, ops);
    var ops' := ops + Committed(states, events, k);
    RunsStaySound(run, ops', |ops'|);
  }

  /** So in any interleaving every refusal is one the committed tables of that moment call for. */
  lemma RefusalsAreSequential(states: seq<Sys>, events: seq<Event>, k: nat)
    requires IsInterleaving(states, events) && k < |events| && events[k].Advance?
    ensures var x := states[k].txs[events[k].tx];
      NextPhase(states[k].db, x).Finished? && NextPhase(states[k].db, x).error.Some? ==>
        Alone(states[k].db, x) == Failure(NextPhase(states[k].db, x).error.value)
  {
    LocksHold(states, events, k);
    var x := states[k].txs[events[k].tx];
    assert Possible(states[k], events[k]) && Fresh(states[k].db, x);
    if NextPhase(states[k].db, x).Finished? && NextPhase(states[k].db, x).error.Some? {
      RefusalIsAtomic(states[k].db, x);
    }
  }

  // ----- progress -----

  predicate Unfinished(s: Sys, i: Id) { i in s.txs && !s.txs[i].phase.Finished? }

  /** Whoever has its book row can go on: the holds it asks for are locked by nobody else. */
  lemma BookHolderAdvances(s: Sys, i: Id)
    requires Exclusive(s) && AllFresh(s) && Unfinished(s, i)
    requires HasBorrowBook(s.txs[i].phase) || HasUpdateBook(s.txs[i].phase)
    ensures CanAdvance(s, i)
  {
    var x := s.txs[i];
    if x.phase.BookLocked? {
      forall j, r | j in s.txs && j != i && r in Where(s.db.reservations, HoldsOf(x.request.book))
        ensures !LocksReservation(s.txs[j], r)
      {
        var y := s.txs[j];
        if LocksReservation(y, r) {
          assert Fresh(s.db, y);
          assert r in Where(s.db.reservations, HoldsOf(y.request.book));
          assert LocksBook(x, x.request.book) && LocksBook(y, x.request.book);
        }
      }
    }
  }

  /** No deadlock: while any call is unfinished, some call can execute its next statement. */
  lemma SomebodyAdvances(states: seq<Sys>, events: seq<Event>, k: nat)
    requires IsInterleaving(states, events) && k < |states|
    requires exists i :: Unfinished(states[k], i)
    ensures exists i :: CanAdvance(states[k], i)
  {
    var s := states[k];
    LocksHold(states, events, k);
    var i :| Unfinished(s, i);
    if !CanAdvance(s, i) {
      var j := Blocker(s, i);
      if !CanAdvance(s, j) {
        var n := Blocker(s, j);
        assert CanAdvance(s, n);
      }
    }
  }

  /** Rank in the lock order: nothing, the member row, the book row. */
  function Rank(p: Phase): nat {
    if HasBorrowBook(p) || HasUpdateBook(p) then 2 else if HasMember(p) then 1 else 0
  }

  /** A call that must wait, waits for one further along in the lock order. */
  lemma Blocker(s: Sys, i: Id) returns (j: Id)
    requires Exclusive(s) && AllFresh(s) && Unfinished(s, i) && !CanAdvance(s, i)
    ensures Unfinished(s, j) && Rank(s.txs[i].phase) < Rank(s.txs[j].phase)
    ensures Rank(s.txs[j].phase) == 2 ==> CanAdvance(s, j)
  {
    var x := s.txs[i];
    if HasBorrowBook(x.phase) || HasUpdateBook(x.phase) {
      BookHolderAdvances(s, i);
    }
    if x.phase.BorrowStart? {
      j :| j in s.txs && j != i && LocksMember(s.txs[j], x.request.member);
    } else {
      j :| j in s.txs && j != i && LocksBook(s.txs[j], x.request.book);
    }
    if Rank(s.txs[j].phase) == 2 { BookHolderAdvances(s, j); }
  }

  /** Statements a call has left. */
  function Remaining(p: Phase): nat {
    match p
    case BorrowStart => 8
    case MemberLocked(_) => 7
    case OverdueChecked(_) => 6
    case Validated(_) => 5
    case BookLocked(_, _) => 4
    case HoldsLocked(_, _, _) => 3
    case CopyTaken(_, _, _) => 2
    case LoanFlushed(_, _, _, _) => 1
    case UpdateStart => 3
    case UpdateLocked(_) => 2
    case UpdateWritten(_) => 1
    case Finished(_) => 0
  }

  /** Every statement brings its call nearer its end, and nobody else further from theirs. */
  lemma StatementsRunOut(s: Sys, i: Id)
    requires CanAdvance(s, i)
    ensures var s' := Next(s, Advance(i));
      && Remaining(s'.txs[i].phase) < Remaining(s.txs[i].phase)
      && forall j :: j in s.txs && j != i ==> s'.txs[j] == s.txs[j]
  {
  }
}
