/** The dashboard's inventory totals against the circulation state. */
module Dashboard {
  import opened Prelude
  import opened Domain
  import opened Repositories
  import opened Machine
  import opened Inventory
  import opened Queue

  function IsLive(): Book -> bool { (book: Book) => book.Live() }
  function CheckedOut(): Loan -> bool {
    (l: Loan) => l.status.Borrowed? || l.status.Renewed? || l.status.Overdue?
  }
  function OnHold(): Reservation -> bool { (r: Reservation) => r.status.Hold? }

  /** SUM(f) over the given books. */
  ghost function Sum(s: set<Id>, f: Id -> int): int {
    if s == {} then 0 else var x :| x in s; f(x) + Sum(s - {x}, f)
  }

  ghost function TotalCopies(t: Tables): int {
    Sum(Where(t.books, IsLive()), (b: Id) => if b in t.books then t.books[b].total else 0)
  }
  ghost function AvailableCopies(t: Tables): int {
    Sum(Where(t.books, IsLive()), (b: Id) => if b in t.books then t.books[b].available else 0)
  }
  function CheckedOutCopies(t: Tables): nat { Count(t.loans, CheckedOut()) }
  function HeldCopies(t: Tables): nat { Count(t.reservations, OnHold()) }

  lemma {:induction false} SumOfParts(s: set<Id>, total: Id -> int, parts: Id -> int, out: Id -> int, held: Id -> int)
    requires forall b :: b in s ==> total(b) == parts(b) + out(b) + held(b)
    ensures Sum(s, total) == Sum(s, parts) + Sum(s, out) + Sum(s, held)
  {
    if s != {} {
      var x :| x in s && Sum(s, total) == total(x) + Sum(s - {x}, total);
      SumWithout(s, x, parts);
      SumWithout(s, x, out);
      SumWithout(s, x, held);
      SumOfParts(s - {x}, total, parts, out, held);
    }
  }

  /** The order of summation does not matter. */
  lemma {:induction false} SumWithout(s: set<Id>, x: Id, f: Id -> int)
    requires x in s
    ensures Sum(s, f) == f(x) + Sum(s - {x}, f)
    decreases |s|
  {
    var y :| y in s && Sum(s, f) == f(y) + Sum(s - {y}, f);
    if y != x {
      SumWithout(s - {y}, x, f);
      SumWithout(s - {x}, y, f);
      assert s - {y} - {x} == s - {x} - {y};
    }
  }

  /** Rows of `m` whose book is one of `s`. */
  function Of<V>(m: map<Id, V>, book: V -> Id, p: V -> bool, s: set<Id>): set<Id> {
    set i | i in m && p(m[i]) && book(m[i]) in s
  }

  /** Counting rows book by book counts them all once. */
  lemma {:induction false} CountByBook<V>(m: map<Id, V>, book: V -> Id, p: V -> bool, s: set<Id>, f: Id -> int)
    requires forall b :: b in s ==> f(b) == |Of(m, book, p, {b})|
    ensures Sum(s, f) == |Of(m, book, p, s)|
    decreases |s|
  {
    if s == {} {
      assert Of(m, book, p, s) == {};
    } else {
      var x :| x in s && Sum(s, f) == f(x) + Sum(s - {x}, f);
      CountByBook(m, book, p, s - {x}, f);
      assert Of(m, book, p, s) == Of(m, book, p, {x}) + Of(m, book, p, s - {x});
      assert Of(m, book, p, {x}) !! Of(m, book, p, s - {x});
    }
  }

  function LoanBook(): Loan -> Id { (l: Loan) => l.book }
  function ReservationBook(): Reservation -> Id { (r: Reservation) => r.book }

  ghost predicate NothingOutOrHeldOfDeleted(t: Tables) {
    forall b :: b in t.books && !t.books[b].Live() ==>
      Count(t.loans, OutOfBook(b)) == 0 && Count(t.reservations, HoldsOf(b)) == 0
  }

  lemma LiveTotals(t: Tables)
    requires Sound(t, None)
    ensures var live := Where(t.books, IsLive());
      TotalCopies(t) == AvailableCopies(t) + |Of(t.loans, LoanBook(), CheckedOut(), live)|
                                           + |Of(t.reservations, ReservationBook(), OnHold(), live)|
  {
    var live := Where(t.books, IsLive());
    var total := (b: Id) => if b in t.books then t.books[b].total else 0;
    var shelf := (b: Id) => if b in t.books then t.books[b].available else 0;
    var out := (b: Id) => |Of(t.loans, LoanBook(), CheckedOut(), {b})| as int;
    var held := (b: Id) => |Of(t.reservations, ReservationBook(), OnHold(), {b})| as int;
    forall b | b in live ensures total(b) == shelf(b) + out(b) + held(b) {
      assert Missing(t, b) == 0;
      OneBook(t, b);
    }
    SumOfParts(live, total, shelf, out, held);
    CountByBook(t.loans, LoanBook(), CheckedOut(), live, out);
    CountByBook(t.reservations, ReservationBook(), OnHold(), live, held);
  }

  lemma OneBook(t: Tables, b: Id)
    ensures Of(t.loans, LoanBook(), CheckedOut(), {b}) == Where(t.loans, OutOfBook(b))
    ensures Of(t.reservations, ReservationBook(), OnHold(), {b}) == Where(t.reservations, HoldsOf(b))
  {
  }

  lemma DeletedRowsOnly(t: Tables)
    requires RowRules(t)
    ensures var live := Where(t.books, IsLive());
      && Of(t.loans, LoanBook(), CheckedOut(), live) <= Where(t.loans, CheckedOut())
      && Of(t.reservations, ReservationBook(), OnHold(), live) <= Where(t.reservations, OnHold())
      && (NothingOutOrHeldOfDeleted(t) <==>
            && Of(t.loans, LoanBook(), CheckedOut(), live) == Where(t.loans, CheckedOut())
            && Of(t.reservations, ReservationBook(), OnHold(), live) == Where(t.reservations, OnHold()))
  {
    var live := Where(t.books, IsLive());
    if NothingOutOrHeldOfDeleted(t) {
      forall i | i in Where(t.loans, CheckedOut()) ensures t.loans[i].book in live {
        assert i in Where(t.loans, OutOfBook(t.loans[i].book));
      }
      forall i | i in Where(t.reservations, OnHold()) ensures t.reservations[i].book in live {
        assert i in Where(t.reservations, HoldsOf(t.reservations[i].book));
      }
    } else {
      var b :| b in t.books && !t.books[b].Live()
        && (Count(t.loans, OutOfBook(b)) != 0 || Count(t.reservations, HoldsOf(b)) != 0);
      if Count(t.loans, OutOfBook(b)) != 0 {
        var i :| i in Where(t.loans, OutOfBook(b));
        assert i in Where(t.loans, CheckedOut()) && i !in Of(t.loans, LoanBook(), CheckedOut(), live);
      } else {
        var i :| i in Where(t.reservations, HoldsOf(b));
        assert i in Where(t.reservations, OnHold()) && i !in Of(t.reservations, ReservationBook(), OnHold(), live);
      }
    }
  }

  lemma TotalsOfSound(t: Tables)
    requires Sound(t, None)
    ensures TotalCopies(t) <= AvailableCopies(t) + CheckedOutCopies(t) + HeldCopies(t)
    ensures TotalCopies(t) == AvailableCopies(t) + CheckedOutCopies(t) + HeldCopies(t) <==> NothingOutOrHeldOfDeleted(t)
  {
    var live := Where(t.books, IsLive());
    LiveTotals(t);
    DeletedRowsOnly(t);
    SubsetSize(Of(t.loans, LoanBook(), CheckedOut(), live), Where(t.loans, CheckedOut()));
    SubsetSize(Of(t.reservations, ReservationBook(), OnHold(), live), Where(t.reservations, OnHold()));
  }

  /** In every state of every run, the four figures of the dashboard add up, except for what is still out or held
      of deleted books. */
  lemma DashboardAddsUp(run: seq<World>, ops: seq<Op>, k: nat)
    requires IsRun(run, ops) && k < |run|
    ensures var t := run[k].t;
      && TotalCopies(t) <= AvailableCopies(t) + CheckedOutCopies(t) + HeldCopies(t)
      && (TotalCopies(t) == AvailableCopies(t) + CheckedOutCopies(t) + HeldCopies(t) <==> NothingOutOrHeldOfDeleted(t))
  {
    RunsStaySound(run, ops, k);
    TotalsOfSound(run[k].t);
  }

  /** Each of the two row figures on its own: over any run, checked out is what was lent and not given back, and held is
      what was promoted and neither borrowed, nor expired, nor cancelled. */
  lemma FiguresOverRuns(run: seq<World>, ops: seq<Op>, k: nat)
    requires IsRun(run, ops) && k < |run|
    ensures var t, h := run[k].t, run[k].h;
      && CheckedOutCopies(t) == |t.loans| - |h.releases|
      && HeldCopies(t) == |h.promotions| - Count(t.reservations, InStatus(Completed))
                        - Count(t.reservations, InStatus(Expired)) - |h.cancelledHolds|
  {
    var t := run[k].t;
    HoldsAreAccountedFor(run, ops, k);
    assert Where(t.reservations, OnHold()) == Where(t.reservations, InStatus(Hold));
    ReleasesAreReturns(run, ops, k);
    var out, back := Where(t.loans, CheckedOut()), Where(t.loans, IsReturned());
    assert t.loans.Keys == out + back && out !! back;
  }
}
