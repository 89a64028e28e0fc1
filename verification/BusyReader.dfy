/** A run in which a member reserves a book they have out: twenty shorter loans hide it from the look-back. */
module BusyReader {
  import opened Prelude
  import opened Domain
  import opened Repositories
  import opened Circulation
  import opened Machine
  import opened LookBack

  const KEPT := "9780131103300"
  const SHORT := "9780201633610"

  /** The member keeps book 0; book 1 they take out and bring back, again and again. */
  function Shelf(available: int): map<Id, Book> {
    map[0 := Book(KEPT, 1, 0, None), 1 := Book(SHORT, 1, available, None)]
  }

  function Read(n: nat): map<Id, Loan> {
    if n == 0 then map[0 := NewLoan(1, 0, 0)] else Read(n - 1)[n := Closed(NewLoan(1, 1, 1), 1)]
  }

  function Returned(n: nat): seq<Id> {
    if n == 0 then [] else Returned(n - 1) + [n]
  }

  function Tabled(available: int, loans: map<Id, Loan>): Tables {
    Tables(Shelf(available), loans, map[], map[1 := Member(Active, false)], 1)
  }

  function After(n: nat): World {
    World(Tabled(1, Read(n)), History([], map[], {}, Returned(n)))
  }

  function Numbers(n: nat): set<Id> {
    if n == 0 then {} else Numbers(n - 1) + {n}
  }

  lemma {:induction false} CountNumbers(n: nat)
    ensures |Numbers(n)| == n
    ensures forall i :: i in Numbers(n) <==> 1 <= i <= n
  {
    if n > 0 {
      CountNumbers(n - 1);
    }
  }

  lemma {:induction false} ReadRows(n: nat)
    ensures forall i: Id :: i in Read(n) <==> i <= n
    ensures forall i: Id :: i <= n ==> Read(n)[i] == if i == 0 then NewLoan(1, 0, 0) else Closed(NewLoan(1, 1, 1), 1)
  {
    if n > 0 {
      ReadRows(n - 1);
      assert Read(n) == Read(n - 1)[n := Closed(NewLoan(1, 1, 1), 1)];
    }
  }

  /** One more call at the end of a run. */
  lemma Goes(run: seq<World>, ops: seq<Op>, w: World, op: Op) returns (run': seq<World>, ops': seq<Op>)
    requires IsRun(run, ops) && run[|ops|] == w && Feasible(w.t, op)
    ensures IsRun(run', ops') && run'[|ops'|] == Step(w, op)
  {
    RunExtends(run, ops, op);
    run', ops' := run + [Step(w, op)], ops + [op];
  }

  lemma Stocked(t: Tables, h: History, b: Id, isbn: string)
    requires forall i :: i in t.books ==> t.books[i].isbn != isbn
    requires |isbn| == 13 && b !in t.books
    ensures Step(World(t, h), Op.CreateBook(b, isbn, 1)) == World(PutBook(t, b, Book(isbn, 1, 1, None)), h)
  {
    assert Where(t.books, LiveWithIsbn(isbn)) == {} && Where(t.books, WithIsbn(isbn)) == {};
  }

  /** With no overdue loan and at most one out, the member gets the last copy of a book nobody holds. */
  lemma TakenOut(t: Tables, h: History, b: Id, loan: Id)
    requires t.members == map[1 := Member(Active, false)] && t.reservations == map[]
    requires loan !in t.loans && b in t.books && t.books[b].Live() && t.books[b].available == 1 && t.books[b].total == 1
    requires |t.books[b].isbn| == 13 && 0 <= t.now <= 1
    requires forall i :: i in t.loans ==>
      t.loans[i].dueDate >= BORROW_PERIOD && (i != 0 ==> t.loans[i].status.Returned?)
    ensures Step(World(t, h), Borrow(1, b, loan, t.now, t.now))
         == World(PutLoan(PutBook(t, b, t.books[b].(available := 0)), loan, NewLoan(1, b, t.now)), h)
  {
    assert Where(t.loans, OverdueOfMember(1, t.now)) == {};
    SubsetSize(Where(t.loans, ActiveOfMember(1)), {0});
    assert Where(t.reservations, HoldsOf(b)) == {};
  }

  lemma BroughtBack(n: nat)
    requires n > 0
    ensures var t := Tabled(0, Read(n - 1)[n := NewLoan(1, 1, 1)]);
      Feasible(t, Return(n, true, None))
      && Step(World(t, After(n - 1).h), Return(n, true, None)) == After(n)
  {
    var t := Tabled(0, Read(n - 1)[n := NewLoan(1, 1, 1)]);
    assert Where(t.reservations, PendingOf(1)) == {};
    assert t.loans[n := Closed(NewLoan(1, 1, 1), 1)] == Read(n);
    assert t.books[1 := t.books[1].(available := 1)] == Shelf(1);
  }

  lemma OneMore(n: nat, run: seq<World>, ops: seq<Op>) returns (run': seq<World>, ops': seq<Op>)
    requires n > 0 && IsRun(run, ops) && run[|ops|] == After(n - 1)
    ensures IsRun(run', ops') && run'[|ops'|] == After(n)
  {
    var w := After(n - 1);
    ReadRows(n - 1);
    TakenOut(w.t, w.h, 1, n);
    assert w.t.books[1 := w.t.books[1].(available := 0)] == Shelf(0);
    run', ops' := Goes(run, ops, w, Borrow(1, 1, n, 1, 1));
    BroughtBack(n);
    run', ops' := Goes(run', ops', run'[|ops'|], Return(n, true, None));
  }

  lemma OneBook() returns (run: seq<World>, ops: seq<Op>)
    ensures IsRun(run, ops)
    ensures run[|ops|] == World(Tables(map[0 := Book(KEPT, 1, 1, None)], map[], map[],
                                       map[1 := Member(Active, false)], 0),
                                History([], map[], {}, []))
  {
    run, ops := [Empty(0)], [];
    run, ops := Goes(run, ops, Empty(0), SetMember(1, Member(Active, false)));
    var w := run[|ops|];
    Stocked(w.t, w.h, 0, KEPT);
    run, ops := Goes(run, ops, w, Op.CreateBook(0, KEPT, 1));
  }

  /** Two books of one copy each, the first of them borrowed. */
  lemma Opening() returns (run: seq<World>, ops: seq<Op>)
    ensures IsRun(run, ops) && run[|ops|] == After(0)
  {
    run, ops := OneBook();
    var w := run[|ops|];
    assert KEPT[4] != SHORT[4];
    Stocked(w.t, w.h, 1, SHORT);
    run, ops := Goes(run, ops, w, Op.CreateBook(1, SHORT, 1));
    var w' := run[|ops|];
    TakenOut(w'.t, w'.h, 0, 0);
    run, ops := Goes(run, ops, w', Borrow(1, 0, 0, 0, 0));
    KeptIsOut(w'.t.books, run[|ops|].t);
    run, ops := Goes(run, ops, run[|ops|], Tick(1));
  }

  lemma KeptIsOut(books: map<Id, Book>, t: Tables)
    requires books == map[0 := Book(KEPT, 1, 1, None)][1 := Book(SHORT, 1, 1, None)]
    requires t.books == books[0 := books[0].(available := 0)] && t.loans == map[][0 := NewLoan(1, 0, 0)]
    ensures t.books == Shelf(1) && t.loans == Read(0)
  {
  }

  lemma {:induction false} Reading(n: nat) returns (run: seq<World>, ops: seq<Op>)
    ensures IsRun(run, ops) && run[|ops|] == After(n)
  {
    if n == 0 {
      run, ops := Opening();
    } else {
      run, ops := Reading(n - 1);
      run, ops := OneMore(n, run, ops);
    }
  }

  lemma HiddenBehind(n: nat)
    ensures Eligible(After(n).t, 1, 0) && Held(After(n).t, 1, 0) == {0} && |Covering(After(n).t, 1, 0)| == n
  {
    var t := After(n).t;
    ReadRows(n);
    CountNumbers(n);
    assert Held(t, 1, 0) == {0};
    assert Covering(t, 1, 0) == Numbers(n);
    assert Where(t.reservations, ActiveReservationsOf(1)) == {}
      && Where(t.reservations, ActiveReservationsOn(1, 0)) == {};
  }

  /** A member waits for a book they have out. */
  predicate WaitsForOwn(t: Tables, m: Id, b: Id, loan: Id, i: Id) {
    && loan in t.loans && t.loans[loan].member == m && OutOfBook(b)(t.loans[loan])
    && i in t.reservations && t.reservations[i].member == m && PendingOf(b)(t.reservations[i])
  }

  lemma ReservesBehind(n: nat) returns (run: seq<World>, ops: seq<Op>)
    requires n >= 20
    ensures IsRun(run, ops) && WaitsForOwn(run[|ops|].t, 1, 0, 0, 0)
  {
    run, ops := Reading(n);
    var w := After(n);
    HiddenBehind(n);
    var window := CoverAllowsMiss(w.t, 1, 0);
    RefusedIfSeen(w.t, 1, 0, 0, window);
    run, ops := Goes(run, ops, w, Place(1, 0, 0, window));
    ReadRows(n);
  }

  /** After twenty short loans the member queues for the very copy they have out. */
  lemma ReservesOwnCopy()
    ensures exists run: seq<World>, ops: seq<Op> :: IsRun(run, ops) && WaitsForOwn(run[|ops|].t, 1, 0, 0, 0)
  {
    var run, ops := ReservesBehind(20);
  }

  /** One short loan fewer, and the member is refused, whatever the history query answers. */
  lemma RefusedAfterNineteen()
    ensures exists run: seq<World>, ops: seq<Op> ::
      && IsRun(run, ops) && Eligible(run[|ops|].t, 1, 0) && Held(run[|ops|].t, 1, 0) != {}
      && forall window :: IsNewestWindow(run[|ops|].t.loans, 1, window) ==>
           PlaceReservation(run[|ops|].t, 1, 0, 0, window) == Failure(BookAlreadyBorrowed)
  {
    var run, ops := RefusedBehind(19);
  }

  lemma RefusedBehind(n: nat) returns (run: seq<World>, ops: seq<Op>)
    requires n < 20
    ensures IsRun(run, ops) && Eligible(run[|ops|].t, 1, 0) && Held(run[|ops|].t, 1, 0) != {}
    ensures forall window :: IsNewestWindow(run[|ops|].t.loans, 1, window) ==>
      PlaceReservation(run[|ops|].t, 1, 0, 0, window) == Failure(BookAlreadyBorrowed)
  {
    run, ops := Reading(n);
    HiddenBehind(n);
    RefusedExactly(After(n).t, 1, 0, 0);
  }
}
