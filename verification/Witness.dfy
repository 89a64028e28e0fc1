/** Runs of ordinary calls in which the code does not do what its documents say. */
module Witness {
  import opened Prelude
  import opened Domain
  import opened Repositories
  import opened Circulation
  import opened Machine
  import opened Inventory
  import opened Promises

  const ISBN := "9780131103300"
  const NOBODY: set<Id> := {}

  function Ops(): seq<Op> {
    [ SetMember(1, Member(Active, false)), SetMember(2, Member(Active, false)),
      SetMember(3, Member(Active, false)), SetMember(4, Member(Active, false)),
      Op.CreateBook(0, ISBN, 2),
      Borrow(1, 0, 1, 0, 0), Borrow(2, 0, 2, 0, 0),
      Place(3, 0, 3, NOBODY), Place(4, 0, 4, NOBODY),
      Return(1, true, Some(3)), Return(2, true, Some(4)) ]
  }

  function Members(n: nat): map<Id, Member> {
    if n == 0 then map[] else Members(n - 1)[n := Member(Active, false)]
  }
  function Shelf(available: int): map<Id, Book> { map[0 := Book(ISBN, 2, available, None)] }
  function Waits(m: Id): Reservation { Reservation(m, 0, 0, None, Pending) }
  function Holds(m: Id): Reservation { Promoted(Waits(m), 0) }
  function Out(m: Id): Loan { NewLoan(m, 0, 0) }
  function Back(m: Id): Loan { Closed(Out(m), 0) }

  function At(available: int, loans: map<Id, Loan>, rs: map<Id, Reservation>): Tables {
    Tables(Shelf(available), loans, rs, Members(4), 0)
  }

  lemma Stocked(h: History)
    ensures Step(World(Tables(map[], map[], map[], Members(4), 0), h), Op.CreateBook(0, ISBN, 2)) ==
      World(At(2, map[], map[]), h)
  {
    var none: map<Id, Book> := map[];
    assert Where(none, LiveWithIsbn(ISBN)) == {} && Where(none, WithIsbn(ISBN)) == {};
    assert none[0 := Book(ISBN, 2, 2, None)] == Shelf(2);
  }

  lemma LentOne(m: Id, available: int, loans: map<Id, Loan>, h: History)
    requires m in Members(4) && m !in loans && 0 < available <= 2
    requires forall i :: i in loans ==> loans[i].member != m
    ensures Step(World(At(available, loans, map[]), h), Borrow(m, 0, m, 0, 0))
         == World(At(available - 1, loans[m := Out(m)], map[]), h)
  {
    var t := At(available, loans, map[]);
    assert Where(t.loans, OverdueOfMember(m, 0)) == {} && Where(t.loans, ActiveOfMember(m)) == {};
    assert Where(t.reservations, HoldsOf(0)) == {};
    assert t.books[0 := t.books[0].(available := available - 1)] == Shelf(available - 1);
  }

  lemma QueuedOne(m: Id, loans: map<Id, Loan>, rs: map<Id, Reservation>, h: History)
    requires m in Members(4) && m !in rs
    requires forall i :: i in loans ==> loans[i].member != m
    requires forall i :: i in rs ==> rs[i].member != m
    ensures Feasible(At(0, loans, rs), Place(m, 0, m, NOBODY))
    ensures Step(World(At(0, loans, rs), h), Place(m, 0, m, NOBODY)) == World(At(0, loans, rs[m := Waits(m)]), h)
  {
    assert Where(loans, OfMember(m)) == {};
    assert Where(rs, ActiveReservationsOf(m)) == {} && Where(rs, ActiveReservationsOn(m, 0)) == {};
  }

  lemma GaveBack(m: Id, next: Id, loans: map<Id, Loan>, rs: map<Id, Reservation>, h: History)
    requires m in loans && loans[m] == Out(m)
    requires next in rs && rs[next] == Waits(next)
    requires forall i :: i in rs && rs[i].status.Pending? ==> rs[i].reservedAt == 0
    ensures Feasible(At(0, loans, rs), Return(m, true, Some(next)))
    ensures Step(World(At(0, loans, rs), h), Return(m, true, Some(next)))
         == World(At(0, loans[m := Back(m)], rs[next := Holds(next)]),
                  Note(h.(releases := h.releases + [m]), 0, Some(next), 0))
  {
    assert next in FifoHeads(rs, 0);
  }

  function Loans(first: Loan, second: Loan): map<Id, Loan> { map[1 := first, 2 := second] }
  function Queue(first: Reservation, second: Reservation): map<Id, Reservation> { map[3 := first, 4 := second] }

  function State(k: nat): World {
    var start := History([], map[], {}, []);
    var once := History([Promotion(3, 0)], map[3 := 0], {}, [1]);
    if k <= 4 then World(Tables(map[], map[], map[], Members(k), 0), start)
    else if k == 5 then World(At(2, map[], map[]), start)
    else if k == 6 then World(At(1, map[1 := Out(1)], map[]), start)
    else if k == 7 then World(At(0, Loans(Out(1), Out(2)), map[]), start)
    else if k == 8 then World(At(0, Loans(Out(1), Out(2)), map[3 := Waits(3)]), start)
    else if k == 9 then World(At(0, Loans(Out(1), Out(2)), Queue(Waits(3), Waits(4))), start)
    else if k == 10 then World(At(0, Loans(Back(1), Out(2)), Queue(Holds(3), Waits(4))), once)
    else World(At(0, Loans(Back(1), Back(2)), Queue(Holds(3), Holds(4))),
               Note(once.(releases := [1, 2]), 0, Some(4), 0))
  }

  lemma Joins(k: nat)
    requires k < 4
    ensures Feasible(State(k).t, Ops()[k]) && State(k + 1) == Step(State(k), Ops()[k])
  {
    assert Ops()[k] == SetMember(k + 1, Member(Active, false));
  }

  lemma Proceeds(k: nat)
    requires 4 <= k < 9
    ensures Feasible(State(k).t, Ops()[k]) && State(k + 1) == Step(State(k), Ops()[k])
  {
    var h := State(k).h;
    if k == 4 { Stocked(h); }
    else if k == 5 { LentOne(1, 2, map[], h); }
    else if k == 6 {
      LentOne(2, 1, map[1 := Out(1)], h);
      assert map[1 := Out(1)][2 := Out(2)] == Loans(Out(1), Out(2));
    }
    else if k == 7 { QueuedOne(3, Loans(Out(1), Out(2)), map[], h); }
    else {
      QueuedOne(4, Loans(Out(1), Out(2)), map[3 := Waits(3)], h);
      assert map[3 := Waits(3)][4 := Waits(4)] == Queue(Waits(3), Waits(4));
    }
  }

  lemma FirstReturns()
    ensures Feasible(State(9).t, Ops()[9]) && State(10) == Step(State(9), Ops()[9])
  {
    var loans, rs := Loans(Out(1), Out(2)), Queue(Waits(3), Waits(4));
    assert Ops()[9] == Return(1, true, Some(3)) && State(9) == World(At(0, loans, rs), History([], map[], {}, []));
    GaveBack(1, 3, loans, rs, State(9).h);
    FirstIsBack(loans, rs);
  }

  lemma FirstIsBack(loans: map<Id, Loan>, rs: map<Id, Reservation>)
    requires loans == Loans(Out(1), Out(2)) && rs == Queue(Waits(3), Waits(4))
    ensures loans[1 := Back(1)] == Loans(Back(1), Out(2)) && rs[3 := Holds(3)] == Queue(Holds(3), Waits(4))
    ensures Note(History([], map[], {}, [] + [1]), 0, Some(3), 0) == History([Promotion(3, 0)], map[3 := 0], {}, [1])
  {
  }

  lemma SecondReturns()
    ensures Feasible(State(10).t, Ops()[10]) && State(11) == Step(State(10), Ops()[10])
  {
    GaveBack(2, 4, Loans(Back(1), Out(2)), Queue(Holds(3), Waits(4)), State(10).h);
    assert Loans(Back(1), Out(2))[2 := Back(2)] == Loans(Back(1), Back(2));
    assert Queue(Holds(3), Waits(4))[4 := Holds(4)] == Queue(Holds(3), Holds(4));
  }

  lemma Proceeding(k: nat)
    requires k < 11
    ensures Feasible(State(k).t, Ops()[k]) && State(k + 1) == Step(State(k), Ops()[k])
  {
    if k < 4 { Joins(k); } else if k < 9 { Proceeds(k); } else if k == 9 { FirstReturns(); } else { SecondReturns(); }
  }

  /** The first `n` calls lead to state `n`. */
  lemma Prefix(n: nat) returns (run: seq<World>)
    requires n <= 11
    ensures IsRun(run, Ops()[..n]) && run[n] == State(n)
  {
    run := seq(n + 1, k requires k >= 0 => State(k));
    forall k | 0 <= k < n ensures Feasible(run[k].t, Ops()[..n][k]) && run[k + 1] == Step(run[k], Ops()[..n][k]) {
      Proceeding(k);
    }
    assert Members(0) == map[];
  }

  /** The first `n` calls and then `op`. */
  lemma Then(n: nat, op: Op) returns (run: seq<World>)
    requires n <= 11 && Feasible(State(n).t, op)
    ensures IsRun(run, Ops()[..n] + [op]) && run[n] == State(n) && run[n + 1] == Step(State(n), op)
  {
    var run' := Prefix(n);
    RunExtends(run', Ops()[..n], op);
    run := run' + [Step(run'[n], op)];
  }

  /** Two copies out, two members waiting, both copies come back: now neither of the two can collect. */
  lemma TwoHoldersStuck()
    ensures exists run: seq<World> ::
      && IsRun(run, Ops()[..11])
      && BorrowBook(run[11].t, 3, 0, 5, 0, 0) == Failure(MultipleResultsFound)
      && BorrowBook(run[11].t, 4, 0, 5, 0, 0) == Failure(MultipleResultsFound)
  {
    var run := Prefix(11);
    Stuck(3);
    Stuck(4);
  }

  lemma Welcome(m: Id, loans: map<Id, Loan>, t: Tables)
    requires t.members == Members(4) && m in Members(4) && t.loans == loans
    requires forall i :: i in loans ==> loans[i].member != m
    ensures GetMemberForUpdate(t.members, m).Some? && MemberRejection(t, m, t.members[m], t.now).None?
  {
    assert Where(t.loans, OverdueOfMember(m, t.now)) == {} && Where(t.loans, ActiveOfMember(m)) == {};
  }

  lemma Stuck(m: Id)
    requires m == 3 || m == 4
    ensures BorrowBook(State(11).t, m, 0, 5, 0, 0) == Failure(MultipleResultsFound)
  {
    var t := State(11).t;
    Welcome(m, Loans(Back(1), Back(2)), t);
    assert Where(t.reservations, HoldsOf(0)) == {3, 4};
    HolderMayBorrow(t, m, 0, m, 5, 0, 0);
  }

  /** A book deleted while a copy is on hold: its only holder cannot collect. */
  lemma HolderOfDeletedBook()
    ensures exists run: seq<World> ::
      && IsRun(run, Ops()[..10] + [Op.DeleteBook(0)])
      && Where(run[11].t.reservations, HoldsOf(0)) == {3} && run[11].t.reservations[3].member == 3
      && BorrowBook(run[11].t, 3, 0, 5, 0, 0) == Failure(BookNotFound)
  {
    var run := Then(10, Op.DeleteBook(0));
    var t := run[11].t;
    assert t.reservations == Queue(Holds(3), Waits(4));
    assert Where(t.reservations, HoldsOf(0)) == {3};
    Welcome(3, Loans(Back(1), Out(2)), t);
    HolderMayBorrow(t, 3, 0, 3, 5, 0, 0);
  }

  /** A copy held for 49 hours, and no sweep so far: its holder still collects it. */
  lemma ExpiredHoldCollected()
    ensures exists run: seq<World> ::
      && IsRun(run, Ops()[..10] + [Tick(49 * HOUR)])
      && var t := run[11].t;
         && 3 in t.reservations && HoldExpiredBefore(t.now)(t.reservations[3]) && t.reservations[3].member == 3
         && BorrowBook(t, 3, 0, 5, t.now, t.now).Success?
  {
    var run := Then(10, Tick(49 * HOUR));
    var t := run[11].t;
    assert t.reservations == Queue(Holds(3), Waits(4));
    assert Where(t.reservations, HoldsOf(0)) == {3};
    Welcome(3, Loans(Back(1), Out(2)), t);
    HolderMayBorrow(t, 3, 0, 3, 5, t.now, t.now);
  }

  /** Two members wait for book 0, of which `total` copies exist and one is on the shelf. */
  lemma PassedOver(t: Tables, total: int)
    requires t.books == map[0 := Book(ISBN, total, 1, None)] && t.reservations == Queue(Waits(3), Waits(4))
    ensures Awaited(t, 0) && !QueueFirst(t)
  {
    assert 3 in Where(t.reservations, PendingOf(0));
    assert 0 in t.books && t.books[0].available == 1;
  }

  lemma BothWait()
    ensures State(9).t == At(0, Loans(Out(1), Out(2)), Queue(Waits(3), Waits(4))) && QueueFirst(State(9).t)
  {
  }

  /** A third copy is bought while two members wait, and goes to the shelf over their heads. */
  lemma BoughtPastTheQueue()
    ensures exists run: seq<World> ::
      && IsRun(run, Ops()[..9] + [Op.UpdateBook(0, Some(3), None)])
      && QueueFirst(run[9].t) && Awaited(run[10].t, 0) && !QueueFirst(run[10].t)
  {
    var op := Op.UpdateBook(0, Some(3), None);
    var run := Then(9, op);
    BothWait();
    var t := State(9).t;
    assert Apply(t, op) == Success(PutBook(t, 0, Book(ISBN, 3, 1, None)));
    PassedOver(run[10].t, 3);
  }

  /** A copy comes back through a BorrowService that knows no queue, and goes to the shelf over the heads of two. */
  lemma ReturnedPastTheQueue()
    ensures exists run: seq<World> ::
      && IsRun(run, Ops()[..9] + [Return(1, false, None)])
      && QueueFirst(run[9].t) && Awaited(run[10].t, 0) && !QueueFirst(run[10].t)
  {
    var op := Return(1, false, None);
    var run := Then(9, op);
    BothWait();
    var t := State(9).t;
    assert t.loans[1] == Out(1);
    assert Apply(t, op) == Success(PutBook(PutLoan(t, 1, Back(1)), 0, Book(ISBN, 2, 1, None)));
    PassedOver(run[10].t, 2);
  }

  /** One copy on the shelf, one out, nobody waiting: a promotion now would put a third of two copies on the shelf. */
  lemma PromotedFromNothing()
    ensures exists run: seq<World> ::
      && IsRun(run, Ops()[..6])
      && var t := run[6].t;
         && IsFifoAnswer(t.reservations, 0, None)
         && PromoteNext(t, 0, None).Success? && !Conserved(PromoteNext(t, 0, None).value, None)
  {
    var run := Prefix(6);
    RunsStaySound(run, Ops()[..6], 6);
    var t := run[6].t;
    assert t == At(1, map[1 := Out(1)], map[]);
    assert Where(t.reservations, PendingOf(0)) == {};
    assert BookRowAllowed(Shelved(t.books[0]));
    StandalonePromotion(t, 0, None);
  }
}
