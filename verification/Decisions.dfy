/** When each transaction goes through, told from the rows alone: in a sound state shelf counters can be replaced by
    the loans and holds they stand for. */
module Decisions {
  import opened Prelude
  import opened Domain
  import opened Repositories
  import opened Circulation
  import opened Machine
  import opened Inventory
  import opened LookBack

  /** Copies of `b` with members or set aside for them. */
  function Engaged(t: Tables, b: Id): nat {
    Count(t.loans, OutOfBook(b)) + Count(t.reservations, HoldsOf(b))
  }

  function OpenLoans(t: Tables, m: Id): set<Id> {
    set i | i in t.loans && t.loans[i].member == m && IsOut(t.loans[i])
  }

  function ActiveReservations(t: Tables, m: Id): set<Id> {
    set i | i in t.reservations && t.reservations[i].member == m
            && (t.reservations[i].status == Pending || t.reservations[i].status == Hold)
  }

  predicate InGoodStanding(t: Tables, m: Id, at: Time) {
    && m in t.members && t.members[m] == Member(Active, false)
    && |OpenLoans(t, m)| < 5
    && forall i :: i in OpenLoans(t, m) ==> at <= t.loans[i].dueDate
  }

  lemma GoodStanding(t: Tables, m: Id, at: Time)
    requires RowRules(t)
    ensures InGoodStanding(t, m, at) <==>
      GetMemberForUpdate(t.members, m).Some? && MemberRejection(t, m, t.members[m], at).None?
  {
    forall i | i in t.loans ensures !t.loans[i].status.Overdue? { assert LoanRow(t.loans[i], t.now); }
    assert OpenLoans(t, m) == Where(t.loans, ActiveOfMember(m));
    var late := Where(t.loans, OverdueOfMember(m, at));
    assert late == set i | i in OpenLoans(t, m) && t.loans[i].dueDate < at;
    if |late| > 0 {
      var i :| i in late;
      assert i in OpenLoans(t, m) && t.loans[i].dueDate < at;
    } else {
      forall i | i in OpenLoans(t, m) ensures at <= t.loans[i].dueDate { assert i !in late; }
    }
  }

  lemma LendExactly(t: Tables, m: Id, b: Id, loan: Id, at: Time)
    requires b in t.books && BookRowAllowed(t.books[b])
    ensures var holds := Where(t.reservations, HoldsOf(b));
      LendCopy(t, m, b, t.books[b], loan, at).Success? <==>
        if holds == {} then t.books[b].available > 0 else exists h :: holds == {h} && t.reservations[h].member == m
  {
    var holds := Where(t.reservations, HoldsOf(b));
    if |holds| == 1 { assert holds == {TheOnly(holds)}; }
  }

  /** A loan goes through exactly when the member is in good standing and, with nothing on hold, a copy is left over,
      or the one copy on hold is theirs. */
  lemma BorrowExactly(t: Tables, m: Id, b: Id, loan: Id, checkedAt: Time, borrowedAt: Time)
    requires RowRules(t) && Conserved(t, None)
    ensures BorrowBook(t, m, b, loan, checkedAt, borrowedAt).Success? <==>
      && InGoodStanding(t, m, checkedAt)
      && b in t.books && t.books[b].Live()
      && var holds := Where(t.reservations, HoldsOf(b));
         if holds == {} then Engaged(t, b) < t.books[b].total
         else exists h :: holds == {h} && t.reservations[h].member == m
  {
    GoodStanding(t, m, checkedAt);
    if b in t.books && t.books[b].Live() {
      ShelfIsTheRest(t, b);
      LendExactly(t, m, b, loan, borrowedAt);
    }
  }

  lemma PlaceChecks(t: Tables, m: Id, b: Id, i: Id, window: set<Id>)
    ensures PlaceReservation(t, m, b, i, window).Success? <==>
      Eligible(t, m, b) && !exists l :: l in window && l in t.loans && OutOfBook(b)(t.loans[l])
  {
  }

  /** Every copy is out or held, the member is active and has fewer than three active reservations and none for this
      book, and the look-back shows no open loan of it. */
  predicate MayQueue(t: Tables, m: Id, b: Id, window: set<Id>) {
    && b in t.books && t.books[b].Live() && Engaged(t, b) == t.books[b].total
    && m in t.members && t.members[m] == Member(Active, false)
    && |ActiveReservations(t, m)| < 3
    && (forall r :: r in ActiveReservations(t, m) ==> t.reservations[r].book != b)
    && (forall l :: l in window && l in t.loans && t.loans[l].book == b ==> t.loans[l].status.Returned?)
  }

  lemma PlaceFromRows(t: Tables, m: Id, b: Id, i: Id, window: set<Id>)
    requires b in t.books && t.books[b].Live() ==>
      t.books[b].available == t.books[b].total - Engaged(t, b) && t.books[b].available >= 0
    ensures PlaceReservation(t, m, b, i, window).Success? <==> MayQueue(t, m, b, window)
  {
    assert ActiveReservations(t, m) == Where(t.reservations, ActiveReservationsOf(m));
    NoneOwn(t, m, b);
    NoneOut(t, b, window);
    PlaceChecks(t, m, b, i, window);
  }

  /** A reservation goes through exactly for those who may queue; the shelf counter plays no part. */
  lemma PlaceExactly(t: Tables, m: Id, b: Id, i: Id, window: set<Id>)
    requires RowRules(t) && Conserved(t, None)
    ensures PlaceReservation(t, m, b, i, window).Success? <==> MayQueue(t, m, b, window)
  {
    if b in t.books && t.books[b].Live() { ShelfIsTheRest(t, b); }
    PlaceFromRows(t, m, b, i, window);
  }

  lemma NoneOwn(t: Tables, m: Id, b: Id)
    ensures Count(t.reservations, ActiveReservationsOn(m, b)) == 0 <==>
      forall r :: r in ActiveReservations(t, m) ==> t.reservations[r].book != b
  {
    var own := Where(t.reservations, ActiveReservationsOn(m, b));
    if own == {} {
      forall r | r in ActiveReservations(t, m) ensures t.reservations[r].book != b { assert r !in own; }
    } else {
      var r :| r in own;
      assert r in ActiveReservations(t, m) && t.reservations[r].book == b;
    }
  }

  lemma NoneOut(t: Tables, b: Id, window: set<Id>)
    ensures (exists i :: i in window && i in t.loans && OutOfBook(b)(t.loans[i])) <==>
      !forall l :: l in window && l in t.loans && t.loans[l].book == b ==> t.loans[l].status.Returned?
  {
    if l :| l in window && l in t.loans && t.loans[l].book == b && !t.loans[l].status.Returned? {
      assert OutOfBook(b)(t.loans[l]);
    }
  }

  /** An ISBN is free when no row, live or deleted, has it. */
  predicate IsbnFree(t: Tables, isbn: string, own: set<Id>) {
    forall a :: a in t.books && t.books[a].isbn == isbn ==> a in own
  }

  lemma FreeIsbn(t: Tables, isbn: string, own: set<Id>)
    ensures IsbnFree(t, isbn, own) <==> Where(t.books, WithIsbn(isbn)) - own == {}
  {
    var others := Where(t.books, WithIsbn(isbn)) - own;
    if others != {} {
      var a :| a in others;
      assert a in t.books && t.books[a].isbn == isbn && a !in own;
    } else {
      forall a | a in t.books && t.books[a].isbn == isbn ensures a in own { assert a !in others; }
    }
  }

  lemma LiveIsbn(t: Tables, isbn: string)
    ensures Where(t.books, LiveWithIsbn(isbn)) != {} <==>
      exists a :: a in t.books && t.books[a].isbn == isbn && t.books[a].Live()
  {
    if a :| a in t.books && t.books[a].isbn == isbn && t.books[a].Live() {
      assert a in Where(t.books, LiveWithIsbn(isbn));
    }
    if a :| a in Where(t.books, LiveWithIsbn(isbn)) {
      assert a in t.books && t.books[a].isbn == isbn && t.books[a].Live();
    }
  }

  /** A new book needs an ISBN no book ever had, and starts with all its copies on the shelf. */
  lemma CreateExactly(t: Tables, b: Id, isbn: string, copies: int)
    requires b !in t.books && RowRules(t)
    ensures var o := Circulation.CreateBook(t, b, isbn, copies);
      && (o.Success? <==> IsbnFree(t, isbn, {}) && |isbn| <= 20 && 0 <= copies <= 32_767)
      && (o == Failure(IsbnTaken) <==> exists a :: a in t.books && t.books[a].isbn == isbn && t.books[a].Live())
      && (o.Failure? && o.error != IsbnTaken ==> o.error == IntegrityError)
      && (o.Success? ==>
            b in o.value.books && o.value.books[b] == Book(isbn, copies, copies, None) && Engaged(o.value, b) == 0)
  {
    FreeIsbn(t, isbn, {});
    LiveIsbn(t, isbn);
    var same, live := Where(t.books, WithIsbn(isbn)), Where(t.books, LiveWithIsbn(isbn));
    assert live <= same;
    assert Where(t.loans, OutOfBook(b)) == {} && Where(t.reservations, HoldsOf(b)) == {};
  }

  lemma ShelfIsTheRest(t: Tables, b: Id)
    requires RowRules(t) && Conserved(t, None) && b in t.books && t.books[b].Live()
    ensures t.books[b].available == t.books[b].total - Engaged(t, b) && BookRowAllowed(t.books[b])
  {
    assert Missing(t, b) == 0;
  }

  /** The outcome of asking for `n` copies, and perhaps another ISBN, while `engaged` are out or held. */
  function Recounted(t: Tables, b: Id, n: int, isbn: Option<string>, engaged: nat): Outcome
    requires b in t.books
  {
    if n < 0 then Failure(NegativeTotal)
    else if n < engaged then Failure(BelowCheckedOut)
    else if n > 32_767 then Failure(IntegrityError)
    else if isbn.Some? && !(|isbn.value| <= 20 && IsbnFree(t, isbn.value, {b})) then Failure(IntegrityError)
    else Success(PutBook(t, b, Book(if isbn.Some? then isbn.value else t.books[b].isbn, n, n - engaged, None)))
  }

  lemma UpdateRecounts(t: Tables, b: Id, total: Option<int>, isbn: Option<string>, engaged: nat)
    requires b in t.books && t.books[b].Live() && BookRowAllowed(t.books[b])
    requires t.books[b].available == t.books[b].total - engaged
    ensures Circulation.UpdateBook(t, b, total, isbn) ==
      Recounted(t, b, if total.Some? then total.value else t.books[b].total, isbn, engaged)
  {
    if isbn.Some? { FreeIsbn(t, isbn.value, {b}); }
  }

  /** total_copies may become any number from the copies out or held up to the column's width, and what is on the shelf
      afterwards is the difference: the shelf counter plays no part in the outcome. */
  lemma UpdateExactly(t: Tables, b: Id, total: Option<int>, isbn: Option<string>)
    requires RowRules(t) && Conserved(t, None)
    ensures Circulation.UpdateBook(t, b, total, isbn) ==
      if b !in t.books || !t.books[b].Live() then Failure(BookNotFound)
      else Recounted(t, b, if total.Some? then total.value else t.books[b].total, isbn, Engaged(t, b))
  {
    if b in t.books && t.books[b].Live() {
      ShelfIsTheRest(t, b);
      UpdateRecounts(t, b, total, isbn, Engaged(t, b));
    }
  }

  predicate OneForEachBook(t: Tables, m: Id) {
    forall i, j ::
      (i in ActiveReservations(t, m) && j in ActiveReservations(t, m)
       && t.reservations[i].book == t.reservations[j].book) ==> i == j
  }

  /** In every state of every run, counted from the rows: at most five loans out and three active reservations to a
      member, and of those one for a book. */
  lemma LimitsAlways(run: seq<World>, ops: seq<Op>, k: nat, m: Id)
    requires IsRun(run, ops) && k < |run|
    ensures |OpenLoans(run[k].t, m)| <= 5 && |ActiveReservations(run[k].t, m)| <= 3
    ensures OneForEachBook(run[k].t, m)
  {
    RunsStaySound(run, ops, k);
    LimitsCounted(run[k].t, m);
  }

  lemma LimitsCounted(t: Tables, m: Id)
    requires RowRules(t) && Limits(t)
    ensures |OpenLoans(t, m)| <= 5 && |ActiveReservations(t, m)| <= 3
    ensures OneForEachBook(t, m)
  {
    forall i | i in t.loans ensures !t.loans[i].status.Overdue? { assert LoanRow(t.loans[i], t.now); }
    assert OpenLoans(t, m) == Where(t.loans, ActiveOfMember(m));
    assert ActiveReservations(t, m) == Where(t.reservations, ActiveReservationsOf(m));
    forall i, j | i in ActiveReservations(t, m) && j in ActiveReservations(t, m)
                  && t.reservations[i].book == t.reservations[j].book
      ensures i == j
    {
      var own := Where(t.reservations, ActiveReservationsOn(m, t.reservations[i].book));
      assert i in own && j in own && |own| <= 1;
      SubsetSize({i, j}, own);
    }
  }
}
