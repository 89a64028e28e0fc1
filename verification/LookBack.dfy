/** The look-back of place_reservation: a member must not reserve a book they have out, but the code looks for it among
    the twenty newest loans only. */
module LookBack {
  import opened Prelude
  import opened Domain
  import opened Repositories
  import opened Circulation

  /** The copies of `b` that `m` has out. */
  function Held(t: Tables, m: Id, b: Id): set<Id> {
    set i | i in t.loans && t.loans[i].member == m && OutOfBook(b)(t.loans[i])
  }

  /** The other loans of `m`, open or closed, at least as recent as every copy of `b` they have out. */
  function Covering(t: Tables, m: Id, b: Id): set<Id> {
    set i | i in t.loans && t.loans[i].member == m && i !in Held(t, m, b)
            && forall h :: h in Held(t, m, b) ==> t.loans[h].borrowDate <= t.loans[i].borrowDate
  }

  /** `top` are the `n` newest of `s`, ties broken in some way. */
  predicate Newest(loans: map<Id, Loan>, s: set<Id>, n: nat, top: set<Id>)
    requires s <= loans.Keys
  {
    top <= s && |top| == n && forall i, j :: i in top && j in s - top ==> loans[j].borrowDate <= loans[i].borrowDate
  }

  lemma {:induction false} NewestExist(loans: map<Id, Loan>, s: set<Id>, n: nat) returns (top: set<Id>)
    requires s <= loans.Keys && n <= |s|
    ensures Newest(loans, s, n, top)
  {
    top := {};
    if n > 0 {
      var shorter := NewestExist(loans, s, n - 1);
      var rest := s - shorter;
      assert |rest| == |s| - |shorter|;
      var age := (i: Id) => if i in loans then -loans[i].borrowDate else 0;
      HasLeast(rest, age);
      var x :| x in rest && forall y :: y in rest ==> age(x) <= age(y);
      top := shorter + {x};
      forall i, j | i in top && j in s - top ensures loans[j].borrowDate <= loans[i].borrowDate {
        if i == x { assert age(x) <= age(j); }
      }
    }
  }

  /** The history query always has an answer. */
  lemma HistoryHasAnswer(t: Tables, m: Id)
    ensures exists window :: IsNewestWindow(t.loans, m, window)
  {
    var all := Where(t.loans, OfMember(m));
    var window := NewestExist(t.loans, all, if |all| <= 20 then |all| else 20);
    assert IsNewestWindow(t.loans, m, window);
  }

  /** An answer that shows none of the copies the member has out is made of loans that cover them. */
  lemma MissNeedsCover(t: Tables, m: Id, b: Id, window: set<Id>)
    requires Held(t, m, b) != {} && IsNewestWindow(t.loans, m, window) && window !! Held(t, m, b)
    ensures window <= Covering(t, m, b) && |window| == 20
  {
    var all := Where(t.loans, OfMember(m));
    var h :| h in Held(t, m, b);
    assert h in all && h !in window;
    if |all| <= 20 { SubsetSize(window, all); }
    forall i | i in window ensures i in Covering(t, m, b) {
      assert i in all;
    }
  }

  /** Twenty covering loans, and the newest twenty of the member's other loans are a possible answer. */
  lemma CoverAllowsMiss(t: Tables, m: Id, b: Id) returns (window: set<Id>)
    requires |Covering(t, m, b)| >= 20
    ensures IsNewestWindow(t.loans, m, window) && window !! Held(t, m, b)
  {
    var all, held, cover := Where(t.loans, OfMember(m)), Held(t, m, b), Covering(t, m, b);
    SubsetSize(cover, all - held);
    SubsetSize(all - held, all);
    window := NewestExist(t.loans, all - held, 20);
    forall i, h | i in window && h in held ensures t.loans[h].borrowDate <= t.loans[i].borrowDate {
      WindowCovers(t, m, b, window, i);
    }
    assert forall i, j :: i in window && j in all - window ==> j in held || j in all - held - window;
  }

  lemma WindowCovers(t: Tables, m: Id, b: Id, window: set<Id>, i: Id)
    requires |Covering(t, m, b)| >= 20 && i in window
    requires Newest(t.loans, Where(t.loans, OfMember(m)) - Held(t, m, b), 20, window)
    ensures i in Covering(t, m, b)
  {
    var cover := Covering(t, m, b);
    if cover <= window {
      SubsetSize(cover, window);
    } else {
      var c :| c in cover && c !in window;
      assert t.loans[c].borrowDate <= t.loans[i].borrowDate;
    }
  }

  /** Some answer of the history query misses the copies the member has out, exactly when twenty other loans of theirs
      are at least as recent. */
  lemma MissedExactly(t: Tables, m: Id, b: Id)
    requires Held(t, m, b) != {}
    ensures (exists window :: IsNewestWindow(t.loans, m, window) && window !! Held(t, m, b)) <==>
      |Covering(t, m, b)| >= 20
  {
    if window :| IsNewestWindow(t.loans, m, window) && window !! Held(t, m, b) {
      MissNeedsCover(t, m, b, window);
      SubsetSize(window, Covering(t, m, b));
    }
    if |Covering(t, m, b)| >= 20 {
      var window := CoverAllowsMiss(t, m, b);
    }
  }

  /** The tests of place_reservation before the look-back. */
  predicate Eligible(t: Tables, m: Id, b: Id) {
    && GetBookForUpdate(t.books, b).Some? && t.books[b].available <= 0
    && Count(t.reservations, ActiveReservationsOf(m)) < MAX_ACTIVE_RESERVATIONS
    && Count(t.reservations, ActiveReservationsOn(m, b)) == 0
    && GetMemberForUpdate(t.members, m).Some? && t.members[m].status.Active?
  }

  lemma RefusedIfSeen(t: Tables, m: Id, b: Id, i: Id, window: set<Id>)
    requires Eligible(t, m, b) && IsNewestWindow(t.loans, m, window)
    ensures PlaceReservation(t, m, b, i, window) == Failure(BookAlreadyBorrowed) <==> !(window !! Held(t, m, b))
    ensures PlaceReservation(t, m, b, i, window).Success? <==> window !! Held(t, m, b)
  {
    if !(window !! Held(t, m, b)) {
      var x :| x in window && x in Held(t, m, b);
      assert OutOfBook(b)(t.loans[x]);
    } else {
      forall x | x in window && x in t.loans ensures !OutOfBook(b)(t.loans[x]) {
        assert x in Where(t.loans, OfMember(m));
        assert x !in Held(t, m, b);
      }
    }
  }

  /** The promise that nobody reserves a book they have out: it is kept, whatever the history query answers, exactly
      when fewer than twenty other loans of the member are at least as recent. */
  lemma RefusedExactly(t: Tables, m: Id, b: Id, i: Id)
    requires Eligible(t, m, b) && Held(t, m, b) != {}
    ensures (forall window :: IsNewestWindow(t.loans, m, window) ==>
               PlaceReservation(t, m, b, i, window) == Failure(BookAlreadyBorrowed)) <==>
      |Covering(t, m, b)| < 20
  {
    MissedExactly(t, m, b);
    forall window | IsNewestWindow(t.loans, m, window)
      ensures PlaceReservation(t, m, b, i, window) == Failure(BookAlreadyBorrowed) <==> !(window !! Held(t, m, b))
    {
      RefusedIfSeen(t, m, b, i, window);
    }
  }

  /** A member may reserve a book they have out only if twenty loans of theirs are at least as recent. */
  lemma ReservedWhileBorrowed(t: Tables, m: Id, b: Id, i: Id, window: set<Id>, loan: Id)
    requires IsNewestWindow(t.loans, m, window)
    requires PlaceReservation(t, m, b, i, window).Success?
    requires loan in t.loans && t.loans[loan].member == m && OutOfBook(b)(t.loans[loan])
    ensures loan !in window && |window| == 20
    ensures forall j :: j in window ==>
      j in t.loans && t.loans[j].member == m && t.loans[loan].borrowDate <= t.loans[j].borrowDate
  {
    assert loan in Held(t, m, b);
    assert window !! Held(t, m, b);
    MissNeedsCover(t, m, b, window);
  }
}
