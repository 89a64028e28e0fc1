/** The sweep of expired holds: a loop of nested promotions that amounts to one batch. */
module Sweep {
  import opened Prelude
  import opened Domain
  import opened Repositories
  import opened Circulation
  import opened Inventory
  import opened Queue

  function Min(a: int, b: int): int { if a <= b then a else b }
  function Max(a: int, b: int): int { if a <= b then b else a }

  /** The rows of `done` that are for book `b`. */
  function OfDone(rs: map<Id, Reservation>, done: set<Id>, b: Id): set<Id> {
    set i | i in done && i in rs && rs[i].book == b
  }

  /** Those who waited for `b` in `t` and hold it in `u`. */
  function Lucky(t: Tables, u: Tables, b: Id): set<Id> {
    set i | i in t.reservations && t.reservations[i].status.Pending? && t.reservations[i].book == b
            && i in u.reservations && u.reservations[i].status.Hold?
  }

  /** The listed holds expire, only waiting members are promoted, for 48 hours, and nothing else in the table moves. */
  predicate RowsBatched(t: Tables, done: set<Id>, u: Tables) {
    && u.reservations.Keys == t.reservations.Keys
    && forall i :: i in t.reservations ==>
         var r, r' := t.reservations[i], u.reservations[i];
         if i in done then r' == Reservation(r.member, r.book, r.reservedAt, None, Expired)
         else if r.status.Pending? then
           r' == r || r' == Reservation(r.member, r.book, r.reservedAt, Some(t.now + 48 * HOUR), Hold)
         else r' == r
  }

  /** As many are promoted as copies came free, or as there were waiting. */
  ghost predicate TurnsBatched(t: Tables, done: set<Id>, u: Tables) {
    forall b: Id :: |Lucky(t, u, b)| == Min(|OfDone(t.reservations, done, b)|, Count(t.reservations, PendingOf(b)))
  }

  /** Nobody who waits on came before somebody promoted. */
  ghost predicate EarliestFirst(t: Tables, u: Tables) {
    forall i, q ::
      (i in t.reservations && q in t.reservations && q in u.reservations && i in Lucky(t, u, t.reservations[i].book)
       && u.reservations[q].status.Pending? && t.reservations[q].book == t.reservations[i].book) ==>
        t.reservations[i].reservedAt <= t.reservations[q].reservedAt
  }

  /** Copies nobody waited for go back to the shelf of a live book. */
  ghost predicate ShelvesBatched(t: Tables, done: set<Id>, u: Tables) {
    && u.books.Keys == t.books.Keys
    && forall b :: b in t.books ==>
         u.books[b] == if !t.books[b].Live() then t.books[b]
                       else t.books[b].(available := t.books[b].available
                         + Max(0, |OfDone(t.reservations, done, b)| - Count(t.reservations, PendingOf(b))))
  }

  /** The outcome of expiring the holds `done`, all at once. */
  ghost predicate Batch(t: Tables, done: set<Id>, u: Tables) {
    && u.now == t.now && u.loans == t.loans && u.members == t.members
    && RowsBatched(t, done, u) && TurnsBatched(t, done, u) && EarliestFirst(t, u) && ShelvesBatched(t, done, u)
  }

  lemma NothingBatched(t: Tables)
    ensures Batch(t, {}, t)
  {
    assert forall b: Id :: Lucky(t, t, b) == {} && OfDone(t.reservations, {}, b) == {};
  }

  lemma OneMoreDone(rs: map<Id, Reservation>, done: set<Id>, x: Id, b: Id)
    requires x in rs && x !in done
    ensures |OfDone(rs, done + {x}, b)| == |OfDone(rs, done, b)| + Indicator(rs[x].book == b)
  {
    if rs[x].book == b {
      assert OfDone(rs, done + {x}, b) == OfDone(rs, done, b) + {x};
    } else {
      assert OfDone(rs, done + {x}, b) == OfDone(rs, done, b);
    }
  }

  /** The waiting of `t` are, after the batch, the lucky ones and those still waiting. */
  lemma WaitingSplit(t: Tables, done: set<Id>, u: Tables, b: Id)
    requires RowsBatched(t, done, u)
    requires AllHolds(t, done)
    ensures Count(t.reservations, PendingOf(b)) == |Lucky(t, u, b)| + Count(u.reservations, PendingOf(b))
  {
    var waiting, rest := Where(t.reservations, PendingOf(b)), Where(u.reservations, PendingOf(b));
    var lucky := Lucky(t, u, b);
    forall i: Id ensures (i in waiting <==> i in lucky || i in rest) && !(i in lucky && i in rest) {
      if i in t.reservations {
        assert u.reservations[i] == t.reservations[i] || i in done || t.reservations[i].status.Pending?;
      }
    }
    assert waiting == lucky + rest;
    assert lucky !! rest;
  }

  predicate AllHolds(t: Tables, done: set<Id>) {
    forall y :: y in done ==> y in t.reservations && t.reservations[y].status.Hold?
  }

  /** `v` is `u` after hold `x` lapsed and, perhaps, `i` was promoted in its place. */
  predicate RoundRows(u: Tables, x: Id, pick: Option<Id>, v: Tables) {
    && x in u.reservations && x in v.reservations && v.reservations[x] == Lapsed(u.reservations[x])
    && (pick.Some? ==> pick.value != x && pick.value in u.reservations && pick.value in v.reservations
                       && u.reservations[pick.value].status.Pending?
                       && u.reservations[pick.value].book == u.reservations[x].book
                       && v.reservations[pick.value] == Promoted(u.reservations[pick.value], u.now))
    && v.now == u.now && v.loans == u.loans && v.members == u.members
    && v.reservations.Keys == u.reservations.Keys
    && forall q :: q in u.reservations && q != x && pick != Some(q) ==> v.reservations[q] == u.reservations[q]
  }

  /** The shelf after a round: untouched when somebody was promoted, one copy fuller otherwise if the book lives. */
  predicate RoundShelf(u: Tables, b: Id, pick: Option<Id>, v: Tables) {
    && v.books.Keys == u.books.Keys
    && forall a :: a in u.books ==>
         v.books[a] == if pick.None? && a == b && u.books[a].Live()
                       then u.books[a].(available := u.books[a].available + 1) else u.books[a]
  }

  lemma ExpireOneRows(u: Tables, x: Id, pick: Option<Id>)
    requires x in u.reservations && u.reservations[x].status.Hold?
    requires IsFifoAnswer(u.reservations, u.reservations[x].book, pick) && ExpireOne(u, x, pick).Success?
    ensures RoundRows(u, x, pick, ExpireOne(u, x, pick).value)
    ensures RoundShelf(u, u.reservations[x].book, pick, ExpireOne(u, x, pick).value)
  {
    if pick.Some? { HeadIsOldest(u.reservations, u.reservations[x].book, pick.value); }
  }

  lemma RowsStayBatched(t: Tables, done: set<Id>, u: Tables, x: Id, pick: Option<Id>, v: Tables)
    requires RowsBatched(t, done, u) && u.now == t.now && AllHolds(t, done)
    requires x in t.reservations && x !in done && t.reservations[x].status.Hold?
    requires RoundRows(u, x, pick, v)
    ensures RowsBatched(t, done + {x}, v)
  {
  }

  lemma OneMoreLucky(t: Tables, done: set<Id>, u: Tables, x: Id, pick: Option<Id>, v: Tables, a: Id)
    requires RowsBatched(t, done, u) && AllHolds(t, done)
    requires x in t.reservations && x !in done && t.reservations[x].status.Hold?
    requires RoundRows(u, x, pick, v)
    ensures |Lucky(t, v, a)| == |Lucky(t, u, a)| + Indicator(pick.Some? && a == t.reservations[x].book)
  {
    forall i ensures i in Lucky(t, v, a) <==> i in Lucky(t, u, a) || (pick == Some(i) && a == t.reservations[x].book) {
      assert i in done ==> i !in Lucky(t, v, a) && i !in Lucky(t, u, a);
    }
    if pick.Some? && a == t.reservations[x].book {
      assert pick.value !in Lucky(t, u, a);
      assert Lucky(t, v, a) == Lucky(t, u, a) + {pick.value};
    } else {
      assert Lucky(t, v, a) == Lucky(t, u, a);
    }
  }

  lemma TurnsStayBatched(t: Tables, done: set<Id>, u: Tables, x: Id, pick: Option<Id>, v: Tables)
    requires RowsBatched(t, done, u) && TurnsBatched(t, done, u) && AllHolds(t, done)
    requires x in t.reservations && x !in done && t.reservations[x].status.Hold?
    requires RoundRows(u, x, pick, v)
    requires pick.None? ==> Where(u.reservations, PendingOf(t.reservations[x].book)) == {}
    ensures TurnsBatched(t, done + {x}, v)
  {
    var b := t.reservations[x].book;
    forall a: Id
      ensures |Lucky(t, v, a)| == Min(|OfDone(t.reservations, done + {x}, a)|, Count(t.reservations, PendingOf(a)))
    {
      OneMoreLucky(t, done, u, x, pick, v, a);
      OneMoreDone(t.reservations, done, x, a);
      WaitingSplit(t, done, u, a);
      if pick.Some? && a == b {
        assert pick.value in Where(u.reservations, PendingOf(b));
      }
    }
  }

  lemma OrderStaysBatched(t: Tables, done: set<Id>, u: Tables, x: Id, pick: Option<Id>, v: Tables)
    requires RowsBatched(t, done, u) && EarliestFirst(t, u) && RoundRows(u, x, pick, v)
    requires IsFifoAnswer(u.reservations, u.reservations[x].book, pick)
    ensures EarliestFirst(t, v)
  {
    if pick.Some? { HeadIsOldest(u.reservations, u.reservations[x].book, pick.value); }
    forall h, q | h in t.reservations && q in t.reservations && q in v.reservations
                  && h in Lucky(t, v, t.reservations[h].book)
                  && v.reservations[q].status.Pending? && t.reservations[q].book == t.reservations[h].book
      ensures t.reservations[h].reservedAt <= t.reservations[q].reservedAt
    {
      StaysEarliest(t, u, x, pick, v, h, q);
    }
  }

  lemma StaysEarliest(t: Tables, u: Tables, x: Id, pick: Option<Id>, v: Tables, h: Id, q: Id)
    requires u.reservations.Keys == t.reservations.Keys && EarliestFirst(t, u) && RoundRows(u, x, pick, v)
    requires forall i :: i in t.reservations ==>
      u.reservations[i].book == t.reservations[i].book && u.reservations[i].reservedAt == t.reservations[i].reservedAt
    requires pick.Some? ==> forall j :: j in u.reservations && u.reservations[j].status.Pending?
                                        && u.reservations[j].book == u.reservations[x].book ==>
                              u.reservations[pick.value].reservedAt <= u.reservations[j].reservedAt
    requires h in t.reservations && q in t.reservations && h in Lucky(t, v, t.reservations[h].book)
    requires v.reservations[q].status.Pending? && t.reservations[q].book == t.reservations[h].book
    ensures t.reservations[h].reservedAt <= t.reservations[q].reservedAt
  {
    if pick != Some(h) {
      assert h in Lucky(t, u, t.reservations[h].book);
    }
  }

  lemma ShelvesStayBatched(t: Tables, done: set<Id>, u: Tables, x: Id, pick: Option<Id>, v: Tables)
    requires ShelvesBatched(t, done, u) && x in t.reservations && x !in done
    requires RoundShelf(u, t.reservations[x].book, pick, v)
    requires var b := t.reservations[x].book;
      pick.None? <==> |OfDone(t.reservations, done, b)| >= Count(t.reservations, PendingOf(b))
    ensures ShelvesBatched(t, done + {x}, v)
  {
    forall a: Id { OneMoreDone(t.reservations, done, x, a); }
  }

  lemma RoundShelves(t: Tables, done: set<Id>, u: Tables, x: Id, pick: Option<Id>, v: Tables)
    requires RowsBatched(t, done, u) && TurnsBatched(t, done, u) && ShelvesBatched(t, done, u) && AllHolds(t, done)
    requires x in t.reservations && x !in done
    requires pick.None? <==> Where(u.reservations, PendingOf(t.reservations[x].book)) == {}
    requires RoundShelf(u, t.reservations[x].book, pick, v)
    ensures ShelvesBatched(t, done + {x}, v)
  {
    WaitingSplit(t, done, u, t.reservations[x].book);
    ShelvesStayBatched(t, done, u, x, pick, v);
  }

  lemma AnswerSaysIfAnyWait(rs: map<Id, Reservation>, b: Id, pick: Option<Id>)
    requires IsFifoAnswer(rs, b, pick)
    ensures pick.None? <==> Where(rs, PendingOf(b)) == {}
  {
    if pick.Some? { assert pick.value in Where(rs, PendingOf(b)); }
  }

  /** One more round of the loop is one more hold in the batch. */
  lemma RoundIsBatched(t: Tables, done: set<Id>, u: Tables, x: Id, pick: Option<Id>, v: Tables)
    requires Batch(t, done, u) && AllHolds(t, done)
    requires x in t.reservations && x !in done && t.reservations[x].status.Hold?
    requires IsFifoAnswer(u.reservations, t.reservations[x].book, pick)
    requires RoundRows(u, x, pick, v) && RoundShelf(u, t.reservations[x].book, pick, v)
    ensures Batch(t, done + {x}, v)
  {
    assert u.reservations[x] == t.reservations[x];
    AnswerSaysIfAnyWait(u.reservations, t.reservations[x].book, pick);
    RowsStayBatched(t, done, u, x, pick, v);
    TurnsStayBatched(t, done, u, x, pick, v);
    OrderStaysBatched(t, done, u, x, pick, v);
    RoundShelves(t, done, u, x, pick, v);
  }

  lemma LastElement(order: seq<Id>)
    requires order != [] && forall i, j :: 0 <= i < j < |order| ==> order[i] != order[j]
    ensures var n := |order| - 1;
      Elements(order) == Elements(order[..n]) + {order[n]} && order[n] !in Elements(order[..n])
  {
    assert order == order[..|order| - 1] + [order[|order| - 1]];
  }

  lemma {:induction false} RoundsAreBatch(t: Tables, order: seq<Id>, picks: seq<Option<Id>>)
    requires SweepAnswers(t, order, picks) && SweepRounds(t, order, picks).Success?
    requires forall i, j :: 0 <= i < j < |order| ==> order[i] != order[j]
    requires AllHolds(t, Elements(order))
    ensures Batch(t, Elements(order), SweepRounds(t, order, picks).value)
    decreases |order|
  {
    if order == [] {
      NothingBatched(t);
    } else {
      var n := |order| - 1;
      var x := order[n];
      RoundsAreBatch(t, order[..n], picks[..n]);
      var u := SweepRounds(t, order[..n], picks[..n]).value;
      LastElement(order);
      ExpireOneRows(u, x, picks[n]);
      RoundIsBatched(t, Elements(order[..n]), u, x, picks[n], ExpireOne(u, x, picks[n]).value);
    }
  }

  /** Whatever order the query lists the expired holds in, and however it breaks ties, the sweep succeeds and does
      exactly the batch: all of them expire, and the earliest waiting members take the copies. */
  lemma SweepIsBatch(t: Tables, order: seq<Id>, picks: seq<Option<Id>>)
    requires Sound(t, None) && ListsExpired(t, order) && SweepAnswers(t, order, picks)
    ensures SweepRounds(t, order, picks).Success?
    ensures Batch(t, Where(t.reservations, HoldExpiredBefore(t.now)), SweepRounds(t, order, picks).value)
  {
    SweepKeepsSound(t, order, picks);
    RoundsAreBatch(t, order, picks);
  }

  lemma RoundExtends(t: Tables, order: seq<Id>, picks: seq<Option<Id>>, u: Tables, i: Id, pick: Option<Id>)
    requires SweepAnswers(t, order, picks) && SweepRounds(t, order, picks) == Success(u)
    requires i in u.reservations && u.reservations[i].status.Hold?
    requires IsFifoAnswer(u.reservations, u.reservations[i].book, pick)
    ensures SweepAnswers(t, order + [i], picks + [pick])
    ensures SweepRounds(t, order + [i], picks + [pick]) == ExpireOne(u, i, pick)
  {
    var n := |order|;
    assert (order + [i])[..n] == order && (picks + [pick])[..n] == picks;
  }

  lemma FifoHasAnswer(rs: map<Id, Reservation>, b: Id) returns (pick: Option<Id>)
    ensures IsFifoAnswer(rs, b, pick)
  {
    FifoAnswers(rs, b);
    var heads := FifoHeads(rs, b);
    if heads == {} { return None; }
    var h :| h in heads;
    return Some(h);
  }

  lemma NextHoldUntouched(t: Tables, order: seq<Id>, picks: seq<Option<Id>>)
    requires order != [] && SweepAnswers(t, order[..|order| - 1], picks)
    requires AllHolds(t, Elements(order)) && (forall i, j :: 0 <= i < j < |order| ==> order[i] != order[j])
    requires SweepRounds(t, order[..|order| - 1], picks).Success?
    ensures var u, x := SweepRounds(t, order[..|order| - 1], picks).value, order[|order| - 1];
      x in u.reservations && u.reservations[x].status.Hold?
  {
    LastElement(order);
    RoundsAreBatch(t, order[..|order| - 1], picks);
  }

  lemma AnswersExtend(t: Tables, order: seq<Id>, before: seq<Option<Id>>) returns (pick: Option<Id>)
    requires order != [] && SweepAnswers(t, order[..|order| - 1], before)
    requires AllHolds(t, Elements(order)) && (forall i, j :: 0 <= i < j < |order| ==> order[i] != order[j])
    requires SweepRounds(t, order[..|order| - 1], before).Success?
    ensures SweepAnswers(t, order, before + [pick])
  {
    var n := |order| - 1;
    NextHoldUntouched(t, order, before);
    var u := SweepRounds(t, order[..n], before).value;
    pick := FifoHasAnswer(u.reservations, u.reservations[order[n]].book);
    RoundExtends(t, order[..n], before, u, order[n], pick);
    assert order == order[..n] + [order[n]];
  }

  lemma HoldsOfPrefix(t: Tables, order: seq<Id>)
    requires order != [] && AllHolds(t, Elements(order))
    ensures AllHolds(t, Elements(order[..|order| - 1]))
  {
    forall i | i in Elements(order[..|order| - 1]) ensures i in Elements(order) {}
  }

  /** The sweep can always go through: every listing of the expired holds has FIFO answers to go with it. */
  lemma {:induction false} SweepHasAnswers(t: Tables, order: seq<Id>) returns (picks: seq<Option<Id>>)
    requires Sound(t, None) && AllHolds(t, Elements(order))
    requires forall i, j :: 0 <= i < j < |order| ==> order[i] != order[j]
    ensures SweepAnswers(t, order, picks)
    decreases |order|
  {
    if order == [] { return []; }
    HoldsOfPrefix(t, order);
    var before := SweepHasAnswers(t, order[..|order| - 1]);
    SweepKeepsSound(t, order[..|order| - 1], before);
    var pick := AnswersExtend(t, order, before);
    picks := before + [pick];
  }

  /** In every sound state a sweep can be run: its query has a listing, and the FIFO query an answer in each round. */
  lemma SweepIsPossible(t: Tables)
    requires Sound(t, None)
    ensures exists order, picks :: ListsExpired(t, order) && SweepAnswers(t, order, picks)
  {
    var order := Enumerate(Where(t.reservations, HoldExpiredBefore(t.now)));
    var picks := SweepHasAnswers(t, order);
    assert ListsExpired(t, order) && SweepAnswers(t, order, picks);
  }

  predicate DistinctWaits(rs: map<Id, Reservation>) {
    forall i, j ::
      (i in rs && j in rs && rs[i].status.Pending? && rs[j].status.Pending?
       && rs[i].book == rs[j].book && rs[i].reservedAt == rs[j].reservedAt) ==> i == j
  }

  lemma LuckyBefore(t: Tables, done: set<Id>, u: Tables, b: Id, i: Id, j: Id)
    requires RowsBatched(t, done, u) && EarliestFirst(t, u) && AllHolds(t, done)
    requires i in Lucky(t, u, b)
    requires j !in Lucky(t, u, b) && j in t.reservations && t.reservations[j].status.Pending?
      && t.reservations[j].book == b
    ensures t.reservations[i].reservedAt <= t.reservations[j].reservedAt
  {
    assert i in Lucky(t, u, t.reservations[i].book);
    assert u.reservations[j].status.Pending?;
  }

  /** With distinct timestamps the batch leaves no choice. */
  lemma SameLuckyOnes(t: Tables, done: set<Id>, u: Tables, v: Tables, b: Id)
    requires Batch(t, done, u) && Batch(t, done, v) && AllHolds(t, done) && DistinctWaits(t.reservations)
    ensures Lucky(t, u, b) == Lucky(t, v, b)
  {
    var us, vs := Lucky(t, u, b), Lucky(t, v, b);
    SameSizeDiffer(us, vs);
    if us != vs {
      var i :| i in us && i !in vs;
      var j :| j in vs && j !in us;
      LuckyBefore(t, done, u, b, i, j);
      LuckyBefore(t, done, v, b, j, i);
    }
  }

  lemma SameSizeDiffer(a: set<Id>, b: set<Id>)
    requires |a| == |b|
    ensures a == b || (exists i, j :: i in a && i !in b && j in b && j !in a)
  {
    if a <= b { SubsetSize(a, b); }
    if b <= a { SubsetSize(b, a); }
  }

  lemma SameRowIfAsLucky(t: Tables, done: set<Id>, u: Tables, v: Tables, i: Id)
    requires RowsBatched(t, done, u) && RowsBatched(t, done, v) && i in t.reservations
    requires Lucky(t, u, t.reservations[i].book) == Lucky(t, v, t.reservations[i].book)
    ensures u.reservations[i] == v.reservations[i]
  {
    assert i in Lucky(t, u, t.reservations[i].book) <==> i in Lucky(t, v, t.reservations[i].book);
  }

  lemma BatchIsDetermined(t: Tables, done: set<Id>, u: Tables, v: Tables)
    requires Batch(t, done, u) && Batch(t, done, v) && AllHolds(t, done) && DistinctWaits(t.reservations)
    ensures u == v
  {
    forall i | i in t.reservations ensures u.reservations[i] == v.reservations[i] {
      SameLuckyOnes(t, done, u, v, t.reservations[i].book);
      SameRowIfAsLucky(t, done, u, v, i);
    }
    assert u.reservations == v.reservations;
    assert u.books == v.books;
  }

  /** The sweep ignores the order of its list: with distinct timestamps per book, all orders end in the same state. */
  lemma SweepIgnoresOrder(t: Tables, order: seq<Id>, picks: seq<Option<Id>>, order': seq<Id>, picks': seq<Option<Id>>)
    requires Sound(t, None) && DistinctWaits(t.reservations)
    requires ListsExpired(t, order) && SweepAnswers(t, order, picks)
    requires ListsExpired(t, order') && SweepAnswers(t, order', picks')
    ensures SweepRounds(t, order, picks) == SweepRounds(t, order', picks')
  {
    SweepIsBatch(t, order, picks);
    SweepIsBatch(t, order', picks');
    BatchIsDetermined(t, Where(t.reservations, HoldExpiredBefore(t.now)),
      SweepRounds(t, order, picks).value, SweepRounds(t, order', picks').value);
  }

  lemma NoElements(s: seq<Id>)
    ensures Elements(s) == {} <==> s == []
  {
    if s != [] { assert s[0] in Elements(s); }
  }

  lemma NoneOverdue(t: Tables, u: Tables)
    requires RowsBatched(t, Where(t.reservations, HoldExpiredBefore(t.now)), u) && u.now == t.now
    ensures Where(u.reservations, HoldExpiredBefore(u.now)) == {}
  {
    forall i | i in u.reservations ensures !HoldExpiredBefore(u.now)(u.reservations[i]) {
      assert i in Where(t.reservations, HoldExpiredBefore(t.now)) <==> HoldExpiredBefore(t.now)(t.reservations[i]);
    }
  }

  /** After a sweep no hold is overdue, and sweeping again at the same time finds nothing and changes nothing. */
  lemma SweepIsComplete(t: Tables, order: seq<Id>, picks: seq<Option<Id>>, again: seq<Id>, picks': seq<Option<Id>>)
    requires Sound(t, None) && ListsExpired(t, order) && SweepAnswers(t, order, picks)
    ensures SweepRounds(t, order, picks).Success?
    ensures var u := SweepRounds(t, order, picks).value;
      && Where(u.reservations, HoldExpiredBefore(u.now)) == {}
      && (ListsExpired(u, again) && SweepAnswers(u, again, picks') ==>
        again == [] && SweepRounds(u, again, picks') == Success(u))
  {
    SweepIsBatch(t, order, picks);
    var u := SweepRounds(t, order, picks).value;
    NoneOverdue(t, u);
    NoElements(again);
  }
}
