/** The circulation calls that nest, run under @transactional: what they commit is what their transaction functions say,
    and when a nested promotion raises, what the caller wrote before is taken back. */
module Atomicity {
  import opened Prelude
  import opened Domain
  import opened Repositories
  import opened Circulation
  import opened Queue
  import opened Transactions

  function PutIfThere(t: Tables, i: Id, change: Reservation -> Reservation): Tables {
    if i in t.reservations then PutReservation(t, i, change(t.reservations[i])) else t
  }

  function Shelve(t: Tables, b: Id): Tables {
    if GetBookForUpdate(t.books, b).Some? then PutBook(t, b, t.books[b].(available := t.books[b].available + 1)) else t
  }

  /** promote_next_reservation when the FIFO query answers `pick`: the row is written, and the flush tests it. */
  function PromoteBody(b: Id, pick: Option<Id>): Body<Tables> {
    match pick
    case Some(i) => Write((t: Tables) => PutIfThere(t, i, (r: Reservation) => Promoted(r, t.now)), Done)
    case None =>
      Write((t: Tables) => Shelve(t, b),
            If((t: Tables) => GetBookForUpdate(t.books, b).None? || BookRowAllowed(t.books[b]), Done, Raise))
  }

  function CancelBody(i: Id, m: Id, b: Id, pick: Option<Id>): Body<Tables> {
    var withdraw := (t: Tables) => PutIfThere(t, i, Withdrawn);
    If((t: Tables) => Cancellable(t, i, m),
       If((t: Tables) => CancelsHold(t, i, m),
          Write(withdraw, Call(PromoteBody(b, pick), Done, Raise)),
          Write(withdraw, Done)),
       Raise)
  }

  function ReturnBody(loan: Id, b: Id, queued: bool, pick: Option<Id>): Body<Tables> {
    var close := (t: Tables) => if loan in t.loans then PutLoan(t, loan, Closed(t.loans[loan], t.now)) else t;
    If((t: Tables) => loan in t.loans,
       If((t: Tables) => Releases(t, loan),
          Write(close, if queued then Call(PromoteBody(b, pick), Done, Raise) else PromoteBody(b, None)),
          Done),
       Raise)
  }

  /** One round of the sweep, and then `next`. */
  function RoundBody(i: Id, b: Id, pick: Option<Id>, next: Body<Tables>): Body<Tables> {
    Write((t: Tables) => PutIfThere(t, i, Lapsed), Call(PromoteBody(b, pick), next, Raise))
  }

  /** The rounds of the sweep of `t` for the holds in `order`, and then `next`. */
  function SweepBody(t: Tables, order: seq<Id>, picks: seq<Option<Id>>, next: Body<Tables>): Body<Tables>
    requires |order| == |picks| && forall x :: x in order ==> x in t.reservations
  {
    if order == [] then next
    else
      var n := |order| - 1;
      SweepBody(t, order[..n], picks[..n], RoundBody(order[n], t.reservations[order[n]].book, picks[n], next))
  }

  /** Running `body` from the committed tables `t` commits the tables of `o`, or raises and commits nothing. */
  predicate Does(body: Body<Tables>, t: Tables, o: Outcome, commits: nat) {
    var (d, raised) := Outermost(body, Db(t, t, false, commits));
    d == (if o.Success? then Db(o.value, o.value, false, commits + 1) else Db(t, t, false, commits))
      && raised == o.Failure?
  }

  /** The plain meaning of a body agrees with `o`; what it has written when it raises does not matter. */
  predicate Means(body: Body<Tables>, t: Tables, o: Outcome) {
    && CommitFree(body)
    && if o.Success? then Meaning(body, t) == (o.value, false) else Meaning(body, t).1
  }

  lemma MeansDoes(body: Body<Tables>, t: Tables, o: Outcome, commits: nat)
    requires Means(body, t, o)
    ensures Does(body, t, o, commits)
  {
    NestingIsTransparent(body, Begun(Db(t, t, false, commits)));
  }

  lemma PromoteMeans(t: Tables, b: Id, pick: Option<Id>)
    requires IsFifoAnswer(t.reservations, b, pick)
    ensures Means(PromoteBody(b, pick), t, PromoteNext(t, b, pick))
  {
    ShelveMeans(t, b);
  }

  lemma ShelveMeans(t: Tables, b: Id)
    ensures Means(PromoteBody(b, None), t, ShelveCopy(t, b))
  {
    var u := Shelve(t, b);
    var allowed := (t: Tables) => GetBookForUpdate(t.books, b).None? || BookRowAllowed(t.books[b]);
    assert Meaning(If(allowed, Done, Raise), u) == (u, !allowed(u));
  }

  /** A caller that writes, calls promote_next_reservation, and goes on if that succeeds. */
  lemma CallMeans(t: Tables, u: Tables, write: Tables -> Tables, b: Id, pick: Option<Id>, next: Body<Tables>)
    requires u == write(t) && IsFifoAnswer(u.reservations, b, pick) && CommitFree(next)
    ensures var body := Write(write, Call(PromoteBody(b, pick), next, Raise));
      && CommitFree(body)
      && (PromoteNext(u, b, pick).Success? ==> Meaning(body, t) == Meaning(next, PromoteNext(u, b, pick).value))
      && (PromoteNext(u, b, pick).Failure? ==> Meaning(body, t).1)
  {
    PromoteMeans(u, b, pick);
    var inner := PromoteBody(b, pick);
    assert Meaning(Call(inner, next, Raise), u)
        == if Meaning(inner, u).1 then Meaning(Raise, Meaning(inner, u).0) else Meaning(next, Meaning(inner, u).0);
  }

  /** cancel_reservation commits the cancellation and the promotion together, or nothing. */
  lemma CancelIsAtomic(t: Tables, i: Id, m: Id, pick: Option<Id>, commits: nat)
    requires CancelsHold(t, i, m) ==> IsFifoAnswer(t.reservations, t.reservations[i].book, pick)
    ensures var b := if i in t.reservations then t.reservations[i].book else 0;
      Does(CancelBody(i, m, b, pick), t, CancelReservation(t, i, m, pick), commits)
  {
    var b := if i in t.reservations then t.reservations[i].book else 0;
    var withdraw := (t: Tables) => PutIfThere(t, i, Withdrawn);
    if CancelsHold(t, i, m) {
      QueueUnmoved(t.reservations, i, Withdrawn(t.reservations[i]), b, pick);
      CallMeans(t, withdraw(t), withdraw, b, pick, Done);
    } else {
      assert Meaning(Write(withdraw, Done), t) == Meaning(Done, withdraw(t));
    }
    assert CommitFree<Tables>(Done) && CommitFree<Tables>(Raise);
    assert CommitFree(CancelBody(i, m, b, pick)) by { assert CommitFree(PromoteBody(b, pick)); }
    MeansDoes(CancelBody(i, m, b, pick), t, CancelReservation(t, i, m, pick), commits);
  }

  /** return_book commits the closed loan and the placement of its copy together, or nothing. */
  lemma ReturnIsAtomic(t: Tables, loan: Id, queued: bool, pick: Option<Id>, commits: nat)
    requires Releases(t, loan) && queued ==> IsFifoAnswer(t.reservations, t.loans[loan].book, pick)
    ensures var b := if loan in t.loans then t.loans[loan].book else 0;
      Does(ReturnBody(loan, b, queued, pick), t, ReturnBook(t, loan, queued, pick), commits)
  {
    var b := if loan in t.loans then t.loans[loan].book else 0;
    var close := (t: Tables) => if loan in t.loans then PutLoan(t, loan, Closed(t.loans[loan], t.now)) else t;
    if Releases(t, loan) {
      if queued {
        CallMeans(t, close(t), close, b, pick, Done);
      } else {
        ShelveMeans(close(t), b);
        assert Meaning(Write(close, PromoteBody(b, None)), t) == Meaning(PromoteBody(b, None), close(t));
      }
    }
    assert CommitFree(ReturnBody(loan, b, queued, pick)) by {
      assert CommitFree(PromoteBody(b, pick)) && CommitFree(PromoteBody(b, None));
    }
    MeansDoes(ReturnBody(loan, b, queued, pick), t, ReturnBook(t, loan, queued, pick), commits);
  }

  lemma {:induction false} SweepMeans(t: Tables, order: seq<Id>, picks: seq<Option<Id>>, next: Body<Tables>)
    requires SweepAnswers(t, order, picks) && CommitFree(next) && forall x :: x in order ==> x in t.reservations
    ensures CommitFree(SweepBody(t, order, picks, next))
    ensures var o := SweepRounds(t, order, picks);
      if o.Success? then SameRows(t, o.value) && Meaning(SweepBody(t, order, picks, next), t) == Meaning(next, o.value)
      else Meaning(SweepBody(t, order, picks, next), t).1
    decreases |order|
  {
    if order != [] {
      var n := |order| - 1;
      var x, b := order[n], t.reservations[order[n]].book;
      assert CommitFree(PromoteBody(b, picks[n]));
      SweepMeans(t, order[..n], picks[..n], RoundBody(x, b, picks[n], next));
      if SweepRounds(t, order[..n], picks[..n]).Success? {
        var u := SweepRounds(t, order[..n], picks[..n]).value;
        RoundMeans(u, x, picks[n], next);
        if ExpireOne(u, x, picks[n]).Success? { ExpireOneSameRows(u, x, picks[n]); }
      }
    }
  }

  lemma RoundMeans(u: Tables, x: Id, pick: Option<Id>, next: Body<Tables>)
    requires x in u.reservations && u.reservations[x].status.Hold? && CommitFree(next)
    requires IsFifoAnswer(u.reservations, u.reservations[x].book, pick)
    ensures var body, o := RoundBody(x, u.reservations[x].book, pick, next), ExpireOne(u, x, pick);
      if o.Success? then Meaning(body, u) == Meaning(next, o.value) else Meaning(body, u).1
  {
    var r := u.reservations[x];
    var lapse := (t: Tables) => PutIfThere(t, x, Lapsed);
    QueueUnmoved(u.reservations, x, Lapsed(r), r.book, pick);
    CallMeans(u, lapse(u), lapse, r.book, pick, next);
  }

  /** process_expired_holds commits all its rounds together; if one of its nested promotions raises, not even the
      rounds before it stay. */
  lemma SweepIsAtomic(t: Tables, order: seq<Id>, picks: seq<Option<Id>>, commits: nat)
    requires SweepAnswers(t, order, picks) && forall x :: x in order ==> x in t.reservations
    ensures Does(SweepBody(t, order, picks, Done), t, SweepRounds(t, order, picks), commits)
  {
    SweepMeans(t, order, picks, Done);
    MeansDoes(SweepBody(t, order, picks, Done), t, SweepRounds(t, order, picks), commits);
  }
}
