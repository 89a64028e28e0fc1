/** The circulation engine as a state machine: one step is one outermost service call, or the clock moving on. */
module Machine {
  import opened Prelude
  import opened Domain
  import opened Repositories
  import opened Circulation

  datatype Promotion = Promotion(reservation: Id, book: Id)

  /** What a run has done so far; the code keeps none of this.
      `promotions` is every move to HOLD in order, `heldSince` its time, `releases` every loan that gave its copy
      back. */
  datatype History = History(
    promotions: seq<Promotion>, heldSince: map<Id, Time>, cancelledHolds: set<Id>, releases: seq<Id>)

  datatype World = World(t: Tables, h: History)

  datatype Op =
    | CreateBook(book: Id, isbn: string, copies: int)
    | UpdateBook(book: Id, total: Option<int>, newIsbn: Option<string>)
    | DeleteBook(book: Id)
    | Borrow(member: Id, book: Id, loan: Id, checkedAt: Time, borrowedAt: Time)
    | Return(loan: Id, queued: bool, pick: Option<Id>)
    | Renew(loan: Id, blocked: bool)
    | Place(member: Id, book: Id, reservation: Id, window: set<Id>)
    | Cancel(reservation: Id, member: Id, pick: Option<Id>)
    | Sweep(order: seq<Id>, picks: seq<Option<Id>>)
    | SetMember(member: Id, row: Member) // registration and administration, outside the services
    | Tick(elapsed: nat)

  /** The arguments the code does not choose are ones the database and the clock can supply. */
  ghost predicate Feasible(t: Tables, op: Op) {
    match op
    case CreateBook(b, _, _) => b !in t.books
    case Borrow(_, _, loan, checkedAt, borrowedAt) => loan !in t.loans && checkedAt <= borrowedAt <= t.now
    case Return(loan, queued, pick) =>
      Releases(t, loan) && queued ==> IsFifoAnswer(t.reservations, t.loans[loan].book, pick)
    case Place(m, _, i, window) => i !in t.reservations && IsNewestWindow(t.loans, m, window)
    case Cancel(i, m, pick) =>
      CancelsHold(t, i, m) ==> IsFifoAnswer(t.reservations, t.reservations[i].book, pick)
    case Sweep(order, picks) => ListsExpired(t, order) && SweepAnswers(t, order, picks)
    case _ => true
  }

  ghost function Apply(t: Tables, op: Op): Outcome
    requires Feasible(t, op)
  {
    match op
    case CreateBook(b, isbn, copies) => Circulation.CreateBook(t, b, isbn, copies)
    case UpdateBook(b, total, isbn) => Circulation.UpdateBook(t, b, total, isbn)
    case DeleteBook(b) => Circulation.DeleteBook(t, b)
    case Borrow(m, b, loan, checkedAt, borrowedAt) => BorrowBook(t, m, b, loan, checkedAt, borrowedAt)
    case Return(loan, queued, pick) => ReturnBook(t, loan, queued, pick)
    case Renew(loan, blocked) => RenewBook(t, loan, blocked)
    case Place(m, b, i, window) => PlaceReservation(t, m, b, i, window)
    case Cancel(i, m, pick) => CancelReservation(t, i, m, pick)
    case Sweep(order, picks) => SweepRounds(t, order, picks)
    case SetMember(m, row) => Success(t.(members := t.members[m := row]))
    case Tick(elapsed) => Success(t.(now := t.now + elapsed))
  }

  function Note(h: History, b: Id, pick: Option<Id>, now: Time): History {
    match pick
    case None => h
    case Some(i) => h.(promotions := h.promotions + [Promotion(i, b)], heldSince := h.heldSince[i := now])
  }

  function NoteSweep(h: History, t: Tables, order: seq<Id>, picks: seq<Option<Id>>): History
    requires |order| == |picks| && forall i :: i in order ==> i in t.reservations
  {
    if order == [] then h
    else
      var n := |order| - 1;
      Note(NoteSweep(h, t, order[..n], picks[..n]), t.reservations[order[n]].book, picks[n], t.now)
  }

  ghost function Record(h: History, t: Tables, op: Op): History
    requires Feasible(t, op)
  {
    match op
    case Return(loan, queued, pick) =>
      if !Releases(t, loan) then h
      else
        var h' := h.(releases := h.releases + [loan]);
        if queued then Note(h', t.loans[loan].book, pick, t.now) else h'
    case Cancel(i, m, pick) =>
      if CancelsHold(t, i, m)
      then Note(h.(cancelledHolds := h.cancelledHolds + {i}), t.reservations[i].book, pick, t.now)
      else h
    case Sweep(order, picks) =>
      assert forall i :: i in order ==> i in Elements(order);
      NoteSweep(h, t, order, picks)
    case _ => h
  }

  /** A call that raises is rolled back. */
  ghost function Step(w: World, op: Op): World
    requires Feasible(w.t, op)
  {
    match Apply(w.t, op)
    case Failure(_) => w
    case Success(t') => World(t', Record(w.h, w.t, op))
  }

  function Empty(now: Time): World {
    World(Tables(map[], map[], map[], map[], now), History([], map[], {}, []))
  }

  /** `run` lists the states of a run from the empty database, and `ops` the steps between them. */
  ghost predicate IsRun(run: seq<World>, ops: seq<Op>) {
    && |run| == |ops| + 1
    && run[0] == Empty(run[0].t.now)
    && forall k :: 0 <= k < |ops| ==> Feasible(run[k].t, ops[k]) && run[k + 1] == Step(run[k], ops[k])
  }

  lemma RunExtends(run: seq<World>, ops: seq<Op>, op: Op)
    requires IsRun(run, ops) && Feasible(run[|ops|].t, op)
    ensures IsRun(run + [Step(run[|ops|], op)], ops + [op])
  {
    var run', ops' := run + [Step(run[|ops|], op)], ops + [op];
    forall k | 0 <= k < |ops'| ensures Feasible(run'[k].t, ops'[k]) && run'[k + 1] == Step(run'[k], ops'[k]) {
      if k < |ops| {
        assert run'[k] == run[k] && run'[k + 1] == run[k + 1] && ops'[k] == ops[k];
      }
    }
  }

  ghost predicate Reachable(t: Tables) {
    exists run: seq<World>, ops: seq<Op> :: IsRun(run, ops) && run[|ops|].t == t
  }
}
