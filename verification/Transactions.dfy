/** The @transactional wrapper: nested service calls on one session share the outermost call's transaction. */
module Transactions {

  /** What a service method does, as far as transactions can tell: it writes, branches on what it sees, raises, may
      commit by itself, and calls other transactional methods, running `rescue` when one raises. */
  datatype Body<!S> =
    | Done
    | Raise
    | Write(f: S -> S, next: Body<S>)
    | If(p: S -> bool, yes: Body<S>, no: Body<S>)
    | Commit(next: Body<S>)
    | Call(inner: Body<S>, next: Body<S>, rescue: Body<S>)

  predicate CommitFree<S>(body: Body<S>) {
    match body
    case Done => true
    case Raise => true
    case Write(_, next) => CommitFree(next)
    case If(_, yes, no) => CommitFree(yes) && CommitFree(no)
    case Commit(_) => false
    case Call(inner, next, rescue) => CommitFree(inner) && CommitFree(next) && CommitFree(rescue)
  }

  /** What the session has committed, what it sees, whether its transaction is open, and its commits so far. */
  datatype Db<S> = Db(saved: S, work: S, open: bool, commits: nat)

  function Committed<S>(d: Db<S>): Db<S> { Db(d.work, d.work, false, d.commits + 1) }
  function RolledBack<S>(d: Db<S>): Db<S> { d.(work := d.saved, open := false) }

  /** Runs a body inside a begin() block; once its transaction is closed, every further statement raises. */
  function Exec<S>(body: Body<S>, d: Db<S>): (Db<S>, bool) {
    match body
    case Done => (d, false)
    case Raise => (d, true)
    case Write(f, next) => if d.open then Exec(next, d.(work := f(d.work))) else (d, true)
    case If(p, yes, no) => if !d.open then (d, true) else if p(d.work) then Exec(yes, d) else Exec(no, d)
    case Commit(next) => if d.open then Exec(next, Committed(d)) else (d, true)
    case Call(inner, next, rescue) =>
      var (d', raised) := Exec(inner, d);
      if raised then Exec(rescue, d') else Exec(next, d')
  }

  /** A begin() block starts from a committed state: an implicit transaction in progress is committed first. */
  function Begun<S>(d: Db<S>): Db<S> {
    var c := if d.open then Committed(d) else d;
    c.(work := c.saved, open := true)
  }

  /** The end of a begin() block; it leaves alone a transaction that has been committed inside. */
  function Ended<S>(d: Db<S>, raised: bool): Db<S> {
    if !d.open then d else if raised then RolledBack(d) else Committed(d)
  }

  function Outermost<S>(body: Body<S>, d: Db<S>): (Db<S>, bool) {
    var (d', raised) := Exec(body, Begun(d));
    (Ended(d', raised), raised)
  }

  class Session<S> {
    var depth: int
    var saved: S
    var work: S
    var open: bool
    var commits: nat

    constructor (start: S)
      ensures depth == 0 && View() == Db(start, start, false, 0)
    {
      depth, saved, work, open, commits := 0, start, start, false, 0;
    }

    function View(): Db<S>
      reads this
    {
      Db(saved, work, open, commits)
    }

    method CommitNow()
      modifies this
      ensures View() == Committed(old(View())) && depth == old(depth)
    {
      saved := work;
      open := false;
      commits := commits + 1;
    }

    /** What the wrapper does before the method it decorates: count, and begin() if nobody has. */
    method Enter()
      requires depth >= 0
      modifies this
      ensures depth == old(depth) + 1
      ensures View() == if old(depth) > 0 then old(View()) else Begun(old(View()))
    {
      if depth > 0 {
        depth := depth + 1;
      } else {
        depth := 1;
        if open {
          CommitNow();
        }
        work := saved;
        open := true;
      }
    }

    /** What it does afterwards, whether the method returned or raised. */
    method Leave(raised: bool)
      requires depth > 0
      modifies this
      ensures depth == old(depth) - 1
      ensures View() == if old(depth) > 1 then old(View()) else Ended(old(View()), raised)
    {
      if depth == 1 && open {
        if raised {
          work := saved;
          open := false;
        } else {
          CommitNow();
        }
      }
      depth := depth - 1;
    }

    /** The wrapper around a decorated method. Whether it returns or raises, the depth is back where it was. */
    method Transactional(body: Body<S>) returns (raised: bool)
      requires depth >= 0
      modifies this
      ensures depth == old(depth)
      ensures (View(), raised) == if old(depth) > 0 then Exec(body, old(View())) else Outermost(body, old(View()))
      decreases body, 1
    {
      Enter();
      raised := RunBody(body);
      Leave(raised);
    }

    method RunBody(body: Body<S>) returns (raised: bool)
      requires depth > 0
      modifies this
      ensures depth == old(depth)
      ensures (View(), raised) == Exec(body, old(View()))
      decreases body, 0
    {
      match body
      case Done => raised := false;
      case Raise => raised := true;
      case Write(f, next) =>
        if open {
          work := f(work);
          raised := RunBody(next);
        } else {
          raised := true;
        }
      case If(p, yes, no) =>
        if !open {
          raised := true;
        } else if p(work) {
          raised := RunBody(yes);
        } else {
          raised := RunBody(no);
        }
      case Commit(next) =>
        if open {
          CommitNow();
          raised := RunBody(next);
        } else {
          raised := true;
        }
      case Call(inner, next, rescue) =>
        raised := Transactional(inner);
        if raised {
          raised := RunBody(rescue);
        } else {
          raised := RunBody(next);
        }
    }
  }

  /** The plain meaning of a body, with no notion of transactions. */
  function Meaning<S>(body: Body<S>, s: S): (S, bool)
    requires CommitFree(body)
  {
    match body
    case Done => (s, false)
    case Raise => (s, true)
    case Write(f, next) => Meaning(next, f(s))
    case If(p, yes, no) => if p(s) then Meaning(yes, s) else Meaning(no, s)
    case Call(inner, next, rescue) =>
      var (s', raised) := Meaning(inner, s);
      if raised then Meaning(rescue, s') else Meaning(next, s')
  }

  /** Nested calls commit nothing and roll nothing back: they only do their writes. */
  lemma {:induction false} NestingIsTransparent<S>(body: Body<S>, d: Db<S>)
    requires CommitFree(body) && d.open
    ensures Exec(body, d) == (d.(work := Meaning(body, d.work).0), Meaning(body, d.work).1)
    decreases body
  {
    match body
    case Done =>
    case Raise =>
    case Write(f, next) => NestingIsTransparent(next, d.(work := f(d.work)));
    case If(p, yes, no) => if p(d.work) { NestingIsTransparent(yes, d); } else { NestingIsTransparent(no, d); }
    case Call(inner, next, rescue) =>
      NestingIsTransparent(inner, d);
      var (d', raised) := Exec(inner, d);
      if raised { NestingIsTransparent(rescue, d'); } else { NestingIsTransparent(next, d'); }
  }

  /** Where a call starts: what had been written in an implicit transaction stands. */
  function StartState<S>(d: Db<S>): S { if d.open then d.work else d.saved }
  function StartCommits<S>(d: Db<S>): nat { if d.open then d.commits + 1 else d.commits }

  /** All or nothing: when no body in the tree commits by itself, the outermost call commits exactly once if it
      returns; if it raises, nothing is committed and the state is the one its transaction began with. An implicit
      transaction found open is committed first, and stays committed whatever becomes of the call. */
  lemma AllOrNothing<S>(body: Body<S>, d: Db<S>)
    requires CommitFree(body)
    ensures var (d', raised) := Outermost(body, d);
      && !d'.open && d'.work == d'.saved
      && raised == Meaning(body, StartState(d)).1
      && d'.saved == (if raised then StartState(d) else Meaning(body, StartState(d)).0)
      && d'.commits == StartCommits(d) + (if raised then 0 else 1)
  {
    NestingIsTransparent(body, Begun(d));
  }

  /** Whether or not bodies commit by themselves: at most one commit per outermost call, and afterwards the session
      sees exactly what is committed. */
  lemma {:induction false} ExecCommitsOnce<S>(body: Body<S>, d: Db<S>)
    requires !d.open ==> d.work == d.saved
    ensures var d' := Exec(body, d).0;
      && (!d.open ==> d' == d)
      && (d'.open ==> d'.saved == d.saved && d'.commits == d.commits)
      && (d.open && !d'.open ==> d'.commits == d.commits + 1 && d'.work == d'.saved)
    decreases body
  {
    match body
    case Done =>
    case Raise =>
    case Write(f, next) => if d.open { ExecCommitsOnce(next, d.(work := f(d.work))); }
    case If(p, yes, no) => if d.open { if p(d.work) { ExecCommitsOnce(yes, d); } else { ExecCommitsOnce(no, d); } }
    case Commit(next) => if d.open { ExecCommitsOnce(next, Committed(d)); }
    case Call(inner, next, rescue) =>
      ExecCommitsOnce(inner, d);
      var (d', raised) := Exec(inner, d);
      if raised { ExecCommitsOnce(rescue, d'); } else { ExecCommitsOnce(next, d'); }
  }

  /** For every tree, an escaping exception undoes the call exactly as far as no body has committed: either nothing
      was committed and the state is as at the beginning, or one commit stands, exception or not. */
  lemma ExceptionsUndoUncommitted<S>(body: Body<S>, d: Db<S>)
    ensures var (d', raised) := Outermost(body, d);
      && d'.work == d'.saved && !d'.open
      && (raised && d'.commits == StartCommits(d) ==> d'.saved == StartState(d))
      && (if raised then StartCommits(d) <= d'.commits <= StartCommits(d) + 1 else d'.commits == StartCommits(d) + 1)
      && (raised && d'.commits == StartCommits(d) + 1 ==> d' == Exec(body, Begun(d)).0)
  {
    ExecCommitsOnce(body, Begun(d));
  }

  /** A body that commits by itself has ended its transaction: whatever it tries on the session next raises, and changes
      nothing any more. */
  lemma CommitEndsTransaction<S>(f: S -> S, next: Body<S>, d: Db<S>)
    ensures var (d', raised) := Outermost(Commit(Write(f, next)), d);
      raised && d'.saved == StartState(d) && d'.work == d'.saved && d'.commits == StartCommits(d) + 1
    ensures var (d', raised) := Outermost(Commit(Commit(next)), d);
      raised && d'.saved == StartState(d) && d'.work == d'.saved && d'.commits == StartCommits(d) + 1
    ensures forall p, no :: var (d', raised) := Outermost(Commit(If(p, next, no)), d);
      raised && d'.saved == StartState(d) && d'.work == d'.saved && d'.commits == StartCommits(d) + 1
  {
    var c := Committed(Begun(d));
    assert Exec(Write(f, next), c) == (c, true) && Exec(Commit(next), c) == (c, true);
    forall p, no
      ensures var (d', raised) := Outermost(Commit(If(p, next, no)), d);
        raised && d'.saved == StartState(d) && d'.work == d'.saved && d'.commits == StartCommits(d) + 1
    {
      assert Exec(If(p, next, no), c) == (c, true);
    }
  }

  /** A nested call is no savepoint: what it wrote before raising is kept if its caller handles the exception. */
  lemma NestedIsNoSavepoint<S>(f: S -> S, d: Db<S>)
    ensures var handled := Call(Write(f, Raise), Done, Done);
      Outermost(handled, d).1 == false && Outermost(handled, d).0.saved == f(StartState(d))
  {
    var handled := Call(Write(f, Raise), Done, Done);
    var s := StartState(d);
    assert CommitFree<S>(Raise) && CommitFree<S>(Done);
    assert CommitFree(Write(f, Raise));
    assert Meaning(Raise, f(s)) == (f(s), true);
    assert Meaning(Write(f, Raise), s) == (f(s), true);
    assert Meaning(handled, s) == Meaning(Done, f(s)) == (f(s), false);
    AllOrNothing(handled, d);
  }

  /** A write committed inside the body survives the exception raised after it; without the commit it is undone. */
  lemma CommitBeforeRaising<S>(f: S -> S, d: Db<S>)
    ensures Outermost(Write(f, Commit(Raise)), d).1
      && Outermost(Write(f, Commit(Raise)), d).0.saved == f(StartState(d))
    ensures Outermost(Write(f, Raise), d).1 && Outermost(Write(f, Raise), d).0.saved == StartState(d)
  {
    var b := Begun(d);
    var written := b.(work := f(b.work));
    assert Exec(Raise, written) == (written, true);
    assert Exec(Raise, Committed(written)) == (Committed(written), true);
    assert Exec(Commit(Raise), written) == (Committed(written), true);
    assert Exec(Write(f, Raise), b) == (written, true);
  }
}
