/** Refresh-token rotation with token families (the reuse detection of section 5.2.2.3 of RFC 6819).
    A raw token stands for its fingerprint: hashing is taken to be injective, and generated tokens and family ids
    fresh. */
module Auth {
  import opened Prelude
  import opened Domain
  import opened Transactions

  type Raw = nat

  const TOKEN_LIFETIME: Time := 7 * DAY

  datatype Token = Token(raw: Raw, family: Id, user: Id, expiresAt: Time, revoked: bool)

  datatype AuthError =
    | InvalidCredentials | InactiveUser | InvalidRefreshToken | TokenRevoked | TokenExpired | MultipleTokens

  /** The refresh_tokens table in order of insertion, the users whose status is ACTIVE, and the clock. */
  datatype AuthState = AuthState(tokens: seq<Token>, active: set<Id>, now: Time)

  /** What a call leaves committed: with a new token pair issued, or an exception raised. */
  datatype Reply = Issued(state: AuthState) | Refused(state: AuthState, error: AuthError)

  function Matching(tokens: seq<Token>, raw: Raw): set<nat> {
    set i: nat | i < |tokens| && tokens[i].raw == raw
  }

  function Revoke(tokens: seq<Token>, i: nat): seq<Token>
    requires i < |tokens|
  {
    tokens[i := tokens[i].(revoked := true)]
  }

  function Burn(tokens: seq<Token>, family: Id): seq<Token> {
    seq(|tokens|, i requires 0 <= i < |tokens| =>
      if tokens[i].family == family then tokens[i].(revoked := true) else tokens[i])
  }

  predicate FreshRaw(tokens: seq<Token>, raw: Raw) { forall i :: 0 <= i < |tokens| ==> tokens[i].raw != raw }
  predicate FreshFamily(tokens: seq<Token>, family: Id) { forall i :: 0 <= i < |tokens| ==> tokens[i].family != family }

  /** `account` is the user with the given e-mail address, and `verified` the answer of the password hasher. */
  function Login(s: AuthState, account: Option<Id>, verified: bool, raw: Raw, family: Id): Reply {
    if account.None? then Refused(s, InvalidCredentials)
    else if account.value !in s.active then Refused(s, InactiveUser)
    else if !verified then Refused(s, InvalidCredentials)
    else Issued(s.(tokens := s.tokens + [Token(raw, family, account.value, s.now + TOKEN_LIFETIME, false)]))
  }

  function Refresh(s: AuthState, raw: Raw, newRaw: Raw): Reply {
    var found := Matching(s.tokens, raw);
    if |found| > 1 then Refused(s, MultipleTokens)
    else if |found| == 0 then Refused(s, InvalidRefreshToken)
    else
      var i := TheOnly(found);
      assert i in found;
      var tok := s.tokens[i];
      if tok.revoked then Refused(s.(tokens := Burn(s.tokens, tok.family)), TokenRevoked)
      else if tok.expiresAt < s.now then Refused(s, TokenExpired)
      else if tok.user !in s.active then Refused(s, InactiveUser)
      else Issued(s.(tokens := Revoke(s.tokens, i)
                              + [Token(newRaw, tok.family, tok.user, s.now + TOKEN_LIFETIME, false)]))
  }

  function Logout(s: AuthState, raw: Raw): Reply {
    var found := Matching(s.tokens, raw);
    if |found| > 1 then Refused(s, MultipleTokens)
    else if |found| == 0 then Issued(s)
    else
      var i := TheOnly(found);
      assert i in found;
      Issued(s.(tokens := Revoke(s.tokens, i)))
  }

  // ----- as transactions -----

  /** The writes, commits and raises of refresh_token on the branch the table selects. */
  function RefreshBody(s: AuthState, raw: Raw, newRaw: Raw): Body<seq<Token>> {
    var found := Matching(s.tokens, raw);
    if |found| != 1 then Raise
    else
      var i := TheOnly(found);
      assert i in found;
      var tok := s.tokens[i];
      var revoke := (ts: seq<Token>) => if i < |ts| then Revoke(ts, i) else ts;
      if tok.revoked then Write(ts => Burn(ts, tok.family), Commit(Raise))
      else if tok.expiresAt < s.now then Write(revoke, Raise)
      else if tok.user !in s.active then Write(revoke, Raise)
      else Write(revoke, Write(ts => ts + [Token(newRaw, tok.family, tok.user, s.now + TOKEN_LIFETIME, false)], Done))
  }

  /** Run under @transactional, refresh_token commits just what Refresh says, although the reuse branch raises and the
      expiry and inactive branches first mark the token: those marks are rolled back, the burnt family is not. */
  lemma RefreshUnderTransaction(s: AuthState, raw: Raw, newRaw: Raw, commits: nat)
    ensures var d := Outermost(RefreshBody(s, raw, newRaw), Db(s.tokens, s.tokens, false, commits));
      d.0.saved == Refresh(s, raw, newRaw).state.tokens && d.1 == Refresh(s, raw, newRaw).Refused?
  {
    var d := Db(s.tokens, s.tokens, false, commits);
    var found := Matching(s.tokens, raw);
    if |found| == 1 {
      var i := TheOnly(found);
      assert i in found;
      var tok := s.tokens[i];
      var revoke := (ts: seq<Token>) => if i < |ts| then Revoke(ts, i) else ts;
      var burn := (ts: seq<Token>) => Burn(ts, tok.family);
      if tok.revoked {
        CommitBeforeRaising(burn, d);
      } else if tok.expiresAt < s.now || tok.user !in s.active {
        CommitBeforeRaising(revoke, d);
      } else {
        var issue := (ts: seq<Token>) => ts + [Token(newRaw, tok.family, tok.user, s.now + TOKEN_LIFETIME, false)];
        var b := Begun(d);
        var b1 := b.(work := revoke(b.work));
        var b2 := b1.(work := issue(b1.work));
        assert Exec(Done, b2) == (b2, false);
        assert Exec(Write(issue, Done), b1) == (b2, false);
      }
    }
  }

  /** A token a second past its expiry: refresh_token marks it as revoked, raises, and leaves it unmarked. */
  lemma ExpiredMarkIsLost()
    ensures var s := AuthState([Token(1, 1, 1, 0, false)], {1}, SECOND);
      var body, d := RefreshBody(s, 1, 2), Db(s.tokens, s.tokens, false, 0);
      && Exec(body, Begun(d)).0.work == [Token(1, 1, 1, 0, true)]
      && Outermost(body, d) == (d, true)
  {
    var s := AuthState([Token(1, 1, 1, 0, false)], {1}, SECOND);
    var body, d := RefreshBody(s, 1, 2), Db(s.tokens, s.tokens, false, 0);
    assert Matching(s.tokens, 1) == {0};
    var revoke := (ts: seq<Token>) => if 0 < |ts| then Revoke(ts, 0) else ts;
    assert body == Write(revoke, Raise);
    assert Exec(body, Begun(d)) == Exec(Raise, Begun(d).(work := revoke(s.tokens)));
  }

  // ----- runs -----

  /** One successful exchange, by row: `spent` was traded for `issued`. */
  datatype Exchange = Exchange(spent: nat, issued: nat)

  datatype AuthWorld = AuthWorld(s: AuthState, log: seq<Exchange>)

  datatype AuthOp =
    | DoLogin(account: Option<Id>, verified: bool, raw: Raw, family: Id)
    | DoRefresh(raw: Raw, newRaw: Raw)
    | DoLogout(raw: Raw)
    | SetActive(active: set<Id>)
    | Wait(elapsed: nat)

  predicate CanDo(s: AuthState, op: AuthOp) {
    match op
    case DoLogin(_, _, raw, family) => FreshRaw(s.tokens, raw) && FreshFamily(s.tokens, family)
    case DoRefresh(_, newRaw) => FreshRaw(s.tokens, newRaw)
    case _ => true
  }

  function Answer(s: AuthState, op: AuthOp): Reply {
    match op
    case DoLogin(account, verified, raw, family) => Login(s, account, verified, raw, family)
    case DoRefresh(raw, newRaw) => Refresh(s, raw, newRaw)
    case DoLogout(raw) => Logout(s, raw)
    case SetActive(active) => Issued(s.(active := active))
    case Wait(elapsed) => Issued(s.(now := s.now + elapsed))
  }

  predicate Exchanges(s: AuthState, op: AuthOp) { op.DoRefresh? && Answer(s, op).Issued? }

  function SpentRow(s: AuthState, op: AuthOp): (i: nat)
    requires Exchanges(s, op)
    ensures i < |s.tokens| && s.tokens[i].raw == op.raw
  {
    var i := TheOnly(Matching(s.tokens, op.raw));
    assert i in Matching(s.tokens, op.raw);
    i
  }

  function AuthStep(w: AuthWorld, op: AuthOp): AuthWorld {
    AuthWorld(Answer(w.s, op).state,
              if Exchanges(w.s, op) then w.log + [Exchange(SpentRow(w.s, op), |w.s.tokens|)] else w.log)
  }

  ghost predicate IsAuthRun(run: seq<AuthWorld>, ops: seq<AuthOp>) {
    && |run| == |ops| + 1 && run[0].s.tokens == [] && run[0].log == []
    && forall k :: 0 <= k < |ops| ==> CanDo(run[k].s, ops[k]) && run[k + 1] == AuthStep(run[k], ops[k])
  }

  /** No raw token twice; in each family every token but the newest is revoked. */
  predicate Lineage(tokens: seq<Token>) {
    && (forall i, j :: 0 <= i < j < |tokens| ==> tokens[i].raw != tokens[j].raw)
    && (forall i, j :: 0 <= i < j < |tokens| && tokens[i].family == tokens[j].family ==> tokens[i].revoked)
  }

  /** An exchange leads from a spent token to the very next one of its family. */
  predicate Linked(tokens: seq<Token>, e: Exchange) {
    && e.spent < e.issued < |tokens|
    && tokens[e.spent].family == tokens[e.issued].family && tokens[e.spent].revoked
    && forall m :: e.spent < m < e.issued ==> tokens[m].family != tokens[e.spent].family
  }

  /** Exchanges follow the chains, and no token is spent twice. */
  predicate Chained(tokens: seq<Token>, log: seq<Exchange>) {
    && (forall k :: 0 <= k < |log| ==> Linked(tokens, log[k]))
    && (forall j, k :: 0 <= j < k < |log| ==> log[j].spent != log[k].spent)
  }

  /** Every token that is not the first of its family came from an exchange. */
  ghost predicate Descended(tokens: seq<Token>, log: seq<Exchange>) {
    forall i, j :: 0 <= i < j < |tokens| && tokens[i].family == tokens[j].family ==>
      exists k :: 0 <= k < |log| && log[k].issued == j
  }

  /** The only thing that ever happens to a row is that it gets revoked; new rows come at the end. */
  predicate Grows(before: seq<Token>, tokens: seq<Token>) {
    |before| <= |tokens| && forall i :: 0 <= i < |before| ==>
      tokens[i] == before[i] || tokens[i] == before[i].(revoked := true)
  }

  lemma OneMatch(tokens: seq<Token>, raw: Raw)
    requires Lineage(tokens)
    ensures |Matching(tokens, raw)| <= 1
    ensures forall i :: 0 <= i < |tokens| && tokens[i].raw == raw ==> Matching(tokens, raw) == {i}
  {
    var found := Matching(tokens, raw);
    if found != {} {
      var i :| i in found;
      assert found == {i};
    }
  }

  lemma StepGrows(s: AuthState, op: AuthOp)
    ensures Grows(s.tokens, Answer(s, op).state.tokens)
  {
    if op.DoRefresh? || op.DoLogout? {
      var found := Matching(s.tokens, op.raw);
      if |found| == 1 { assert TheOnly(found) in found; }
    }
  }

  lemma StepKeepsLineage(s: AuthState, op: AuthOp)
    requires Lineage(s.tokens) && CanDo(s, op)
    ensures Lineage(Answer(s, op).state.tokens)
  {
    StepGrows(s, op);
    if Exchanges(s, op) { assert SpentRow(s, op) in Matching(s.tokens, op.raw); }
  }

  lemma GrowthKeepsChain(tokens: seq<Token>, tokens': seq<Token>, log: seq<Exchange>)
    requires Chained(tokens, log) && Grows(tokens, tokens')
    ensures Chained(tokens', log)
  {
    forall k | 0 <= k < |log| ensures Linked(tokens', log[k]) {
      assert Linked(tokens, log[k]);
    }
  }

  /** The live token of a family is its newest, so the one issued for it comes next. */
  lemma ExchangeLinks(tokens: seq<Token>, tokens': seq<Token>, log: seq<Exchange>, i: nat)
    requires Lineage(tokens) && Chained(tokens, log) && Chained(tokens', log)
    requires i < |tokens| && !tokens[i].revoked && |tokens'| == |tokens| + 1
    requires tokens'[i].revoked && tokens'[|tokens|].family == tokens[i].family
    requires forall m :: 0 <= m < |tokens| ==> tokens'[m].family == tokens[m].family
    ensures Chained(tokens', log + [Exchange(i, |tokens|)])
  {
    var log' := log + [Exchange(i, |tokens|)];
    assert Linked(tokens', log'[|log|]);
    forall k | 0 <= k < |log| ensures Linked(tokens', log'[k]) && log'[k].spent != i {
      assert log'[k] == log[k] && Linked(tokens, log[k]);
    }
  }

  lemma StepKeepsChain(w: AuthWorld, op: AuthOp)
    requires Lineage(w.s.tokens) && Chained(w.s.tokens, w.log) && CanDo(w.s, op)
    ensures Chained(AuthStep(w, op).s.tokens, AuthStep(w, op).log)
  {
    StepGrows(w.s, op);
    GrowthKeepsChain(w.s.tokens, AuthStep(w, op).s.tokens, w.log);
    if Exchanges(w.s, op) {
      ExchangeLinks(w.s.tokens, AuthStep(w, op).s.tokens, w.log, SpentRow(w.s, op));
    }
  }

  lemma StepKeepsDescent(w: AuthWorld, op: AuthOp)
    requires Descended(w.s.tokens, w.log) && CanDo(w.s, op)
    ensures Descended(AuthStep(w, op).s.tokens, AuthStep(w, op).log)
  {
    StepGrows(w.s, op);
    var w' := AuthStep(w, op);
    forall i, j | 0 <= i < j < |w'.s.tokens| && w'.s.tokens[i].family == w'.s.tokens[j].family
      ensures exists k :: 0 <= k < |w'.log| && w'.log[k].issued == j
    {
      if j < |w.s.tokens| {
        var k :| 0 <= k < |w.log| && w.log[k].issued == j;
        assert w'.log[k] == w.log[k];
      } else {
        assert w'.log[|w.log|].issued == j;
      }
    }
  }

  /** Linear lineage, in every state of every run: at most one live token per family, the newest of its chain. */
  lemma {:induction false} LineageIsLinear(run: seq<AuthWorld>, ops: seq<AuthOp>, k: nat)
    requires IsAuthRun(run, ops) && k < |run|
    ensures Lineage(run[k].s.tokens) && Chained(run[k].s.tokens, run[k].log) && Descended(run[k].s.tokens, run[k].log)
  {
    if k > 0 {
      LineageIsLinear(run, ops, k - 1);
      assert run[k - 1 + 1] == AuthStep(run[k - 1], ops[k - 1]);
      StepKeepsLineage(run[k - 1].s, ops[k - 1]);
      StepKeepsChain(run[k - 1], ops[k - 1]);
      StepKeepsDescent(run[k - 1], ops[k - 1]);
    }
  }

  lemma {:induction false} RunGrows(run: seq<AuthWorld>, ops: seq<AuthOp>, j: nat, k: nat)
    requires IsAuthRun(run, ops) && j <= k < |run|
    ensures Grows(run[j].s.tokens, run[k].s.tokens)
    decreases k
  {
    if j < k {
      RunGrows(run, ops, j, k - 1);
      assert run[k - 1 + 1] == AuthStep(run[k - 1], ops[k - 1]);
      StepGrows(run[k - 1].s, ops[k - 1]);
    }
  }

  /** Single use: a raw token once exchanged is never exchanged again, and presenting it again burns its family. */
  lemma SingleUse(run: seq<AuthWorld>, ops: seq<AuthOp>, j: nat, k: nat)
    requires IsAuthRun(run, ops) && j < k < |ops|
    requires Exchanges(run[j].s, ops[j])
    requires ops[k].DoRefresh? && ops[k].raw == ops[j].raw
    ensures Answer(run[k].s, ops[k]).Refused? && Answer(run[k].s, ops[k]).error == TokenRevoked
    ensures Dead(run[k + 1].s.tokens, run[j].s.tokens[SpentRow(run[j].s, ops[j])].family)
  {
    var i := SpentRow(run[j].s, ops[j]);
    assert run[j + 1] == AuthStep(run[j], ops[j]);
    RunGrows(run, ops, j + 1, k);
    LineageIsLinear(run, ops, k);
    OneMatch(run[k].s.tokens, ops[k].raw);
    assert run[k].s.tokens[i].revoked;
    assert run[k + 1] == AuthStep(run[k], ops[k]);
    PresentingRevokedBurns(run[k].s, ops[k].raw, ops[k].newRaw, i);
  }

  /** A family in use, with no live token. */
  predicate Dead(tokens: seq<Token>, family: Id) {
    && (exists i :: 0 <= i < |tokens| && tokens[i].family == family)
    && (forall i :: 0 <= i < |tokens| && tokens[i].family == family ==> tokens[i].revoked)
  }

  lemma PresentingRevokedBurns(s: AuthState, raw: Raw, newRaw: Raw, i: nat)
    requires Lineage(s.tokens) && i < |s.tokens| && s.tokens[i].raw == raw && s.tokens[i].revoked
    ensures Refresh(s, raw, newRaw) == Refused(s.(tokens := Burn(s.tokens, s.tokens[i].family)), TokenRevoked)
    ensures Dead(Refresh(s, raw, newRaw).state.tokens, s.tokens[i].family)
  {
    OneMatch(s.tokens, raw);
    var t' := Burn(s.tokens, s.tokens[i].family);
    assert t'[i].family == s.tokens[i].family;
  }

  lemma DeadStaysDead(s: AuthState, op: AuthOp, family: Id)
    requires Dead(s.tokens, family) && CanDo(s, op)
    ensures Dead(Answer(s, op).state.tokens, family)
    ensures forall i :: |s.tokens| <= i < |Answer(s, op).state.tokens| ==>
      Answer(s, op).state.tokens[i].family != family
  {
    StepGrows(s, op);
    var t' := Answer(s, op).state.tokens;
    var i :| 0 <= i < |s.tokens| && s.tokens[i].family == family;
    assert t'[i].family == family;
    if Exchanges(s, op) { assert SpentRow(s, op) in Matching(s.tokens, op.raw); }
  }

  /** A dead family stays dead: at every later point of any run all its tokens are revoked, it has gained none, and
      no token of it is ever exchanged. */
  lemma {:induction false} DeadForever(run: seq<AuthWorld>, ops: seq<AuthOp>, j: nat, k: nat, family: Id)
    requires IsAuthRun(run, ops) && j <= k < |run| && Dead(run[j].s.tokens, family)
    ensures Dead(run[k].s.tokens, family)
    ensures |run[j].s.tokens| <= |run[k].s.tokens|
    ensures forall i :: |run[j].s.tokens| <= i < |run[k].s.tokens| ==> run[k].s.tokens[i].family != family
    ensures k < |ops| && Exchanges(run[k].s, ops[k]) ==> run[k].s.tokens[SpentRow(run[k].s, ops[k])].family != family
    decreases k
  {
    if j < k {
      DeadForever(run, ops, j, k - 1, family);
      assert run[k - 1 + 1] == AuthStep(run[k - 1], ops[k - 1]);
      DeadStaysDead(run[k - 1].s, ops[k - 1], family);
      StepGrows(run[k - 1].s, ops[k - 1]);
    }
    if k < |ops| && Exchanges(run[k].s, ops[k]) {
      assert SpentRow(run[k].s, ops[k]) in Matching(run[k].s.tokens, ops[k].raw);
    }
  }

  /** Presenting a revoked token kills its family for good, although the call that notices it raises. */
  lemma BurnedFamilyStaysDead(run: seq<AuthWorld>, ops: seq<AuthOp>, j: nat, k: nat, i: nat)
    requires IsAuthRun(run, ops) && j < k < |run| && ops[j].DoRefresh?
    requires i < |run[j].s.tokens| && run[j].s.tokens[i].raw == ops[j].raw && run[j].s.tokens[i].revoked
    ensures Answer(run[j].s, ops[j]).Refused?
    ensures Dead(run[k].s.tokens, run[j].s.tokens[i].family)
    ensures forall n :: |run[j].s.tokens| <= n < |run[k].s.tokens| ==>
      run[k].s.tokens[n].family != run[j].s.tokens[i].family
    ensures k < |ops| && Exchanges(run[k].s, ops[k]) ==>
      run[k].s.tokens[SpentRow(run[k].s, ops[k])].family != run[j].s.tokens[i].family
  {
    LineageIsLinear(run, ops, j);
    PresentingRevokedBurns(run[j].s, ops[j].raw, ops[j].newRaw, i);
    assert run[j + 1] == AuthStep(run[j], ops[j]);
    DeadForever(run, ops, j + 1, k, run[j].s.tokens[i].family);
  }

  // ----- the service -----

  /** The service works on the token table in a session; its public methods are @transactional. */
  class AuthService {
    const session: Session<seq<Token>>
    var active: set<Id>
    var now: Time

    constructor (now: Time)
      ensures session.work == [] && Idle() && this.now == now && active == {} && fresh(session)
    {
      session := new Session([]);
      active := {};
      this.now := now;
    }

    function State(): AuthState
      reads this, session
    {
      AuthState(session.work, active, now)
    }

    /** Between calls no transaction is open, and there is nothing uncommitted. */
    predicate Idle()
      reads this, session
    {
      session.depth == 0 && !session.open && session.work == session.saved
    }

    method DoLogin(account: Option<Id>, verified: bool, raw: Raw, family: Id) returns (error: Option<AuthError>)
      requires Idle()
      modifies session
      ensures Idle() && Replies(Login(old(State()), account, verified, raw, family), error, State())
    {
      session.Enter();
      error := LoginInTransaction(account, verified, raw, family);
      session.Leave(error.Some?);
    }

    method LoginInTransaction(account: Option<Id>, verified: bool, raw: Raw, family: Id)
      returns (error: Option<AuthError>)
      requires session.open
      modifies session`work
      ensures Replies(Login(old(State()), account, verified, raw, family), error, State())
    {
      if account.None? {
        return Some(InvalidCredentials);
      }
      if account.value !in active {
        return Some(InactiveUser);
      }
      if !verified {
        return Some(InvalidCredentials);
      }
      session.work := session.work + [Token(raw, family, account.value, now + TOKEN_LIFETIME, false)];
      error := None;
    }

    method DoRefresh(raw: Raw, newRaw: Raw) returns (error: Option<AuthError>)
      requires Idle()
      modifies session
      ensures Idle() && Replies(Refresh(old(State()), raw, newRaw), error, State())
    {
      session.Enter();
      error := RefreshInTransaction(raw, newRaw);
      session.Leave(error.Some?);
    }

    /** The body of refresh_token; the revocation of a reused family is committed before it raises. */
    method RefreshInTransaction(raw: Raw, newRaw: Raw) returns (error: Option<AuthError>)
      requires session.open && session.work == session.saved
      modifies session
      ensures session.depth == old(session.depth)
      ensures match Refresh(old(State()), raw, newRaw)
              case Issued(s') => error == None && State() == s' && session.open
              case Refused(s', e) => error == Some(e) && session.saved == s'.tokens && (!session.open ==> State() == s')
    {
      var found := Matching(session.work, raw);
      if |found| > 1 {
        return Some(MultipleTokens);
      }
      if |found| == 0 {
        return Some(InvalidRefreshToken);
      }
      var i := TheOnly(found);
      assert i in found;
      var tok := session.work[i];
      if tok.revoked {
        RevokeFamily(tok.family);
        session.CommitNow();
        return Some(TokenRevoked);
      }
      if tok.expiresAt < now {
        session.work := session.work[i := tok.(revoked := true)];
        return Some(TokenExpired);
      }
      session.work := session.work[i := tok.(revoked := true)];
      if tok.user !in active {
        return Some(InactiveUser);
      }
      session.work := session.work + [Token(newRaw, tok.family, tok.user, now + TOKEN_LIFETIME, false)];
      error := None;
    }

    method RevokeFamily(family: Id)
      modifies session`work
      ensures session.work == Burn(old(session.work), family)
    {
      var i := 0;
      ghost var tokens := session.work;
      while i < |session.work|
        invariant 0 <= i <= |session.work| == |tokens|
        invariant forall k :: 0 <= k < i ==> session.work[k] == Burn(tokens, family)[k]
        invariant forall k :: i <= k < |tokens| ==> session.work[k] == tokens[k]
      {
        if session.work[i].family == family {
          session.work := session.work[i := session.work[i].(revoked := true)];
        }
        i := i + 1;
      }
    }

    method DoLogout(raw: Raw) returns (error: Option<AuthError>)
      requires Idle()
      modifies session
      ensures Idle() && Replies(Logout(old(State()), raw), error, State())
    {
      session.Enter();
      var found := Matching(session.work, raw);
      if |found| > 1 {
        error := Some(MultipleTokens);
      } else {
        if |found| == 1 {
          var i := TheOnly(found);
          assert i in found;
          session.work := session.work[i := session.work[i].(revoked := true)];
        }
        error := None;
      }
      session.Leave(error.Some?);
    }
  }

  predicate Replies(r: Reply, error: Option<AuthError>, after: AuthState) {
    match r
    case Issued(s') => error == None && after == s'
    case Refused(s', e) => error == Some(e) && after == s'
  }
}
