/** What a member can count on while logged in, over whole runs of the token service. */
module Sessions {
  import opened Domain
  import opened Prelude
  import opened Auth

  predicate Issues(s: AuthState, op: AuthOp) {
    (op.DoLogin? || op.DoRefresh?) && Answer(s, op).Issued?
  }

  function NewToken(op: AuthOp): Raw
    requires op.DoLogin? || op.DoRefresh?
  {
    if op.DoLogin? then op.raw else op.newRaw
  }

  /** This call presents a token of `family`. */
  predicate Presents(s: AuthState, op: AuthOp, family: Id) {
    && (op.DoRefresh? || op.DoLogout?)
    && exists i :: 0 <= i < |s.tokens| && s.tokens[i].raw == op.raw && s.tokens[i].family == family
  }

  /** Rows of a family change only when one of its tokens is presented. */
  lemma UnpresentedUntouched(s: AuthState, op: AuthOp, i: nat)
    requires i < |s.tokens| && !Presents(s, op, s.tokens[i].family)
    ensures i < |Answer(s, op).state.tokens| && Answer(s, op).state.tokens[i] == s.tokens[i]
  {
    StepGrows(s, op);
    if op.DoRefresh? || op.DoLogout? {
      var found := Matching(s.tokens, op.raw);
      if |found| == 1 { assert TheOnly(found) in found; }
    }
  }

  lemma {:induction false} UntouchedUntilPresented(run: seq<AuthWorld>, ops: seq<AuthOp>, j: nat, k: nat, i: nat)
    requires IsAuthRun(run, ops) && j <= k < |run| && i < |run[j].s.tokens|
    requires forall n :: j <= n < k ==> !Presents(run[n].s, ops[n], run[j].s.tokens[i].family)
    ensures i < |run[k].s.tokens| && run[k].s.tokens[i] == run[j].s.tokens[i]
    decreases k
  {
    if j < k {
      UntouchedUntilPresented(run, ops, j, k - 1, i);
      assert run[k - 1 + 1] == AuthStep(run[k - 1], ops[k - 1]);
      UnpresentedUntouched(run[k - 1].s, ops[k - 1], i);
    }
  }

  /** An exchange succeeds exactly for a live, unexpired token of an active user. */
  lemma RefreshExactly(s: AuthState, raw: Raw, newRaw: Raw)
    requires Lineage(s.tokens)
    ensures Refresh(s, raw, newRaw).Issued? <==>
      exists i :: 0 <= i < |s.tokens| && s.tokens[i].raw == raw
                  && !s.tokens[i].revoked && s.now <= s.tokens[i].expiresAt && s.tokens[i].user in s.active
  {
    OneMatch(s.tokens, raw);
    var found := Matching(s.tokens, raw);
    if |found| == 1 { assert TheOnly(found) in found; }
  }

  /** A session lasts: as long as nobody presents a token of its family, the token issued last can be exchanged for
      seven days, and no longer, if and only if its user is active then. */
  lemma SessionLastsSevenDays(run: seq<AuthWorld>, ops: seq<AuthOp>, j: nat, k: nat)
    requires IsAuthRun(run, ops) && j < k < |ops| && Issues(run[j].s, ops[j])
    requires forall n :: j < n < k ==> !Presents(run[n].s, ops[n], run[j + 1].s.tokens[|run[j].s.tokens|].family)
    requires ops[k].DoRefresh? && ops[k].raw == NewToken(ops[j])
    ensures |run[j + 1].s.tokens| == |run[j].s.tokens| + 1
    ensures Answer(run[k].s, ops[k]).Issued? <==>
      run[k].s.now <= run[j].s.now + 7 * DAY && run[j + 1].s.tokens[|run[j].s.tokens|].user in run[k].s.active
  {
    var i := |run[j].s.tokens|;
    assert run[j + 1] == AuthStep(run[j], ops[j]);
    UntouchedUntilPresented(run, ops, j + 1, k, i);
    LineageIsLinear(run, ops, k);
    RefreshExactly(run[k].s, ops[k].raw, ops[k].newRaw);
    OneMatch(run[k].s.tokens, ops[k].raw);
  }

  /** Logging out with the live token of a family kills it; logging out with a spent one does nothing to it. */
  lemma LogoutKills(s: AuthState, raw: Raw, i: nat)
    requires Lineage(s.tokens) && i < |s.tokens| && s.tokens[i].raw == raw
    ensures Dead(Logout(s, raw).state.tokens, s.tokens[i].family) <==>
      !s.tokens[i].revoked || Dead(s.tokens, s.tokens[i].family)
    ensures s.tokens[i].revoked ==> Logout(s, raw).state == s
  {
    OneMatch(s.tokens, raw);
    var tokens' := Logout(s, raw).state.tokens;
    assert tokens' == s.tokens[i := s.tokens[i].(revoked := true)];
    assert tokens'[i].family == s.tokens[i].family;
    if s.tokens[i].revoked {
      assert tokens' == s.tokens;
    }
  }

  /** After a logout with the live token no token of the family is ever exchanged. */
  lemma LogoutEndsSession(run: seq<AuthWorld>, ops: seq<AuthOp>, j: nat, k: nat, i: nat)
    requires IsAuthRun(run, ops) && j < k < |ops| && ops[j].DoLogout?
    requires i < |run[j].s.tokens| && run[j].s.tokens[i].raw == ops[j].raw && !run[j].s.tokens[i].revoked
    ensures Dead(run[k].s.tokens, run[j].s.tokens[i].family)
    ensures Exchanges(run[k].s, ops[k]) ==>
      run[k].s.tokens[SpentRow(run[k].s, ops[k])].family != run[j].s.tokens[i].family
  {
    LineageIsLinear(run, ops, j);
    LogoutKills(run[j].s, ops[j].raw, i);
    assert run[j + 1] == AuthStep(run[j], ops[j]);
    DeadForever(run, ops, j + 1, k, run[j].s.tokens[i].family);
  }

  /** All tokens of a family belong to one user. */
  predicate OneUser(tokens: seq<Token>) {
    forall i, j :: 0 <= i < j < |tokens| && tokens[i].family == tokens[j].family ==> tokens[i].user == tokens[j].user
  }

  /** In every run families stay with one user, and new tokens go to users who are active when they get them. */
  lemma {:induction false} FamiliesHaveOneUser(run: seq<AuthWorld>, ops: seq<AuthOp>, k: nat)
    requires IsAuthRun(run, ops) && k < |run|
    ensures OneUser(run[k].s.tokens)
    ensures k > 0 ==> forall i :: |run[k - 1].s.tokens| <= i < |run[k].s.tokens| ==>
      run[k].s.tokens[i].user in run[k - 1].s.active
  {
    if k > 0 {
      FamiliesHaveOneUser(run, ops, k - 1);
      var s, op := run[k - 1].s, ops[k - 1];
      assert run[k - 1 + 1] == AuthStep(run[k - 1], op);
      StepGrows(s, op);
      if Exchanges(s, op) { assert SpentRow(s, op) in Matching(s.tokens, op.raw); }
    }
  }

  /** What an exchange does with a token that is known, whichever way it ends, and that it knows no other. */
  lemma RefreshRefusals(s: AuthState, raw: Raw, newRaw: Raw, i: nat)
    requires Lineage(s.tokens) && i < |s.tokens|
    ensures var o, tok := Refresh(s, s.tokens[i].raw, newRaw), s.tokens[i];
      if tok.revoked then o.Refused? && o.error == TokenRevoked
      else if tok.expiresAt < s.now then o == Refused(s, TokenExpired)
      else if tok.user !in s.active then o == Refused(s, InactiveUser)
      else o.Issued?
    ensures (forall j :: 0 <= j < |s.tokens| ==> s.tokens[j].raw != raw) ==>
      Refresh(s, raw, newRaw) == Refused(s, InvalidRefreshToken)
  {
    OneMatch(s.tokens, s.tokens[i].raw);
    assert i in Matching(s.tokens, s.tokens[i].raw);
    if forall j :: 0 <= j < |s.tokens| ==> s.tokens[j].raw != raw { assert Matching(s.tokens, raw) == {}; }
  }

  /** What has to be presented for a token: verified credentials of an active account, or the live, unexpired token
      before it in the family. */
  predicate Earned(s: AuthState, op: AuthOp, tok: Token) {
    && tok.user in s.active && !tok.revoked && tok.expiresAt == s.now + 7 * DAY
    && match op
       case DoLogin(account, verified, raw, family) =>
         verified && account == Some(tok.user) && tok.raw == raw && tok.family == family
       case DoRefresh(raw, newRaw) =>
         && tok.raw == newRaw
         && exists i :: 0 <= i < |s.tokens| && s.tokens[i].raw == raw && !s.tokens[i].revoked
              && s.now <= s.tokens[i].expiresAt && s.tokens[i].family == tok.family && s.tokens[i].user == tok.user
       case _ => false
  }

  /** Tokens are handed out by logins and exchanges only, and only to those who have earned them. */
  lemma TokensAreEarned(run: seq<AuthWorld>, ops: seq<AuthOp>, k: nat, i: nat)
    requires IsAuthRun(run, ops) && k < |ops| && |run[k].s.tokens| <= i < |run[k + 1].s.tokens|
    ensures Earned(run[k].s, ops[k], run[k + 1].s.tokens[i])
  {
    assert run[k + 1] == AuthStep(run[k], ops[k]);
    if Exchanges(run[k].s, ops[k]) { assert SpentRow(run[k].s, ops[k]) in Matching(run[k].s.tokens, ops[k].raw); }
  }

  /** A login issues a token exactly for the right password of a known, active account; an inactive account is told so
      before its password is looked at. */
  lemma LoginExactly(s: AuthState, account: Option<Id>, verified: bool, raw: Raw, family: Id)
    ensures var o := Login(s, account, verified, raw, family);
      && (o.Issued? <==> exists user :: account == Some(user) && user in s.active && verified)
      && (o.Issued? ==> |o.state.tokens| == |s.tokens| + 1)
      && (o.Refused? ==> o.state == s)
      && (o.Refused? && o.error == InactiveUser <==> exists user :: account == Some(user) && user !in s.active)
      && (o.Refused? && o.error == InvalidCredentials <==>
            account == None || (!verified && exists user :: account == Some(user) && user in s.active))
  {
  }
}
