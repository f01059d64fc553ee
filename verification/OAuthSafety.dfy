/** What holds of the OAuth tables over every run. */
module OAuthSafety {
  import opened Values
  import opened OAuth

  // ------------------------------------------------- rows are never rewritten

  /** Grants and tokens are only added, spent and revoked. */
  ghost predicate Later(s: State, t: State) {
    && |s.grants| <= |t.grants|
    && (forall g :: 0 <= g < |s.grants| ==>
          && t.grants[g].(revokedAt := None) == s.grants[g].(revokedAt := None)
          && (s.grants[g].revokedAt.Some? ==> t.grants[g].revokedAt.Some?))
    && |s.tokens| <= |t.tokens|
    && (forall i :: 0 <= i < |s.tokens| ==>
          && t.tokens[i].(usedAt := None) == s.tokens[i].(usedAt := None)
          && (s.tokens[i].usedAt.Some? ==> t.tokens[i].usedAt.Some?))
  }

  /** Codes are only added and spent. */
  ghost predicate LaterCodes(s: State, t: State) {
    forall h :: h in s.codes ==>
      && h in t.codes
      && t.codes[h].(usedAt := None) == s.codes[h].(usedAt := None)
      && (s.codes[h].usedAt.Some? ==> t.codes[h].usedAt.Some?)
  }

  // What each call can do to the tables, in one piece.

  lemma ExchangeEffect(c: Crypto, s: State, op: Op)
    requires op.OpExchange?
    ensures var ((t, out), h) := (Step(c, s, op), c.digest(op.code));
            && (out.TokensIssued? ==>
                  && h in s.codes && s.codes[h].usedAt.None?
                  && t == s.(codes := s.codes[h := s.codes[h].(usedAt := Some(s.now))],
                             grants := s.grants + [Grant(s.codes[h].client, s.codes[h].tenant, s.codes[h].actor,
                                                         s.codes[h].scopes, None)],
                             tokens := s.tokens + [NewToken(c, s, |s.grants|, op.access, op.refresh)])
                  && out.grant == |s.grants|)
            && (!out.TokensIssued? ==>
                  t == s || (h in s.codes && t == s.(grants := RevokeWhere(s.grants, s.codes[h].client, s.codes[h].actor, s.now))))
  {
    hide Authenticate, NewToken, RevokeWhere;
  }

  lemma RefreshEffect(c: Crypto, s: State, op: Op)
    requires op.OpRefresh?
    ensures var ((t, out), i) := (Step(c, s, op), ByRefresh(s.tokens, c.digest(op.presented)));
            && (out.TokensIssued? ==>
                  && i < |s.tokens| && s.tokens[i].usedAt.None? && s.tokens[i].grant < |s.grants|
                  && t == s.(tokens := s.tokens[i := s.tokens[i].(usedAt := Some(s.now))]
                                       + [NewToken(c, s, s.tokens[i].grant, op.access, op.refresh)])
                  && out.grant == s.tokens[i].grant)
            && (!out.TokensIssued? ==>
                  t == s || (i < |s.tokens| && s.tokens[i].grant < |s.grants| && t == Revoked(s, s.tokens[i].grant)))
  {
    hide Authenticate, NewToken, ByRefresh;
  }

  function Revoked(s: State, g: nat): State
    requires g < |s.grants|
  {
    s.(grants := s.grants[g := s.grants[g].(revokedAt := Some(s.now))])
  }

  lemma OtherEffect(c: Crypto, s: State, op: Op)
    requires !op.OpExchange? && !op.OpRefresh?
    ensures var (t, out) := Step(c, s, op);
            && !out.TokensIssued?
            && t.tokens == s.tokens
            && (t.grants == s.grants || (op.OpRevoke? && op.grant < |s.grants| && t.grants == Revoked(s, op.grant).grants))
            && (t.codes == s.codes
                || (op.OpAuthorize? && CheckRequest(s, op.request, op.tenant, op.actor).CodeIssued?
                    && t.codes == s.codes[c.digest(op.code) :=
                         Code(op.request.client, op.tenant, op.actor, op.request.redirectUri,
                              CheckRequest(s, op.request, op.tenant, op.actor).granted, op.request.challenge, None,
                              s.now + CODE_TTL)]))
  {
    hide CheckRequest;
  }

  lemma StepLater(c: Crypto, s: State, op: Op)
    ensures Later(s, Step(c, s, op).0)
  {
    hide Step, CheckRequest, NewToken, ByRefresh;
    if op.OpExchange? {
      ExchangeEffect(c, s, op);
    } else if op.OpRefresh? {
      RefreshEffect(c, s, op);
    } else {
      OtherEffect(c, s, op);
    }
  }

  lemma StepLaterCodes(c: Crypto, s: State, op: Op)
    requires Enabled(c, s, op)
    ensures LaterCodes(s, Step(c, s, op).0)
  {
    hide Step, FreshToken, CheckRequest, NewToken, ByRefresh, RevokeWhere;
    if op.OpExchange? {
      ExchangeEffect(c, s, op);
    } else if op.OpRefresh? {
      RefreshEffect(c, s, op);
    } else {
      OtherEffect(c, s, op);
    }
  }

  lemma {:induction false} RunLater(c: Crypto, s: State, ops: seq<Op>)
    ensures Later(s, Run(c, s, ops))
  {
    hide Step;
    if ops != [] {
      RunLater(c, s, ops[..|ops| - 1]);
      StepLater(c, Run(c, s, ops[..|ops| - 1]), ops[|ops| - 1]);
    }
  }

  lemma {:induction false} RunLaterCodes(c: Crypto, s: State, ops: seq<Op>)
    requires Runs(c, s, ops)
    ensures LaterCodes(s, Run(c, s, ops))
  {
    hide Step, Enabled;
    if ops != [] {
      RunsPrefix(c, s, ops, |ops| - 1);
      RunLaterCodes(c, s, ops[..|ops| - 1]);
      StepLaterCodes(c, Run(c, s, ops[..|ops| - 1]), ops[|ops| - 1]);
    }
  }

  lemma RunsPrefix(c: Crypto, s: State, ops: seq<Op>, n: nat)
    requires Runs(c, s, ops) && n <= |ops|
    ensures Runs(c, s, ops[..n])
  {
    hide Run, Enabled;
    forall i | 0 <= i < n ensures Enabled(c, Run(c, s, ops[..n][..i]), ops[..n][i]) {
      assert ops[..n][..i] == ops[..i];
    }
  }

  // ------------------------------------------------------------ reuse is theft

  /** No access token of the grant resolves, and no refresh on it succeeds. */
  ghost predicate Dead(c: Crypto, s: State, g: nat) {
    && (forall presented: string {:trigger Resolve(c, s, presented)} ::
          Resolve(c, s, presented).Some? ==>
            var i := ByAccess(s.tokens, c.digest(presented));
            i < |s.tokens| && s.tokens[i].grant != g)
    && (forall presented: string, client: string, secret: Option<string>, access: string, refresh: string
          {:trigger Refresh(c, s, presented, client, secret, access, refresh)} ::
          var out := Refresh(c, s, presented, client, secret, access, refresh).1;
          out.TokensIssued? ==> out.grant != g)
  }

  lemma RevokedIsDead(c: Crypto, s: State, g: nat)
    requires g < |s.grants| && s.grants[g].revokedAt.Some?
    ensures Dead(c, s, g)
  {
    hide Filtered, Held, Authenticate;
  }

  /** Revocation is for good: the grant is dead at every point of every continuation. */
  lemma RevocationLasts(c: Crypto, s: State, g: nat, more: seq<Op>)
    requires g < |s.grants| && s.grants[g].revokedAt.Some?
    ensures Dead(c, Run(c, s, more), g)
  {
    RunLater(c, s, more);
    RevokedIsDead(c, Run(c, s, more), g);
  }

  /** A spent refresh token presented again kills its whole family, for ever. */
  lemma RefreshReuseKillsFamily(
      c: Crypto, s: State, presented: string, client: string, secret: Option<string>, access: string, refresh: string,
      more: seq<Op>)
    requires Refresh(c, s, presented, client, secret, access, refresh).1 == Refused(TokenReused)
    ensures var i := ByRefresh(s.tokens, c.digest(presented));
            i < |s.tokens|
            && Dead(c, Run(c, Refresh(c, s, presented, client, secret, access, refresh).0, more), s.tokens[i].grant)
  {
    hide Run, Dead, Authenticate;
    var i := ByRefresh(s.tokens, c.digest(presented));
    RevocationLasts(c, Refresh(c, s, presented, client, secret, access, refresh).0, s.tokens[i].grant, more);
  }

  /** A used code presented again kills every grant its client then held from its member. */
  lemma CodeReuseKillsGrants(
      c: Crypto, s: State, code: string, client: string, secret: Option<string>, redirectUri: string, verifier: string,
      access: string, refresh: string, more: seq<Op>, g: nat)
    requires Exchange(c, s, code, client, secret, redirectUri, verifier, access, refresh).1 == Refused(CodeReused)
    requires g < |s.grants|
    requires s.grants[g].client == s.codes[c.digest(code)].client && s.grants[g].actor == s.codes[c.digest(code)].actor
    ensures Dead(c, Run(c, Exchange(c, s, code, client, secret, redirectUri, verifier, access, refresh).0, more), g)
  {
    hide Run, Dead, Authenticate;
    RevocationLasts(c, Exchange(c, s, code, client, secret, redirectUri, verifier, access, refresh).0, g, more);
  }

  lemma {:induction false} ByRefreshStable(tokens: seq<Token>, later: seq<Token>, hash: string)
    requires |tokens| <= |later|
    requires forall i :: 0 <= i < |tokens| ==> later[i].refresh == tokens[i].refresh
    requires ByRefresh(tokens, hash) < |tokens|
    ensures ByRefresh(later, hash) == ByRefresh(tokens, hash)
  {
    var (i, j) := (ByRefresh(tokens, hash), ByRefresh(later, hash));
    assert later[i].refresh == hash;
    assert j <= i;
  }

  /** A refresh token is good once: after it is exchanged, presenting it never issues again. */
  lemma RefreshIsSingleUse(
      c: Crypto, s: State, presented: string, client: string, secret: Option<string>, access: string, refresh: string,
      more: seq<Op>, client': string, secret': Option<string>, access': string, refresh': string)
    requires Refresh(c, s, presented, client, secret, access, refresh).1.TokensIssued?
    ensures var t := Run(c, Refresh(c, s, presented, client, secret, access, refresh).0, more);
            Refresh(c, t, presented, client', secret', access', refresh').1.Refused?
  {
    hide Run, Authenticate, ByRefresh;
    var (u, hash) := (Refresh(c, s, presented, client, secret, access, refresh).0, c.digest(presented));
    var t := Run(c, u, more);
    RunLater(c, u, more);
    ByRefreshStable(s.tokens, u.tokens, hash);
    ByRefreshStable(u.tokens, t.tokens, hash);
  }

  /** A code is good once (section 4.1.2 of RFC 6749). */
  lemma {:induction false} CodeIsSingleUse(
      c: Crypto, s: State, code: string, client: string, secret: Option<string>, redirectUri: string, verifier: string,
      access: string, refresh: string, more: seq<Op>, again: Op)
    requires Exchange(c, s, code, client, secret, redirectUri, verifier, access, refresh).1.TokensIssued?
    requires Runs(c, Exchange(c, s, code, client, secret, redirectUri, verifier, access, refresh).0, more)
    requires again.OpExchange? && c.digest(again.code) == c.digest(code)
    ensures var t := Run(c, Exchange(c, s, code, client, secret, redirectUri, verifier, access, refresh).0, more);
            Step(c, t, again).1 == Refused(CodeReused)
  {
    hide Run, Runs, Authenticate;
    RunLaterCodes(c, Exchange(c, s, code, client, secret, redirectUri, verifier, access, refresh).0, more);
  }

  // --------------------------------------------------------------- rotation

  function Unspent(tokens: seq<Token>, g: nat): nat {
    if tokens == [] then 0
    else
      var last := tokens[|tokens| - 1];
      Unspent(tokens[..|tokens| - 1], g) + if last.grant == g && last.usedAt.None? then 1 else 0
  }

  /** How many token pairs the grant has had. */
  function Family(tokens: seq<Token>, g: nat): nat {
    if tokens == [] then 0
    else Family(tokens[..|tokens| - 1], g) + if tokens[|tokens| - 1].grant == g then 1 else 0
  }

  lemma {:induction false} CountsAppend(tokens: seq<Token>, t: Token, g: nat)
    ensures Unspent(tokens + [t], g) == Unspent(tokens, g) + if t.grant == g && t.usedAt.None? then 1 else 0
    ensures Family(tokens + [t], g) == Family(tokens, g) + if t.grant == g then 1 else 0
  {
    assert (tokens + [t])[..|tokens|] == tokens;
  }

  lemma {:induction false} CountsSpend(tokens: seq<Token>, i: nat, at: int, g: nat)
    requires i < |tokens| && tokens[i].usedAt.None?
    ensures var after := tokens[i := tokens[i].(usedAt := Some(at))];
            && Unspent(after, g) == Unspent(tokens, g) - (if tokens[i].grant == g then 1 else 0)
            && Family(after, g) == Family(tokens, g)
  {
    var n := |tokens| - 1;
    var after := tokens[i := tokens[i].(usedAt := Some(at))];
    if i == n {
      assert after[..n] == tokens[..n];
    } else {
      assert after[..n] == tokens[..n][i := tokens[i].(usedAt := Some(at))];
      CountsSpend(tokens[..n], i, at, g);
    }
  }

  ghost predicate Rotation(s: State) {
    && (forall i :: 0 <= i < |s.tokens| ==> s.tokens[i].grant < |s.grants|)
    && (forall g :: 0 <= g < |s.grants| ==> Unspent(s.tokens, g) == 1)
    && (forall i, j :: 0 <= i < j < |s.tokens| ==>
          s.tokens[i].access != s.tokens[j].access && s.tokens[i].refresh != s.tokens[j].refresh)
  }

  lemma {:induction false} NoneOfGrant(tokens: seq<Token>, g: nat)
    requires forall t :: t in tokens ==> t.grant != g
    ensures Unspent(tokens, g) == 0 && Family(tokens, g) == 0
  {
    if tokens != [] {
      NoneOfGrant(tokens[..|tokens| - 1], g);
    }
  }

  lemma ExchangeRotates(s: State, t: State, row: Token)
    requires Rotation(s) && row.grant == |s.grants| && row.usedAt.None?
    requires |t.grants| == |s.grants| + 1 && t.tokens == s.tokens + [row]
    requires forall x :: x in s.tokens ==> x.access != row.access && x.refresh != row.refresh
    ensures Rotation(t)
  {
    hide Unspent;
    NoneOfGrant(s.tokens, |s.grants|);
    forall g: nat ensures Unspent(t.tokens, g) == Unspent(s.tokens, g) + if g == |s.grants| then 1 else 0 {
      CountsAppend(s.tokens, row, g);
    }
  }

  lemma RefreshRotates(s: State, t: State, i: nat, row: Token)
    requires Rotation(s) && i < |s.tokens| && s.tokens[i].usedAt.None? && row.grant == s.tokens[i].grant && row.usedAt.None?
    requires t.grants == s.grants && t.tokens == s.tokens[i := s.tokens[i].(usedAt := Some(s.now))] + [row]
    requires forall x :: x in s.tokens ==> x.access != row.access && x.refresh != row.refresh
    ensures Rotation(t)
  {
    hide Unspent;
    forall g: nat ensures Unspent(t.tokens, g) == Unspent(s.tokens, g) {
      CountsSpend(s.tokens, i, s.now, g);
      CountsAppend(s.tokens[i := s.tokens[i].(usedAt := Some(s.now))], row, g);
    }
    assert forall k :: 0 <= k < |s.tokens| ==> s.tokens[k] in s.tokens;
  }

  lemma StepRotates(c: Crypto, s: State, op: Op)
    requires Rotation(s) && Enabled(c, s, op)
    ensures Rotation(Step(c, s, op).0)
  {
    hide Unspent, Step, ByRefresh;
    var (t, out) := Step(c, s, op);
    if op.OpExchange? {
      ExchangeEffect(c, s, op);
      if out.TokensIssued? {
        hide Rotation, RevokeWhere;
        ExchangeRotates(s, t, NewToken(c, s, |s.grants|, op.access, op.refresh));
      }
    } else if op.OpRefresh? {
      RefreshEffect(c, s, op);
      if out.TokensIssued? {
        var i := ByRefresh(s.tokens, c.digest(op.presented));
        RefreshRotates(s, t, i, NewToken(c, s, s.tokens[i].grant, op.access, op.refresh));
      }
    } else {
      OtherEffect(c, s, op);
    }
  }

  /** In every reachable state each grant has exactly one unspent refresh token. */
  lemma {:induction false} RotationAlways(c: Crypto, ops: seq<Op>)
    requires Runs(c, START, ops)
    ensures Rotation(Run(c, START, ops))
  {
    hide Step, Enabled;
    if ops != [] {
      RunsPrefix(c, START, ops, |ops| - 1);
      RotationAlways(c, ops[..|ops| - 1]);
      StepRotates(c, Run(c, START, ops[..|ops| - 1]), ops[|ops| - 1]);
    }
  }

  /** Successful refreshes of one grant along a run. */
  function Refreshes(c: Crypto, ops: seq<Op>, g: nat): nat {
    if ops == [] then 0
    else
      var (init, last) := (ops[..|ops| - 1], ops[|ops| - 1]);
      var out := Step(c, Run(c, START, init), last).1;
      Refreshes(c, init, g) + if last.OpRefresh? && out.TokensIssued? && out.grant == g then 1 else 0
  }

  lemma StepCounts(c: Crypto, s: State, op: Op, g: nat)
    requires Rotation(s) && Enabled(c, s, op)
    ensures var (t, out) := Step(c, s, op);
            Family(t.tokens, g) == Family(s.tokens, g) + if out.TokensIssued? && out.grant == g then 1 else 0
    ensures Step(c, s, op).1.TokensIssued? ==> op.OpRefresh? || op.OpExchange?
    ensures op.OpExchange? && Step(c, s, op).1.TokensIssued? ==>
              Step(c, s, op).1.grant == |s.grants| && |Step(c, s, op).0.grants| == |s.grants| + 1
    ensures !(op.OpExchange? && Step(c, s, op).1.TokensIssued?) ==> |Step(c, s, op).0.grants| == |s.grants|
  {
    hide Family, Rotation, Step, ByRefresh;
    var (t, out) := Step(c, s, op);
    if op.OpExchange? {
      ExchangeEffect(c, s, op);
      if out.TokensIssued? {
        CountsAppend(s.tokens, NewToken(c, s, |s.grants|, op.access, op.refresh), g);
      }
    } else if op.OpRefresh? {
      RefreshEffect(c, s, op);
      if out.TokensIssued? {
        var i := ByRefresh(s.tokens, c.digest(op.presented));
        CountsSpend(s.tokens, i, s.now, g);
        CountsAppend(s.tokens[i := s.tokens[i].(usedAt := Some(s.now))],
                     NewToken(c, s, s.tokens[i].grant, op.access, op.refresh), g);
      }
    } else {
      OtherEffect(c, s, op);
    }
  }

  /** A grant's token pairs number one more than its successful refreshes. */
  lemma {:induction false} FamilyCounts(c: Crypto, ops: seq<Op>, g: nat)
    requires Runs(c, START, ops)
    ensures Family(Run(c, START, ops).tokens, g)
            == if g < |Run(c, START, ops).grants| then 1 + Refreshes(c, ops, g) else 0
    ensures g >= |Run(c, START, ops).grants| ==> Refreshes(c, ops, g) == 0
  {
    hide Step, Enabled, Family, Rotation;
    if ops == [] {
      NoneOfGrant([], g);
    } else {
      var (init, last) := (ops[..|ops| - 1], ops[|ops| - 1]);
      RunsPrefix(c, START, ops, |ops| - 1);
      FamilyCounts(c, init, g);
      RotationAlways(c, init);
      RotationAlways(c, ops);
      StepCounts(c, Run(c, START, init), last, g);
      GrantInRange(c, Run(c, START, init), last);
    }
  }

  lemma GrantInRange(c: Crypto, s: State, op: Op)
    ensures Step(c, s, op).1.TokensIssued? ==> Step(c, s, op).1.grant < |Step(c, s, op).0.grants|
  {
    hide Filtered, Held, Authenticate, ByRefresh;
  }

  // ---------------------------------------------------------------- origins

  /** The hashes of the codes exchanged along a run, in order. */
  function Exchanged(c: Crypto, ops: seq<Op>): seq<string> {
    if ops == [] then []
    else
      var (init, last) := (ops[..|ops| - 1], ops[|ops| - 1]);
      Exchanged(c, init)
      + if last.OpExchange? && Step(c, Run(c, START, init), last).1.TokensIssued? then [c.digest(last.code)] else []
  }

  /** Grants correspond one to one with used codes that carry the same consent. */
  ghost predicate Origins(s: State, origin: seq<string>) {
    && |origin| == |s.grants|
    && (forall g :: 0 <= g < |origin| ==>
          && origin[g] in s.codes && s.codes[origin[g]].usedAt.Some?
          && s.grants[g].client == s.codes[origin[g]].client
          && s.grants[g].tenant == s.codes[origin[g]].tenant
          && s.grants[g].actor == s.codes[origin[g]].actor
          && s.grants[g].scopes == s.codes[origin[g]].scopes)
    && (forall g, k :: 0 <= g < k < |origin| ==> origin[g] != origin[k])
    && (forall h :: h in s.codes && s.codes[h].usedAt.Some? ==> h in origin)
  }

  lemma OriginAdded(s: State, t: State, h: string, origin: seq<string>)
    requires Origins(s, origin) && h in s.codes && s.codes[h].usedAt.None?
    requires t.codes == s.codes[h := s.codes[h].(usedAt := Some(s.now))]
    requires t.grants == s.grants + [Grant(s.codes[h].client, s.codes[h].tenant, s.codes[h].actor, s.codes[h].scopes, None)]
    ensures Origins(t, origin + [h])
  {
    var after := origin + [h];
    assert h !in origin;
    assert after[|origin|] == h && h in after;
    assert forall k :: k in t.codes && t.codes[k].usedAt.Some? ==> k == h || k in origin;
  }

  lemma StepOrigins(c: Crypto, s: State, op: Op, origin: seq<string>)
    requires Origins(s, origin) && Enabled(c, s, op)
    ensures var (t, out) := Step(c, s, op);
            Origins(t, origin + if op.OpExchange? && out.TokensIssued? then [c.digest(op.code)] else [])
  {
    hide Step, ByRefresh, FreshToken, NewToken, CheckRequest;
    var (t, out) := Step(c, s, op);
    assert origin + [] == origin;
    if op.OpExchange? {
      ExchangeEffect(c, s, op);
      if out.TokensIssued? {
        hide RevokeWhere;
        OriginAdded(s, t, c.digest(op.code), origin);
      }
    } else if op.OpRefresh? {
      RefreshEffect(c, s, op);
    } else {
      OtherEffect(c, s, op);
    }
  }

  lemma {:induction false} OriginsAlways(c: Crypto, ops: seq<Op>)
    requires Runs(c, START, ops)
    ensures Origins(Run(c, START, ops), Exchanged(c, ops))
  {
    hide Step, Enabled, Origins;
    if ops == [] {
      assert Origins(START, []) by { NothingExchanged(); }
    } else {
      RunsPrefix(c, START, ops, |ops| - 1);
      OriginsAlways(c, ops[..|ops| - 1]);
      StepOrigins(c, Run(c, START, ops[..|ops| - 1]), ops[|ops| - 1], Exchanged(c, ops[..|ops| - 1]));
    }
  }

  lemma NothingExchanged()
    ensures Origins(START, [])
  {
  }

  // ------------------------------------------------ how far code reuse reaches

  /** The grant comes from a code of the same client and member as the code `h`. */
  predicate Kin(s: State, origin: string, h: string) {
    && origin in s.codes && h in s.codes
    && s.codes[origin].client == s.codes[h].client && s.codes[origin].actor == s.codes[h].actor
  }

  /**
   Presenting a used code revokes exactly the live grants whose codes have its client
   and member, its own among them, and changes nothing else.
   */
  lemma CodeReuseRevokesExactly(c: Crypto, ops: seq<Op>, op: Op)
    requires Runs(c, START, ops) && op.OpExchange? && Step(c, Run(c, START, ops), op).1 == Refused(CodeReused)
    ensures var (s, t) := (Run(c, START, ops), Step(c, Run(c, START, ops), op).0);
            var (h, origin) := (c.digest(op.code), Exchanged(c, ops));
            && t == s.(grants := t.grants)
            && h in origin
            && |origin| == |s.grants| == |t.grants|
            && forall g :: 0 <= g < |s.grants| ==>
                 t.grants[g] == if Kin(s, origin[g], h) && s.grants[g].revokedAt.None?
                                then s.grants[g].(revokedAt := Some(s.now)) else s.grants[g]
  {
    hide Run, Runs, Exchanged, Authenticate, NewToken;
    OriginsAlways(c, ops);
  }

  /** So a grant that another code of the same client and member issued is revoked with it. */
  lemma ReuseReachesFurther(c: Crypto, ops: seq<Op>, op: Op, g: nat, more: seq<Op>)
    requires Runs(c, START, ops) && op.OpExchange? && c.digest(op.code) in Exchanged(c, ops)
    requires g < |Exchanged(c, ops)| && Kin(Run(c, START, ops), Exchanged(c, ops)[g], c.digest(op.code))
    ensures Step(c, Run(c, START, ops), op).1 == Refused(CodeReused)
    ensures Dead(c, Run(c, Step(c, Run(c, START, ops), op).0, more), g)
  {
    hide Run, Runs, Exchanged, Authenticate, NewToken, Dead;
    OriginsAlways(c, ops);
    RevocationLasts(c, Step(c, Run(c, START, ops), op).0, g, more);
  }

  // ---------------------------------------------------------------- consent

  /** The call at `i` is the consent the code row records. */
  ghost predicate ConsentAt(c: Crypto, ops: seq<Op>, i: nat, h: string, row: Code) {
    && i < |ops| && ops[i].OpAuthorize? && c.digest(ops[i].code) == h
    && var past := Run(c, START, ops[..i]);
       var r := ops[i].request;
       && CheckRequest(past, r, ops[i].tenant, ops[i].actor) == CodeIssued(row.scopes)
       && row.client == r.client && row.redirectUri == r.redirectUri && row.challenge == r.challenge
       && row.tenant == ops[i].tenant && row.actor == ops[i].actor
       && row.expiresAt == past.now + CODE_TTL
  }

  lemma StepCodes(c: Crypto, s: State, op: Op, h: string)
    requires h in Step(c, s, op).0.codes
    ensures var t := Step(c, s, op).0;
            || (h in s.codes && t.codes[h].(usedAt := None) == s.codes[h].(usedAt := None))
            || (op.OpAuthorize? && c.digest(op.code) == h
                && CheckRequest(s, op.request, op.tenant, op.actor) == CodeIssued(t.codes[h].scopes)
                && t.codes[h] == Code(op.request.client, op.tenant, op.actor, op.request.redirectUri, t.codes[h].scopes,
                                      op.request.challenge, None, s.now + CODE_TTL))
  {
    hide Step, ByRefresh, CheckRequest, NewToken;
    if op.OpExchange? {
      ExchangeEffect(c, s, op);
    } else if op.OpRefresh? {
      RefreshEffect(c, s, op);
    } else {
      OtherEffect(c, s, op);
    }
  }

  /** Every code comes from one consent call of the run. */
  lemma {:induction false} CodeHasConsent(c: Crypto, ops: seq<Op>, h: string) returns (i: nat)
    requires Runs(c, START, ops) && h in Run(c, START, ops).codes
    ensures ConsentAt(c, ops, i, h, Run(c, START, ops).codes[h])
  {
    hide Step, Enabled, CheckRequest;
    if ops == [] {
      assert false;
    } else {
      var (init, last) := (ops[..|ops| - 1], ops[|ops| - 1]);
      var s := Run(c, START, init);
      StepCodes(c, s, last, h);
      if h in s.codes && Run(c, START, ops).codes[h].(usedAt := None) == s.codes[h].(usedAt := None) {
        RunsPrefix(c, START, ops, |ops| - 1);
        i := CodeHasConsent(c, init, h);
        assert init[..i] == ops[..i];
      } else {
        i := |ops| - 1;
      }
    }
  }

  lemma GrantedIsHeld(s: State, r: Request, tenant: string, actor: string, scopes: seq<Capability>)
    requires CheckRequest(s, r, tenant, actor) == CodeIssued(scopes)
    ensures actor in s.members
    ensures forall sc :: sc in scopes ==> sc in r.scopes && sc in Held(s.members[actor].role)
  {
    hide Held;
  }

  /**
   Scopes only shrink: what an access token may do is nonempty and within what the
   client asked for, what the member held at consent, and what the member holds now.
   */
  lemma {:induction false} ScopesOnlyShrink(c: Crypto, ops: seq<Op>, presented: string) returns (i: nat)
    requires Runs(c, START, ops)
    requires Resolve(c, Run(c, START, ops), presented).Some?
    ensures i < |ops| && ops[i].OpAuthorize?
    ensures var access := Resolve(c, Run(c, START, ops), presented).value;
            var (consent, now) := (Run(c, START, ops[..i]), Run(c, START, ops));
            && access.client == ops[i].request.client
            && access.tenant == ops[i].tenant && access.actor == ops[i].actor
            && access.actor in consent.members && access.actor in now.members
            && access.scopes != []
            && forall sc :: sc in access.scopes ==>
                 && sc in ops[i].request.scopes
                 && sc in Held(consent.members[access.actor].role)
                 && sc in Held(now.members[access.actor].role)
  {
    hide Run, Runs, Exchanged, Held, CheckRequest;
    var now := Run(c, START, ops);
    var access := Resolve(c, now, presented).value;
    var g := now.tokens[ByAccess(now.tokens, c.digest(presented))].grant;
    OriginsAlways(c, ops);
    var h := Exchanged(c, ops)[g];
    i := CodeHasConsent(c, ops, h);
    GrantedIsHeld(Run(c, START, ops[..i]), ops[i].request, ops[i].tenant, ops[i].actor, now.grants[g].scopes);
  }

  /** A code is exchanged only by the client, at the address and with the key of its consent, in time. */
  lemma {:induction false} ExchangeMatchesConsent(c: Crypto, ops: seq<Op>, op: Op) returns (i: nat)
    requires Runs(c, START, ops) && op.OpExchange?
    requires Step(c, Run(c, START, ops), op).1.TokensIssued?
    ensures i < |ops| && ops[i].OpAuthorize? && c.digest(ops[i].code) == c.digest(op.code)
    ensures ops[i].request.client == op.client && ops[i].request.redirectUri == op.redirectUri
    ensures c.challenge(op.verifier) == ops[i].request.challenge && ops[i].request.challengeMethod == "S256"
    ensures Run(c, START, ops).now <= Run(c, START, ops[..i]).now + 60
  {
    hide Run, Runs, Held, Filtered, Authenticate;
    i := CodeHasConsent(c, ops, c.digest(op.code));
  }

  // ------------------------------------------------------- who is let through

  /** The client registered with this row along the run. */
  ghost predicate RegisteredAs(ops: seq<Op>, client: string, row: Client) {
    exists i :: 0 <= i < |ops| && ops[i] == OpRegister(client, row)
  }

  lemma {:induction false} ClientsRegistered(c: Crypto, ops: seq<Op>, client: string)
    requires Runs(c, START, ops) && client in Run(c, START, ops).clients
    ensures RegisteredAs(ops, client, Run(c, START, ops).clients[client])
  {
    hide Enabled;
    if ops == [] {
      assert false;
    } else {
      var (init, last) := (ops[..|ops| - 1], ops[|ops| - 1]);
      RunsPrefix(c, START, ops, |ops| - 1);
      StepClients(c, Run(c, START, init), last);
      hide Step;
      if last.OpRegister? && last.client == client {
        assert ops[|ops| - 1] == OpRegister(client, Run(c, START, ops).clients[client]);
      } else {
        ClientsRegistered(c, init, client);
        var i :| 0 <= i < |init| && init[i] == OpRegister(client, Run(c, START, init).clients[client]);
        assert ops[i] == init[i];
      }
    }
  }

  lemma StepClients(c: Crypto, s: State, op: Op)
    ensures Step(c, s, op).0.clients == if op.OpRegister? then s.clients[op.client := op.row] else s.clients
  {
    hide CheckRequest, Authenticate, ByRefresh, NewToken, RevokeWhere;
  }

  /** What a client must show: nothing if it is public, else the text its registered hash is the digest of. */
  predicate Proves(c: Crypto, row: Client, secret: Option<string>) {
    row.confidential ==> secret.Some? && secret.value != "" && row.secretHash == Some(c.digest(secret.value))
  }

  predicate Presents(op: Op, client: string, secret: Option<string>) {
    (op.OpExchange? || op.OpRefresh?) && op.client == client && op.secret == secret
  }

  /** Tokens are issued only to a registered client that proves itself as it registered. */
  lemma {:induction false} OnlyProvenClients(c: Crypto, ops: seq<Op>, op: Op, client: string, secret: Option<string>)
    returns (row: Client)
    requires Runs(c, START, ops) && Presents(op, client, secret)
    requires Step(c, Run(c, START, ops), op).1.TokensIssued?
    ensures RegisteredAs(ops, client, row) && Proves(c, row, secret)
  {
    hide Run, Runs, ByRefresh, NewToken, RevokeWhere, RegisteredAs;
    row := Run(c, START, ops).clients[client];
    ClientsRegistered(c, ops, client);
  }

  /** And one that does is never told it failed to. */
  lemma ProvenIsNotRefused(c: Crypto, s: State, op: Op, client: string, secret: Option<string>)
    requires Presents(op, client, secret) && client in s.clients && Proves(c, s.clients[client], secret)
    ensures Step(c, s, op).1 != Refused(BadClientAuth) && Step(c, s, op).1 != Refused(NoClient)
  {
    hide ByRefresh, NewToken, RevokeWhere;
  }

  /** Consent is given exactly to a strong S256 request of a client of the workspace, at an address of its own, by an active member who holds some of it. */
  lemma ConsentExactly(s: State, r: Request, tenant: string, actor: string, granted: seq<Capability>)
    ensures CheckRequest(s, r, tenant, actor) == CodeIssued(granted) <==>
              && r.challengeMethod == "S256" && |r.challenge| >= 43
              && r.client in s.clients && s.clients[r.client].tenant == tenant && r.redirectUri in s.clients[r.client].redirectUris
              && actor in s.members && s.members[actor].tenant == tenant && s.members[actor].active
              && granted != [] && granted == Filtered(r.scopes, Held(s.members[actor].role))
  {
    hide Held, Filtered;
  }

  /** A code is exchanged exactly when it is there, unused and in time, and everything presented with it fits. */
  lemma ExchangesExactly(c: Crypto, s: State, op: Op)
    requires op.OpExchange?
    ensures Step(c, s, op).1.TokensIssued? <==>
              var h := c.digest(op.code);
              && h in s.codes && s.codes[h].usedAt == None && s.now <= s.codes[h].expiresAt
              && s.codes[h].client == op.client && s.codes[h].redirectUri == op.redirectUri
              && s.codes[h].challenge == c.challenge(op.verifier)
              && op.client in s.clients && Proves(c, s.clients[op.client], op.secret)
  {
    hide NewToken, RevokeWhere;
  }

  /** A refresh token is exchanged exactly when it is unspent and in time, and its live grant is the client's. */
  lemma RefreshesExactly(c: Crypto, s: State, op: Op)
    requires op.OpRefresh?
    ensures Step(c, s, op).1.TokensIssued? <==>
              var i := ByRefresh(s.tokens, c.digest(op.presented));
              && i < |s.tokens| && s.tokens[i].usedAt == None && s.now <= s.tokens[i].refreshExpiresAt
              && s.tokens[i].grant < |s.grants| && s.grants[s.tokens[i].grant].client == op.client
              && s.grants[s.tokens[i].grant].revokedAt == None
              && op.client in s.clients && Proves(c, s.clients[op.client], op.secret)
  {
    hide NewToken, ByRefresh;
  }

  /** An access token is good exactly for its hour, while its grant lives and its member is active and holds something of it. */
  lemma ResolvesExactly(c: Crypto, s: State, presented: string, access: Access)
    ensures Resolve(c, s, presented) == Some(access) <==>
              var i := ByAccess(s.tokens, c.digest(presented));
              && |presented| >= 7 && presented[..7] == "pat_at_"
              && i < |s.tokens| && s.tokens[i].grant < |s.grants| && s.now <= s.tokens[i].accessExpiresAt
              && var grant := s.grants[s.tokens[i].grant];
                 && grant.revokedAt == None && grant.actor in s.members && s.members[grant.actor].active
                 && access.scopes == Filtered(grant.scopes, Held(s.members[grant.actor].role)) && access.scopes != []
                 && access.tenant == grant.tenant && access.actor == grant.actor && access.client == grant.client
  {
    hide ByAccess, Held, Filtered;
  }

  /** A code lives a minute; a pair is issued for an hour and for thirty days. */
  lemma Lifetimes(c: Crypto, s: State, op: Op)
    ensures op.OpAuthorize? && Step(c, s, op).1.CodeIssued? ==>
              var t := Step(c, s, op).0;
              c.digest(op.code) in t.codes && t.codes[c.digest(op.code)].expiresAt == s.now + 60
              && t.codes[c.digest(op.code)].usedAt == None
    ensures Step(c, s, op).1.TokensIssued? ==>
              var t := Step(c, s, op).0;
              && |t.tokens| == |s.tokens| + 1
              && t.tokens[|s.tokens|].accessExpiresAt == s.now + 3600
              && t.tokens[|s.tokens|].refreshExpiresAt == s.now + 2592000
              && t.tokens[|s.tokens|].grant == Step(c, s, op).1.grant && t.tokens[|s.tokens|].usedAt == None
  {
    hide CheckRequest, Authenticate, ByRefresh, RevokeWhere;
  }

  /** The roles that hold each capability. */
  lemma HoldersExactly(role: WorkspaceRole)
    ensures Administer in Held(role) <==> role in {Owner, Admin, Builder}
    ensures Edit in Held(role) <==> role in {Owner, Admin}
    ensures Operate in Held(role) <==> role in {Owner, Admin, WorkspaceOperator}
    ensures Report in Held(role) <==> role in {Owner, Admin, Builder, WorkspaceOperator, Analyst}
    ensures View in Held(role) <==> role !in {PreHire, Auditor}
    ensures Submit !in Held(role) && Approve !in Held(role)
  {
  }
}
