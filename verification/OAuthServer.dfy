/** The four tables as one mutable store, each call proved against its specification. */
module OAuthServer {
  import opened Values
  import opened OAuth

  class Store {
    const crypto: Crypto
    var clients: map<string, Client>
    var members: map<string, Member>
    var codes: map<string, Code>
    var grants: seq<Grant>
    var tokens: seq<Token>
    var now: int

    constructor (crypto: Crypto)
      ensures this.crypto == crypto && Tables() == START
    {
      this.crypto := crypto;
      clients, members, codes, grants, tokens, now := map[], map[], map[], [], [], 0;
    }

    function Tables(): State
      reads this
    {
      State(clients, members, codes, grants, tokens, now)
    }

    method Authorize(r: Request, tenant: string, actor: string, code: string) returns (out: Outcome)
      modifies this`codes
      ensures (Tables(), out) == OAuth.Authorize(crypto, old(Tables()), r, tenant, actor, code)
    {
      hide Held, Filtered;
      out := CheckRequest(r, tenant, actor);
      if out.CodeIssued? {
        codes := codes[crypto.digest(code) :=
          Code(r.client, tenant, actor, r.redirectUri, out.granted, r.challenge, None, now + 60)];
      }
    }

    /** What both the consent screen and the grant itself insist on. */
    method CheckRequest(r: Request, tenant: string, actor: string) returns (out: Outcome)
      ensures out == OAuth.CheckRequest(Tables(), r, tenant, actor)
    {
      hide Held, Filtered;
      if r.challengeMethod != "S256" {
        return Refused(NotS256);
      }
      if |r.challenge| < 43 {
        return Refused(WeakChallenge);
      }
      if r.client !in clients {
        return Refused(NoClient);
      }
      var client := clients[r.client];
      if client.tenant != tenant {
        return Refused(OtherWorkspace);
      }
      if r.redirectUri !in client.redirectUris {
        return Refused(BadRedirect);
      }
      if actor !in members || members[actor].tenant != tenant || !members[actor].active {
        return Refused(NoMember);
      }
      var granted := Keep(r.scopes, Held(members[actor].role));
      if granted == [] {
        return Refused(NoScope);
      }
      return CodeIssued(granted);
    }

    /** A confidential client shows its secret; a public one has none. */
    method RequireClientAuth(client: string, secret: Option<string>) returns (refused: Option<Refusal>)
      ensures refused == Authenticate(crypto, Tables(), client, secret)
    {
      if client !in clients {
        return Some(NoClient);
      }
      var row := clients[client];
      if !row.confidential {
        return None;
      }
      if secret.None? || secret.value == "" || row.secretHash.None? {
        return Some(BadClientAuth);
      }
      if crypto.digest(secret.value) != row.secretHash.value {
        return Some(BadClientAuth);
      }
      return None;
    }

    /** Revokes every live grant the client has from the member. */
    method RevokeAll(client: string, actor: string)
      modifies this`grants
      ensures grants == RevokeWhere(old(grants), client, actor, now)
    {
      for g := 0 to |grants|
        invariant |grants| == |old(grants)|
        invariant forall k :: 0 <= k < g ==> grants[k] == RevokeWhere(old(grants), client, actor, now)[k]
        invariant forall k :: g <= k < |grants| ==> grants[k] == old(grants)[k]
      {
        if grants[g].client == client && grants[g].actor == actor && grants[g].revokedAt.None? {
          grants := grants[g := grants[g].(revokedAt := Some(now))];
        }
      }
    }

    /** Inserts the pair, and the grant too when there is none yet. */
    method IssueTokens(row: Grant, existing: Option<nat>, access: string, refresh: string) returns (out: Outcome)
      modifies this`grants, this`tokens
      ensures existing.Some? ==> grants == old(grants) && out == TokensIssued(existing.value, row.scopes)
      ensures existing.None? ==> grants == old(grants) + [row] && out == TokensIssued(|old(grants)|, row.scopes)
      ensures tokens == old(tokens) + [NewToken(crypto, old(Tables()), out.grant, access, refresh)]
    {
      var g := |grants|;
      if existing.Some? {
        g := existing.value;
      } else {
        grants := grants + [row];
      }
      tokens := tokens + [Token(g, crypto.digest(access), crypto.digest(refresh), now + 3600, now + 30 * 24 * 3600, None)];
      out := TokensIssued(g, row.scopes);
    }

    method Exchange(
        code: string, client: string, secret: Option<string>, redirectUri: string, verifier: string, access: string,
        refresh: string)
      returns (out: Outcome)
      modifies this`codes, this`grants, this`tokens
      ensures (Tables(), out)
              == OAuth.Exchange(crypto, old(Tables()), code, client, secret, redirectUri, verifier, access, refresh)
    {
      var h := crypto.digest(code);
      if h !in codes {
        return Refused(UnknownCode);
      }
      var row := codes[h];
      if row.usedAt.Some? {
        RevokeAll(row.client, row.actor);
        return Refused(CodeReused);
      }
      if row.expiresAt < now {
        return Refused(CodeExpired);
      }
      if row.client != client {
        return Refused(WrongClient);
      }
      if row.redirectUri != redirectUri {
        return Refused(WrongRedirect);
      }
      if crypto.challenge(verifier) != row.challenge {
        return Refused(BadVerifier);
      }
      var refused := RequireClientAuth(client, secret);
      if refused.Some? {
        return Refused(refused.value);
      }
      codes := codes[h := row.(usedAt := Some(now))];
      out := IssueTokens(Grant(row.client, row.tenant, row.actor, row.scopes, None), None, access, refresh);
    }

    method Refresh(presented: string, client: string, secret: Option<string>, access: string, refresh: string)
      returns (out: Outcome)
      modifies this`grants, this`tokens
      ensures (Tables(), out) == OAuth.Refresh(crypto, old(Tables()), presented, client, secret, access, refresh)
    {
      var refused := RequireClientAuth(client, secret);
      if refused.Some? {
        return Refused(refused.value);
      }
      var i := ByRefresh(tokens, crypto.digest(presented));
      if i == |tokens| || tokens[i].grant >= |grants| {
        return Refused(UnknownToken);
      }
      var g := tokens[i].grant;
      if grants[g].client != client {
        return Refused(WrongClient);
      }
      if tokens[i].usedAt.Some? {
        grants := grants[g := grants[g].(revokedAt := Some(now))];
        return Refused(TokenReused);
      }
      if grants[g].revokedAt.Some? {
        return Refused(GrantRevoked);
      }
      if tokens[i].refreshExpiresAt < now {
        return Refused(TokenExpired);
      }
      tokens := tokens[i := tokens[i].(usedAt := Some(now))];
      out := IssueTokens(grants[g], Some(g), access, refresh);
    }

    method ResolveAccessToken(presented: string) returns (access: Option<Access>)
      ensures access == Resolve(crypto, Tables(), presented)
    {
      hide Held, ByAccess, Filtered;
      if |presented| < |ACCESS_PREFIX| || presented[..|ACCESS_PREFIX|] != ACCESS_PREFIX {
        return None;
      }
      var i := ByAccess(tokens, crypto.digest(presented));
      if i == |tokens| || tokens[i].grant >= |grants| {
        return None;
      }
      var grant := grants[tokens[i].grant];
      if grant.actor !in members {
        return None;
      }
      var member := members[grant.actor];
      if tokens[i].accessExpiresAt < now || grant.revokedAt.Some? || !member.active {
        return None;
      }
      var held := Held(member.role);
      var effective := Keep(grant.scopes, held);
      if effective == [] {
        return None;
      }
      return Some(Access(grant.tenant, grant.actor, effective, grant.client));
    }

    /** `scopes.filter`. */
    static method Keep(scopes: seq<Capability>, held: set<Capability>) returns (kept: seq<Capability>)
      ensures kept == Filtered(scopes, held)
    {
      hide Filtered;
      kept := [];
      assert scopes[0..] == scopes;
      for k := 0 to |scopes|
        invariant kept + Filtered(scopes[k..], held) == Filtered(scopes, held)
      {
        FilteredNext(scopes, k, held);
        Regroup(kept, if scopes[k] in held then [scopes[k]] else [], Filtered(scopes[k + 1..], held));
        if scopes[k] in held {
          kept := kept + [scopes[k]];
        }
      }
      assert Filtered(scopes[|scopes|..], held) == [] by {
        FilteredNone(held);
        assert scopes[|scopes|..] == [];
      }
    }

    method RevokeGrant(tenant: string, grant: nat) returns (changed: bool)
      modifies this`grants
      ensures (Tables(), Done(changed)) == Revoke(old(Tables()), tenant, grant)
    {
      changed := grant < |grants| && grants[grant].tenant == tenant && grants[grant].revokedAt.None?;
      if changed {
        grants := grants[grant := grants[grant].(revokedAt := Some(now))];
      }
    }
  }
}
