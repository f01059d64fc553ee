/**
 OAuth grants: authorization codes with PKCE, rotating refresh tokens, and reuse
 read as theft (sections 4.1.2 and 6 of RFC 6749, section 4.6 of RFC 7636 and
 section 4.14 of RFC 9700). Each exported call is one atomic step.
 */
module OAuth {
  import opened Values

  datatype Capability = Submit | View | Edit | Approve | Operate | Report | Administer

  datatype WorkspaceRole =
    Owner | Admin | Builder | WorkspaceOperator | Approver | Analyst | ReadOnly | PreHire | Auditor

  /** What each workspace role holds. */
  function Held(role: WorkspaceRole): set<Capability> {
    match role
    case Owner => {Administer, View, Edit, Operate, Report}
    case Admin => {Administer, View, Edit, Operate, Report}
    case Builder => {Administer, View, Report}
    case WorkspaceOperator => {View, Operate, Report}
    case Approver => {View}
    case Analyst => {View, Report}
    case ReadOnly => {View}
    case PreHire => {}
    case Auditor => {}
  }

  /** SHA-256 as the tables store it, and as a PKCE challenge. */
  datatype Crypto = Crypto(digest: string -> string, challenge: string -> string)

  datatype Client = Client(tenant: string, redirectUris: seq<string>, secretHash: Option<string>, confidential: bool)

  datatype Member = Member(tenant: string, active: bool, role: WorkspaceRole)

  datatype Code = Code(
    client: string, tenant: string, actor: string, redirectUri: string, scopes: seq<Capability>, challenge: string,
    usedAt: Option<int>, expiresAt: int)

  datatype Grant = Grant(client: string, tenant: string, actor: string, scopes: seq<Capability>, revokedAt: Option<int>)

  /** A token row: `grant` is the index of its grant. */
  datatype Token = Token(
    grant: nat, access: string, refresh: string, accessExpiresAt: int, refreshExpiresAt: int, usedAt: Option<int>)

  /** The tables; codes by their hash, grants and tokens in the order they were inserted. */
  datatype State = State(
    clients: map<string, Client>, members: map<string, Member>, codes: map<string, Code>, grants: seq<Grant>,
    tokens: seq<Token>, now: int)

  const CODE_TTL := 60
  const ACCESS_TTL := 3600
  const REFRESH_TTL := 30 * 24 * 3600
  const MIN_CHALLENGE := 43

  datatype Request = Request(
    client: string, redirectUri: string, scopes: seq<Capability>, challenge: string, challengeMethod: string)

  datatype Refusal =
    | NotS256 | WeakChallenge | NoClient | OtherWorkspace | BadRedirect | NoMember | NoScope
    | UnknownCode | CodeReused | CodeExpired | WrongClient | WrongRedirect | BadVerifier | BadClientAuth
    | UnknownToken | TokenReused | GrantRevoked | TokenExpired

  datatype Outcome =
    | Refused(why: Refusal)
    | CodeIssued(granted: seq<Capability>)
    | TokensIssued(grant: nat, scopes: seq<Capability>)
    | Done(changed: bool)

  // ------------------------------------------------------------ authorizing

  function Filtered(scopes: seq<Capability>, held: set<Capability>): (kept: seq<Capability>)
    ensures forall c :: c in kept <==> c in scopes && c in held
  {
    if scopes == [] then []
    else
      assert scopes == [scopes[0]] + scopes[1..];
      (if scopes[0] in held then [scopes[0]] else []) + Filtered(scopes[1..], held)
  }

  lemma FilteredNext(scopes: seq<Capability>, k: nat, held: set<Capability>)
    requires k < |scopes|
    ensures Filtered(scopes[k..], held)
            == (if scopes[k] in held then [scopes[k]] else []) + Filtered(scopes[k + 1..], held)
  {
    assert scopes[k..][1..] == scopes[k + 1..];
  }

  lemma FilteredNone(held: set<Capability>)
    ensures Filtered([], held) == []
  {
  }

  /** The checks shared by the consent screen and the grant itself. */
  function CheckRequest(s: State, r: Request, tenant: string, actor: string): (out: Outcome)
    ensures out.Refused? || (out.CodeIssued? && out.granted != [])
  {
    if r.challengeMethod != "S256" then Refused(NotS256)
    else if |r.challenge| < MIN_CHALLENGE then Refused(WeakChallenge)
    else if r.client !in s.clients then Refused(NoClient)
    else if s.clients[r.client].tenant != tenant then Refused(OtherWorkspace)
    else if r.redirectUri !in s.clients[r.client].redirectUris then Refused(BadRedirect)
    else if actor !in s.members || s.members[actor].tenant != tenant || !s.members[actor].active then Refused(NoMember)
    else
      var granted := Filtered(r.scopes, Held(s.members[actor].role));
      if granted == [] then Refused(NoScope) else CodeIssued(granted)
  }

  function Authorize(c: Crypto, s: State, r: Request, tenant: string, actor: string, code: string): (State, Outcome) {
    var checked := CheckRequest(s, r, tenant, actor);
    if checked.Refused? then (s, checked)
    else
      var row := Code(r.client, tenant, actor, r.redirectUri, checked.granted, r.challenge, None, s.now + CODE_TTL);
      (s.(codes := s.codes[c.digest(code) := row]), checked)
  }

  // ----------------------------------------------------------------- tokens

  function Authenticate(c: Crypto, s: State, client: string, secret: Option<string>): (refused: Option<Refusal>)
    ensures refused.Some? ==> refused.value == NoClient || refused.value == BadClientAuth
  {
    if client !in s.clients then Some(NoClient)
    else if !s.clients[client].confidential then None
    else if secret.Some? && secret.value != "" && s.clients[client].secretHash == Some(c.digest(secret.value)) then None
    else Some(BadClientAuth)
  }

  function NewToken(c: Crypto, s: State, grant: nat, access: string, refresh: string): Token {
    Token(grant, c.digest(access), c.digest(refresh), s.now + ACCESS_TTL, s.now + REFRESH_TTL, None)
  }

  function RevokeWhere(grants: seq<Grant>, client: string, actor: string, now: int): (after: seq<Grant>)
    ensures |after| == |grants|
    ensures forall g :: 0 <= g < |grants| ==>
              after[g] == if grants[g].client == client && grants[g].actor == actor && grants[g].revokedAt.None?
                          then grants[g].(revokedAt := Some(now)) else grants[g]
  {
    seq(|grants|, g requires 0 <= g < |grants| =>
      if grants[g].client == client && grants[g].actor == actor && grants[g].revokedAt.None?
      then grants[g].(revokedAt := Some(now)) else grants[g])
  }

  function Exchange(
      c: Crypto, s: State, code: string, client: string, secret: Option<string>, redirectUri: string, verifier: string,
      access: string, refresh: string): (State, Outcome)
  {
    var h := c.digest(code);
    if h !in s.codes then (s, Refused(UnknownCode))
    else
      var row := s.codes[h];
      if row.usedAt.Some? then (s.(grants := RevokeWhere(s.grants, row.client, row.actor, s.now)), Refused(CodeReused))
      else if row.expiresAt < s.now then (s, Refused(CodeExpired))
      else if row.client != client then (s, Refused(WrongClient))
      else if row.redirectUri != redirectUri then (s, Refused(WrongRedirect))
      else if c.challenge(verifier) != row.challenge then (s, Refused(BadVerifier))
      else
        match Authenticate(c, s, client, secret)
        case Some(why) => (s, Refused(why))
        case None =>
          var g := |s.grants|;
          (s.(codes := s.codes[h := row.(usedAt := Some(s.now))],
              grants := s.grants + [Grant(row.client, row.tenant, row.actor, row.scopes, None)],
              tokens := s.tokens + [NewToken(c, s, g, access, refresh)]),
           TokensIssued(g, row.scopes))
  }

  /** The row a refresh token names, or the length of the table. */
  function ByRefresh(tokens: seq<Token>, hash: string): (i: nat)
    ensures i <= |tokens|
    ensures i < |tokens| ==> tokens[i].refresh == hash
    ensures forall j :: 0 <= j < i ==> tokens[j].refresh != hash
  {
    if tokens == [] then 0
    else if tokens[0].refresh == hash then 0
    else 1 + ByRefresh(tokens[1..], hash)
  }

  function ByAccess(tokens: seq<Token>, hash: string): (i: nat)
    ensures i <= |tokens|
    ensures i < |tokens| ==> tokens[i].access == hash
    ensures forall j :: 0 <= j < i ==> tokens[j].access != hash
  {
    if tokens == [] then 0
    else if tokens[0].access == hash then 0
    else 1 + ByAccess(tokens[1..], hash)
  }

  function Refresh(
      c: Crypto, s: State, presented: string, client: string, secret: Option<string>, access: string, refresh: string)
    : (State, Outcome)
  {
    match Authenticate(c, s, client, secret)
    case Some(why) => (s, Refused(why))
    case None =>
      var i := ByRefresh(s.tokens, c.digest(presented));
      if i == |s.tokens| || s.tokens[i].grant >= |s.grants| then (s, Refused(UnknownToken))
      else
        var (token, g) := (s.tokens[i], s.tokens[i].grant);
        if s.grants[g].client != client then (s, Refused(WrongClient))
        else if token.usedAt.Some? then
          (s.(grants := s.grants[g := s.grants[g].(revokedAt := Some(s.now))]), Refused(TokenReused))
        else if s.grants[g].revokedAt.Some? then (s, Refused(GrantRevoked))
        else if token.refreshExpiresAt < s.now then (s, Refused(TokenExpired))
        else
          (s.(tokens := s.tokens[i := token.(usedAt := Some(s.now))] + [NewToken(c, s, g, access, refresh)]),
           TokensIssued(g, s.grants[g].scopes))
  }

  datatype Access = Access(tenant: string, actor: string, scopes: seq<Capability>, client: string)

  const ACCESS_PREFIX := "pat_at_"

  /** What the API may do with an access token now. */
  function Resolve(c: Crypto, s: State, presented: string): Option<Access> {
    if !(|presented| >= |ACCESS_PREFIX| && presented[..|ACCESS_PREFIX|] == ACCESS_PREFIX) then None
    else
      var i := ByAccess(s.tokens, c.digest(presented));
      if i == |s.tokens| || s.tokens[i].grant >= |s.grants| then None
      else
        var grant := s.grants[s.tokens[i].grant];
        if grant.actor !in s.members then None
        else if s.tokens[i].accessExpiresAt < s.now || grant.revokedAt.Some? || !s.members[grant.actor].active then None
        else
          var effective := Filtered(grant.scopes, Held(s.members[grant.actor].role));
          if effective == [] then None else Some(Access(grant.tenant, grant.actor, effective, grant.client))
  }

  function Revoke(s: State, tenant: string, grant: nat): (State, Outcome) {
    if grant < |s.grants| && s.grants[grant].tenant == tenant && s.grants[grant].revokedAt.None? then
      (s.(grants := s.grants[grant := s.grants[grant].(revokedAt := Some(s.now))]), Done(true))
    else (s, Done(false))
  }

  // ------------------------------------------------------------------- runs

  datatype Op =
    | OpAuthorize(request: Request, tenant: string, actor: string, code: string)
    | OpExchange(code: string, client: string, secret: Option<string>, redirectUri: string, verifier: string,
                 access: string, refresh: string)
    | OpRefresh(presented: string, client: string, secret: Option<string>, access: string, refresh: string)
    | OpRevoke(tenant: string, grant: nat)
    | OpRegister(client: string, row: Client)
    | OpMember(actor: string, member: Member)
    | OpWait(seconds: nat)

  /** One call, or one step of the world around it: a role change, a departure, the clock. */
  function Step(c: Crypto, s: State, op: Op): (State, Outcome) {
    match op
    case OpAuthorize(request, tenant, actor, code) => Authorize(c, s, request, tenant, actor, code)
    case OpExchange(code, client, secret, redirectUri, verifier, access, refresh) =>
      Exchange(c, s, code, client, secret, redirectUri, verifier, access, refresh)
    case OpRefresh(presented, client, secret, access, refresh) =>
      Refresh(c, s, presented, client, secret, access, refresh)
    case OpRevoke(tenant, grant) => Revoke(s, tenant, grant)
    case OpRegister(client, row) => (s.(clients := s.clients[client := row]), Done(true))
    case OpMember(actor, member) => (s.(members := s.members[actor := member]), Done(true))
    case OpWait(seconds) => (s.(now := s.now + seconds), Done(true))
  }

  predicate FreshToken(c: Crypto, s: State, access: string, refresh: string) {
    forall t :: t in s.tokens ==> t.access != c.digest(access) && t.refresh != c.digest(refresh)
  }

  /** Random codes and tokens do not repeat, and clients keep their id. */
  predicate Enabled(c: Crypto, s: State, op: Op) {
    match op
    case OpAuthorize(_, _, _, code) => c.digest(code) !in s.codes
    case OpExchange(_, _, _, _, _, access, refresh) => FreshToken(c, s, access, refresh)
    case OpRefresh(_, _, _, access, refresh) => FreshToken(c, s, access, refresh)
    case OpRegister(client, _) => client !in s.clients
    case _ => true
  }

  function Run(c: Crypto, s: State, ops: seq<Op>): State {
    if ops == [] then s else Step(c, Run(c, s, ops[..|ops| - 1]), ops[|ops| - 1]).0
  }

  ghost predicate Runs(c: Crypto, s: State, ops: seq<Op>) {
    forall i :: 0 <= i < |ops| ==> Enabled(c, Run(c, s, ops[..i]), ops[i])
  }

  const START := State(map[], map[], map[], [], [], 0)
}
