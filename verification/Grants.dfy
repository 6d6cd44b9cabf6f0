/** The token endpoint, the revocation endpoint, the device endpoints and the administrative revocations as
    programs over the storage: a request is the storage call it will make next, and `Exec` performs that call and
    computes the next one from its answer (routes/token.py, routes/introspect.py, routes/device.py,
    services/tokens.py). */
module Grants {
  import opened Prelude
  import opened Limits
  import opened Scopes
  import opened Store
  import Delegation

  /** Settings and the foreign functions the handlers rely on: the PKCE digest, the two parameter validators and
      upper-casing. */
  datatype Config = Config(opaqueTokens: bool, accessTtl: int, refreshTtl: int, codeTtl: int,
                           pkce: string -> string, detailsOk: string -> bool, resourceOk: string -> bool,
                           upper: string -> string)

  datatype Error =
    InvalidGrant | InvalidRequest | InvalidScope | InvalidTarget | InvalidClient | UnauthorizedClient
    | InvalidDetails | ExpiredToken | AccessDenied | AuthorizationPending | SlowDown | LoginRequired | InvalidUserCode
    | ServerError

  datatype Response =
    | Issued(row: nat, tokenType: TokenType, details: Option<string>)
    | Refused(error: Error)
    | Acknowledged

  datatype Action = Approve | Deny | OtherAction

  datatype Request =
    | RedeemCode(client: Client, code: Option<nat>, redirectUri: Option<string>, verifier: Option<string>,
                 details: Option<string>, proof: Option<string>, certificate: Option<string>)
    | Refresh(client: Client, refresh: Option<TokenValue>, scope: Option<string>, resource: Option<string>,
              proof: Option<string>)
    | RedeemDevice(client: Client, device: Option<nat>, tooFast: bool, resource: Option<string>)
    | Exchange(client: Client, subject: Option<TokenValue>, typesOk: bool, scope: Option<string>,
               resource: Option<string>, proof: Option<string>, certificate: Option<string>)
    /** client_credentials (no user) and jwt-bearer (the asserted user). */
    | Grant(client: Client, grant: GrantType, user: Option<string>, scope: Option<string>, details: Option<string>,
            resource: Option<string>, proof: Option<string>, certificate: Option<string>)
    | Revoke(client: Client, token: Option<TokenValue>)
    | Authorize(client: Client, owner: string, callback: string, consented: string, challenge: Option<string>,
                resource: Option<string>, details: Option<string>, jkt: Option<string>)
    | AuthorizeDevice(client: Client, scope: Option<string>, userCode: string)
    | VerifyDevice(user: Option<string>, typed: Option<string>, action: Action)
    | AdminRevoke(row: nat)
    | RevokeUser(owner: string)
    | RevokeClient(client: Client)
    | RemoveUser(owner: string)

  const DEVICE_CODE_TTL := 600

  datatype FamilyChoice = NoFamily | Existing(family: Family) | FreshFamily

  /** The arguments of `TokenService.issue`, with what the token is derived from. */
  datatype NewToken = NewToken(client: Client, user: Option<string>, scope: string, withRefresh: bool,
                               family: FamilyChoice, cnf: Option<Confirmation>, details: Option<string>,
                               act: Option<Json>, resource: Option<string>, audience: Option<seq<string>>,
                               origin: Origin, proof: Option<string>)

  /** The storage call a request is about to make.  Rows inside a call are snapshots the request read earlier. */
  datatype Call =
    | Finished(response: Response)
    | ReadCode(request: Request, code: nat)
    | ClaimCode(request: Request, code: nat, codeRow: CodeRow)
    | ReadRefresh(request: Request, value: TokenValue)
    | RevokeOld(value: TokenValue, grant: NewToken)
    | ReadDevice(request: Request, device: nat)
    | ClaimDevice(request: Request, device: nat, deviceRow: DeviceRow)
    | ReadSubject(request: Request, value: TokenValue)
    | SaveToken(grant: NewToken)
    | FindByAccess(client: Client, value: TokenValue)
    | FindByRefresh(client: Client, value: TokenValue)
    | RevokeAll(family: Family, response: Response)
    | RevokeValue(value: TokenValue, response: Response)
    | SaveCode(request: Request)
    | SaveDevice(client: Client, scope: string, userCode: string)
    | ReadUserCode(user: string, userCode: string, action: Action)
    | ApproveUserCode(user: string, userCode: string)
    | DenyUserCode(userCode: string)
    | ReadRow(row: nat)
    | RevokeUserTokens(user: string)
    | RevokeClientTokens(clientId: string)
    | DeleteUserRow(user: string)

  // ---- Pure parts of the handlers ----

  /** The scope rule shared by refresh, exchange and the direct grants; `None` is `invalid_scope`. */
  function EffectiveScope(requested: Option<string>, allowed: string): (r: Option<string>)
    ensures r.Some? ==> Words(r.value) <= Words(allowed)
    ensures r.None? <==> requested.Some? && requested.value != "" && !(Words(requested.value) <= Words(allowed))
  {
    if requested.Some? && requested.value != "" then
      if ScopeIsSubset(requested.value, allowed) then requested else None
    else Some(allowed)
  }

  /** The `cnf` a request binds: a DPoP proof wins over a certificate. */
  function RequestCnf(proof: Option<string>, certificate: Option<string>): Option<Confirmation> {
    if proof.Some? then Some(Jkt(proof.value))
    else if certificate.Some? then Some(Certificate(certificate.value))
    else None
  }

  function EncodeAudience(names: seq<string>): Audience {
    if |names| == 1 then Single(names[0]) else Listed(names)
  }

  function SalvageAudience(t: TokenValue): (r: Option<seq<string>>)
    ensures r.Some? ==> r.value != []
  {
    match t
    case Jwt(_, Claims(_, _, _, Single(name), _, _, _)) => Some([name])
    case Jwt(_, Claims(_, _, _, Listed(names), _, _, _)) => if names != [] then Some(names) else None
    case _ => None
  }

  function SalvageCnf(t: TokenValue): Option<Confirmation> {
    if t.Jwt? then t.claims.cnf else None
  }

  function SalvageDetails(t: TokenValue): Option<string> {
    if t.Jwt? then t.claims.details else None
  }

  function SalvageAct(t: TokenValue): Option<Json> {
    if t.Jwt? then t.claims.act else None
  }

  /** `Claims.new`: an explicit audience list wins over a resource, which replaces the client id. */
  function ChooseAudience(audience: Option<seq<string>>, resource: Option<string>, clientId: string): (r: seq<string>)
    ensures r != []
  {
    if audience.Some? && audience.value != [] then audience.value
    else if resource.Some? && resource.value != "" then [resource.value]
    else [clientId]
  }

  /** `validate_resource`: absent passes; a present value needs a scheme, so it is never empty. */
  predicate ResourceOk(cfg: Config, resource: Option<string>) {
    resource.Some? ==> resource.value != "" && cfg.resourceOk(resource.value)
  }

  // ---- Issuing ----

  function AccessTokenFor(cfg: Config, nt: NewToken, n: nat): TokenValue {
    if cfg.opaqueTokens then Opaque(n)
    else
      var subject := if nt.user.Some? && nt.user.value != "" then nt.user.value else nt.client.id;
      var names := ChooseAudience(nt.audience, nt.resource, nt.client.id);
      Jwt(n, Claims(subject, nt.client.id, nt.scope, EncodeAudience(names), nt.cnf, nt.details, nt.act))
  }

  function FamilyFor(choice: FamilyChoice, n: nat): Option<Family> {
    match choice
    case NoFamily => None
    case Existing(f) => Some(f)
    case FreshFamily => Some(OfRow(n))
  }

  /** `TokenService.issue`: build the token and append its row. */
  function Save(cfg: Config, st: Store, now: int, nt: NewToken): Store {
    var n := |st.tokens|;
    var access := AccessTokenFor(cfg, nt, n);
    var row := TokenRow(n, access, if nt.withRefresh then Some(RefreshValue(n)) else None, Bearer, cfg.accessTtl,
                        nt.scope, nt.client.id, nt.user, now, now + cfg.accessTtl, false, FamilyFor(nt.family, n));
    st.(tokens := st.tokens + [row],
        issued := st.issued + [Issue(nt.origin, nt.client, nt.user, nt.scope, access, nt.proof)])
  }

  /** The row always says Bearer; the response says DPoP for a key binding that reached the token. */
  function IssuedResponse(cfg: Config, nt: NewToken, n: nat): Response {
    var bound := !cfg.opaqueTokens && nt.cnf.Some? && nt.cnf.value.Jkt? && nt.cnf.value.thumbprint != "";
    Issued(n, if bound then Dpop else Bearer, if cfg.opaqueTokens then None else nt.details)
  }

  // ---- User codes as typed ----

  function StripLeft(s: string): string {
    if s != "" && IsSpace(s[0]) then StripLeft(s[1..]) else s
  }

  function StripRight(s: string): string {
    if s != "" && IsSpace(s[|s| - 1]) then StripRight(s[..|s| - 1]) else s
  }

  /** `_normalize_user_code`: trimmed, in capitals, with the hyphen put back. */
  function NormalizeUserCode(upper: string -> string, typed: string): string {
    var value := upper(StripRight(StripLeft(typed)));
    if '-' !in value && |value| == 8 then value[..4] + "-" + value[4..] else value
  }

  ghost predicate Blank(s: string) {
    forall i :: 0 <= i < |s| ==> IsSpace(s[i])
  }

  lemma {:induction false} StripLeftBlank(pre: string, s: string)
    requires Blank(pre) && (s == "" || !IsSpace(s[0]))
    ensures StripLeft(pre + s) == s
    decreases |pre|
  {
    if pre == "" {
      assert pre + s == s;
    } else {
      assert (pre + s)[0] == pre[0] && (pre + s)[1..] == pre[1..] + s;
      StripLeftBlank(pre[1..], s);
    }
  }

  lemma {:induction false} StripRightBlank(s: string, post: string)
    requires Blank(post) && (s == "" || !IsSpace(s[|s| - 1]))
    ensures StripRight(s + post) == s
    decreases |post|
  {
    if post == "" {
      assert s + post == s;
    } else {
      var n := |post| - 1;
      assert (s + post)[|s| + n] == post[n] && (s + post)[..|s| + n] == s + post[..n];
      StripRightBlank(s, post[..n]);
    }
  }

  /** A generated code is recognised however it is typed: with blanks around it, in any case, with or without the
      hyphen. */
  lemma TypedCodeIsRecognised(upper: string -> string, a: string, b: string, pre: string, core: string, post: string)
    requires |a| == |b| == 4 && '-' !in a && '-' !in b
    requires Blank(pre) && Blank(post) && core != "" && !IsSpace(core[0]) && !IsSpace(core[|core| - 1])
    requires upper(core) == a + b || upper(core) == a + "-" + b
    ensures NormalizeUserCode(upper, pre + core + post) == a + "-" + b
  {
    assert pre + core + post == pre + (core + post);
    assert (core + post)[0] == core[0];
    StripLeftBlank(pre, core + post);
    StripRightBlank(core, post);
    var value := upper(core);
    if value == a + b {
      assert value[..4] == a && value[4..] == b;
    } else {
      assert value[4] == '-';
    }
  }

  // ---- What each answer leads to ----

  /** Before the first storage call: the grant allow-list and the required parameters. */
  function Start(cfg: Config, r: Request): Call {
    match r
    case RedeemCode(client, code, _, _, _, _, _) =>
      if AuthorizationCodeGrant !in client.grants then Finished(Refused(UnauthorizedClient))
      else if code.None? then Finished(Refused(InvalidGrant))
      else ReadCode(r, code.value)
    case Refresh(client, refresh, _, _, _) =>
      if RefreshTokenGrant !in client.grants then Finished(Refused(UnauthorizedClient))
      else if refresh.None? then Finished(Refused(InvalidGrant))
      else ReadRefresh(r, refresh.value)
    case RedeemDevice(client, device, _, _) =>
      if DeviceCodeGrant !in client.grants then Finished(Refused(UnauthorizedClient))
      else if device.None? then Finished(Refused(InvalidRequest))
      else ReadDevice(r, device.value)
    case Exchange(client, subject, typesOk, _, _, _, _) =>
      if TokenExchangeGrant !in client.grants then Finished(Refused(UnauthorizedClient))
      else if client.isPublic then Finished(Refused(InvalidClient))
      else if subject.None? || !typesOk then Finished(Refused(InvalidRequest))
      else ReadSubject(r, subject.value)
    case Grant(client, grant, user, scope, details, resource, proof, certificate) =>
      if grant.ClientCredentialsGrant? && client.isPublic then Finished(Refused(InvalidClient))
      else if grant !in {ClientCredentialsGrant, JwtBearerGrant} || grant !in client.grants
      then Finished(Refused(UnauthorizedClient))
      else if client.isPublic then Finished(Refused(InvalidClient))
      else
        var granted := EffectiveScope(scope, client.scope);
        var embedded := if grant.ClientCredentialsGrant? then details else None;
        if granted.None? then Finished(Refused(InvalidScope))
        else if embedded.Some? && !cfg.detailsOk(embedded.value) then Finished(Refused(InvalidDetails))
        else if !ResourceOk(cfg, resource) then Finished(Refused(InvalidTarget))
        else SaveToken(NewToken(client, if grant.JwtBearerGrant? then user else None, granted.value, false, NoFamily,
                                RequestCnf(proof, certificate), embedded, None, resource, None, Direct, proof))
    case Revoke(client, token) =>
      if token.None? then Finished(Acknowledged) else FindByAccess(client, token.value)
    case Authorize(_, _, _, _, _, _, _, _) => SaveCode(r)
    case AuthorizeDevice(client, scope, userCode) =>
      if DeviceCodeGrant !in client.grants then Finished(Refused(UnauthorizedClient))
      else
        var granted := EffectiveScope(scope, client.scope);
        if granted.None? then Finished(Refused(InvalidScope))
        else SaveDevice(client, granted.value, userCode)
    case VerifyDevice(user, typed, action) =>
      if user.None? then Finished(Refused(LoginRequired))
      else if typed.None? || typed.value == "" then Finished(Refused(InvalidUserCode))
      else ReadUserCode(user.value, NormalizeUserCode(cfg.upper, typed.value), action)
    case AdminRevoke(row) => ReadRow(row)
    case RevokeUser(user) => RevokeUserTokens(user)
    case RevokeClient(client) => RevokeClientTokens(client.id)
    case RemoveUser(user) => DeleteUserRow(user)
  }

  /** The PKCE gate on a code. */
  function PkceError(cfg: Config, challenge: Option<string>, verifier: Option<string>): Option<Error> {
    if challenge.None? || challenge.value == "" then Some(InvalidGrant)
    else if verifier.None? || verifier.value == "" then Some(InvalidGrant)
    else if !(43 <= |verifier.value| <= 128) then Some(InvalidRequest)
    else if cfg.pkce(verifier.value) != challenge.value then Some(InvalidGrant)
    else None
  }

  function Replayed(family: Option<Family>): (c: Call)
    ensures WellFormed(c) && Ahead(c) <= 1
  {
    if family.Some? then RevokeAll(family.value, Refused(InvalidGrant)) else Finished(Refused(InvalidGrant))
  }

  /** What the user consented to wins over what the redemption asks for. */
  function RedeemedDetails(r: Request, row: CodeRow): Option<string>
    requires r.RedeemCode?
  {
    if row.details.Some? then row.details else r.details
  }

  function AfterReadCode(cfg: Config, now: int, r: Request, code: nat, found: Option<CodeRow>): (c: Call)
    requires r.RedeemCode?
    ensures WellFormed(c) && Ahead(c) <= 2
  {
    if found.None? then Finished(Refused(InvalidGrant))
    else
      var row := found.value;
      if row.client != r.client.id then Finished(Refused(InvalidGrant))
      else if row.expiresAt < now then Finished(Refused(InvalidGrant))
      else if row.used then Replayed(row.family)
      else if r.redirectUri != Some(row.redirectUri) then Finished(Refused(InvalidGrant))
      else
        var pkce := PkceError(cfg, row.challenge, r.verifier);
        if pkce.Some? then Finished(Refused(pkce.value))
        else if row.details.Some? && r.details.Some? && row.details != r.details then Finished(Refused(InvalidDetails))
        else
          var details := RedeemedDetails(r, row);
          if details.Some? && !cfg.detailsOk(details.value) then Finished(Refused(InvalidDetails))
          else ClaimCode(r, code, row)
  }

  function AfterClaimCode(r: Request, code: nat, row: CodeRow, claimed: nat): (c: Call)
    requires r.RedeemCode?
    ensures WellFormed(c) && Ahead(c) <= 1
  {
    if claimed == 0 then Replayed(row.family)
    else if row.jkt.Some? && r.proof != row.jkt then Finished(Refused(InvalidGrant))
    else SaveToken(NewToken(r.client, Some(row.user), row.scope, true,
                            if row.family.Some? then Existing(row.family.value) else NoFamily,
                            RequestCnf(r.proof, r.certificate), RedeemedDetails(r, row), None, row.resource, None,
                            FromCode(code), r.proof))
  }

  /** A public client may refresh a key-bound token only with a proof from that key. */
  predicate ProofMissing(client: Client, cnf: Option<Confirmation>, proof: Option<string>) {
    && cnf.Some? && cnf.value.Jkt? && cnf.value.thumbprint != "" && client.isPublic
    && proof != Some(cnf.value.thumbprint)
  }

  function AfterReadRefresh(cfg: Config, now: int, r: Request, found: Option<TokenRow>): (c: Call)
    requires r.Refresh?
    ensures WellFormed(c) && Ahead(c) <= 2
  {
    if found.None? then Finished(Refused(InvalidGrant))
    else
      var prior := found.value;
      if prior.client != r.client.id then Finished(Refused(InvalidGrant))
      else if prior.revoked then Replayed(prior.family)
      else if now >= prior.createdAt + cfg.refreshTtl then Finished(Refused(InvalidGrant))
      else
        var scope := EffectiveScope(r.scope, prior.scope);
        if scope.None? then Finished(Refused(InvalidScope))
        else if !ResourceOk(cfg, r.resource) then Finished(Refused(InvalidTarget))
        else
          var oldAudience := SalvageAudience(prior.access);
          if oldAudience.Some? && r.resource.Some? && r.resource.value !in oldAudience.value
          then Finished(Refused(InvalidTarget))
          else
            var cnf := SalvageCnf(prior.access);
            if ProofMissing(r.client, cnf, r.proof) then Finished(Refused(InvalidGrant))
            else
              var carried := if r.resource.None? then oldAudience else None;
              RevokeOld(prior.access,
                        NewToken(r.client, prior.user, scope.value, true,
                                 if prior.family.Some? then Existing(prior.family.value) else FreshFamily,
                                 cnf, None, None, r.resource, carried, Refreshed(prior.id), r.proof))
  }

  function AfterReadDevice(cfg: Config, now: int, r: Request, device: nat, found: Option<DeviceRow>): (c: Call)
    requires r.RedeemDevice?
    ensures WellFormed(c) && Ahead(c) <= 2
  {
    if found.None? || found.value.client != r.client.id then Finished(Refused(InvalidGrant))
    else
      var row := found.value;
      if r.tooFast then Finished(Refused(SlowDown))
      else if row.expiresAt <= now then Finished(Refused(ExpiredToken))
      else if row.denied then Finished(Refused(AccessDenied))
      else if row.used then Finished(Refused(InvalidGrant))
      else if !row.approved then Finished(Refused(AuthorizationPending))
      else if !ResourceOk(cfg, r.resource) then Finished(Refused(InvalidTarget))
      else ClaimDevice(r, device, row)
  }

  function AfterClaimDevice(r: Request, device: nat, row: DeviceRow, claimed: nat): (c: Call)
    requires r.RedeemDevice?
    ensures WellFormed(c) && Ahead(c) <= 1
  {
    if claimed == 0 then Finished(Refused(InvalidGrant))
    else SaveToken(NewToken(r.client, row.user, row.scope, true, FreshFamily, None, None, None, r.resource, None,
                            FromDevice(device), None))
  }

  function AfterReadSubject(cfg: Config, now: int, r: Request, found: Option<TokenRow>): (c: Call)
    requires r.Exchange?
    ensures WellFormed(c) && Ahead(c) <= 1
  {
    if found.None? then Finished(Refused(InvalidGrant))
    else
      var subject := found.value;
      if subject.revoked || subject.expiresAt <= now then Finished(Refused(InvalidGrant))
      else
        var scope := EffectiveScope(r.scope, subject.scope);
        if scope.None? then Finished(Refused(InvalidScope))
        else
          var act := Delegation.NextAct(SalvageAct(subject.access), r.client.id);
          if act.None? then Finished(Refused(InvalidRequest))
          else if !ResourceOk(cfg, r.resource) then Finished(Refused(InvalidTarget))
          else SaveToken(NewToken(r.client, subject.user, scope.value, false, NoFamily,
                                  RequestCnf(r.proof, r.certificate), None, act, r.resource, None,
                                  Exchanged(subject.id), r.proof))
  }

  function AfterFind(client: Client, value: TokenValue, row: TokenRow): (c: Call)
    ensures WellFormed(c) && Ahead(c) <= 1
  {
    if row.client != client.id then Finished(Acknowledged)
    else if row.family.Some? then RevokeAll(row.family.value, Acknowledged)
    else RevokeValue(value, Acknowledged)
  }

  function AfterReadUserCode(now: int, user: string, userCode: string, action: Action, found: Option<DeviceRow>)
    : (c: Call)
    ensures WellFormed(c) && Ahead(c) <= 1
  {
    if found.None? || found.value.used || found.value.approved || found.value.denied || found.value.expiresAt <= now
    then Finished(Refused(InvalidUserCode))
    else match action
      case Approve => ApproveUserCode(user, userCode)
      case Deny => DenyUserCode(userCode)
      case OtherAction => Finished(Refused(InvalidRequest))
  }

  /** The row `AuthorizeService.issue_code` saves; every code gets a family of its own. */
  function NewCode(cfg: Config, now: int, r: Request, n: nat): CodeRow
    requires r.Authorize?
  {
    CodeRow(r.client.id, r.owner, r.callback, r.consented, now + cfg.codeTtl, false, r.challenge, r.resource,
            r.details, Some(OfCode(n)), r.jkt)
  }

  ghost predicate WellFormed(c: Call) {
    match c
    case ReadCode(r, _) => r.RedeemCode?
    case ClaimCode(r, _, _) => r.RedeemCode?
    case ReadRefresh(r, _) => r.Refresh?
    case ReadDevice(r, _) => r.RedeemDevice?
    case ClaimDevice(r, _, _) => r.RedeemDevice?
    case ReadSubject(r, _) => r.Exchange?
    case SaveCode(r) => r.Authorize?
    case _ => true
  }

  /** How many storage calls a request has ahead of it, at most. */
  function Ahead(c: Call): nat {
    match c
    case Finished(_) => 0
    case FindByAccess(_, _) => 3
    case ReadCode(_, _) => 3
    case ReadRefresh(_, _) => 3
    case ReadDevice(_, _) => 3
    case ClaimCode(_, _, _) => 2
    case ClaimDevice(_, _, _) => 2
    case RevokeOld(_, _) => 2
    case ReadSubject(_, _) => 2
    case FindByRefresh(_, _) => 2
    case ReadUserCode(_, _, _) => 2
    case ReadRow(_) => 2
    case _ => 1
  }

  /** One storage call, at one instant, and the call it leads to. */
  function Exec(cfg: Config, st: Store, now: int, c: Call): (r: (Store, Call))
    requires WellFormed(c)
    ensures WellFormed(r.1)
    ensures !c.Finished? ==> Ahead(r.1) < Ahead(c)
    ensures c.Finished? ==> r == (st, c)
  {
    match c
    case Finished(_) => (st, c)
    case ReadCode(r, code) => (st, AfterReadCode(cfg, now, r, code, GetCode(st, code)))
    case ClaimCode(r, code, row) =>
      var (st', claimed) := MarkCodeUsed(st, code);
      (st', AfterClaimCode(r, code, row, claimed))
    case ReadRefresh(r, value) => (st, AfterReadRefresh(cfg, now, r, GetByRefresh(st.tokens, value)))
    case RevokeOld(value, grant) => (RevokeToken(st, value), SaveToken(grant))
    case ReadDevice(r, device) => (st, AfterReadDevice(cfg, now, r, device, GetDevice(st, device)))
    case ClaimDevice(r, device, row) =>
      var (st', claimed) := MarkDeviceUsed(st, device);
      (st', AfterClaimDevice(r, device, row, claimed))
    case ReadSubject(r, value) => (st, AfterReadSubject(cfg, now, r, GetByAccess(st.tokens, value)))
    case SaveToken(grant) => (Save(cfg, st, now, grant), Finished(IssuedResponse(cfg, grant, |st.tokens|)))
    case FindByAccess(client, value) =>
      var found := GetByAccess(st.tokens, value);
      (st, if found.Some? then AfterFind(client, value, found.value) else FindByRefresh(client, value))
    case FindByRefresh(client, value) =>
      var found := GetByRefresh(st.tokens, value);
      (st, if found.Some? then AfterFind(client, value, found.value) else Finished(Acknowledged))
    case RevokeAll(family, response) => (RevokeFamily(st, family), Finished(response))
    case RevokeValue(value, response) => (RevokeToken(st, value), Finished(response))
    case SaveCode(r) => (st.(codes := st.codes + [NewCode(cfg, now, r, |st.codes|)]), Finished(Acknowledged))
    case SaveDevice(client, scope, userCode) =>
      if GetDeviceByUserCode(st.devices, userCode).Some? then (st, Finished(Refused(ServerError)))
      else
        var row := DeviceRow(userCode, client.id, scope, now + DEVICE_CODE_TTL, false, false, false, None);
        (st.(devices := st.devices + [row]), Finished(Acknowledged))
    case ReadUserCode(user, userCode, action) =>
      (st, AfterReadUserCode(now, user, userCode, action, GetDeviceByUserCode(st.devices, userCode)))
    case ApproveUserCode(user, userCode) => (ApproveDevice(st, userCode, user), Finished(Acknowledged))
    case DenyUserCode(userCode) => (DenyDevice(st, userCode), Finished(Acknowledged))
    case ReadRow(row) =>
      (st, if row < |st.tokens| then RevokeValue(st.tokens[row].access, Acknowledged) else Finished(Acknowledged))
    case RevokeUserTokens(user) => (RevokeByUser(st, user), Finished(Acknowledged))
    case RevokeClientTokens(client) => (RevokeByClient(st, client), Finished(Acknowledged))
    case DeleteUserRow(user) => (DeleteUser(st, user), Finished(Acknowledged))
  }

  /** The rest of a request run to its end with nothing in between. */
  function RunToEnd(cfg: Config, st: Store, now: int, c: Call): (r: (Store, Response))
    requires WellFormed(c)
    decreases Ahead(c)
  {
    if c.Finished? then (st, c.response)
    else
      var (st', c') := Exec(cfg, st, now, c);
      RunToEnd(cfg, st', now, c')
  }

  lemma Continue(cfg: Config, st: Store, now: int, c: Call)
    requires WellFormed(c) && !c.Finished?
    ensures var (st', c') := Exec(cfg, st, now, c); RunToEnd(cfg, st, now, c) == RunToEnd(cfg, st', now, c')
  {
  }

  /** A whole request handled atomically. */
  function Handle(cfg: Config, st: Store, now: int, r: Request): (Store, Response)
  {
    RunToEnd(cfg, st, now, Start(cfg, r))
  }

  /** The one-or-many audience encoding loses nothing: what was chosen at issue time is what a refresh reads back. */
  lemma AudienceRoundTrip(cfg: Config, nt: NewToken, n: nat)
    requires !cfg.opaqueTokens
    ensures SalvageAudience(AccessTokenFor(cfg, nt, n))
         == Some(ChooseAudience(nt.audience, nt.resource, nt.client.id))
    ensures SalvageCnf(AccessTokenFor(cfg, nt, n)) == nt.cnf && SalvageAct(AccessTokenFor(cfg, nt, n)) == nt.act
    ensures SalvageDetails(AccessTokenFor(cfg, nt, n)) == nt.details
  {
    var names := ChooseAudience(nt.audience, nt.resource, nt.client.id);
    if |names| == 1 {
      assert names == [names[0]];
    }
  }
}
