/** The handlers as they are written: early returns around storage calls, each proved to do exactly what the request
    program of `Grants` does when nothing runs in between. */
module TokenEndpoint {
  import opened Prelude
  import opened Limits
  import opened Store
  import opened Grants
  import Delegation

  /** The storage object; each method is one statement of storage/sql.py. */
  class Storage {
    var codes: seq<CodeRow>
    var devices: seq<DeviceRow>
    var tokens: seq<TokenRow>
    var issued: seq<Issue>

    ghost function Value(): Store
      reads this
    {
      Store(codes, devices, tokens, issued)
    }

    constructor ()
      ensures Value() == EMPTY
    {
      codes, devices, tokens, issued := [], [], [], [];
    }

    method GetAuthorizationCode(code: nat) returns (row: Option<CodeRow>)
      ensures row == GetCode(Value(), code)
    {
      row := if code < |codes| then Some(codes[code]) else None;
    }

    method GetDeviceAuthorization(device: nat) returns (row: Option<DeviceRow>)
      ensures row == GetDevice(Value(), device)
    {
      row := if device < |devices| then Some(devices[device]) else None;
    }

    method MarkAuthorizationCodeUsed(code: nat) returns (claimed: nat)
      modifies this
      ensures (Value(), claimed) == MarkCodeUsed(old(Value()), code)
    {
      claimed := 0;
      if code < |codes| && !codes[code].used {
        codes, claimed := codes[code := codes[code].(used := true)], 1;
      }
    }

    method MarkDeviceAuthorizationUsed(device: nat) returns (claimed: nat)
      modifies this
      ensures (Value(), claimed) == MarkDeviceUsed(old(Value()), device)
    {
      claimed := 0;
      if device < |devices| && !devices[device].used {
        devices, claimed := devices[device := devices[device].(used := true)], 1;
      }
    }

    method RevokeTokenValue(t: TokenValue)
      modifies this
      ensures Value() == RevokeToken(old(Value()), t)
    {
      tokens := RevokeWhere(tokens, (row: TokenRow) => row.access == t || row.refresh == Some(t));
    }

    method RevokeTokenFamily(f: Family)
      modifies this
      ensures Value() == RevokeFamily(old(Value()), f)
    {
      tokens := RevokeWhere(tokens, (row: TokenRow) => row.family == Some(f));
    }

    method ApproveDeviceAuthorization(userCode: string, user: string)
      modifies this
      ensures Value() == ApproveDevice(old(Value()), userCode, user)
    {
      devices := UpdateDevices(devices, userCode,
                               (d: DeviceRow) => d.(approved := true, denied := false, user := Some(user)));
    }

    method DenyDeviceAuthorization(userCode: string)
      modifies this
      ensures Value() == DenyDevice(old(Value()), userCode)
    {
      devices := UpdateDevices(devices, userCode, (d: DeviceRow) => d.(denied := true, approved := false));
    }

    method SaveTokenRow(row: TokenRow, record: Issue)
      modifies this
      ensures Value() == old(Value()).(tokens := old(tokens) + [row], issued := old(issued) + [record])
    {
      tokens, issued := tokens + [row], issued + [record];
    }
  }

  /** `TokenService.issue`. */
  method IssueToken(cfg: Config, storage: Storage, now: int, nt: NewToken) returns (response: Response)
    modifies storage
    ensures (storage.Value(), response) == RunToEnd(cfg, old(storage.Value()), now, SaveToken(nt))
  {
    Continue(cfg, storage.Value(), now, SaveToken(nt));
    var n := |storage.tokens|;
    var access := AccessTokenFor(cfg, nt, n);
    var refresh := if nt.withRefresh then Some(RefreshValue(n)) else None;
    storage.SaveTokenRow(TokenRow(n, access, refresh, Bearer, cfg.accessTtl, nt.scope, nt.client.id, nt.user, now,
                                  now + cfg.accessTtl, false, FamilyFor(nt.family, n)),
                         Issue(nt.origin, nt.client, nt.user, nt.scope, access, nt.proof));
    var boundDetails := if cfg.opaqueTokens then None else nt.details;
    if !cfg.opaqueTokens && nt.cnf.Some? && nt.cnf.value.Jkt? && nt.cnf.value.thumbprint != "" {
      response := Issued(n, Dpop, boundDetails);
    } else {
      response := Issued(n, Bearer, boundDetails);
    }
  }

  method RevokeReplayed(cfg: Config, storage: Storage, now: int, family: Option<Family>) returns (response: Response)
    modifies storage
    ensures (storage.Value(), response) == RunToEnd(cfg, old(storage.Value()), now, Replayed(family))
  {
    if family.Some? {
      Continue(cfg, storage.Value(), now, RevokeAll(family.value, Refused(InvalidGrant)));
      storage.RevokeTokenFamily(family.value);
    }
    response := Refused(InvalidGrant);
  }

  method AuthorizationCode(cfg: Config, storage: Storage, now: int, r: Request) returns (response: Response)
    requires r.RedeemCode?
    modifies storage
    ensures (storage.Value(), response) == Handle(cfg, old(storage.Value()), now, r)
  {
    if AuthorizationCodeGrant !in r.client.grants { return Refused(UnauthorizedClient); }
    if r.code.None? { return Refused(InvalidGrant); }
    var code := r.code.value;
    Continue(cfg, storage.Value(), now, ReadCode(r, code));
    var found := storage.GetAuthorizationCode(code);
    if found.None? { return Refused(InvalidGrant); }
    var row := found.value;
    if row.client != r.client.id { return Refused(InvalidGrant); }
    if row.expiresAt < now { return Refused(InvalidGrant); }
    if row.used {
      response := RevokeReplayed(cfg, storage, now, row.family);
      return;
    }
    if r.redirectUri != Some(row.redirectUri) { return Refused(InvalidGrant); }
    var pkce := PkceError(cfg, row.challenge, r.verifier);
    if pkce.Some? { return Refused(pkce.value); }
    if row.details.Some? && r.details.Some? && row.details != r.details { return Refused(InvalidDetails); }
    var details := if row.details.Some? then row.details else r.details;
    if details.Some? && !cfg.detailsOk(details.value) { return Refused(InvalidDetails); }

    Continue(cfg, storage.Value(), now, ClaimCode(r, code, row));
    var claimed := storage.MarkAuthorizationCodeUsed(code);
    if claimed == 0 {
      response := RevokeReplayed(cfg, storage, now, row.family);
      return;
    }
    if row.jkt.Some? && r.proof != row.jkt { return Refused(InvalidGrant); }
    var family := if row.family.Some? then Existing(row.family.value) else NoFamily;
    response := IssueToken(cfg, storage, now,
                           NewToken(r.client, Some(row.user), row.scope, true, family,
                                    RequestCnf(r.proof, r.certificate), details, None, row.resource, None,
                                    FromCode(code), r.proof));
  }

  method RefreshToken(cfg: Config, storage: Storage, now: int, r: Request) returns (response: Response)
    requires r.Refresh?
    modifies storage
    ensures (storage.Value(), response) == Handle(cfg, old(storage.Value()), now, r)
  {
    if RefreshTokenGrant !in r.client.grants { return Refused(UnauthorizedClient); }
    if r.refresh.None? { return Refused(InvalidGrant); }
    Continue(cfg, storage.Value(), now, ReadRefresh(r, r.refresh.value));
    var found := GetByRefresh(storage.tokens, r.refresh.value);
    if found.None? { return Refused(InvalidGrant); }
    var prior := found.value;
    if prior.client != r.client.id { return Refused(InvalidGrant); }
    if prior.revoked {
      response := RevokeReplayed(cfg, storage, now, prior.family);
      return;
    }
    if now >= prior.createdAt + cfg.refreshTtl { return Refused(InvalidGrant); }
    var scope := EffectiveScope(r.scope, prior.scope);
    if scope.None? { return Refused(InvalidScope); }
    if !ResourceOk(cfg, r.resource) { return Refused(InvalidTarget); }
    var audience := SalvageAudience(prior.access);
    var carried := None;
    if audience.Some? {
      if r.resource.Some? {
        if r.resource.value !in audience.value { return Refused(InvalidTarget); }
      } else {
        carried := audience;
      }
    }
    var cnf := SalvageCnf(prior.access);
    if ProofMissing(r.client, cnf, r.proof) { return Refused(InvalidGrant); }
    var family := if prior.family.Some? then Existing(prior.family.value) else FreshFamily;
    var nt := NewToken(r.client, prior.user, scope.value, true, family, cnf, None, None, r.resource, carried,
                       Refreshed(prior.id), r.proof);
    Continue(cfg, storage.Value(), now, RevokeOld(prior.access, nt));
    storage.RevokeTokenValue(prior.access);
    response := IssueToken(cfg, storage, now, nt);
  }

  method DeviceCode(cfg: Config, storage: Storage, now: int, r: Request) returns (response: Response)
    requires r.RedeemDevice?
    modifies storage
    ensures (storage.Value(), response) == Handle(cfg, old(storage.Value()), now, r)
  {
    if DeviceCodeGrant !in r.client.grants { return Refused(UnauthorizedClient); }
    if r.device.None? { return Refused(InvalidRequest); }
    var device := r.device.value;
    Continue(cfg, storage.Value(), now, ReadDevice(r, device));
    var found := storage.GetDeviceAuthorization(device);
    if found.None? || found.value.client != r.client.id { return Refused(InvalidGrant); }
    var row := found.value;
    if r.tooFast { return Refused(SlowDown); }
    if row.expiresAt <= now { return Refused(ExpiredToken); }
    if row.denied { return Refused(AccessDenied); }
    if row.used { return Refused(InvalidGrant); }
    if !row.approved { return Refused(AuthorizationPending); }
    if !ResourceOk(cfg, r.resource) { return Refused(InvalidTarget); }
    Continue(cfg, storage.Value(), now, ClaimDevice(r, device, row));
    var claimed := storage.MarkDeviceAuthorizationUsed(device);
    if claimed == 0 { return Refused(InvalidGrant); }
    response := IssueToken(cfg, storage, now,
                           NewToken(r.client, row.user, row.scope, true, FreshFamily, None, None, None, r.resource,
                                    None, FromDevice(device), None));
  }

  method TokenExchange(cfg: Config, storage: Storage, now: int, r: Request) returns (response: Response)
    requires r.Exchange?
    modifies storage
    ensures (storage.Value(), response) == Handle(cfg, old(storage.Value()), now, r)
  {
    if TokenExchangeGrant !in r.client.grants { return Refused(UnauthorizedClient); }
    if r.client.isPublic { return Refused(InvalidClient); }
    if r.subject.None? { return Refused(InvalidRequest); }
    if !r.typesOk { return Refused(InvalidRequest); }
    Continue(cfg, storage.Value(), now, ReadSubject(r, r.subject.value));
    var found := GetByAccess(storage.tokens, r.subject.value);
    if found.None? { return Refused(InvalidGrant); }
    var subject := found.value;
    if subject.revoked || subject.expiresAt <= now { return Refused(InvalidGrant); }
    var scope := EffectiveScope(r.scope, subject.scope);
    if scope.None? { return Refused(InvalidScope); }
    var act := Delegation.BuildAct(SalvageAct(subject.access), r.client.id);
    var shallow := CheckDepth(act, Delegation.MAX_ACT_DEPTH);
    if !shallow { return Refused(InvalidRequest); }
    if !ResourceOk(cfg, r.resource) { return Refused(InvalidTarget); }
    response := IssueToken(cfg, storage, now,
                           NewToken(r.client, subject.user, scope.value, false, NoFamily,
                                    RequestCnf(r.proof, r.certificate), None, Some(act), r.resource, None,
                                    Exchanged(subject.id), r.proof));
  }

  method RevokeHandler(cfg: Config, storage: Storage, now: int, r: Request) returns (response: Response)
    requires r.Revoke?
    modifies storage
    ensures (storage.Value(), response) == Handle(cfg, old(storage.Value()), now, r)
  {
    response := Acknowledged;
    if r.token.None? { return; }
    var value := r.token.value;
    Continue(cfg, storage.Value(), now, FindByAccess(r.client, value));
    var found := GetByAccess(storage.tokens, value);
    if found.None? {
      Continue(cfg, storage.Value(), now, FindByRefresh(r.client, value));
      found := GetByRefresh(storage.tokens, value);
    }
    if found.Some? && found.value.client == r.client.id {
      Continue(cfg, storage.Value(), now, AfterFind(r.client, value, found.value));
      if found.value.family.Some? {
        storage.RevokeTokenFamily(found.value.family.value);
      } else {
        storage.RevokeTokenValue(value);
      }
    }
  }

  method DeviceVerify(cfg: Config, storage: Storage, now: int, r: Request) returns (response: Response)
    requires r.VerifyDevice?
    modifies storage
    ensures (storage.Value(), response) == Handle(cfg, old(storage.Value()), now, r)
  {
    if r.user.None? { return Refused(LoginRequired); }
    if r.typed.None? || r.typed.value == "" { return Refused(InvalidUserCode); }
    var user, userCode := r.user.value, NormalizeUserCode(cfg.upper, r.typed.value);
    Continue(cfg, storage.Value(), now, ReadUserCode(user, userCode, r.action));
    var found := GetDeviceByUserCode(storage.devices, userCode);
    if found.None? || found.value.used || found.value.approved || found.value.denied || found.value.expiresAt <= now {
      return Refused(InvalidUserCode);
    }
    match r.action {
      case Approve =>
        Continue(cfg, storage.Value(), now, ApproveUserCode(user, userCode));
        storage.ApproveDeviceAuthorization(userCode, user);
        return Acknowledged;
      case Deny =>
        Continue(cfg, storage.Value(), now, DenyUserCode(userCode));
        storage.DenyDeviceAuthorization(userCode);
        return Acknowledged;
      case OtherAction =>
        return Refused(InvalidRequest);
    }
  }
}
