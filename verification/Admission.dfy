/** When each grant leads to a token, and what that token is (routes/token.py, services/tokens.py, models.py).  The
    conditions are written on the fields of the rows and of the request. */
module Admission {
  import opened Prelude
  import opened Limits
  import opened Scopes
  import opened Store
  import opened Grants
  import Delegation

  // ---- The conditions ----

  /** Nothing was asked for, or every word asked for stands in what is allowed. */
  ghost predicate ScopeInOrder(asked: Option<string>, allowed: string) {
    asked.None? || asked.value == "" || forall w :: HasWord(asked.value, w) ==> HasWord(allowed, w)
  }

  predicate ResourceInOrder(cfg: Config, resource: Option<string>) {
    resource.None? || (resource.value != "" && cfg.resourceOk(resource.value))
  }

  /** What the user consented to and what the redemption repeats of it. */
  predicate DetailsInOrder(cfg: Config, stored: Option<string>, asked: Option<string>) {
    && (stored.Some? && asked.Some? ==> stored == asked)
    && (stored.Some? ==> cfg.detailsOk(stored.value))
    && (asked.Some? ==> cfg.detailsOk(asked.value))
  }

  /** The verifier has an allowed length and its digest is the challenge the code was requested with. */
  predicate VerifierMatches(cfg: Config, challenge: Option<string>, verifier: Option<string>) {
    && challenge.Some? && challenge.value != "" && verifier.Some? && 43 <= |verifier.value| <= 128
    && cfg.pkce(verifier.value) == challenge.value
  }

  /** A code that can be redeemed by this request but for the key it may be bound to. */
  predicate CodeInOrder(cfg: Config, st: Store, now: int, r: Request)
    requires r.RedeemCode?
  {
    && AuthorizationCodeGrant in r.client.grants && r.code.Some? && r.code.value < |st.codes|
    && var row := st.codes[r.code.value];
       && row.client == r.client.id && now <= row.expiresAt && !row.used && r.redirectUri == Some(row.redirectUri)
       && VerifierMatches(cfg, row.challenge, r.verifier) && DetailsInOrder(cfg, row.details, r.details)
  }

  predicate CodeAdmitted(cfg: Config, st: Store, now: int, r: Request)
    requires r.RedeemCode?
  {
    CodeInOrder(cfg, st, now, r) && (st.codes[r.code.value].jkt.Some? ==> r.proof == st.codes[r.code.value].jkt)
  }

  ghost predicate RefreshAdmitted(cfg: Config, st: Store, now: int, r: Request)
    requires r.Refresh?
  {
    && RefreshTokenGrant in r.client.grants && r.refresh.Some?
    && GetByRefresh(st.tokens, r.refresh.value).Some?
    && RotationInOrder(cfg, now, r, GetByRefresh(st.tokens, r.refresh.value).value)
  }

  ghost predicate RotationInOrder(cfg: Config, now: int, r: Request, prior: TokenRow)
    requires r.Refresh?
  {
    && prior.client == r.client.id && !prior.revoked && now < prior.createdAt + cfg.refreshTtl
    && ScopeInOrder(r.scope, prior.scope) && ResourceInOrder(cfg, r.resource)
    && (r.resource.Some? && SalvageAudience(prior.access).Some? ==>
          r.resource.value in SalvageAudience(prior.access).value)
    && (forall key :: SalvageCnf(prior.access) == Some(Jkt(key)) && key != "" && r.client.isPublic ==>
          r.proof == Some(key))
  }

  predicate DeviceAdmitted(cfg: Config, st: Store, now: int, r: Request)
    requires r.RedeemDevice?
  {
    && DeviceCodeGrant in r.client.grants && r.device.Some? && r.device.value < |st.devices| && !r.tooFast
    && var row := st.devices[r.device.value];
       && row.client == r.client.id && now < row.expiresAt && row.approved && !row.denied && !row.used
       && ResourceInOrder(cfg, r.resource)
  }

  ghost predicate ExchangeAdmitted(cfg: Config, st: Store, now: int, r: Request)
    requires r.Exchange?
  {
    && TokenExchangeGrant in r.client.grants && !r.client.isPublic && r.subject.Some? && r.typesOk
    && GetByAccess(st.tokens, r.subject.value).Some?
    && var subject := GetByAccess(st.tokens, r.subject.value).value;
       && !subject.revoked && now < subject.expiresAt && ScopeInOrder(r.scope, subject.scope)
       && Depth(Delegation.BuildAct(SalvageAct(subject.access), r.client.id)) <= 10
       && ResourceInOrder(cfg, r.resource)
  }

  ghost predicate DirectAdmitted(cfg: Config, r: Request)
    requires r.Grant?
  {
    && r.grant in {ClientCredentialsGrant, JwtBearerGrant} && r.grant in r.client.grants && !r.client.isPublic
    && ScopeInOrder(r.scope, r.client.scope) && ResourceInOrder(cfg, r.resource)
    && (r.grant.ClientCredentialsGrant? && r.details.Some? ==> cfg.detailsOk(r.details.value))
  }

  // ---- The token ----

  function GrantedScope(asked: Option<string>, allowed: string): string {
    if asked.Some? && asked.value != "" then asked.value else allowed
  }

  /** The key presented with the request, else its certificate. */
  function PresentedCnf(proof: Option<string>, certificate: Option<string>): Option<Confirmation> {
    match (proof, certificate)
    case (Some(key), _) => Some(Jkt(key))
    case (None, Some(thumbprint)) => Some(Certificate(thumbprint))
    case (None, None) => None
  }

  function ResourceOr(resource: Option<string>, clientId: string): string {
    if resource.Some? && resource.value != "" then resource.value else clientId
  }

  /** The row `t` is number `n`, created now and live for the access lifetime. */
  ghost predicate NewRow(cfg: Config, now: int, n: nat, t: TokenRow, client: Client, user: Option<string>,
                         scope: string, withRefresh: bool, family: Option<Family>)
  {
    && t.id == n && t.client == client.id && t.user == user && t.scope == scope && t.family == family && !t.revoked
    && t.createdAt == now && t.expiresAt == now + cfg.accessTtl && t.expiresIn == cfg.accessTtl
    && t.refresh == (if withRefresh then Some(RefreshValue(n)) else None)
    && if cfg.opaqueTokens then t.access == Opaque(n)
       else
         && t.access.Jwt? && t.access.n == n
         && t.access.claims.subject == (if user.Some? && user.value != "" then user.value else client.id)
         && t.access.claims.client == client.id && t.access.claims.scope == scope
  }

  /** The token's audience, binding, details and actors; an opaque token carries none of them. */
  ghost predicate Carries(cfg: Config, t: TokenRow, names: seq<string>, cnf: Option<Confirmation>,
                          details: Option<string>, act: Option<Json>)
  {
    !cfg.opaqueTokens ==>
      && SalvageAudience(t.access) == Some(names) && SalvageCnf(t.access) == cnf
      && SalvageDetails(t.access) == details && SalvageAct(t.access) == act
  }

  /** The answer names the row; it says DPoP exactly for a token bound to a key, and repeats the details the token
      has. */
  ghost predicate Answers(cfg: Config, response: Response, n: nat, cnf: Option<Confirmation>, details: Option<string>) {
    && response.Issued? && response.row == n
    && (response.tokenType == Dpop <==> !cfg.opaqueTokens && exists key :: cnf == Some(Jkt(key)) && key != "")
    && response.details == if cfg.opaqueTokens then None else details
  }

  /** What a pending save leaves: one more row, and nothing else changed. */
  ghost predicate Saved(cfg: Config, st: Store, now: int, nt: NewToken, end: (Store, Response)) {
    var n := |st.tokens|;
    && |end.0.tokens| == n + 1 && end.0.tokens[..n] == st.tokens
    && end.0 == st.(tokens := end.0.tokens, issued := end.0.issued)
    && NewRow(cfg, now, n, end.0.tokens[n], nt.client, nt.user, nt.scope, nt.withRefresh, FamilyFor(nt.family, n))
    && Carries(cfg, end.0.tokens[n], ChooseAudience(nt.audience, nt.resource, nt.client.id), nt.cnf, nt.details, nt.act)
    && Answers(cfg, end.1, n, nt.cnf, nt.details)
  }

  lemma SaveSaves(cfg: Config, st: Store, now: int, nt: NewToken)
    ensures Saved(cfg, st, now, nt, RunToEnd(cfg, st, now, SaveToken(nt)))
  {
    Continue(cfg, st, now, SaveToken(nt));
    if !cfg.opaqueTokens {
      AudienceRoundTrip(cfg, nt, |st.tokens|);
    }
    if nt.cnf.Some? && nt.cnf.value.Jkt? && nt.cnf.value.thumbprint != "" {
      assert nt.cnf == Some(Jkt(nt.cnf.value.thumbprint));
    }
  }

  lemma ScopesAgree(asked: Option<string>, allowed: string)
    ensures EffectiveScope(asked, allowed)
         == if ScopeInOrder(asked, allowed) then Some(GrantedScope(asked, allowed)) else None
  {
    if asked.Some? {
      SubsetIsWordwise(asked.value, allowed);
    }
  }

  // ---- Main results ----

  /** A code leads to a token exactly when it is the client's, unexpired, unused, redeemed with its redirect URI,
      with the verifier of its challenge, with its details unaltered and with the key it may be bound to.  The
      token is the consenting user's, with the consented scope, resource and details, in the family of the code;
      the code is spent and nothing else changes. */
  lemma CodeIssuedExactly(cfg: Config, st: Store, now: int, r: Request)
    requires r.RedeemCode?
    ensures var (st', response) := Handle(cfg, st, now, r);
            && (response.Issued? <==> CodeAdmitted(cfg, st, now, r))
            && (response.Issued? ==>
                  var row, n := st.codes[r.code.value], |st.tokens|;
                  var details := if row.details.Some? then row.details else r.details;
                  var cnf := PresentedCnf(r.proof, r.certificate);
                  && |st'.tokens| == n + 1 && st'.tokens[..n] == st.tokens
                  && st' == st.(codes := st.codes[r.code.value := row.(used := true)], tokens := st'.tokens,
                                issued := st'.issued)
                  && NewRow(cfg, now, n, st'.tokens[n], r.client, Some(row.user), row.scope, true, row.family)
                  && Carries(cfg, st'.tokens[n], [ResourceOr(row.resource, r.client.id)], cnf, details, None)
                  && Answers(cfg, response, n, cnf, details))
  {
    var c := Start(cfg, r);
    if c.ReadCode? {
      Continue(cfg, st, now, c);
      var found := GetCode(st, c.code);
      var next := AfterReadCode(cfg, now, r, c.code, found);
      if found.Some? && next == Replayed(found.value.family) {
        ReplayIsRefused(cfg, st, now, found.value.family);
      }
      if next.ClaimCode? {
        Continue(cfg, st, now, next);
        var (st', claimed) := MarkCodeUsed(st, c.code);
        var last := AfterClaimCode(r, c.code, found.value, claimed);
        if last.SaveToken? {
          SaveSaves(cfg, st', now, last.grant);
        }
      }
    }
  }

  lemma ReplayIsRefused(cfg: Config, st: Store, now: int, family: Option<Family>)
    ensures RunToEnd(cfg, st, now, Replayed(family)).1 == Refused(InvalidGrant)
  {
    if family.Some? {
      Continue(cfg, st, now, Replayed(family));
    }
  }

  /** The old row is revoked; the new one keeps user, family and binding, and its audience is the resource asked for or
      else the old audience. */
  ghost predicate Rotated(cfg: Config, st: Store, now: int, r: Request, prior: TokenRow, end: (Store, Response))
    requires r.Refresh?
  {
    var (st', response) := end;
    var n, cnf, aud := |st.tokens|, SalvageCnf(prior.access), SalvageAudience(prior.access);
    && |st'.tokens| == n + 1 && st'.tokens[..n] == RevokeToken(st, prior.access).tokens
    && st' == st.(tokens := st'.tokens, issued := st'.issued)
    && NewRow(cfg, now, n, st'.tokens[n], r.client, prior.user, GrantedScope(r.scope, prior.scope), true,
              if prior.family.Some? then prior.family else Some(OfRow(n)))
    && Carries(cfg, st'.tokens[n],
               if r.resource.None? && aud.Some? then aud.value else [ResourceOr(r.resource, r.client.id)], cnf, None,
               None)
    && Answers(cfg, response, n, cnf, None)
  }

  lemma RotationRotates(cfg: Config, st: Store, now: int, r: Request, prior: TokenRow)
    requires r.Refresh? && AfterReadRefresh(cfg, now, r, Some(prior)).RevokeOld?
    ensures Rotated(cfg, st, now, r, prior, RunToEnd(cfg, st, now, AfterReadRefresh(cfg, now, r, Some(prior))))
  {
    var c := AfterReadRefresh(cfg, now, r, Some(prior));
    Continue(cfg, st, now, c);
    SaveSaves(cfg, RevokeToken(st, c.value), now, c.grant);
    ScopesAgree(r.scope, prior.scope);
  }

  /** A refresh token leads to a new token exactly when its row is the client's, live and young enough, the scope and
      resource asked for are within what was granted, and a public client proves the key the old token is bound to. */
  lemma RefreshIssuedExactly(cfg: Config, st: Store, now: int, r: Request)
    requires r.Refresh?
    ensures var (st', response) := Handle(cfg, st, now, r);
            && (response.Issued? <==> RefreshAdmitted(cfg, st, now, r))
            && (response.Issued? ==>
                  Rotated(cfg, st, now, r, GetByRefresh(st.tokens, r.refresh.value).value, (st', response)))
  {
    var c := Start(cfg, r);
    if c.ReadRefresh? {
      Continue(cfg, st, now, c);
      var found := GetByRefresh(st.tokens, c.value);
      if found.Some? {
        RotationDecides(cfg, now, r, found.value);
        ReplayIsRefused(cfg, st, now, found.value.family);
        if AfterReadRefresh(cfg, now, r, found).RevokeOld? {
          RotationRotates(cfg, st, now, r, found.value);
        }
      }
    }
  }

  lemma RotationDecides(cfg: Config, now: int, r: Request, prior: TokenRow)
    requires r.Refresh?
    ensures var c := AfterReadRefresh(cfg, now, r, Some(prior));
            && (c.RevokeOld? <==> RotationInOrder(cfg, now, r, prior))
            && (c.RevokeOld? || c == Replayed(prior.family) || (c.Finished? && c.response.Refused?))
  {
    ScopesAgree(r.scope, prior.scope);
    var cnf := SalvageCnf(prior.access);
    if cnf.Some? && cnf.value.Jkt? {
      assert cnf == Some(Jkt(cnf.value.thumbprint));
    }
  }

  /** A device code leads to a token exactly when it is the client's, unexpired, approved, neither denied nor used, and
      not polled too fast.  The token is that of the approving user, unbound and in a family of its own. */
  lemma DeviceIssuedExactly(cfg: Config, st: Store, now: int, r: Request)
    requires r.RedeemDevice?
    ensures var (st', response) := Handle(cfg, st, now, r);
            && (response.Issued? <==> DeviceAdmitted(cfg, st, now, r))
            && (response.Issued? ==>
                  var row, n := st.devices[r.device.value], |st.tokens|;
                  && |st'.tokens| == n + 1 && st'.tokens[..n] == st.tokens
                  && st' == st.(devices := st.devices[r.device.value := row.(used := true)], tokens := st'.tokens,
                                issued := st'.issued)
                  && NewRow(cfg, now, n, st'.tokens[n], r.client, row.user, row.scope, true, Some(OfRow(n)))
                  && Carries(cfg, st'.tokens[n], [ResourceOr(r.resource, r.client.id)], None, None, None)
                  && Answers(cfg, response, n, None, None))
  {
    var c := Start(cfg, r);
    if c.ReadDevice? {
      Continue(cfg, st, now, c);
      var found := GetDevice(st, c.device);
      var next := AfterReadDevice(cfg, now, r, c.device, found);
      if next.ClaimDevice? {
        Continue(cfg, st, now, next);
        var (st', claimed) := MarkDeviceUsed(st, c.device);
        SaveSaves(cfg, st', now, AfterClaimDevice(r, c.device, found.value, claimed).grant);
      }
    }
  }

  /** The answers a polling device acts on (section 3.5 of RFC 8628): slow down before anything else, then the state of
      its own code. */
  lemma DevicePollAnswers(cfg: Config, st: Store, now: int, r: Request)
    requires r.RedeemDevice? && DeviceCodeGrant in r.client.grants && r.device.Some?
    ensures var response := Handle(cfg, st, now, r).1;
            if r.device.value >= |st.devices| || st.devices[r.device.value].client != r.client.id
            then response == Refused(InvalidGrant)
            else
              var row := st.devices[r.device.value];
              && (response == Refused(SlowDown) <==> r.tooFast)
              && (response == Refused(ExpiredToken) <==> !r.tooFast && row.expiresAt <= now)
              && (response == Refused(AccessDenied) <==> !r.tooFast && now < row.expiresAt && row.denied)
              && (response == Refused(InvalidGrant) <==> !r.tooFast && now < row.expiresAt && !row.denied && row.used)
              && (response == Refused(AuthorizationPending) <==>
                    !r.tooFast && now < row.expiresAt && !row.denied && !row.used && !row.approved)
  {
    DeviceIssuedExactly(cfg, st, now, r);
    var c := ReadDevice(r, r.device.value);
    Continue(cfg, st, now, c);
    var next := AfterReadDevice(cfg, now, r, c.device, GetDevice(st, c.device));
    if next.ClaimDevice? {
      Continue(cfg, st, now, next);
    }
  }

  /** A token is exchanged exactly when the client is confidential and may, the token is stored, live and unexpired, the
      scope asked for is within its scope, and the chain of actors does not get deeper than ten.  The new token is the
      subject's user's, the exchanging client's, bound to what this request presented, with this client in front of the
      actors, and without refresh token or family; nothing else changes. */
  lemma ExchangeIssuedExactly(cfg: Config, st: Store, now: int, r: Request)
    requires r.Exchange?
    ensures var (st', response) := Handle(cfg, st, now, r);
            && (response.Issued? <==> ExchangeAdmitted(cfg, st, now, r))
            && (response.Issued? ==>
                  var subject, n := GetByAccess(st.tokens, r.subject.value).value, |st.tokens|;
                  var cnf := PresentedCnf(r.proof, r.certificate);
                  && |st'.tokens| == n + 1 && st'.tokens[..n] == st.tokens
                  && st' == st.(tokens := st'.tokens, issued := st'.issued)
                  && NewRow(cfg, now, n, st'.tokens[n], r.client, subject.user, GrantedScope(r.scope, subject.scope),
                            false, None)
                  && Carries(cfg, st'.tokens[n], [ResourceOr(r.resource, r.client.id)], cnf, None,
                             Some(Delegation.BuildAct(SalvageAct(subject.access), r.client.id)))
                  && Answers(cfg, response, n, cnf, None))
  {
    var c := Start(cfg, r);
    if c.ReadSubject? {
      Continue(cfg, st, now, c);
      var found := GetByAccess(st.tokens, c.value);
      if found.Some? {
        ScopesAgree(r.scope, found.value.scope);
      }
      var next := AfterReadSubject(cfg, now, r, found);
      if next.SaveToken? {
        SaveSaves(cfg, st, now, next.grant);
      }
    }
  }

  /** The client_credentials and jwt-bearer grants: for a confidential client that may, within its registered scope; the
      token is nobody's or the asserted user's, without refresh token or family. */
  lemma DirectIssuedExactly(cfg: Config, st: Store, now: int, r: Request)
    requires r.Grant?
    ensures var (st', response) := Handle(cfg, st, now, r);
            && (response.Issued? <==> DirectAdmitted(cfg, r))
            && (response.Issued? ==>
                  var n, cnf := |st.tokens|, PresentedCnf(r.proof, r.certificate);
                  var user := if r.grant.JwtBearerGrant? then r.user else None;
                  var details := if r.grant.ClientCredentialsGrant? then r.details else None;
                  && |st'.tokens| == n + 1 && st'.tokens[..n] == st.tokens
                  && st' == st.(tokens := st'.tokens, issued := st'.issued)
                  && NewRow(cfg, now, n, st'.tokens[n], r.client, user, GrantedScope(r.scope, r.client.scope), false,
                            None)
                  && Carries(cfg, st'.tokens[n], [ResourceOr(r.resource, r.client.id)], cnf, details, None)
                  && Answers(cfg, response, n, cnf, details))
  {
    ScopesAgree(r.scope, r.client.scope);
    var c := Start(cfg, r);
    if c.SaveToken? {
      SaveSaves(cfg, st, now, c.grant);
    }
  }

  // ---- Main results: which error is answered ----

  predicate Blank(o: Option<string>) {
    o.None? || o.value == ""
  }

  /** The error of redeeming a stored code: the first of its conditions that fails decides. */
  function CodeError(cfg: Config, now: int, r: Request, row: CodeRow): Option<Error>
    requires r.RedeemCode?
  {
    if || row.client != r.client.id || row.expiresAt < now || row.used || r.redirectUri != Some(row.redirectUri)
       || Blank(row.challenge) || Blank(r.verifier)
    then Some(InvalidGrant)
    else if !(43 <= |r.verifier.value| <= 128) then Some(InvalidRequest)
    else if cfg.pkce(r.verifier.value) != row.challenge.value then Some(InvalidGrant)
    else if !DetailsInOrder(cfg, row.details, r.details) then Some(InvalidDetails)
    else if row.jkt.Some? && r.proof != row.jkt then Some(InvalidGrant)
    else None
  }

  lemma ReadCodeErrors(cfg: Config, now: int, r: Request, code: nat, row: CodeRow)
    requires r.RedeemCode?
    ensures var c := AfterReadCode(cfg, now, r, code, Some(row));
            || (c == Replayed(row.family) && CodeError(cfg, now, r, row) == Some(InvalidGrant))
            || (c == ClaimCode(r, code, row) && !row.used
                && CodeError(cfg, now, r, row)
                     == if row.jkt.Some? && r.proof != row.jkt then Some(InvalidGrant) else None)
            || (CodeError(cfg, now, r, row).Some? && c == Finished(Refused(CodeError(cfg, now, r, row).value)))
  {
  }

  lemma ClaimErrors(cfg: Config, st: Store, now: int, r: Request, code: nat)
    requires r.RedeemCode? && code < |st.codes| && !st.codes[code].used
    ensures var row, response := st.codes[code], RunToEnd(cfg, st, now, ClaimCode(r, code, st.codes[code])).1;
            if row.jkt.Some? && r.proof != row.jkt then response == Refused(InvalidGrant) else response.Issued?
  {
    var row := st.codes[code];
    Continue(cfg, st, now, ClaimCode(r, code, row));
    var (st', claimed) := MarkCodeUsed(st, code);
    var last := AfterClaimCode(r, code, row, claimed);
    if last.SaveToken? {
      SaveSaves(cfg, st', now, last.grant);
    }
  }

  /** The answer to a code request. */
  lemma CodeErrors(cfg: Config, st: Store, now: int, r: Request)
    requires r.RedeemCode?
    ensures var response := Handle(cfg, st, now, r).1;
            if AuthorizationCodeGrant !in r.client.grants then response == Refused(UnauthorizedClient)
            else if r.code.None? || r.code.value >= |st.codes| then response == Refused(InvalidGrant)
            else match CodeError(cfg, now, r, st.codes[r.code.value])
              case Some(error) => response == Refused(error)
              case None => response.Issued?
  {
    var c := Start(cfg, r);
    if c.ReadCode? {
      Continue(cfg, st, now, c);
      if c.code < |st.codes| {
        var row := st.codes[c.code];
        ReadCodeErrors(cfg, now, r, c.code, row);
        ReplayIsRefused(cfg, st, now, row.family);
        if !row.used {
          ClaimErrors(cfg, st, now, r, c.code);
        }
      }
    }
  }

  /** The error of a refresh request. */
  lemma RefreshErrors(cfg: Config, st: Store, now: int, r: Request)
    requires r.Refresh?
    ensures var response := Handle(cfg, st, now, r).1;
            var found := if r.refresh.Some? then GetByRefresh(st.tokens, r.refresh.value) else None;
            if RefreshTokenGrant !in r.client.grants then response == Refused(UnauthorizedClient)
            else if found.None? || found.value.client != r.client.id || found.value.revoked
                    || now >= found.value.createdAt + cfg.refreshTtl
            then response == Refused(InvalidGrant)
            else if !ScopeInOrder(r.scope, found.value.scope) then response == Refused(InvalidScope)
            else if || !ResourceInOrder(cfg, r.resource)
                    || (r.resource.Some? && SalvageAudience(found.value.access).Some?
                        && r.resource.value !in SalvageAudience(found.value.access).value)
            then response == Refused(InvalidTarget)
            else response.Issued? || response == Refused(InvalidGrant)
  {
    RefreshIssuedExactly(cfg, st, now, r);
    var c := Start(cfg, r);
    if c.ReadRefresh? {
      Continue(cfg, st, now, c);
      var found := GetByRefresh(st.tokens, c.value);
      if found.Some? {
        ScopesAgree(r.scope, found.value.scope);
        ReplayIsRefused(cfg, st, now, found.value.family);
        RotationErrors(cfg, now, r, found.value);
      }
    }
  }

  lemma RotationErrors(cfg: Config, now: int, r: Request, prior: TokenRow)
    requires r.Refresh?
    ensures var c := AfterReadRefresh(cfg, now, r, Some(prior));
            || c.RevokeOld? || c == Replayed(prior.family)
            || c in {Finished(Refused(InvalidGrant)), Finished(Refused(InvalidScope)), Finished(Refused(InvalidTarget))}
  {
  }

  /** The error of an exchange request. */
  lemma ExchangeErrors(cfg: Config, st: Store, now: int, r: Request)
    requires r.Exchange?
    ensures var response := Handle(cfg, st, now, r).1;
            if TokenExchangeGrant !in r.client.grants then response == Refused(UnauthorizedClient)
            else if r.client.isPublic then response == Refused(InvalidClient)
            else if r.subject.None? || !r.typesOk then response == Refused(InvalidRequest)
            else
              var found := GetByAccess(st.tokens, r.subject.value);
              if found.None? || found.value.revoked || found.value.expiresAt <= now
              then response == Refused(InvalidGrant)
              else if !ScopeInOrder(r.scope, found.value.scope) then response == Refused(InvalidScope)
              else if Depth(Delegation.BuildAct(SalvageAct(found.value.access), r.client.id)) > 10
              then response == Refused(InvalidRequest)
              else if !ResourceInOrder(cfg, r.resource) then response == Refused(InvalidTarget)
              else response.Issued?
  {
    ExchangeIssuedExactly(cfg, st, now, r);
    var c := Start(cfg, r);
    if c.ReadSubject? {
      Continue(cfg, st, now, c);
      var found := GetByAccess(st.tokens, c.value);
      if found.Some? {
        ScopesAgree(r.scope, found.value.scope);
      }
    }
  }

  /** The error of a direct grant. */
  lemma DirectErrors(cfg: Config, st: Store, now: int, r: Request)
    requires r.Grant? && r.grant in {ClientCredentialsGrant, JwtBearerGrant}
    ensures var response := Handle(cfg, st, now, r).1;
            if r.client.isPublic && (r.grant.ClientCredentialsGrant? || r.grant in r.client.grants)
            then response == Refused(InvalidClient)
            else if r.grant !in r.client.grants then response == Refused(UnauthorizedClient)
            else if !ScopeInOrder(r.scope, r.client.scope) then response == Refused(InvalidScope)
            else if r.grant.ClientCredentialsGrant? && r.details.Some? && !cfg.detailsOk(r.details.value)
            then response == Refused(InvalidDetails)
            else if !ResourceInOrder(cfg, r.resource) then response == Refused(InvalidTarget)
            else response.Issued?
  {
    ScopesAgree(r.scope, r.client.scope);
    DirectIssuedExactly(cfg, st, now, r);
  }
}
