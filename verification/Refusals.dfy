/** What a refused request leaves behind (routes/token.py): a rejected refresh or redemption must leave its token
    or code usable, so that the corrected retry does not look like a replay. */
module Refusals {
  import opened Prelude
  import opened Store
  import opened Grants
  import Admission

  /** The family a request replays into: that of a spent, unexpired code of the client, or of a revoked refresh token of
      the client. */
  function ReplayedFamily(st: Store, now: int, r: Request): Option<Family> {
    match r
    case RedeemCode(client, Some(c), _, _, _, _, _) =>
      if && AuthorizationCodeGrant in client.grants && c < |st.codes| && st.codes[c].client == client.id
         && now <= st.codes[c].expiresAt && st.codes[c].used
      then st.codes[c].family else None
    case Refresh(client, Some(value), _, _, _) =>
      var found := GetByRefresh(st.tokens, value);
      if && RefreshTokenGrant in client.grants && found.Some? && found.value.client == client.id && found.value.revoked
      then found.value.family else None
    case _ => None
  }

  /** A redemption that is in order but for the key its code was bound to: it burns the code. */
  predicate Burns(cfg: Config, st: Store, now: int, r: Request) {
    && r.RedeemCode? && Admission.CodeInOrder(cfg, st, now, r)
    && st.codes[r.code.value].jkt.Some? && r.proof != st.codes[r.code.value].jkt
  }

  /** What a refusal leaves of the store. */
  function AfterRefusal(cfg: Config, st: Store, now: int, r: Request): Store {
    match ReplayedFamily(st, now, r)
    case Some(f) => RevokeFamily(st, f)
    case None => if Burns(cfg, st, now, r) then MarkCodeUsed(st, r.code.value).0 else st
  }

  lemma SavesAreNotRefused(cfg: Config, st: Store, now: int, c: Call)
    requires c.SaveToken? || c.RevokeOld?
    ensures RunToEnd(cfg, st, now, c).1.Issued?
  {
    Continue(cfg, st, now, c);
    if c.RevokeOld? {
      Continue(cfg, RevokeToken(st, c.value), now, SaveToken(c.grant));
    }
  }

  lemma ReplayEnds(cfg: Config, st: Store, now: int, family: Option<Family>)
    ensures RunToEnd(cfg, st, now, Replayed(family))
         == (if family.Some? then RevokeFamily(st, family.value) else st, Refused(InvalidGrant))
  {
    if family.Some? {
      Continue(cfg, st, now, Replayed(family));
    }
  }

  lemma CodeRefusal(cfg: Config, st: Store, now: int, r: Request)
    requires r.RedeemCode?
    ensures var (st', response) := Handle(cfg, st, now, r);
            && (response.Refused? ==> st' == AfterRefusal(cfg, st, now, r))
            && (ReplayedFamily(st, now, r).Some? || Burns(cfg, st, now, r) ==> response == Refused(InvalidGrant))
  {
    var c := Start(cfg, r);
    if c.ReadCode? {
      Continue(cfg, st, now, c);
      var found := GetCode(st, c.code);
      var next := AfterReadCode(cfg, now, r, c.code, found);
      if found.Some? && next == Replayed(found.value.family) {
        ReplayEnds(cfg, st, now, found.value.family);
      }
      if next.ClaimCode? {
        Continue(cfg, st, now, next);
        var (st', claimed) := MarkCodeUsed(st, c.code);
        var last := AfterClaimCode(r, c.code, found.value, claimed);
        if last.SaveToken? {
          SavesAreNotRefused(cfg, st', now, last);
        }
      }
    }
  }

  lemma RefreshRefusal(cfg: Config, st: Store, now: int, r: Request)
    requires r.Refresh?
    ensures var (st', response) := Handle(cfg, st, now, r);
            && (response.Refused? ==> st' == AfterRefusal(cfg, st, now, r))
            && (ReplayedFamily(st, now, r).Some? ==> response == Refused(InvalidGrant))
  {
    var c := Start(cfg, r);
    if c.ReadRefresh? {
      Continue(cfg, st, now, c);
      var found := GetByRefresh(st.tokens, c.value);
      var next := AfterReadRefresh(cfg, now, r, found);
      if found.Some? && next == Replayed(found.value.family) {
        ReplayEnds(cfg, st, now, found.value.family);
      }
      if next.RevokeOld? {
        SavesAreNotRefused(cfg, st, now, next);
      }
    }
  }

  lemma DeviceRefusal(cfg: Config, st: Store, now: int, r: Request)
    requires r.RedeemDevice?
    ensures var (st', response) := Handle(cfg, st, now, r); response.Refused? ==> st' == st
  {
    var c := Start(cfg, r);
    if c.ReadDevice? {
      Continue(cfg, st, now, c);
      var found := GetDevice(st, c.device);
      var next := AfterReadDevice(cfg, now, r, c.device, found);
      if next.ClaimDevice? {
        Continue(cfg, st, now, next);
        var (st', claimed) := MarkDeviceUsed(st, c.device);
        SavesAreNotRefused(cfg, st', now, AfterClaimDevice(r, c.device, found.value, claimed));
      }
    }
  }

  lemma ExchangeRefusal(cfg: Config, st: Store, now: int, r: Request)
    requires r.Exchange?
    ensures var (st', response) := Handle(cfg, st, now, r); response.Refused? ==> st' == st
  {
    var c := Start(cfg, r);
    if c.ReadSubject? {
      Continue(cfg, st, now, c);
      var next := AfterReadSubject(cfg, now, r, GetByAccess(st.tokens, c.value));
      if next.SaveToken? {
        SavesAreNotRefused(cfg, st, now, next);
      }
    }
  }

  /** The requests that never get as far as a write and a refusal. */
  lemma OtherRefusal(cfg: Config, st: Store, now: int, r: Request)
    requires !r.RedeemCode? && !r.Refresh? && !r.RedeemDevice? && !r.Exchange?
    ensures var (st', response) := Handle(cfg, st, now, r); response.Refused? ==> st' == st
  {
    var c := Start(cfg, r);
    if c.SaveToken? {
      SavesAreNotRefused(cfg, st, now, c);
    } else if !c.Finished? {
      Continue(cfg, st, now, c);
      var (st1, c1) := Exec(cfg, st, now, c);
      if !c1.Finished? {
        Continue(cfg, st1, now, c1);
        var (st2, c2) := Exec(cfg, st1, now, c1);
        if !c2.Finished? {
          Continue(cfg, st2, now, c2);
        }
      }
    }
  }

  lemma RevokingChanges(st: Store, f: Family)
    ensures RevokeFamily(st, f) != st
            <==> exists i :: 0 <= i < |st.tokens| && st.tokens[i].family == Some(f) && !st.tokens[i].revoked
  {
    var st' := RevokeFamily(st, f);
    if forall i :: 0 <= i < |st.tokens| ==> st.tokens[i].family != Some(f) || st.tokens[i].revoked {
      assert st'.tokens == st.tokens;
    }
  }

  /** For every request and store: a refusal changes the store if and only if the request replays a spent code or a
      revoked refresh token into a family that still has a live row, or burns a code whose bound key it cannot
      prove.  In the first case it revokes that family, in the second it spends that code, and nothing else. */
  lemma RefusalLeavesStoreAlone(cfg: Config, st: Store, now: int, r: Request)
    ensures var (st', response) := Handle(cfg, st, now, r);
            && (response.Refused? ==>
                  && st' == AfterRefusal(cfg, st, now, r)
                  && (st' != st <==>
                        || Burns(cfg, st, now, r)
                        || exists i :: 0 <= i < |st.tokens| && st.tokens[i].family.Some? && !st.tokens[i].revoked
                                       && st.tokens[i].family == ReplayedFamily(st, now, r)))
            && (ReplayedFamily(st, now, r).Some? || Burns(cfg, st, now, r) ==> response == Refused(InvalidGrant))
  {
    var family := ReplayedFamily(st, now, r);
    if family.Some? {
      RevokingChanges(st, family.value);
    }
    match r
    case RedeemCode(_, _, _, _, _, _, _) => CodeRefusal(cfg, st, now, r);
    case Refresh(_, _, _, _, _) => RefreshRefusal(cfg, st, now, r);
    case RedeemDevice(_, _, _, _) => DeviceRefusal(cfg, st, now, r);
    case Exchange(_, _, _, _, _, _, _) => ExchangeRefusal(cfg, st, now, r);
    case _ => OtherRefusal(cfg, st, now, r);
  }
}
