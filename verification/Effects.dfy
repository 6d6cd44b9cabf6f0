/** What the other endpoints leave of the store: revocation, device verification, authorization and the administrative
    revocations (routes/introspect.py, routes/device.py, services/auth.py, routes/admin/tokens.py). */
module Effects {
  import opened Prelude
  import opened Scopes
  import opened Store
  import opened Grants
  import Admission
  import Interleaving
  import Families
  import Lineage

  /** Exactly the rows for which `hit` holds are revoked; no other column and no other table changes. */
  ghost predicate RevokesExactly(st: Store, st': Store, hit: TokenRow -> bool) {
    && st' == st.(tokens := st'.tokens) && |st'.tokens| == |st.tokens|
    && forall i :: 0 <= i < |st.tokens| ==>
         st'.tokens[i] == st.tokens[i].(revoked := st.tokens[i].revoked || hit(st.tokens[i]))
  }

  // ---- Revocation ----

  /** The token a revocation request names: by access token first, then by refresh token. */
  function Named(st: Store, value: TokenValue): Option<TokenRow> {
    if GetByAccess(st.tokens, value).Some? then GetByAccess(st.tokens, value) else GetByRefresh(st.tokens, value)
  }

  /** Revocation is always acknowledged.  A token that is unknown or another client's stays as it is, with everything
      else; a token of the client's in a family takes exactly that family along; one without a family goes alone. */
  lemma RevokedExactly(cfg: Config, st: Store, now: int, client: Client, value: TokenValue)
    ensures var (st', response) := Handle(cfg, st, now, Revoke(client, Some(value)));
            var named := Named(st, value);
            && response == Acknowledged
            && (named.None? || named.value.client != client.id ==> st' == st)
            && (named.Some? && named.value.client == client.id ==>
                  RevokesExactly(st, st', (row: TokenRow) =>
                    if named.value.family.Some? then row.family == named.value.family
                    else row.access == value || row.refresh == Some(value)))
  {
    var c := FindByAccess(client, value);
    Continue(cfg, st, now, c);
    var found := GetByAccess(st.tokens, value);
    if found.None? {
      Continue(cfg, st, now, FindByRefresh(client, value));
    }
    var named := Named(st, value);
    if named.Some? {
      var next := AfterFind(client, value, named.value);
      if !next.Finished? {
        Continue(cfg, st, now, next);
      }
    }
  }

  /** In every reachable store, revoking a token without a family revokes that one row. */
  lemma FamilylessGoesAlone(cfg: Config, clock: int, steps: seq<Interleaving.Step>, now: int, client: Client, i: nat)
    requires var st := Interleaving.Run(cfg, Interleaving.Initial(clock), steps).store;
             i < |st.tokens| && st.tokens[i].client == client.id && st.tokens[i].family.None?
    ensures var st := Interleaving.Run(cfg, Interleaving.Initial(clock), steps).store;
            Handle(cfg, st, now, Revoke(client, Some(st.tokens[i].access))).0
            == st.(tokens := st.tokens[i := st.tokens[i].(revoked := true)])
  {
    Lineage.RowsByOrigin(cfg, clock, steps);
    Interleaving.ReachableInv(cfg, clock, steps);
    GoesAlone(cfg, Interleaving.Run(cfg, Interleaving.Initial(clock), steps).store, now, client, i);
  }

  /** Row `i` alone carries its access token, and nobody has it as a refresh token. */
  ghost predicate Alone(ts: seq<TokenRow>, i: nat)
    requires i < |ts|
  {
    forall j :: 0 <= j < |ts| ==>
      (ts[j].access == ts[i].access <==> j == i) && ts[j].refresh != Some(ts[i].access)
  }

  lemma RowsAreAlone(cfg: Config, st: Store, i: nat)
    requires Interleaving.StoreOk(cfg, st) && Lineage.RowsOk(cfg, st) && i < |st.tokens|
    ensures Alone(st.tokens, i)
  {
    assert Interleaving.RowOk(st.tokens[i], st.issued[i], i);
    forall j | 0 <= j < |st.tokens|
      ensures st.tokens[j].access == st.tokens[i].access <==> j == i
      ensures st.tokens[j].refresh != Some(st.tokens[i].access)
    {
      assert Interleaving.RowOk(st.tokens[j], st.issued[j], j);
      assert Lineage.ShapeOk(cfg, st.tokens[j], st.issued[j].origin, j);
    }
  }

  lemma GoesAlone(cfg: Config, st: Store, now: int, client: Client, i: nat)
    requires Interleaving.StoreOk(cfg, st) && Lineage.RowsOk(cfg, st)
    requires i < |st.tokens| && st.tokens[i].client == client.id && st.tokens[i].family.None?
    ensures Handle(cfg, st, now, Revoke(client, Some(st.tokens[i].access))).0
         == st.(tokens := st.tokens[i := st.tokens[i].(revoked := true)])
  {
    var value := st.tokens[i].access;
    RowsAreAlone(cfg, st, i);
    FirstIs(st.tokens, value, i);
    RevokedExactly(cfg, st, now, client, value);
    var st' := Handle(cfg, st, now, Revoke(client, Some(value))).0;
    assert st'.tokens == st.tokens[i := st.tokens[i].(revoked := true)];
  }

  lemma FirstIs(ts: seq<TokenRow>, value: TokenValue, i: nat)
    requires i < |ts| && forall j :: 0 <= j < |ts| ==> (ts[j].access == value <==> j == i)
    ensures GetByAccess(ts, value) == Some(ts[i])
  {
    AccessLookupIsFirst(ts, value, i);
  }

  /** The administrative revocations hit exactly the rows they name. */
  lemma RowRevokedExactly(cfg: Config, st: Store, now: int, row: nat)
    ensures var st' := Handle(cfg, st, now, AdminRevoke(row)).0;
            if row < |st.tokens|
            then var value := st.tokens[row].access;
                 RevokesExactly(st, st', (t: TokenRow) => t.access == value || t.refresh == Some(value))
            else st' == st
  {
    Continue(cfg, st, now, ReadRow(row));
    if row < |st.tokens| {
      Continue(cfg, st, now, RevokeValue(st.tokens[row].access, Acknowledged));
    }
  }

  lemma UserRevokedExactly(cfg: Config, st: Store, now: int, user: string)
    ensures RevokesExactly(st, Handle(cfg, st, now, RevokeUser(user)).0, (t: TokenRow) => t.user == Some(user))
  {
    Continue(cfg, st, now, RevokeUserTokens(user));
  }

  lemma ClientRevokedExactly(cfg: Config, st: Store, now: int, client: Client)
    ensures RevokesExactly(st, Handle(cfg, st, now, RevokeClient(client)).0, (t: TokenRow) => t.client == client.id)
  {
    Continue(cfg, st, now, RevokeClientTokens(client.id));
  }

  // ---- Authorization ----

  /** A consented authorization adds one code: unused, for the consenting user and the client, with what was
      consented to, for the code lifetime, and in a family no other code has. */
  lemma CodeSavedExactly(cfg: Config, st: Store, now: int, r: Request)
    requires r.Authorize?
    ensures var (st', response) := Handle(cfg, st, now, r);
            && response == Acknowledged && |st'.codes| == |st.codes| + 1 && st'.codes[..|st.codes|] == st.codes
            && st' == st.(codes := st'.codes)
            && var code := st'.codes[|st.codes|];
               && code.client == r.client.id && code.user == r.owner && code.redirectUri == r.callback
               && code.scope == r.consented && code.challenge == r.challenge && code.resource == r.resource
               && code.details == r.details && code.jkt == r.jkt && !code.used
               && code.expiresAt == now + cfg.codeTtl && code.family == Some(OfCode(|st.codes|))
  {
    Continue(cfg, st, now, SaveCode(r));
  }

  /** A device authorization is granted exactly to a client that may, within its registered scope, under a user code
      nobody has; the row is pending for ten minutes. */
  lemma DeviceSavedExactly(cfg: Config, st: Store, now: int, r: Request)
    requires r.AuthorizeDevice?
    ensures var (st', response) := Handle(cfg, st, now, r);
            && (response == Acknowledged <==>
                  && DeviceCodeGrant in r.client.grants && Admission.ScopeInOrder(r.scope, r.client.scope)
                  && forall d :: 0 <= d < |st.devices| ==> st.devices[d].userCode != r.userCode)
            && (response != Acknowledged ==> st' == st)
            && (response == Acknowledged ==>
                  st' == st.(devices := st.devices + [
                    DeviceRow(r.userCode, r.client.id, Admission.GrantedScope(r.scope, r.client.scope), now + 600,
                              false, false, false, None)]))
  {
    Admission.ScopesAgree(r.scope, r.client.scope);
    var c := Start(cfg, r);
    if c.SaveDevice? {
      Continue(cfg, st, now, c);
    }
  }

  // ---- Device verification ----

  /** The device rows with that user code get `update`, the others stay. */
  ghost predicate UpdatesExactly(st: Store, st': Store, userCode: string, update: DeviceRow -> DeviceRow) {
    && st' == st.(devices := st'.devices) && |st'.devices| == |st.devices|
    && forall d :: 0 <= d < |st.devices| ==>
         st'.devices[d] == if st.devices[d].userCode == userCode then update(st.devices[d]) else st.devices[d]
  }

  /** Who is logged in can decide a pending, unexpired code once: approving approves it in that user's name,
      denying denies it.  Everything else is refused and leaves the store alone. */
  lemma DeviceDecidedExactly(cfg: Config, st: Store, now: int, user: Option<string>, typed: Option<string>,
                             action: Action)
    ensures var (st', response) := Handle(cfg, st, now, VerifyDevice(user, typed, action));
            var code := NormalizeUserCode(cfg.upper, if typed.Some? then typed.value else "");
            var found := GetDeviceByUserCode(st.devices, code);
            var pending := && user.Some? && typed.Some? && typed.value != "" && found.Some?
                           && now < found.value.expiresAt && !found.value.used && !found.value.approved
                           && !found.value.denied;
            && (response == Acknowledged <==> pending && (action == Approve || action == Deny))
            && (response != Acknowledged ==> st' == st)
            && (pending && action == Approve ==>
                  UpdatesExactly(st, st', code, (d: DeviceRow) => d.(approved := true, denied := false, user := user)))
            && (pending && action == Deny ==>
                  UpdatesExactly(st, st', code, (d: DeviceRow) => d.(denied := true, approved := false)))
  {
    var c := Start(cfg, VerifyDevice(user, typed, action));
    if c.ReadUserCode? {
      Continue(cfg, st, now, c);
      var next := AfterReadUserCode(now, c.user, c.userCode, action, GetDeviceByUserCode(st.devices, c.userCode));
      if !next.Finished? {
        Continue(cfg, st, now, next);
      }
    }
  }

  // ---- A denied code is never redeemed ----

  ghost predicate DistinctCodes(ds: seq<DeviceRow>) {
    forall i, j :: 0 <= i < j < |ds| ==> ds[i].userCode != ds[j].userCode
  }

  ghost predicate DeniedUnused(st: Store, d: nat) {
    d < |st.devices| && st.devices[d].denied && !st.devices[d].used
  }

  /** The call leaves device `d` alone. */
  ghost predicate SparesDevice(st: Store, c: Call, d: nat)
    requires d < |st.devices|
  {
    && (c.ClaimDevice? ==> c.device != d)
    && (c.ApproveUserCode? ==> c.userCode != st.devices[d].userCode)
  }

  lemma LookupIsUnique(ds: seq<DeviceRow>, d: nat)
    requires d < |ds| && DistinctCodes(ds)
    ensures GetDeviceByUserCode(ds, ds[d].userCode) == Some(ds[d])
  {
    UserCodeLookupIsFirst(ds, ds[d].userCode, d);
  }

  lemma CallKeepsDistinct(cfg: Config, st: Store, now: int, c: Call)
    requires WellFormed(c) && DistinctCodes(st.devices)
    ensures DistinctCodes(Exec(cfg, st, now, c).0.devices)
  {
  }

  lemma ReadSparesDevice(cfg: Config, st: Store, now: int, c: Call, d: nat)
    requires WellFormed(c) && DistinctCodes(st.devices) && DeniedUnused(st, d) && Interleaving.IsRead(c)
    ensures SparesDevice(st, Exec(cfg, st, now, c).1, d)
  {
    if c.ReadUserCode? {
      DecisionSparesDevice(st, now, c.user, c.userCode, c.action, d);
    } else {
      OtherReadSpares(cfg, st, now, c, d);
    }
  }

  lemma DecisionSparesDevice(st: Store, now: int, user: string, userCode: string, action: Action, d: nat)
    requires DistinctCodes(st.devices) && DeniedUnused(st, d)
    ensures var found := GetDeviceByUserCode(st.devices, userCode);
            SparesDevice(st, AfterReadUserCode(now, user, userCode, action, found), d)
  {
    LookupIsUnique(st.devices, d);
  }

  lemma OtherReadSpares(cfg: Config, st: Store, now: int, c: Call, d: nat)
    requires WellFormed(c) && DeniedUnused(st, d) && Interleaving.IsRead(c) && !c.ReadUserCode?
    ensures SparesDevice(st, Exec(cfg, st, now, c).1, d)
  {
  }

  lemma WriteKeepsDenied(cfg: Config, st: Store, now: int, c: Call, d: nat)
    requires WellFormed(c) && DeniedUnused(st, d) && !Interleaving.IsRead(c) && SparesDevice(st, c, d)
    ensures var (st', c') := Exec(cfg, st, now, c);
            && DeniedUnused(st', d) && !c'.ClaimDevice? && !c'.ApproveUserCode?
            && st'.devices[d].userCode == st.devices[d].userCode
  {
  }

  lemma CallKeepsDenied(cfg: Config, st: Store, now: int, c: Call, d: nat)
    requires WellFormed(c) && DistinctCodes(st.devices) && DeniedUnused(st, d) && SparesDevice(st, c, d)
    ensures var (st', c') := Exec(cfg, st, now, c);
            && DeniedUnused(st', d) && SparesDevice(st', c', d)
            && st'.devices[d].userCode == st.devices[d].userCode
  {
    if Interleaving.IsRead(c) {
      Families.ReadsReady(cfg, st, now, c);
      ReadSparesDevice(cfg, st, now, c, d);
    } else {
      WriteKeepsDenied(cfg, st, now, c, d);
    }
  }

  lemma {:induction false} RequestKeepsDenied(cfg: Config, st: Store, now: int, c: Call, d: nat)
    requires WellFormed(c) && DistinctCodes(st.devices) && DeniedUnused(st, d) && SparesDevice(st, c, d)
    ensures DeniedUnused(RunToEnd(cfg, st, now, c).0, d)
    decreases Ahead(c)
  {
    if !c.Finished? {
      CallKeepsDistinct(cfg, st, now, c);
      CallKeepsDenied(cfg, st, now, c, d);
      var (st', c') := Exec(cfg, st, now, c);
      RequestKeepsDenied(cfg, st', now, c', d);
    }
  }

  lemma {:induction false} RequestKeepsDistinct(cfg: Config, st: Store, now: int, c: Call)
    requires WellFormed(c) && DistinctCodes(st.devices)
    ensures DistinctCodes(RunToEnd(cfg, st, now, c).0.devices)
    decreases Ahead(c)
  {
    if !c.Finished? {
      CallKeepsDistinct(cfg, st, now, c);
      var (st', c') := Exec(cfg, st, now, c);
      RequestKeepsDistinct(cfg, st', now, c');
    }
  }

  lemma {:induction false} RunKeepsDistinct(cfg: Config, w: Families.World, events: seq<Families.Event>)
    requires DistinctCodes(w.store.devices)
    ensures DistinctCodes(Families.Run(cfg, w, events).store.devices)
    decreases |events|
  {
    if events != [] {
      if events[0].Do? {
        RequestKeepsDistinct(cfg, w.store, w.clock, Start(cfg, events[0].request));
      }
      RunKeepsDistinct(cfg, Families.Happen(cfg, w, events[0]), events[1..]);
    }
  }

  lemma {:induction false} RunKeepsDenied(cfg: Config, w: Families.World, events: seq<Families.Event>, d: nat)
    requires DistinctCodes(w.store.devices) && DeniedUnused(w.store, d)
    ensures DeniedUnused(Families.Run(cfg, w, events).store, d)
    decreases |events|
  {
    if events != [] {
      if events[0].Do? {
        RequestKeepsDenied(cfg, w.store, w.clock, Start(cfg, events[0].request), d);
        RequestKeepsDistinct(cfg, w.store, w.clock, Start(cfg, events[0].request));
      }
      RunKeepsDenied(cfg, Families.Happen(cfg, w, events[0]), events[1..], d);
    }
  }

  /** With whole requests, a device code once denied and not yet used stays denied, and no token ever comes of it. */
  lemma DeniedNeverRedeemed(cfg: Config, clock: int, before: seq<Families.Event>, after: seq<Families.Event>, d: nat)
    requires DeniedUnused(Families.Run(cfg, Families.World(EMPTY, clock), before).store, d)
    ensures var st := Families.Run(cfg, Families.Run(cfg, Families.World(EMPTY, clock), before), after).store;
            DeniedUnused(st, d) && forall i :: 0 <= i < |st.issued| ==> st.issued[i].origin != FromDevice(d)
  {
    var w := Families.Run(cfg, Families.World(EMPTY, clock), before);
    RunKeepsDistinct(cfg, Families.World(EMPTY, clock), before);
    RunKeepsDenied(cfg, w, after, d);
    Families.RunAppend(cfg, Families.World(EMPTY, clock), before, after);
    var steps := Families.RunIsInterleaved(cfg, Interleaving.Initial(clock), before + after, 0);
    Interleaving.ReachableInv(cfg, clock, steps);
    var st := Families.Run(cfg, w, after).store;
    forall i | 0 <= i < |st.issued|
      ensures st.issued[i].origin != FromDevice(d)
    {
      assert Interleaving.LinkOk(cfg, st, i, st.issued[i]);
    }
  }

  // ---- Exactly when a denial is final between storage calls ----

  ghost predicate AllSpareDevice(s: Interleaving.System, d: nat)
    requires d < |s.store.devices|
  {
    forall id :: id in s.threads ==> SparesDevice(s.store, s.threads[id], d)
  }

  lemma {:induction false} StepsKeepDistinct(cfg: Config, s: Interleaving.System, steps: seq<Interleaving.Step>)
    requires Interleaving.AllWellFormed(s) && DistinctCodes(s.store.devices)
    ensures DistinctCodes(Interleaving.Run(cfg, s, steps).store.devices)
    decreases |steps|
  {
    if steps != [] {
      if steps[0].Advance? && steps[0].id in s.threads {
        CallKeepsDistinct(cfg, s.store, s.clock, s.threads[steps[0].id]);
      }
      StepsKeepDistinct(cfg, Interleaving.Take(cfg, s, steps[0]), steps[1..]);
    }
  }

  lemma StartSparesDevice(cfg: Config, st: Store, r: Request, d: nat)
    requires d < |st.devices|
    ensures SparesDevice(st, Start(cfg, r), d)
  {
  }

  lemma StepKeepsDenied(cfg: Config, s: Interleaving.System, step: Interleaving.Step, d: nat)
    requires Interleaving.AllWellFormed(s) && DistinctCodes(s.store.devices)
    requires DeniedUnused(s.store, d) && AllSpareDevice(s, d)
    ensures var s' := Interleaving.Take(cfg, s, step); DeniedUnused(s'.store, d) && AllSpareDevice(s', d)
  {
    match step
    case Arrive(_, request) => StartSparesDevice(cfg, s.store, request, d);
    case Advance(id) =>
      if id in s.threads {
        CallKeepsDenied(cfg, s.store, s.clock, s.threads[id], d);
      }
    case Tick(_) =>
  }

  lemma {:induction false} StepsKeepDenied(cfg: Config, s: Interleaving.System, steps: seq<Interleaving.Step>, d: nat)
    requires Interleaving.AllWellFormed(s) && DistinctCodes(s.store.devices)
    requires DeniedUnused(s.store, d) && AllSpareDevice(s, d)
    ensures DeniedUnused(Interleaving.Run(cfg, s, steps).store, d)
    decreases |steps|
  {
    if steps != [] {
      var s' := Interleaving.Take(cfg, s, steps[0]);
      StepKeepsDenied(cfg, s, steps[0], d);
      StepsKeepDistinct(cfg, s, [steps[0]]);
      OneStep(cfg, s, steps[0]);
      StepsKeepDenied(cfg, s', steps[1..], d);
    }
  }

  lemma OneStep(cfg: Config, s: Interleaving.System, step: Interleaving.Step)
    requires Interleaving.AllWellFormed(s)
    ensures Interleaving.Run(cfg, s, [step]) == Interleaving.Take(cfg, s, step)
  {
    assert [step][1..] == [];
  }

  lemma PendingUndoesDenial(cfg: Config, st: Store, now: int, c: Call, d: nat)
    requires WellFormed(c) && DeniedUnused(st, d) && !SparesDevice(st, c, d)
    ensures !DeniedUnused(Exec(cfg, st, now, c).0, d)
  {
  }

  lemma {:induction false} DenialFrom(cfg: Config, s: Interleaving.System, d: nat)
    requires Interleaving.AllWellFormed(s) && DistinctCodes(s.store.devices) && DeniedUnused(s.store, d)
    ensures (forall after :: DeniedUnused(Interleaving.Run(cfg, s, after).store, d)) <==> AllSpareDevice(s, d)
  {
    if AllSpareDevice(s, d) {
      forall after ensures DeniedUnused(Interleaving.Run(cfg, s, after).store, d) {
        StepsKeepDenied(cfg, s, after, d);
      }
    } else {
      var id :| id in s.threads && !SparesDevice(s.store, s.threads[id], d);
      PendingUndoesDenial(cfg, s.store, s.clock, s.threads[id], d);
      OneStep(cfg, s, Interleaving.Advance(id));
      assert !DeniedUnused(Interleaving.Run(cfg, s, [Interleaving.Advance(id)]).store, d);
    }
  }

  /** In every reachable state, a denied and unused device code stays so under every schedule to come if and only if no
      suspended request that read the row earlier is about to claim it or to approve it. */
  lemma {:induction false} DenialBetweenCalls(cfg: Config, clock: int, before: seq<Interleaving.Step>, d: nat)
    requires DeniedUnused(Interleaving.Run(cfg, Interleaving.Initial(clock), before).store, d)
    ensures var s := Interleaving.Run(cfg, Interleaving.Initial(clock), before);
            (forall after :: DeniedUnused(Interleaving.Run(cfg, s, after).store, d)) <==> AllSpareDevice(s, d)
  {
    StepsKeepDistinct(cfg, Interleaving.Initial(clock), before);
    DenialFrom(cfg, Interleaving.Run(cfg, Interleaving.Initial(clock), before), d);
  }
}
