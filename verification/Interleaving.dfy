/** Any number of requests, each stopped between two storage calls and holding the rows it read earlier, advanced in
    any order.  What holds here holds for every interleaving the event loop can produce. */
module Interleaving {
  import opened Prelude
  import opened Scopes
  import opened Store
  import opened Grants
  import Delegation

  datatype System = System(store: Store, clock: int, threads: map<nat, Call>)

  datatype Step =
    | Arrive(id: nat, request: Request)
    | Advance(id: nat)
    | Tick(elapsed: nat)

  ghost predicate AllWellFormed(s: System) {
    forall id :: id in s.threads ==> WellFormed(s.threads[id])
  }

  ghost function Take(cfg: Config, s: System, step: Step): (s': System)
    requires AllWellFormed(s)
    ensures AllWellFormed(s')
  {
    match step
    case Arrive(id, request) =>
      if id in s.threads then s else s.(threads := s.threads[id := Start(cfg, request)])
    case Advance(id) =>
      if id !in s.threads then s
      else
        var (st, c) := Exec(cfg, s.store, s.clock, s.threads[id]);
        s.(store := st, threads := s.threads[id := c])
    case Tick(elapsed) => s.(clock := s.clock + elapsed)
  }

  ghost function Run(cfg: Config, s: System, steps: seq<Step>): (s': System)
    requires AllWellFormed(s)
    ensures AllWellFormed(s')
    decreases |steps|
  {
    if steps == [] then s else Run(cfg, Take(cfg, s, steps[0]), steps[1..])
  }

  ghost function Initial(clock: int): System {
    System(EMPTY, clock, map[])
  }

  // ---- What a derived token owes to the token, code or device code it came from ----

  ghost predicate Attenuates(child: Issue, parent: Issue) {
    Words(child.scope) <= Words(parent.scope) && child.user == parent.user
  }

  ghost function Names(t: TokenValue): set<string> {
    var names := SalvageAudience(t);
    if names.Some? then set n | n in names.value else {}
  }

  /** What a refresh keeps of the old token's claims. */
  ghost predicate KeepsClaims(child: Issue, parent: Issue) {
    && SalvageCnf(child.access) == SalvageCnf(parent.access)
    && {} < Names(child.access) <= Names(parent.access)
    && !ProofMissing(child.client, SalvageCnf(parent.access), child.proof)
    && SalvageAct(child.access).None? && SalvageDetails(child.access).None?
  }

  /** Who may redeem a code, and what the token is then bound to. */
  ghost predicate BoundTo(cfg: Config, iss: Issue, code: CodeRow) {
    && iss.client.id == code.client
    && (code.jkt.Some? ==> iss.proof == code.jkt)
    && (!cfg.opaqueTokens && iss.proof.Some? ==> SalvageCnf(iss.access) == Some(Jkt(iss.proof.value)))
    && (!cfg.opaqueTokens && code.details.Some? ==> SalvageDetails(iss.access) == code.details)
  }

  ghost predicate LinkOk(cfg: Config, st: Store, upto: nat, iss: Issue)
    requires upto <= |st.issued|
  {
    && (iss.access.Jwt? <==> !cfg.opaqueTokens)
    && (!cfg.opaqueTokens ==> SalvageAudience(iss.access).Some?)
    && (match iss.origin
        case FromCode(c) =>
          && c < |st.codes| && st.codes[c].used
          && iss.scope == st.codes[c].scope && iss.user == Some(st.codes[c].user)
          && BoundTo(cfg, iss, st.codes[c])
          && SalvageAct(iss.access).None?
        case FromDevice(d) =>
          && d < |st.devices| && st.devices[d].used
          && iss.scope == st.devices[d].scope && iss.user.Some? && iss.client.id == st.devices[d].client
          && SalvageAct(iss.access).None?
        case Refreshed(p) =>
          && p < upto && Attenuates(iss, st.issued[p])
          && iss.client.id == st.issued[p].client.id
          && (!cfg.opaqueTokens ==> KeepsClaims(iss, st.issued[p]))
        case Exchanged(p) =>
          && p < upto && Attenuates(iss, st.issued[p])
          && (!cfg.opaqueTokens ==>
                && SalvageAct(iss.access).Some?
                && SalvageAct(iss.access) == Delegation.NextAct(SalvageAct(st.issued[p].access), iss.client.id))
        case Direct => Words(iss.scope) <= Words(iss.client.scope) && SalvageAct(iss.access).None?)
  }

  /** The record a pending grant will leave, whatever number its row gets. */
  ghost function PendingIssue(cfg: Config, nt: NewToken, n: nat): Issue {
    Issue(nt.origin, nt.client, nt.user, nt.scope, AccessTokenFor(cfg, nt, n), nt.proof)
  }

  /** Tables only grow, and what a snapshot relies on never changes. */
  ghost predicate Extends(st: Store, st': Store) {
    && st.issued <= st'.issued
    && |st.codes| <= |st'.codes| && |st.devices| <= |st'.devices|
    && (forall c :: 0 <= c < |st.codes| ==>
          && st'.codes[c] == st.codes[c].(used := st'.codes[c].used)
          && (st.codes[c].used ==> st'.codes[c].used))
    && (forall d :: 0 <= d < |st.devices| ==>
          && st'.devices[d].scope == st.devices[d].scope && st'.devices[d].client == st.devices[d].client
          && (st.devices[d].used ==> st'.devices[d].used))
  }

  ghost predicate RowOk(row: TokenRow, iss: Issue, i: nat) {
    && row.id == i && row.access.n == i && !row.access.RefreshValue?
    && row.access == iss.access && row.scope == iss.scope && row.client == iss.client.id
    && (row.user == iss.user || (row.user.None? && row.revoked))
  }

  ghost predicate StoreOk(cfg: Config, st: Store) {
    && |st.tokens| == |st.issued|
    && (forall i :: 0 <= i < |st.tokens| ==> RowOk(st.tokens[i], st.issued[i], i))
    && (forall d :: 0 <= d < |st.devices| ==> st.devices[d].approved ==> st.devices[d].user.Some?)
    && (forall i :: 0 <= i < |st.issued| ==> LinkOk(cfg, st, i, st.issued[i]))
  }

  /** What a suspended request may rely on when it goes on. */
  ghost predicate CallOk(cfg: Config, st: Store, c: Call) {
    match c
    case ClaimCode(r, code, row) =>
      && code < |st.codes| && row == st.codes[code].(used := row.used)
      && r.RedeemCode? && r.client.id == row.client
    case ClaimDevice(r, d, row) =>
      && d < |st.devices| && row.scope == st.devices[d].scope && row.user.Some?
      && r.RedeemDevice? && r.client.id == st.devices[d].client
    case RevokeOld(_, nt) => nt.origin.Refreshed? && LinkOk(cfg, st, |st.issued|, PendingIssue(cfg, nt, 0))
    case SaveToken(nt) => LinkOk(cfg, st, |st.issued|, PendingIssue(cfg, nt, 0))
    case _ => true
  }

  // ---- Single claims ----

  predicate IsClaim(o: Origin) {
    o.FromCode? || o.FromDevice?
  }

  ghost predicate Saving(c: Call, o: Origin) {
    c.SaveToken? && c.grant.origin == o
  }

  ghost predicate SavingClaim(c: Call) {
    c.SaveToken? && IsClaim(c.grant.origin)
  }

  ghost predicate HasIssued(st: Store, o: Origin) {
    exists i :: 0 <= i < |st.issued| && st.issued[i].origin == o
  }

  ghost predicate IssuedOnce(st: Store) {
    forall i, j :: 0 <= i < j < |st.issued| && IsClaim(st.issued[i].origin) ==>
      st.issued[i].origin != st.issued[j].origin
  }

  ghost predicate ClaimsExclusive(s: System) {
    && (forall a, b :: a in s.threads && b in s.threads && a != b && SavingClaim(s.threads[a]) ==>
          !Saving(s.threads[b], s.threads[a].grant.origin))
    && (forall a :: a in s.threads && SavingClaim(s.threads[a]) ==> !HasIssued(s.store, s.threads[a].grant.origin))
  }

  ghost predicate Inv(cfg: Config, s: System) {
    && AllWellFormed(s)
    && StoreOk(cfg, s.store)
    && (forall id :: id in s.threads ==> CallOk(cfg, s.store, s.threads[id]))
    && IssuedOnce(s.store)
    && ClaimsExclusive(s)
  }

  // ---- Every step keeps it ----

  lemma LinkStable(cfg: Config, st: Store, st': Store, upto: nat, upto': nat, iss: Issue)
    requires Extends(st, st') && upto <= |st.issued| && upto <= upto' <= |st'.issued| && LinkOk(cfg, st, upto, iss)
    ensures LinkOk(cfg, st', upto', iss)
  {
  }

  lemma CallStable(cfg: Config, st: Store, st': Store, c: Call)
    requires Extends(st, st') && CallOk(cfg, st, c)
    ensures CallOk(cfg, st', c)
  {
    match c
    case RevokeOld(_, nt) => LinkStable(cfg, st, st', |st.issued|, |st'.issued|, PendingIssue(cfg, nt, 0));
    case SaveToken(nt) => LinkStable(cfg, st, st', |st.issued|, |st'.issued|, PendingIssue(cfg, nt, 0));
    case _ =>
  }

  /** A store operation that leaves the issue history alone keeps `StoreOk` if it keeps rows and devices in order. */
  lemma StoreStable(cfg: Config, st: Store, st': Store)
    requires StoreOk(cfg, st) && Extends(st, st') && st'.issued == st.issued && |st'.tokens| == |st.tokens|
    requires forall i :: 0 <= i < |st.tokens| ==> RowOk(st'.tokens[i], st'.issued[i], i)
    requires forall d :: 0 <= d < |st'.devices| ==> st'.devices[d].approved ==> st'.devices[d].user.Some?
    ensures StoreOk(cfg, st')
  {
    forall i | 0 <= i < |st'.issued|
      ensures LinkOk(cfg, st', i, st'.issued[i])
    {
      LinkStable(cfg, st, st', i, i, st.issued[i]);
    }
  }

  lemma RefreshLink(cfg: Config, st: Store, now: int, r: Request, found: Option<TokenRow>)
    requires StoreOk(cfg, st) && r.Refresh? && (found.Some? ==> found.value in st.tokens)
    ensures CallOk(cfg, st, AfterReadRefresh(cfg, now, r, found))
  {
    var c := AfterReadRefresh(cfg, now, r, found);
    if c.RevokeOld? {
      var prior := found.value;
      var i :| 0 <= i < |st.tokens| && st.tokens[i] == prior;
      assert RowOk(prior, st.issued[i], i);
      if !cfg.opaqueTokens {
        assert LinkOk(cfg, st, i, st.issued[i]);
        assert prior.access.Jwt?;
        AudienceKept(cfg, r, prior, c.grant);
      }
    }
  }

  lemma AudienceKept(cfg: Config, r: Request, prior: TokenRow, nt: NewToken)
    requires !cfg.opaqueTokens && prior.access.Jwt? && r.Refresh?
    requires nt.resource == r.resource
    requires nt.audience == if r.resource.None? then SalvageAudience(prior.access) else None
    requires SalvageAudience(prior.access).Some?
    requires r.resource.Some? ==> r.resource.value != "" && r.resource.value in SalvageAudience(prior.access).value
    ensures {} < Names(AccessTokenFor(cfg, nt, 0)) <= Names(prior.access)
  {
    AudienceRoundTrip(cfg, nt, 0);
    var names := ChooseAudience(nt.audience, nt.resource, nt.client.id);
    assert names[0] in Names(AccessTokenFor(cfg, nt, 0));
  }

  lemma SubjectLink(cfg: Config, st: Store, now: int, r: Request, found: Option<TokenRow>)
    requires StoreOk(cfg, st) && r.Exchange? && (found.Some? ==> found.value in st.tokens)
    ensures CallOk(cfg, st, AfterReadSubject(cfg, now, r, found))
    ensures !SavingClaim(AfterReadSubject(cfg, now, r, found))
  {
    var c := AfterReadSubject(cfg, now, r, found);
    if c.SaveToken? {
      var i :| 0 <= i < |st.tokens| && st.tokens[i] == found.value;
      assert RowOk(found.value, st.issued[i], i);
      assert LinkOk(cfg, st, i, st.issued[i]);
      if !cfg.opaqueTokens {
        AudienceRoundTrip(cfg, c.grant, 0);
      }
    }
  }

  lemma ClaimLinks(cfg: Config, st: Store, now: int, c: Call)
    requires StoreOk(cfg, st) && WellFormed(c) && CallOk(cfg, st, c) && (c.ClaimCode? || c.ClaimDevice?)
    ensures var (st', c') := Exec(cfg, st, now, c);
            && Extends(st, st') && StoreOk(cfg, st') && CallOk(cfg, st', c') && st'.issued == st.issued
            && (c'.SaveToken? ==> IsClaim(c'.grant.origin) && ClaimedNow(st, st', c'.grant.origin))
  {
    var (st', c') := Exec(cfg, st, now, c);
    StoreStable(cfg, st, st');
    if c'.SaveToken? && !cfg.opaqueTokens {
      AudienceRoundTrip(cfg, c'.grant, 0);
    }
  }

  /** The claim flipped the used flag of exactly the row it names. */
  ghost predicate ClaimedNow(st: Store, st': Store, o: Origin) {
    match o
    case FromCode(c) => c < |st.codes| <= |st'.codes| && !st.codes[c].used && st'.codes[c].used
    case FromDevice(d) => d < |st.devices| <= |st'.devices| && !st.devices[d].used && st'.devices[d].used
    case _ => false
  }

  lemma StartOk(cfg: Config, st: Store, r: Request)
    ensures CallOk(cfg, st, Start(cfg, r)) && !SavingClaim(Start(cfg, r))
  {
    var c := Start(cfg, r);
    if c.SaveToken? && !cfg.opaqueTokens {
      AudienceRoundTrip(cfg, c.grant, 0);
    }
  }

  lemma SaveOk(cfg: Config, st: Store, now: int, nt: NewToken)
    requires StoreOk(cfg, st) && CallOk(cfg, st, SaveToken(nt))
    ensures var st' := Save(cfg, st, now, nt);
            && Extends(st, st') && StoreOk(cfg, st')
            && st'.issued == st.issued + [PendingIssue(cfg, nt, |st.tokens|)]
  {
    var st' := Save(cfg, st, now, nt);
    var n := |st.tokens|;
    assert LinkOk(cfg, st, n, PendingIssue(cfg, nt, n));
    forall i | 0 <= i < |st'.issued|
      ensures LinkOk(cfg, st', i, st'.issued[i])
    {
      if i < n {
        LinkStable(cfg, st, st', i, i, st.issued[i]);
      } else {
        LinkStable(cfg, st, st', n, n, PendingIssue(cfg, nt, n));
      }
    }
  }

  /** The calls that only read. */
  predicate IsRead(c: Call) {
    c.Finished? || c.ReadCode? || c.ReadRefresh? || c.ReadDevice? || c.ReadSubject? || c.FindByAccess?
    || c.FindByRefresh? || c.ReadUserCode? || c.ReadRow?
  }

  /** What every reading call leads to. */
  ghost predicate ReadsWell(cfg: Config, st: Store, next: (Store, Call)) {
    next.0 == st && CallOk(cfg, st, next.1) && !SavingClaim(next.1)
  }

  lemma ReadRefreshOk(cfg: Config, st: Store, now: int, c: Call)
    requires StoreOk(cfg, st) && WellFormed(c) && c.ReadRefresh?
    ensures ReadsWell(cfg, st, Exec(cfg, st, now, c))
  {
    RefreshLink(cfg, st, now, c.request, GetByRefresh(st.tokens, c.value));
  }

  lemma ReadSubjectOk(cfg: Config, st: Store, now: int, c: Call)
    requires StoreOk(cfg, st) && WellFormed(c) && c.ReadSubject?
    ensures ReadsWell(cfg, st, Exec(cfg, st, now, c))
  {
    SubjectLink(cfg, st, now, c.request, GetByAccess(st.tokens, c.value));
  }

  lemma ReadCodeOk(cfg: Config, st: Store, now: int, c: Call)
    requires StoreOk(cfg, st) && WellFormed(c) && c.ReadCode?
    ensures ReadsWell(cfg, st, Exec(cfg, st, now, c))
  {
  }

  lemma ReadDeviceOk(cfg: Config, st: Store, now: int, c: Call)
    requires StoreOk(cfg, st) && WellFormed(c) && c.ReadDevice?
    ensures ReadsWell(cfg, st, Exec(cfg, st, now, c))
  {
  }

  lemma ReadOk(cfg: Config, st: Store, now: int, c: Call)
    requires StoreOk(cfg, st) && WellFormed(c) && IsRead(c)
    ensures ReadsWell(cfg, st, Exec(cfg, st, now, c))
  {
    match c
    case ReadRefresh(_, _) => ReadRefreshOk(cfg, st, now, c);
    case ReadSubject(_, _) => ReadSubjectOk(cfg, st, now, c);
    case ReadCode(_, _) => ReadCodeOk(cfg, st, now, c);
    case ReadDevice(_, _) => ReadDeviceOk(cfg, st, now, c);
    case _ => OtherReadOk(cfg, st, now, c);
  }

  lemma OtherReadOk(cfg: Config, st: Store, now: int, c: Call)
    requires WellFormed(c) && IsRead(c) && !c.ReadRefresh? && !c.ReadSubject? && !c.ReadCode? && !c.ReadDevice?
    ensures ReadsWell(cfg, st, Exec(cfg, st, now, c))
  {
  }

  /** Every storage call other than a claim or a save: the issue history stands and no claim is pending after it. */
  lemma OtherCallOk(cfg: Config, st: Store, now: int, c: Call)
    requires StoreOk(cfg, st) && WellFormed(c) && CallOk(cfg, st, c)
    requires !c.ClaimCode? && !c.ClaimDevice? && !c.SaveToken?
    ensures var (st', c') := Exec(cfg, st, now, c);
            && Extends(st, st') && StoreOk(cfg, st') && CallOk(cfg, st', c') && st'.issued == st.issued
            && !SavingClaim(c')
  {
    if IsRead(c) {
      ReadOk(cfg, st, now, c);
    } else {
      WriteOk(cfg, st, now, c);
    }
  }

  lemma WriteOk(cfg: Config, st: Store, now: int, c: Call)
    requires StoreOk(cfg, st) && WellFormed(c) && CallOk(cfg, st, c)
    requires !IsRead(c) && !c.ClaimCode? && !c.ClaimDevice? && !c.SaveToken?
    ensures var (st', c') := Exec(cfg, st, now, c);
            && Extends(st, st') && StoreOk(cfg, st') && CallOk(cfg, st', c') && st'.issued == st.issued
            && !SavingClaim(c')
  {
    var (st', c') := Exec(cfg, st, now, c);
    StoreStable(cfg, st, st');
    if c.RevokeOld? {
      CallStable(cfg, st, st', c);
    }
  }

  // ---- The invariant over whole runs ----

  /** A claim that went through was not yet issued nor about to be issued by anybody. */
  lemma NotYetClaimed(cfg: Config, s: System, st': Store, o: Origin)
    requires Inv(cfg, s) && ClaimedNow(s.store, st', o)
    ensures !HasIssued(s.store, o)
    ensures forall id :: id in s.threads ==> !Saving(s.threads[id], o)
  {
    forall i | 0 <= i < |s.store.issued|
      ensures s.store.issued[i].origin != o
    {
      assert LinkOk(cfg, s.store, i, s.store.issued[i]);
    }
    forall id | id in s.threads
      ensures !Saving(s.threads[id], o)
    {
      assert CallOk(cfg, s.store, s.threads[id]);
    }
  }

  lemma OthersOk(cfg: Config, s: System, id: nat, st': Store, c': Call)
    requires Inv(cfg, s) && id in s.threads && Extends(s.store, st') && CallOk(cfg, st', c')
    ensures forall other :: other in s.threads && other != id ==> CallOk(cfg, st', s.threads[other])
  {
    forall other | other in s.threads && other != id
      ensures CallOk(cfg, st', s.threads[other])
    {
      CallStable(cfg, s.store, st', s.threads[other]);
    }
  }

  /** A call that issues nothing keeps the claims exclusive, if what follows it saves at most a claim nobody else
      has. */
  lemma ExclusiveKept(s: System, id: nat, st': Store, c': Call)
    requires ClaimsExclusive(s) && IssuedOnce(s.store) && id in s.threads && st'.issued == s.store.issued
    requires SavingClaim(c') ==>
               && !HasIssued(s.store, c'.grant.origin)
               && forall other :: other in s.threads ==> !Saving(s.threads[other], c'.grant.origin)
    ensures IssuedOnce(st') && ClaimsExclusive(s.(store := st', threads := s.threads[id := c']))
  {
  }

  lemma AdvanceKeepsInv(cfg: Config, s: System, id: nat)
    requires Inv(cfg, s) && id in s.threads
    ensures Inv(cfg, Take(cfg, s, Advance(id)))
  {
    var c := s.threads[id];
    var (st', c') := Exec(cfg, s.store, s.clock, c);
    assert CallOk(cfg, s.store, c);
    if c.SaveToken? {
      SaveOk(cfg, s.store, s.clock, c.grant);
      SaveKeepsClaims(cfg, s, id);
    } else if c.ClaimCode? || c.ClaimDevice? {
      ClaimLinks(cfg, s.store, s.clock, c);
      if c'.SaveToken? {
        NotYetClaimed(cfg, s, st', c'.grant.origin);
      }
      ExclusiveKept(s, id, st', c');
    } else {
      OtherCallOk(cfg, s.store, s.clock, c);
      ExclusiveKept(s, id, st', c');
    }
    OthersOk(cfg, s, id, st', c');
  }

  lemma SaveKeepsClaims(cfg: Config, s: System, id: nat)
    requires Inv(cfg, s) && id in s.threads && s.threads[id].SaveToken?
    requires Take(cfg, s, Advance(id)).store.issued
          == s.store.issued + [PendingIssue(cfg, s.threads[id].grant, |s.store.tokens|)]
    ensures var s' := Take(cfg, s, Advance(id)); IssuedOnce(s'.store) && ClaimsExclusive(s')
  {
    var s' := Take(cfg, s, Advance(id));
    var o := s.threads[id].grant.origin;
    forall i | 0 <= i < |s.store.issued| && IsClaim(o)
      ensures s.store.issued[i].origin != o
    {
      assert SavingClaim(s.threads[id]);
    }
    forall a | a in s'.threads && SavingClaim(s'.threads[a])
      ensures !HasIssued(s'.store, s'.threads[a].grant.origin)
    {
      assert a != id && s'.threads[a] == s.threads[a];
      assert !HasIssued(s.store, s.threads[a].grant.origin);
      assert !Saving(s.threads[id], s.threads[a].grant.origin);
    }
  }

  lemma TakeKeepsInv(cfg: Config, s: System, step: Step)
    requires Inv(cfg, s)
    ensures Inv(cfg, Take(cfg, s, step))
  {
    match step
    case Arrive(id, request) => StartOk(cfg, s.store, request);
    case Advance(id) =>
      if id in s.threads {
        AdvanceKeepsInv(cfg, s, id);
      }
    case Tick(_) =>
  }

  lemma {:induction false} RunKeepsInv(cfg: Config, s: System, steps: seq<Step>)
    requires Inv(cfg, s)
    ensures Inv(cfg, Run(cfg, s, steps))
    decreases |steps|
  {
    if steps != [] {
      TakeKeepsInv(cfg, s, steps[0]);
      RunKeepsInv(cfg, Take(cfg, s, steps[0]), steps[1..]);
    }
  }

  lemma ReachableInv(cfg: Config, clock: int, steps: seq<Step>)
    ensures Inv(cfg, Run(cfg, Initial(clock), steps))
  {
    RunKeepsInv(cfg, Initial(clock), steps);
  }

  // ---- Main results: single claims ----

  /** Under every interleaving, an authorization code or device code leads to at most one token; a device token is
      issued with a user, and keeps that user unless deleting the user unlinked and revoked it. */
  lemma SingleIssuance(cfg: Config, clock: int, steps: seq<Step>)
    ensures var st := Run(cfg, Initial(clock), steps).store;
            && |st.tokens| == |st.issued|
            && (forall i, j :: 0 <= i < |st.issued| && 0 <= j < |st.issued| ==>
                  st.issued[i].origin == st.issued[j].origin && IsClaim(st.issued[i].origin) ==> i == j)
            && (forall i :: 0 <= i < |st.issued| && st.issued[i].origin.FromDevice? ==>
                  && st.issued[i].user.Some?
                  && (st.tokens[i].user == st.issued[i].user || (st.tokens[i].user.None? && st.tokens[i].revoked)))
  {
    ReachableInv(cfg, clock, steps);
    var st := Run(cfg, Initial(clock), steps).store;
    forall i | 0 <= i < |st.issued| && st.issued[i].origin.FromDevice?
      ensures st.issued[i].user.Some? && RowOk(st.tokens[i], st.issued[i], i)
    {
      assert LinkOk(cfg, st, i, st.issued[i]);
    }
  }

  // ---- Main results: attenuation over derivation trees ----

  function ParentOf(o: Origin): Option<nat> {
    match o
    case Refreshed(p) => Some(p)
    case Exchanged(p) => Some(p)
    case _ => None
  }

  /** `a` is `i` itself or one of the tokens `i` was derived from, by any mix of refreshes and exchanges. */
  ghost predicate IsAncestor(issued: seq<Issue>, a: nat, i: nat)
    requires i < |issued|
    decreases i
  {
    a == i || (var p := ParentOf(issued[i].origin); p.Some? && p.value < i && IsAncestor(issued, a, p.value))
  }

  ghost predicate IsRoot(issued: seq<Issue>, a: nat, i: nat)
    requires i < |issued|
  {
    IsAncestor(issued, a, i) && a < |issued| && ParentOf(issued[a].origin).None?
  }

  ghost predicate HasRoot(issued: seq<Issue>, i: nat)
    requires i < |issued|
  {
    exists a: nat :: IsRoot(issued, a, i)
  }

  /** The scope of the grant at the root: the code's, the device code's, or the client's registered scope. */
  ghost function GrantScope(st: Store, root: Issue): string {
    match root.origin
    case FromCode(c) => if c < |st.codes| then st.codes[c].scope else root.scope
    case FromDevice(d) => if d < |st.devices| then st.devices[d].scope else root.scope
    case _ => root.client.scope
  }

  lemma {:induction false} AncestorsAttenuate(cfg: Config, st: Store, a: nat, i: nat)
    requires StoreOk(cfg, st) && i < |st.issued| && IsAncestor(st.issued, a, i)
    ensures a <= i && Attenuates(st.issued[i], st.issued[a])
    decreases i
  {
    if a != i {
      assert LinkOk(cfg, st, i, st.issued[i]);
      AncestorsAttenuate(cfg, st, a, ParentOf(st.issued[i].origin).value);
    }
  }

  lemma {:induction false} RootExists(cfg: Config, st: Store, i: nat) returns (root: nat)
    requires StoreOk(cfg, st) && i < |st.issued|
    ensures IsRoot(st.issued, root, i)
    decreases i
  {
    assert LinkOk(cfg, st, i, st.issued[i]);
    var p := ParentOf(st.issued[i].origin);
    if p.None? {
      root := i;
    } else {
      root := RootExists(cfg, st, p.value);
    }
  }

  /** Under every interleaving, over every derivation tree: a token's scope is within every ancestor's scope and within
      the root grant's scope, and its user is the root's user unless deletion unlinked and revoked it.  The root always
      exists. */
  lemma Attenuation(cfg: Config, clock: int, steps: seq<Step>)
    ensures var st := Run(cfg, Initial(clock), steps).store;
            && |st.tokens| == |st.issued|
            && (forall a: nat, i: nat :: i < |st.issued| && IsAncestor(st.issued, a, i) ==>
                  a <= i && Words(st.tokens[i].scope) <= Words(st.tokens[a].scope))
            && (forall a: nat, i: nat :: i < |st.issued| && IsRoot(st.issued, a, i) ==>
                  && Words(st.tokens[i].scope) <= Words(GrantScope(st, st.issued[a]))
                  && (st.tokens[i].user == st.issued[a].user || (st.tokens[i].user.None? && st.tokens[i].revoked)))
            && (forall i: nat :: i < |st.issued| ==> HasRoot(st.issued, i))
  {
    ReachableInv(cfg, clock, steps);
    var st := Run(cfg, Initial(clock), steps).store;
    forall a: nat, i: nat | i < |st.issued| && IsAncestor(st.issued, a, i)
      ensures a <= i && Attenuates(st.issued[i], st.issued[a])
      ensures RowOk(st.tokens[i], st.issued[i], i) && RowOk(st.tokens[a], st.issued[a], a)
    {
      AncestorsAttenuate(cfg, st, a, i);
    }
    forall a: nat, i: nat | i < |st.issued| && IsRoot(st.issued, a, i)
      ensures Words(st.issued[a].scope) <= Words(GrantScope(st, st.issued[a]))
    {
      assert LinkOk(cfg, st, a, st.issued[a]);
    }
    forall i: nat | i < |st.issued|
      ensures HasRoot(st.issued, i)
    {
      var a := RootExists(cfg, st, i);
    }
  }

  // ---- Main results: audience, confirmation and delegation in JWT mode ----

  /** `a` is `i` itself or an earlier token of the same refresh chain. */
  ghost predicate IsRefreshAncestor(issued: seq<Issue>, a: nat, i: nat)
    requires i < |issued|
    decreases i
  {
    a == i || (issued[i].origin.Refreshed? && issued[i].origin.parent < i
               && IsRefreshAncestor(issued, a, issued[i].origin.parent))
  }

  lemma {:induction false} ChainKeepsClaims(cfg: Config, st: Store, a: nat, i: nat)
    requires StoreOk(cfg, st) && !cfg.opaqueTokens && i < |st.issued| && IsRefreshAncestor(st.issued, a, i)
    ensures a <= i
    ensures SalvageCnf(st.issued[i].access) == SalvageCnf(st.issued[a].access)
    ensures Names(st.issued[i].access) <= Names(st.issued[a].access)
    ensures a < i ==> !ProofMissing(st.issued[i].client, SalvageCnf(st.issued[a].access), st.issued[i].proof)
    decreases i
  {
    if a != i {
      assert LinkOk(cfg, st, i, st.issued[i]);
      ChainKeepsClaims(cfg, st, a, st.issued[i].origin.parent);
    }
  }

  /** Under every interleaving, along every refresh chain of JWT access tokens: the audience never grows and is never
      empty, the confirmation never changes, and a public client only ever advanced a key-bound chain with a proof from
      the key the chain started with. */
  lemma RefreshChains(cfg: Config, clock: int, steps: seq<Step>)
    requires !cfg.opaqueTokens
    ensures var st := Run(cfg, Initial(clock), steps).store;
            && |st.tokens| == |st.issued|
            && forall a: nat, i: nat :: i < |st.issued| && IsRefreshAncestor(st.issued, a, i) ==>
                 && a <= i
                 && SalvageCnf(st.tokens[i].access) == SalvageCnf(st.tokens[a].access)
                 && {} < Names(st.tokens[i].access) <= Names(st.tokens[a].access)
                 && (a < i ==>
                       var cnf := SalvageCnf(st.tokens[a].access);
                       cnf.Some? && cnf.value.Jkt? && cnf.value.thumbprint != "" && st.issued[i].client.isPublic ==>
                         st.issued[i].proof == Some(cnf.value.thumbprint))
  {
    ReachableInv(cfg, clock, steps);
    var st := Run(cfg, Initial(clock), steps).store;
    forall a: nat, i: nat | i < |st.issued| && IsRefreshAncestor(st.issued, a, i)
      ensures a <= i && {} < Names(st.issued[i].access) <= Names(st.issued[a].access)
      ensures SalvageCnf(st.issued[i].access) == SalvageCnf(st.issued[a].access)
      ensures a < i ==> !ProofMissing(st.issued[i].client, SalvageCnf(st.issued[a].access), st.issued[i].proof)
      ensures RowOk(st.tokens[i], st.issued[i], i) && RowOk(st.tokens[a], st.issued[a], a)
    {
      ChainKeepsClaims(cfg, st, a, i);
      assert LinkOk(cfg, st, i, st.issued[i]);
      assert SalvageAudience(st.issued[i].access).value[0] in Names(st.issued[i].access);
    }
  }

  /** Under every interleaving: a code or device code is redeemed only by the client it was issued to, and a code
      pre-bound to a key only with a proof from that key.  In JWT mode the token carries the authorization details the
      user consented to, if there were any, and every token of every refresh chain that starts at
      such a code is bound to that very key. */
  lemma CodesStayBound(cfg: Config, clock: int, steps: seq<Step>)
    ensures var st := Run(cfg, Initial(clock), steps).store;
            && |st.tokens| == |st.issued|
            && forall i: nat :: i < |st.issued| ==>
                 match st.issued[i].origin
                 case FromDevice(d) => d < |st.devices| && st.tokens[i].client == st.devices[d].client
                 case FromCode(c) =>
                   && c < |st.codes| && st.tokens[i].client == st.codes[c].client
                   && (st.codes[c].details.Some? && !cfg.opaqueTokens ==>
                         SalvageDetails(st.tokens[i].access) == st.codes[c].details)
                   && (st.codes[c].jkt.Some? ==>
                         && st.issued[i].proof == st.codes[c].jkt
                         && (!cfg.opaqueTokens ==>
                               forall k: nat :: k < |st.issued| && IsRefreshAncestor(st.issued, i, k) ==>
                                 SalvageCnf(st.tokens[k].access) == Some(Jkt(st.codes[c].jkt.value))))
                 case _ => true
  {
    ReachableInv(cfg, clock, steps);
    var st := Run(cfg, Initial(clock), steps).store;
    forall i: nat | i < |st.issued|
      ensures RowOk(st.tokens[i], st.issued[i], i) && LinkOk(cfg, st, i, st.issued[i])
    {
    }
    forall i: nat, k: nat |
      i < |st.issued| && k < |st.issued| && !cfg.opaqueTokens && IsRefreshAncestor(st.issued, i, k)
      ensures SalvageCnf(st.tokens[k].access) == SalvageCnf(st.issued[i].access)
    {
      ChainKeepsClaims(cfg, st, i, k);
    }
  }

  /** The clients that exchanged a token, oldest first. */
  ghost function Exchangers(issued: seq<Issue>, i: nat): seq<string>
    requires i < |issued|
    decreases i
  {
    var o := issued[i].origin;
    if o.Exchanged? && o.parent < i then Exchangers(issued, o.parent) + [issued[i].client.id] else []
  }

  lemma {:induction false} ActFollowsHistory(cfg: Config, st: Store, i: nat)
    requires StoreOk(cfg, st) && !cfg.opaqueTokens && i < |st.issued|
    ensures Delegation.ActAfter(Exchangers(st.issued, i)) == Some(SalvageAct(st.issued[i].access))
    decreases i
  {
    var iss := st.issued[i];
    assert LinkOk(cfg, st, i, iss);
    if iss.origin.Exchanged? {
      var p := iss.origin.parent;
      ActFollowsHistory(cfg, st, p);
      var history := Exchangers(st.issued, i);
      assert history[..|history| - 1] == Exchangers(st.issued, p);
    }
  }

  /** Under every interleaving, in JWT mode: the `act` claim of a token is exactly the reverse of the longest
      stutter-free suffix of the clients that exchanged it, at most ten deep, and absent if nobody did. */
  lemma DelegationChains(cfg: Config, clock: int, steps: seq<Step>)
    requires !cfg.opaqueTokens
    ensures var st := Run(cfg, Initial(clock), steps).store;
            && |st.tokens| == |st.issued|
            && forall i: nat :: i < |st.issued| ==>
                 var history := Exchangers(st.issued, i);
                 if history == [] then SalvageAct(st.tokens[i].access).None?
                 else
                   && SalvageAct(st.tokens[i].access)
                        == Some(Delegation.ChainJson(Delegation.Reverse(Delegation.Suffix(history))))
                   && |Delegation.Suffix(history)| <= Delegation.MAX_ACT_DEPTH
  {
    ReachableInv(cfg, clock, steps);
    var st := Run(cfg, Initial(clock), steps).store;
    forall i: nat | i < |st.issued|
      ensures RowOk(st.tokens[i], st.issued[i], i)
      ensures var history := Exchangers(st.issued, i);
              if history == [] then SalvageAct(st.issued[i].access).None?
              else
                && SalvageAct(st.issued[i].access)
                     == Some(Delegation.ChainJson(Delegation.Reverse(Delegation.Suffix(history))))
                && |Delegation.Suffix(history)| <= Delegation.MAX_ACT_DEPTH
    {
      ActFollowsHistory(cfg, st, i);
      if Exchangers(st.issued, i) != [] {
        Delegation.ActIsLongestSuffix(Exchangers(st.issued, i));
      }
    }
  }

  // ---- Main results: what becomes of a row ----

  /** A row only ever loses: it may get revoked, and revoked and unlinked together; nothing else about it changes. */
  ghost predicate RowKept(row: TokenRow, row': TokenRow) {
    && row' == row.(revoked := row'.revoked, user := row'.user)
    && (row.revoked ==> row'.revoked)
    && (row'.user == row.user || (row'.user.None? && row'.revoked))
  }

  ghost predicate RowsKept(ts: seq<TokenRow>, ts': seq<TokenRow>) {
    |ts| <= |ts'| && forall i :: 0 <= i < |ts| ==> RowKept(ts[i], ts'[i])
  }

  lemma ExecKeepsRows(cfg: Config, st: Store, now: int, c: Call)
    requires WellFormed(c)
    ensures RowsKept(st.tokens, Exec(cfg, st, now, c).0.tokens)
  {
  }

  /** Under every schedule from every state: no row ever disappears, no column but the revoked flag and the user
      link ever changes, and a revoked row stays revoked. */
  lemma {:induction false} RevocationIsFinal(cfg: Config, s: System, steps: seq<Step>)
    requires AllWellFormed(s)
    ensures RowsKept(s.store.tokens, Run(cfg, s, steps).store.tokens)
    decreases |steps|
  {
    if steps != [] {
      var s' := Take(cfg, s, steps[0]);
      if steps[0].Advance? && steps[0].id in s.threads {
        ExecKeepsRows(cfg, s.store, s.clock, s.threads[steps[0].id]);
      }
      RevocationIsFinal(cfg, s', steps[1..]);
      var before, mid, after := s.store.tokens, s'.store.tokens, Run(cfg, s', steps[1..]).store.tokens;
      forall i | 0 <= i < |before| ensures RowKept(before[i], after[i]) {
        assert RowKept(before[i], mid[i]) && RowKept(mid[i], after[i]);
      }
    }
  }

  /** Whatever runs after a user is deleted, each token that user had is revoked and unlinked for good; the deletion
      itself touches no other token. */
  lemma DeletionIsFinal(cfg: Config, s: System, id: nat, user: string, steps: seq<Step>)
    requires AllWellFormed(s) && id in s.threads && s.threads[id] == DeleteUserRow(user)
    ensures var mid := Take(cfg, s, Advance(id)).store.tokens;
            var end := Run(cfg, Take(cfg, s, Advance(id)), steps).store.tokens;
            && |s.store.tokens| == |mid| <= |end|
            && forall i :: 0 <= i < |mid| ==>
                 && (s.store.tokens[i].user == Some(user) ==> end[i].revoked && end[i].user.None?)
                 && (s.store.tokens[i].user != Some(user) ==> mid[i] == s.store.tokens[i])
  {
    var s' := Take(cfg, s, Advance(id));
    RevocationIsFinal(cfg, s', steps);
    var mid, end := s'.store.tokens, Run(cfg, s', steps).store.tokens;
    forall i | 0 <= i < |mid| ensures RowKept(mid[i], end[i]) {
    }
  }

  // ---- A request handled atomically is one of the schedules ----

  function Uninterrupted(id: nat, r: Request): seq<Step> {
    [Arrive(id, r), Advance(id), Advance(id), Advance(id)]
  }

  ghost function Advances(id: nat, n: nat): seq<Step> {
    seq(n, _ => Advance(id))
  }

  lemma {:induction false} AdvancesRunToEnd(cfg: Config, s: System, id: nat, n: nat)
    requires AllWellFormed(s) && id in s.threads && Ahead(s.threads[id]) <= n
    ensures var (st, response) := RunToEnd(cfg, s.store, s.clock, s.threads[id]);
            Run(cfg, s, Advances(id, n)) == s.(store := st, threads := s.threads[id := Finished(response)])
    decreases n
  {
    if n == 0 {
      assert s.threads[id := s.threads[id]] == s.threads;
    } else {
      var s' := Take(cfg, s, Advance(id));
      assert Advances(id, n)[0] == Advance(id) && Advances(id, n)[1..] == Advances(id, n - 1);
      AdvancesRunToEnd(cfg, s', id, n - 1);
      var c := s'.threads[id];
      assert s'.threads == s.threads[id := c];
    }
  }

  /** Whole-request handling refines the interleaved system: it is the schedule that does not switch. */
  lemma HandleIsASchedule(cfg: Config, s: System, id: nat, r: Request)
    requires AllWellFormed(s) && id !in s.threads
    ensures var (st, response) := Handle(cfg, s.store, s.clock, r);
            Run(cfg, s, Uninterrupted(id, r)) == s.(store := st, threads := s.threads[id := Finished(response)])
  {
    var steps := Uninterrupted(id, r);
    var s' := Take(cfg, s, Arrive(id, r));
    assert steps[1..] == Advances(id, 3);
    AdvancesRunToEnd(cfg, s', id, 3);
  }
}
