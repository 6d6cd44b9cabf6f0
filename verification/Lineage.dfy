/** What every issued row looks like and which family it belongs to, in every interleaving (routes/token.py,
    services/tokens.py): a refresh stays in the family of the token it replaces, so a replayed code reaches the whole
    chain that grew out of it. */
module Lineage {
  import opened Prelude
  import opened Store
  import opened Grants
  import Interleaving
  import Families

  /** Codes, refreshes and device codes lead to a refresh token; exchanges and direct grants do not. */
  predicate GetsRefresh(o: Origin) {
    o.FromCode? || o.FromDevice? || o.Refreshed?
  }

  ghost predicate FamilyOk(ts: seq<TokenRow>, o: Origin, i: nat)
    requires i < |ts|
  {
    match o
    case FromCode(c) => ts[i].family == Some(OfCode(c))
    case FromDevice(_) => ts[i].family == Some(OfRow(i))
    case Refreshed(p) => p < i && ts[i].family.Some? && ts[i].family == ts[p].family
    case _ => ts[i].family.None?
  }

  ghost predicate ShapeOk(cfg: Config, row: TokenRow, o: Origin, i: nat) {
    && row.refresh == (if GetsRefresh(o) then Some(RefreshValue(i)) else None)
    && row.tokenType == Bearer && row.expiresIn == cfg.accessTtl && row.expiresAt == row.createdAt + cfg.accessTtl
  }

  ghost predicate RowsOk(cfg: Config, st: Store) {
    && |st.tokens| == |st.issued|
    && (forall i :: 0 <= i < |st.tokens| ==> FamilyOk(st.tokens, st.issued[i].origin, i))
    && (forall i :: 0 <= i < |st.tokens| ==> ShapeOk(cfg, st.tokens[i], st.issued[i].origin, i))
  }

  ghost predicate Dated(ts: seq<TokenRow>, now: int) {
    && (forall i :: 0 <= i < |ts| ==> ts[i].createdAt <= now)
    && (forall i, j :: 0 <= i < j < |ts| ==> ts[i].createdAt <= ts[j].createdAt)
  }

  /** What a suspended request will put into the row it is about to save. */
  ghost predicate GrantOk(ts: seq<TokenRow>, nt: NewToken) {
    && nt.withRefresh == GetsRefresh(nt.origin)
    && match nt.origin
       case FromCode(c) => nt.family == Existing(OfCode(c))
       case FromDevice(_) => nt.family == FreshFamily
       case Refreshed(p) => p < |ts| && ts[p].family.Some? && nt.family == Existing(ts[p].family.value)
       case _ => nt.family == NoFamily
  }

  ghost predicate PendingOk(ts: seq<TokenRow>, c: Call) {
    c.RevokeOld? || c.SaveToken? ==> GrantOk(ts, c.grant)
  }

  ghost predicate Inv(cfg: Config, s: Interleaving.System) {
    && Interleaving.Inv(cfg, s) && Families.CodesNamed(s.store)
    && RowsOk(cfg, s.store) && Dated(s.store.tokens, s.clock)
    && forall id :: id in s.threads ==> PendingOk(s.store.tokens, s.threads[id])
  }

  // ---- Every step keeps it ----

  lemma PendingStable(ts: seq<TokenRow>, ts': seq<TokenRow>, c: Call)
    requires PendingOk(ts, c) && Interleaving.RowsKept(ts, ts')
    ensures PendingOk(ts', c)
  {
    if c.RevokeOld? || c.SaveToken? {
      var nt := c.grant;
      if nt.origin.Refreshed? {
        assert Interleaving.RowKept(ts[nt.origin.parent], ts'[nt.origin.parent]);
      }
    }
  }

  lemma RowsStable(cfg: Config, st: Store, st': Store, now: int)
    requires RowsOk(cfg, st) && Dated(st.tokens, now) && st'.issued == st.issued
    requires Interleaving.RowsKept(st.tokens, st'.tokens) && |st'.tokens| == |st.tokens|
    ensures RowsOk(cfg, st') && Dated(st'.tokens, now)
  {
    forall i | 0 <= i < |st.tokens|
      ensures FamilyOk(st'.tokens, st.issued[i].origin, i) && ShapeOk(cfg, st'.tokens[i], st.issued[i].origin, i)
      ensures st'.tokens[i].createdAt == st.tokens[i].createdAt
    {
      assert Interleaving.RowKept(st.tokens[i], st'.tokens[i]);
      assert FamilyOk(st.tokens, st.issued[i].origin, i) && ShapeOk(cfg, st.tokens[i], st.issued[i].origin, i);
      if st.issued[i].origin.Refreshed? {
        var p := st.issued[i].origin.parent;
        assert Interleaving.RowKept(st.tokens[p], st'.tokens[p]);
      }
    }
  }

  lemma SaveRowsOk(cfg: Config, st: Store, now: int, nt: NewToken)
    requires RowsOk(cfg, st) && Dated(st.tokens, now) && GrantOk(st.tokens, nt)
    ensures var st' := Save(cfg, st, now, nt); RowsOk(cfg, st') && Dated(st'.tokens, now)
  {
    var st' := Save(cfg, st, now, nt);
    forall i | 0 <= i < |st.tokens|
      ensures FamilyOk(st'.tokens, st'.issued[i].origin, i) && ShapeOk(cfg, st'.tokens[i], st'.issued[i].origin, i)
    {
      assert FamilyOk(st.tokens, st.issued[i].origin, i) && ShapeOk(cfg, st.tokens[i], st.issued[i].origin, i);
    }
  }

  /** A refresh reads a row that has a refresh token, so a row with a family. */
  lemma FoundHasFamily(cfg: Config, st: Store, value: TokenValue)
    requires Interleaving.StoreOk(cfg, st) && RowsOk(cfg, st) && GetByRefresh(st.tokens, value).Some?
    ensures var row := GetByRefresh(st.tokens, value).value;
            row.id < |st.tokens| && st.tokens[row.id] == row && row.family.Some?
  {
    var row := GetByRefresh(st.tokens, value).value;
    var i :| 0 <= i < |st.tokens| && st.tokens[i] == row;
    assert Interleaving.RowOk(st.tokens[i], st.issued[i], i);
    assert ShapeOk(cfg, st.tokens[i], st.issued[i].origin, i);
    assert FamilyOk(st.tokens, st.issued[i].origin, i);
  }

  lemma RotationGrantOk(cfg: Config, ts: seq<TokenRow>, now: int, r: Request, prior: TokenRow)
    requires r.Refresh? && prior.id < |ts| && ts[prior.id].family == prior.family && prior.family.Some?
    ensures PendingOk(ts, AfterReadRefresh(cfg, now, r, Some(prior)))
  {
  }

  lemma ReadGrantsOk(cfg: Config, st: Store, now: int, c: Call)
    requires Interleaving.StoreOk(cfg, st) && RowsOk(cfg, st) && WellFormed(c) && Interleaving.IsRead(c)
    ensures PendingOk(st.tokens, Exec(cfg, st, now, c).1)
  {
    if c.ReadRefresh? {
      var found := GetByRefresh(st.tokens, c.value);
      if found.Some? {
        FoundHasFamily(cfg, st, c.value);
        RotationGrantOk(cfg, st.tokens, now, c.request, found.value);
      }
    } else {
      OtherReadGrantsOk(cfg, st, now, c);
    }
  }

  lemma OtherReadGrantsOk(cfg: Config, st: Store, now: int, c: Call)
    requires WellFormed(c) && Interleaving.IsRead(c) && !c.ReadRefresh?
    ensures PendingOk(st.tokens, Exec(cfg, st, now, c).1)
  {
  }

  lemma ClaimGrantsOk(cfg: Config, st: Store, now: int, c: Call)
    requires Families.CodesNamed(st) && WellFormed(c) && Interleaving.CallOk(cfg, st, c)
    requires c.ClaimCode? || c.ClaimDevice?
    ensures var (st', c') := Exec(cfg, st, now, c);
            PendingOk(st'.tokens, c') && st'.tokens == st.tokens && st'.issued == st.issued
  {
  }

  lemma WriteGrantsOk(cfg: Config, st: Store, now: int, c: Call)
    requires WellFormed(c) && !Interleaving.IsRead(c) && !c.ClaimCode? && !c.ClaimDevice? && !c.SaveToken?
    requires PendingOk(st.tokens, c)
    ensures var (st', c') := Exec(cfg, st, now, c);
            PendingOk(st'.tokens, c') && |st'.tokens| == |st.tokens| && st'.issued == st.issued
  {
    if c.RevokeOld? {
      Interleaving.ExecKeepsRows(cfg, st, now, c);
      PendingStable(st.tokens, RevokeToken(st, c.value).tokens, c);
    }
  }

  lemma CallKeepsRows(cfg: Config, st: Store, now: int, c: Call)
    requires Interleaving.StoreOk(cfg, st) && Families.CodesNamed(st) && RowsOk(cfg, st) && Dated(st.tokens, now)
    requires WellFormed(c) && Interleaving.CallOk(cfg, st, c) && PendingOk(st.tokens, c)
    ensures var (st', c') := Exec(cfg, st, now, c);
            RowsOk(cfg, st') && Dated(st'.tokens, now) && PendingOk(st'.tokens, c')
  {
    var (st', c') := Exec(cfg, st, now, c);
    Interleaving.ExecKeepsRows(cfg, st, now, c);
    if Interleaving.IsRead(c) {
      ReadGrantsOk(cfg, st, now, c);
      Families.ReadsReady(cfg, st, now, c);
    } else if c.SaveToken? {
      SaveRowsOk(cfg, st, now, c.grant);
    } else if c.ClaimCode? || c.ClaimDevice? {
      ClaimGrantsOk(cfg, st, now, c);
    } else {
      WriteGrantsOk(cfg, st, now, c);
      RowsStable(cfg, st, st', now);
    }
  }

  lemma OthersPending(s: Interleaving.System, id: nat, ts': seq<TokenRow>)
    requires forall other :: other in s.threads ==> PendingOk(s.store.tokens, s.threads[other])
    requires Interleaving.RowsKept(s.store.tokens, ts')
    ensures forall other :: other in s.threads ==> PendingOk(ts', s.threads[other])
  {
    forall other | other in s.threads
      ensures PendingOk(ts', s.threads[other])
    {
      PendingStable(s.store.tokens, ts', s.threads[other]);
    }
  }

  lemma StepKeeps(cfg: Config, s: Interleaving.System, step: Interleaving.Step)
    requires Inv(cfg, s)
    ensures Inv(cfg, Interleaving.Take(cfg, s, step))
  {
    Interleaving.TakeKeepsInv(cfg, s, step);
    match step
    case Arrive(id, request) => StartPending(cfg, s.store.tokens, request);
    case Advance(id) =>
      if id in s.threads {
        var c := s.threads[id];
        assert Interleaving.CallOk(cfg, s.store, c);
        CallKeepsRows(cfg, s.store, s.clock, c);
        Families.CallKeepsNames(cfg, s.store, s.clock, c);
        Interleaving.ExecKeepsRows(cfg, s.store, s.clock, c);
        OthersPending(s, id, Exec(cfg, s.store, s.clock, c).0.tokens);
      }
    case Tick(_) =>
  }

  lemma StartPending(cfg: Config, ts: seq<TokenRow>, r: Request)
    ensures PendingOk(ts, Start(cfg, r))
  {
  }

  lemma {:induction false} RunKeeps(cfg: Config, s: Interleaving.System, steps: seq<Interleaving.Step>)
    requires Inv(cfg, s)
    ensures Inv(cfg, Interleaving.Run(cfg, s, steps))
    decreases |steps|
  {
    if steps != [] {
      StepKeeps(cfg, s, steps[0]);
      RunKeeps(cfg, Interleaving.Take(cfg, s, steps[0]), steps[1..]);
    }
  }

  // ---- Main results ----

  /** Under every interleaving, each row by what it was derived from.  Code, device and refresh grants get a
      refresh token and the others none; no two rows share an access or refresh token; a row expires the access
      lifetime after it was created, and rows are created in order.  A token from a code is in the family of that
      code, one from a device code in a family of its own, a refreshed one in the family of the token it replaces,
      and the others in none. */
  lemma RowsByOrigin(cfg: Config, clock: int, steps: seq<Interleaving.Step>)
    ensures var s := Interleaving.Run(cfg, Interleaving.Initial(clock), steps);
            var ts := s.store.tokens;
            && RowsOk(cfg, s.store) && Dated(ts, s.clock)
            && (forall i, j :: 0 <= i < j < |ts| ==>
                  ts[i].access != ts[j].access && (ts[i].refresh.Some? ==> ts[i].refresh != ts[j].refresh))
  {
    var s := Interleaving.Run(cfg, Interleaving.Initial(clock), steps);
    RunKeeps(cfg, Interleaving.Initial(clock), steps);
    var ts := s.store.tokens;
    forall i, j | 0 <= i < j < |ts|
      ensures ts[i].access != ts[j].access && (ts[i].refresh.Some? ==> ts[i].refresh != ts[j].refresh)
    {
      assert Interleaving.RowOk(ts[i], s.store.issued[i], i) && Interleaving.RowOk(ts[j], s.store.issued[j], j);
      assert ShapeOk(cfg, ts[i], s.store.issued[i].origin, i) && ShapeOk(cfg, ts[j], s.store.issued[j].origin, j);
    }
  }

  lemma {:induction false} ChainKeepsFamily(cfg: Config, st: Store, a: nat, i: nat)
    requires RowsOk(cfg, st) && i < |st.issued| && Interleaving.IsRefreshAncestor(st.issued, a, i)
    ensures a <= i && st.tokens[i].family == st.tokens[a].family
    decreases i
  {
    if a != i {
      assert FamilyOk(st.tokens, st.issued[i].origin, i);
      ChainKeepsFamily(cfg, st, a, st.issued[i].origin.parent);
    }
  }

  /** Under every interleaving a refresh chain never leaves its family: all of it is in the family of the code it starts
      from, or of the first row of the device code it starts from. */
  lemma ChainsStayInFamily(cfg: Config, clock: int, steps: seq<Interleaving.Step>)
    ensures var st := Interleaving.Run(cfg, Interleaving.Initial(clock), steps).store;
            && |st.tokens| == |st.issued|
            && forall a: nat, i: nat :: i < |st.issued| && Interleaving.IsRefreshAncestor(st.issued, a, i) ==>
                 && a <= i
                 && (forall c :: st.issued[a].origin == FromCode(c) ==> st.tokens[i].family == Some(OfCode(c)))
                 && (st.issued[a].origin.FromDevice? ==> st.tokens[i].family == Some(OfRow(a)))
  {
    RunKeeps(cfg, Interleaving.Initial(clock), steps);
    var st := Interleaving.Run(cfg, Interleaving.Initial(clock), steps).store;
    forall a: nat, i: nat | i < |st.issued| && Interleaving.IsRefreshAncestor(st.issued, a, i)
      ensures a <= i && st.tokens[i].family == st.tokens[a].family && FamilyOk(st.tokens, st.issued[a].origin, a)
    {
      ChainKeepsFamily(cfg, st, a, i);
    }
  }

  /** With whole requests, once a spent code is replayed, or a token of its chain reused or revoked, every token of
      every refresh chain that starts from the code is revoked, in every later state of every run. */
  lemma ReplayReachesWholeChain(cfg: Config, clock: int, before: seq<Families.Event>, kill: Request,
                                after: seq<Families.Event>, code: nat)
    requires Families.Kills(Families.Run(cfg, Families.World(EMPTY, clock), before), kill, OfCode(code))
    ensures var w := Families.Run(cfg, Families.World(EMPTY, clock), before);
            var st := Families.Run(cfg, Families.Happen(cfg, w, Families.Do(kill)), after).store;
            && |st.tokens| == |st.issued|
            && forall a: nat, i: nat :: i < |st.issued| && Interleaving.IsRefreshAncestor(st.issued, a, i) ==>
                 a <= i && (st.issued[a].origin == FromCode(code) ==> st.tokens[i].revoked)
  {
    var w := Families.Run(cfg, Families.World(EMPTY, clock), before);
    var w' := Families.Happen(cfg, w, Families.Do(kill));
    var st := Families.Run(cfg, w', after).store;
    Families.DeathIsPermanent(cfg, clock, before, kill, after, OfCode(code));
    var all := before + [Families.Do(kill)] + after;
    Families.RunAppend(cfg, Families.World(EMPTY, clock), before + [Families.Do(kill)], after);
    Families.RunAppend(cfg, Families.World(EMPTY, clock), before, [Families.Do(kill)]);
    assert [Families.Do(kill)][1..] == [];
    var steps := Families.RunIsInterleaved(cfg, Interleaving.Initial(clock), all, 0);
    ChainsStayInFamily(cfg, clock, steps);
  }
}
