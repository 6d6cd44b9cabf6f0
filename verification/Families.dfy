/** Token families when each request is handled as a whole (section 4.14 of RFC 9700): at most one live row per family,
    always the last one issued, and a dead family stays dead.  Both can fail when requests interleave between storage
    calls; the last sections show exactly when. */
module Families {
  import opened Prelude
  import opened Store
  import opened Grants
  import Interleaving

  datatype World = World(store: Store, clock: int)

  datatype Event = Do(request: Request) | Wait(elapsed: nat)

  ghost function Happen(cfg: Config, w: World, e: Event): World {
    match e
    case Do(r) => w.(store := Handle(cfg, w.store, w.clock, r).0)
    case Wait(elapsed) => w.(clock := w.clock + elapsed)
  }

  ghost function Run(cfg: Config, w: World, events: seq<Event>): World
    decreases |events|
  {
    if events == [] then w else Run(cfg, Happen(cfg, w, events[0]), events[1..])
  }

  lemma {:induction false} RunAppend(cfg: Config, w: World, a: seq<Event>, b: seq<Event>)
    ensures Run(cfg, w, a + b) == Run(cfg, Run(cfg, w, a), b)
    decreases |a|
  {
    if a == [] {
      assert a + b == b;
    } else {
      assert (a + b)[0] == a[0] && (a + b)[1..] == a[1..] + b;
      RunAppend(cfg, Happen(cfg, w, a[0]), a[1..], b);
    }
  }

  ghost predicate InFamily(row: TokenRow, f: Family) {
    row.family == Some(f)
  }

  /** Only the last row of a family can be live. */
  ghost predicate OnlyLastLive(ts: seq<TokenRow>) {
    forall i, j :: 0 <= i < j < |ts| && ts[i].family.Some? && ts[i].family == ts[j].family ==> ts[i].revoked
  }

  /** Nothing will ever start family `f` again: its code is spent, or it is named after a row that exists. */
  ghost predicate Exhausted(st: Store, f: Family) {
    match f
    case OfCode(c) => c < |st.codes| && st.codes[c].used
    case OfRow(n) => n < |st.tokens|
  }

  ghost predicate FamiliesOk(st: Store) {
    && OnlyLastLive(st.tokens)
    && (forall c :: 0 <= c < |st.codes| ==> st.codes[c].family == Some(OfCode(c)))
    && (forall i :: 0 <= i < |st.tokens| && st.tokens[i].family.Some? ==> Exhausted(st, st.tokens[i].family.value))
  }

  ghost predicate AllRevoked(st: Store, f: Family) {
    forall i :: 0 <= i < |st.tokens| && InFamily(st.tokens[i], f) ==> st.tokens[i].revoked
  }

  /** No live row, and never one again. */
  ghost predicate Dead(st: Store, f: Family) {
    AllRevoked(st, f) && Exhausted(st, f)
  }

  /** What a call may rely on when nothing ran since the request's previous call. */
  ghost predicate Ready(st: Store, c: Call) {
    match c
    case ClaimCode(_, code, row) => code < |st.codes| && row == st.codes[code] && !row.used
    case RevokeOld(value, nt) =>
      && (nt.family.FreshFamily? || nt.family.Existing?)
      && (nt.family.Existing? ==>
            exists i :: 0 <= i < |st.tokens| && Rotates(st.tokens[i], value, nt.family.family))
    case SaveToken(nt) =>
      nt.family.Existing? ==> AllRevoked(st, nt.family.family) && Exhausted(st, nt.family.family)
    case _ => true
  }

  ghost predicate Rotates(row: TokenRow, value: TokenValue, f: Family) {
    row.access == value && !row.revoked && InFamily(row, f)
  }

  // ---- Each call of an uninterrupted request ----

  lemma RefreshReady(cfg: Config, st: Store, now: int, r: Request, value: TokenValue)
    requires r.Refresh?
    ensures Ready(st, AfterReadRefresh(cfg, now, r, GetByRefresh(st.tokens, value)))
  {
    var found := GetByRefresh(st.tokens, value);
    var c := AfterReadRefresh(cfg, now, r, found);
    if c.RevokeOld? && c.grant.family.Existing? {
      var i :| 0 <= i < |st.tokens| && st.tokens[i] == found.value;
      assert Rotates(st.tokens[i], c.value, c.grant.family.family);
    }
  }

  lemma ReadsReady(cfg: Config, st: Store, now: int, c: Call)
    requires WellFormed(c) && Interleaving.IsRead(c)
    ensures var (st', c') := Exec(cfg, st, now, c); st' == st && Ready(st, c')
  {
    if c.ReadRefresh? {
      RefreshReady(cfg, st, now, c.request, c.value);
    }
  }

  lemma RotationReady(st: Store, value: TokenValue, nt: NewToken)
    requires FamiliesOk(st) && Ready(st, RevokeOld(value, nt))
    ensures FamiliesOk(RevokeToken(st, value)) && Ready(RevokeToken(st, value), SaveToken(nt))
  {
    var st' := RevokeToken(st, value);
    if nt.family.Existing? {
      var f := nt.family.family;
      var i :| 0 <= i < |st.tokens| && Rotates(st.tokens[i], value, f);
      forall j | 0 <= j < |st.tokens| && InFamily(st'.tokens[j], f)
        ensures st'.tokens[j].revoked
      {
        assert j < i ==> st.tokens[j].revoked;
      }
    }
  }

  lemma ClaimReady(st: Store, r: Request, code: nat, row: CodeRow)
    requires FamiliesOk(st) && r.RedeemCode? && Ready(st, ClaimCode(r, code, row))
    ensures var (st', claimed) := MarkCodeUsed(st, code);
            FamiliesOk(st') && Ready(st', AfterClaimCode(r, code, row, claimed))
  {
    var (st', claimed) := MarkCodeUsed(st, code);
    assert AllRevoked(st, OfCode(code));
  }

  lemma SaveKeepsFamilies(cfg: Config, st: Store, now: int, nt: NewToken)
    requires FamiliesOk(st) && Ready(st, SaveToken(nt))
    ensures FamiliesOk(Save(cfg, st, now, nt))
  {
  }

  lemma CallKeepsFamilies(cfg: Config, st: Store, now: int, c: Call)
    requires FamiliesOk(st) && WellFormed(c) && Ready(st, c)
    ensures var (st', c') := Exec(cfg, st, now, c); FamiliesOk(st') && Ready(st', c')
  {
    if Interleaving.IsRead(c) {
      ReadsReady(cfg, st, now, c);
    } else {
      match c
      case ClaimCode(r, code, row) => ClaimReady(st, r, code, row);
      case RevokeOld(value, nt) => RotationReady(st, value, nt);
      case SaveToken(nt) => SaveKeepsFamilies(cfg, st, now, nt);
      case _ => OtherWritesKeepFamilies(cfg, st, now, c);
    }
  }

  /** Revoking rows, however they are chosen, keeps families in order. */
  lemma RevokingKeepsFamilies(st: Store, st': Store)
    requires FamiliesOk(st) && st'.codes == st.codes && |st'.tokens| == |st.tokens|
    requires forall i :: 0 <= i < |st.tokens| ==>
               st'.tokens[i].family == st.tokens[i].family && (st.tokens[i].revoked ==> st'.tokens[i].revoked)
    ensures FamiliesOk(st')
  {
  }

  lemma OtherWritesKeepFamilies(cfg: Config, st: Store, now: int, c: Call)
    requires FamiliesOk(st) && WellFormed(c)
    requires !Interleaving.IsRead(c) && !c.ClaimCode? && !c.RevokeOld? && !c.SaveToken?
    ensures var (st', c') := Exec(cfg, st, now, c); FamiliesOk(st') && Ready(st', c')
  {
    if !c.SaveCode? {
      RevokingKeepsFamilies(st, Exec(cfg, st, now, c).0);
    }
  }

  lemma {:induction false} RequestKeepsFamilies(cfg: Config, st: Store, now: int, c: Call)
    requires FamiliesOk(st) && WellFormed(c) && Ready(st, c)
    ensures FamiliesOk(RunToEnd(cfg, st, now, c).0)
    decreases Ahead(c)
  {
    if !c.Finished? {
      CallKeepsFamilies(cfg, st, now, c);
      var (st', c') := Exec(cfg, st, now, c);
      RequestKeepsFamilies(cfg, st', now, c');
    }
  }

  // ---- Death ----

  /** The call would add a row to family `f`. */
  ghost predicate Targets(c: Call, f: Family) {
    match c
    case ClaimCode(_, _, row) => row.family == Some(f)
    case RevokeOld(_, nt) => nt.family == Existing(f)
    case SaveToken(nt) => nt.family == Existing(f)
    case _ => false
  }

  lemma RefreshAvoidsDead(cfg: Config, st: Store, now: int, r: Request, value: TokenValue, f: Family)
    requires Dead(st, f) && r.Refresh?
    ensures !Targets(AfterReadRefresh(cfg, now, r, GetByRefresh(st.tokens, value)), f)
  {
    var found := GetByRefresh(st.tokens, value);
    if found.Some? {
      var i :| 0 <= i < |st.tokens| && st.tokens[i] == found.value;
      assert InFamily(st.tokens[i], f) ==> st.tokens[i].revoked;
    }
  }

  lemma CodeAvoidsDead(cfg: Config, st: Store, now: int, r: Request, code: nat, f: Family)
    requires FamiliesOk(st) && Dead(st, f) && r.RedeemCode?
    ensures !Targets(AfterReadCode(cfg, now, r, code, GetCode(st, code)), f)
  {
  }

  lemma ReadsAvoidDead(cfg: Config, st: Store, now: int, c: Call, f: Family)
    requires FamiliesOk(st) && Dead(st, f) && WellFormed(c) && Interleaving.IsRead(c)
    ensures !Targets(Exec(cfg, st, now, c).1, f)
  {
    match c
    case ReadRefresh(r, value) => RefreshAvoidsDead(cfg, st, now, r, value, f);
    case ReadCode(r, code) => CodeAvoidsDead(cfg, st, now, r, code, f);
    case _ => OtherReadsAvoid(cfg, st, now, c, f);
  }

  lemma OtherReadsAvoid(cfg: Config, st: Store, now: int, c: Call, f: Family)
    requires WellFormed(c) && Interleaving.IsRead(c) && !c.ReadRefresh? && !c.ReadCode?
    ensures !Targets(Exec(cfg, st, now, c).1, f)
  {
  }

  lemma WritesKeepDead(cfg: Config, st: Store, now: int, c: Call, f: Family)
    requires FamiliesOk(st) && Dead(st, f) && WellFormed(c) && !Interleaving.IsRead(c) && !Targets(c, f)
    requires Ready(st, c)
    ensures var (st', c') := Exec(cfg, st, now, c); Dead(st', f) && !Targets(c', f)
  {
  }

  lemma {:induction false} RequestKeepsDead(cfg: Config, st: Store, now: int, c: Call, f: Family)
    requires FamiliesOk(st) && Dead(st, f) && WellFormed(c) && Ready(st, c) && !Targets(c, f)
    ensures Dead(RunToEnd(cfg, st, now, c).0, f)
    decreases Ahead(c)
  {
    if !c.Finished? {
      CallKeepsFamilies(cfg, st, now, c);
      if Interleaving.IsRead(c) {
        ReadsReady(cfg, st, now, c);
        ReadsAvoidDead(cfg, st, now, c, f);
      } else {
        WritesKeepDead(cfg, st, now, c, f);
      }
      var (st', c') := Exec(cfg, st, now, c);
      RequestKeepsDead(cfg, st', now, c', f);
    }
  }

  // ---- Main results ----

  lemma EventKeeps(cfg: Config, w: World, e: Event)
    requires FamiliesOk(w.store)
    ensures FamiliesOk(Happen(cfg, w, e).store)
    ensures forall f :: Dead(w.store, f) ==> Dead(Happen(cfg, w, e).store, f)
  {
    if e.Do? {
      var c := Start(cfg, e.request);
      RequestKeepsFamilies(cfg, w.store, w.clock, c);
      forall f | Dead(w.store, f)
        ensures Dead(Happen(cfg, w, e).store, f)
      {
        RequestKeepsDead(cfg, w.store, w.clock, c, f);
      }
    }
  }

  lemma {:induction false} RunKeeps(cfg: Config, w: World, events: seq<Event>)
    requires FamiliesOk(w.store)
    ensures FamiliesOk(Run(cfg, w, events).store)
    ensures forall f :: Dead(w.store, f) ==> Dead(Run(cfg, w, events).store, f)
    decreases |events|
  {
    if events != [] {
      EventKeeps(cfg, w, events[0]);
      RunKeeps(cfg, Happen(cfg, w, events[0]), events[1..]);
    }
  }

  /** In every reachable store each family has at most one live row, and that row is the last one issued in it. */
  lemma OneLiveRow(cfg: Config, clock: int, events: seq<Event>)
    ensures var ts := Run(cfg, World(EMPTY, clock), events).store.tokens;
            forall i, j :: 0 <= i < |ts| && 0 <= j < |ts| && ts[i].family.Some? && ts[i].family == ts[j].family ==>
              !ts[i].revoked ==> j <= i && (!ts[j].revoked ==> i == j)
  {
    RunKeeps(cfg, World(EMPTY, clock), events);
  }

  /** The three requests that kill a family: replaying a spent, unexpired code; reusing a revoked refresh token; and
      revoking any token of the family. */
  ghost predicate Kills(w: World, r: Request, f: Family) {
    var st := w.store;
    match r
    case RedeemCode(client, Some(c), _, _, _, _, _) =>
      && AuthorizationCodeGrant in client.grants && c < |st.codes| && st.codes[c].client == client.id
      && st.codes[c].expiresAt >= w.clock && st.codes[c].used && st.codes[c].family == Some(f)
    case Refresh(client, Some(value), _, _, _) =>
      var found := GetByRefresh(st.tokens, value);
      && RefreshTokenGrant in client.grants && found.Some? && found.value.client == client.id
      && found.value.revoked && found.value.family == Some(f)
    case Revoke(client, Some(value)) =>
      var byAccess, byRefresh := GetByAccess(st.tokens, value), GetByRefresh(st.tokens, value);
      var found := if byAccess.Some? then byAccess else byRefresh;
      found.Some? && found.value.client == client.id && found.value.family == Some(f)
    case _ => false
  }

  lemma KillingLeadsTo(cfg: Config, w: World, r: Request, f: Family)
    requires Kills(w, r, f)
    ensures Handle(cfg, w.store, w.clock, r).0 == RevokeFamily(w.store, f)
  {
    var c := Start(cfg, r);
    var (st1, c1) := Exec(cfg, w.store, w.clock, c);
    assert Handle(cfg, w.store, w.clock, r) == RunToEnd(cfg, st1, w.clock, c1);
    if c1.FindByRefresh? {
      var (st2, c2) := Exec(cfg, st1, w.clock, c1);
      assert RunToEnd(cfg, st1, w.clock, c1) == RunToEnd(cfg, st2, w.clock, c2);
      RevokeAllEnds(cfg, w.store, w.clock, c2.family, c2.response);
    } else {
      RevokeAllEnds(cfg, w.store, w.clock, c1.family, c1.response);
    }
  }

  lemma RevokeAllEnds(cfg: Config, st: Store, now: int, f: Family, response: Response)
    ensures RunToEnd(cfg, st, now, RevokeAll(f, response)) == (RevokeFamily(st, f), response)
  {
  }

  lemma KillingKills(cfg: Config, w: World, r: Request, f: Family)
    requires FamiliesOk(w.store) && Kills(w, r, f)
    ensures Dead(Happen(cfg, w, Do(r)).store, f)
  {
    KillingLeadsTo(cfg, w, r, f);
    assert Exhausted(w.store, f);
  }

  /** Family death is permanent: whatever ran before the killing request and whatever runs after it, no row of the
      family is live in the end. */
  lemma DeathIsPermanent(cfg: Config, clock: int, before: seq<Event>, kill: Request, after: seq<Event>, f: Family)
    requires Kills(Run(cfg, World(EMPTY, clock), before), kill, f)
    ensures var w := Run(cfg, World(EMPTY, clock), before);
            var ts := Run(cfg, Happen(cfg, w, Do(kill)), after).store.tokens;
            forall i :: 0 <= i < |ts| && ts[i].family == Some(f) ==> ts[i].revoked
  {
    var w := Run(cfg, World(EMPTY, clock), before);
    RunKeeps(cfg, World(EMPTY, clock), before);
    KillingKills(cfg, w, kill, f);
    EventKeeps(cfg, w, Do(kill));
    var w' := Happen(cfg, w, Do(kill));
    RunKeeps(cfg, w', after);
    assert Dead(Run(cfg, w', after).store, f);
  }

  /** Every run of whole requests is an interleaved run, so all that holds of every interleaving holds here too. */
  lemma {:induction false} RunIsInterleaved(cfg: Config, s: Interleaving.System, events: seq<Event>, next: nat)
      returns (steps: seq<Interleaving.Step>)
    requires Interleaving.AllWellFormed(s) && forall id :: id in s.threads ==> id < next
    ensures var w, s' := Run(cfg, World(s.store, s.clock), events), Interleaving.Run(cfg, s, steps);
            s'.store == w.store && s'.clock == w.clock
    decreases |events|
  {
    if events == [] {
      steps := [];
    } else {
      var first: seq<Interleaving.Step>;
      match events[0] {
        case Do(r) =>
          first := Interleaving.Uninterrupted(next, r);
          Interleaving.HandleIsASchedule(cfg, s, next, r);
        case Wait(elapsed) =>
          first := [Interleaving.Tick(elapsed)];
          assert first[1..] == [];
          assert Interleaving.Run(cfg, s, first) == Interleaving.Take(cfg, s, first[0]);
      }
      var s' := Interleaving.Run(cfg, s, first);
      var rest := RunIsInterleaved(cfg, s', events[1..], next + 1);
      steps := first + rest;
      InterleavedAppend(cfg, s, first, rest);
    }
  }

  lemma {:induction false} InterleavedAppend(cfg: Config, s: Interleaving.System, a: seq<Interleaving.Step>,
                                             b: seq<Interleaving.Step>)
    requires Interleaving.AllWellFormed(s)
    ensures Interleaving.Run(cfg, s, a + b) == Interleaving.Run(cfg, Interleaving.Run(cfg, s, a), b)
    decreases |a|
  {
    if a == [] {
      assert a + b == b;
    } else {
      assert (a + b)[1..] == a[1..] + b;
      InterleavedAppend(cfg, Interleaving.Take(cfg, s, a[0]), a[1..], b);
    }
  }

  // ---- What interleaving breaks, and exactly when ----

  ghost predicate LeavesAlone(steps: seq<Interleaving.Step>, id: nat) {
    forall i :: 0 <= i < |steps| ==> steps[i] != Interleaving.Advance(id)
  }

  lemma {:induction false} Untouched(cfg: Config, s: Interleaving.System, id: nat, steps: seq<Interleaving.Step>)
    requires Interleaving.AllWellFormed(s) && id in s.threads && LeavesAlone(steps, id)
    ensures var s' := Interleaving.Run(cfg, s, steps); id in s'.threads && s'.threads[id] == s.threads[id]
    decreases |steps|
  {
    if steps != [] {
      assert LeavesAlone(steps[1..], id);
      Untouched(cfg, Interleaving.Take(cfg, s, steps[0]), id, steps[1..]);
    }
  }

  /** A suspended request that has passed its checks and will put a row into family `f`: a refresh before its revoke, or
      a refresh or a code redemption before its save. */
  ghost predicate WillRevive(c: Call, f: Family) {
    (c.RevokeOld? || c.SaveToken?) && c.grant.family == Existing(f)
  }

  /** The row the suspended request is about to revoke. */
  predicate Stale(row: TokenRow, c: Call) {
    c.RevokeOld? && (row.access == c.value || row.refresh == Some(c.value))
  }

  lemma PendingEnds(cfg: Config, st: Store, now: int, c: Call, f: Family)
    requires WillRevive(c, f)
    ensures var end := RunToEnd(cfg, st, now, c).0;
            && |end.tokens| == |st.tokens| + 1
            && InFamily(end.tokens[|st.tokens|], f) && !end.tokens[|st.tokens|].revoked
            && forall i :: 0 <= i < |st.tokens| ==>
                 end.tokens[i] == if Stale(st.tokens[i], c) then st.tokens[i].(revoked := true) else st.tokens[i]
  {
    if c.RevokeOld? {
      RotationEnds(cfg, st, now, c.value, c.grant);
    } else {
      SaveEnds(cfg, st, now, c.grant);
    }
  }

  /** A request that passed its checks, then was left waiting while others ran any schedule at all, puts a live row into
      its family, dead or not.  That row is the family's only live row if and only if, when the request resumes, the
      family has no live row but the one the request is about to revoke. */
  lemma StaleRequestRevives(cfg: Config, s: Interleaving.System, id: nat, f: Family, meanwhile: seq<Interleaving.Step>)
    requires Interleaving.AllWellFormed(s) && id in s.threads && LeavesAlone(meanwhile, id)
    requires WillRevive(s.threads[id], f)
    ensures var mid := Interleaving.Run(cfg, s, meanwhile).store.tokens;
            var end := Interleaving.Run(cfg, s, meanwhile + Interleaving.Advances(id, 2)).store.tokens;
            && |end| == |mid| + 1 && InFamily(end[|mid|], f) && !end[|mid|].revoked
            && ((forall i :: 0 <= i < |mid| && InFamily(end[i], f) ==> end[i].revoked) <==>
                (forall i :: 0 <= i < |mid| && InFamily(mid[i], f) && !mid[i].revoked ==> Stale(mid[i], s.threads[id])))
  {
    Untouched(cfg, s, id, meanwhile);
    InterleavedAppend(cfg, s, meanwhile, Interleaving.Advances(id, 2));
    var s' := Interleaving.Run(cfg, s, meanwhile);
    Interleaving.AdvancesRunToEnd(cfg, s', id, 2);
    PendingEnds(cfg, s'.store, s'.clock, s.threads[id], f);
  }

  /** The rotation a refresh request would perform if it were handled now. */
  ghost predicate WouldRotate(cfg: Config, st: Store, now: int, r: Request, value: TokenValue, nt: NewToken) {
    && r.Refresh? && Start(cfg, r).ReadRefresh?
    && AfterReadRefresh(cfg, now, r, GetByRefresh(st.tokens, r.refresh.value)) == RevokeOld(value, nt)
  }

  lemma RotationEnds(cfg: Config, st: Store, now: int, value: TokenValue, nt: NewToken)
    ensures RunToEnd(cfg, st, now, RevokeOld(value, nt)).0 == Save(cfg, RevokeToken(st, value), now, nt)
  {
    assert Exec(cfg, st, now, RevokeOld(value, nt)) == (RevokeToken(st, value), SaveToken(nt));
    SaveEnds(cfg, RevokeToken(st, value), now, nt);
  }

  lemma SaveEnds(cfg: Config, st: Store, now: int, nt: NewToken)
    ensures RunToEnd(cfg, st, now, SaveToken(nt)).0 == Save(cfg, st, now, nt)
  {
    assert Exec(cfg, st, now, SaveToken(nt))
        == (Save(cfg, st, now, nt), Finished(IssuedResponse(cfg, nt, |st.tokens|)));
  }

  lemma RotationIsHandled(cfg: Config, st: Store, now: int, r: Request, value: TokenValue, nt: NewToken)
    requires WouldRotate(cfg, st, now, r, value, nt)
    ensures Handle(cfg, st, now, r).0 == Save(cfg, RevokeToken(st, value), now, nt)
  {
    var c := ReadRefresh(r, r.refresh.value);
    assert Start(cfg, r) == c && Exec(cfg, st, now, c) == (st, RevokeOld(value, nt));
    RotationEnds(cfg, st, now, value, nt);
  }

  lemma Suspended(cfg: Config, s: Interleaving.System, id: nat, r: Request, value: TokenValue, nt: NewToken)
    requires Interleaving.AllWellFormed(s) && id !in s.threads && WouldRotate(cfg, s.store, s.clock, r, value, nt)
    ensures Interleaving.Run(cfg, s, [Interleaving.Arrive(id, r), Interleaving.Advance(id)])
         == s.(threads := s.threads[id := RevokeOld(value, nt)])
  {
    var steps := [Interleaving.Arrive(id, r), Interleaving.Advance(id)];
    var s1 := Interleaving.Take(cfg, s, steps[0]);
    var s2 := Interleaving.Take(cfg, s1, steps[1]);
    assert s1.threads[id := RevokeOld(value, nt)] == s.threads[id := RevokeOld(value, nt)];
    assert steps[1..][1..] == [];
    assert Interleaving.Run(cfg, s1, steps[1..]) == s2;
  }

  /** From every reachable state in which a refresh inside a family would succeed, two concurrent copies of that one
      request, the second overtaking the first, leave the family with two live rows. */
  lemma TwoRefreshesSplitFamily(cfg: Config, s: Interleaving.System, a: nat, b: nat, r: Request, value: TokenValue,
                                nt: NewToken)
    requires Interleaving.Inv(cfg, s) && a !in s.threads && b !in s.threads && a != b
    requires WouldRotate(cfg, s.store, s.clock, r, value, nt) && nt.family.Existing?
    ensures var steps := [Interleaving.Arrive(a, r), Interleaving.Advance(a)]
                         + (Interleaving.Uninterrupted(b, r) + Interleaving.Advances(a, 2));
            var end := Interleaving.Run(cfg, s, steps).store.tokens;
            exists i, j :: 0 <= i < j < |end| && end[i].family == end[j].family == Some(nt.family.family)
                           && !end[i].revoked && !end[j].revoked
  {
    var first := [Interleaving.Arrive(a, r), Interleaving.Advance(a)];
    var meanwhile := Interleaving.Uninterrupted(b, r);
    InterleavedAppend(cfg, s, first, meanwhile + Interleaving.Advances(a, 2));
    Suspended(cfg, s, a, r, value, nt);
    RotationIsHandled(cfg, s.store, s.clock, r, value, nt);
    RotatedRow(cfg, s.store, s.clock, r, value, nt);
    Overtaken(cfg, Interleaving.Run(cfg, s, first), a, b, r, value, nt);
  }

  lemma Overtaken(cfg: Config, s: Interleaving.System, a: nat, b: nat, r: Request, value: TokenValue, nt: NewToken)
    requires Interleaving.AllWellFormed(s) && a in s.threads && b !in s.threads
    requires s.threads[a] == RevokeOld(value, nt) && nt.family.Existing?
    requires Handle(cfg, s.store, s.clock, r).0 == Save(cfg, RevokeToken(s.store, value), s.clock, nt)
    requires value.n < |s.store.tokens| && !value.RefreshValue?
    ensures var steps := Interleaving.Uninterrupted(b, r) + Interleaving.Advances(a, 2);
            var end := Interleaving.Run(cfg, s, steps).store.tokens;
            exists i, j :: 0 <= i < j < |end| && end[i].family == end[j].family == Some(nt.family.family)
                           && !end[i].revoked && !end[j].revoked
  {
    Interleaving.HandleIsASchedule(cfg, s, b, r);
    OvertakenRotation(cfg, s, a, Interleaving.Uninterrupted(b, r), |s.store.tokens|);
  }

  /** A refresh that resumes beside a live, unrelated row of its family makes two live rows of it. */
  lemma OvertakenRotation(cfg: Config, s: Interleaving.System, id: nat, meanwhile: seq<Interleaving.Step>, n: nat)
    requires Interleaving.AllWellFormed(s) && id in s.threads && LeavesAlone(meanwhile, id)
    requires s.threads[id].RevokeOld? && s.threads[id].grant.family.Existing?
    requires var mid := Interleaving.Run(cfg, s, meanwhile).store.tokens;
             && n < |mid| && InFamily(mid[n], s.threads[id].grant.family.family) && !mid[n].revoked
             && !Stale(mid[n], s.threads[id])
    ensures var f := s.threads[id].grant.family.family;
            var end := Interleaving.Run(cfg, s, meanwhile + Interleaving.Advances(id, 2)).store.tokens;
            exists i, j :: 0 <= i < j < |end| && end[i].family == end[j].family == Some(f)
                           && !end[i].revoked && !end[j].revoked
  {
    StaleRequestRevives(cfg, s, id, s.threads[id].grant.family.family, meanwhile);
    var mid := Interleaving.Run(cfg, s, meanwhile).store.tokens;
    var end := Interleaving.Run(cfg, s, meanwhile + Interleaving.Advances(id, 2)).store.tokens;
    var i :| 0 <= i < |mid| && InFamily(end[i], s.threads[id].grant.family.family) && !end[i].revoked;
    assert end[i].family == end[|mid|].family;
  }

  /** The token value a rotation revokes is that of an existing row. */
  lemma RotatedRow(cfg: Config, st: Store, now: int, r: Request, value: TokenValue, nt: NewToken)
    requires Interleaving.StoreOk(cfg, st) && WouldRotate(cfg, st, now, r, value, nt)
    ensures value.n < |st.tokens| && !value.RefreshValue?
  {
    RotatedValue(cfg, st, now, r, value, nt);
    var i :| 0 <= i < |st.tokens| && st.tokens[i].access == value;
    assert Interleaving.RowOk(st.tokens[i], st.issued[i], i);
  }

  lemma RotatedValue(cfg: Config, st: Store, now: int, r: Request, value: TokenValue, nt: NewToken)
    requires WouldRotate(cfg, st, now, r, value, nt)
    ensures exists i :: 0 <= i < |st.tokens| && st.tokens[i].access == value
  {
    var found := GetByRefresh(st.tokens, r.refresh.value);
    var i :| 0 <= i < |st.tokens| && st.tokens[i] == found.value;
  }

  // ---- Exactly when a family keeps to one live row between storage calls ----

  ghost predicate AtMostOneLive(st: Store, f: Family) {
    forall i, j :: 0 <= i < j < |st.tokens| && InFamily(st.tokens[i], f) && InFamily(st.tokens[j], f) ==>
      st.tokens[i].revoked || st.tokens[j].revoked
  }

  /** The step saves a row into `f` while `f` has a live one. */
  ghost predicate Splits(s: Interleaving.System, step: Interleaving.Step, f: Family) {
    && step.Advance? && step.id in s.threads && s.threads[step.id].SaveToken?
    && s.threads[step.id].grant.family == Existing(f) && !AllRevoked(s.store, f)
  }

  /** A save that is not into `f` starts no row in it: a fresh family is named after a row that does not exist yet. */
  lemma SaveElsewhere(cfg: Config, st: Store, now: int, nt: NewToken, f: Family)
    requires Exhausted(st, f)
    ensures var st' := Save(cfg, st, now, nt);
            && Exhausted(st', f) && st'.tokens[..|st.tokens|] == st.tokens && |st'.tokens| == |st.tokens| + 1
            && !st'.tokens[|st.tokens|].revoked
            && (InFamily(st'.tokens[|st.tokens|], f) <==> nt.family == Existing(f))
  {
  }

  lemma OnlyRevoking(cfg: Config, st: Store, now: int, c: Call, f: Family)
    requires WellFormed(c) && !c.SaveToken? && Exhausted(st, f)
    ensures var st' := Exec(cfg, st, now, c).0; |st'.tokens| == |st.tokens| && Exhausted(st', f)
  {
  }

  lemma StepSplitsExactly(cfg: Config, s: Interleaving.System, step: Interleaving.Step, f: Family)
    requires Interleaving.AllWellFormed(s) && Exhausted(s.store, f) && AtMostOneLive(s.store, f)
    ensures var s' := Interleaving.Take(cfg, s, step);
            Exhausted(s'.store, f) && (AtMostOneLive(s'.store, f) <==> !Splits(s, step, f))
  {
    if step.Advance? && step.id in s.threads {
      var c := s.threads[step.id];
      var before, after := s.store.tokens, Exec(cfg, s.store, s.clock, c).0.tokens;
      if c.SaveToken? {
        SaveElsewhere(cfg, s.store, s.clock, c.grant, f);
        assert forall i :: 0 <= i < |before| ==> after[i] == before[i];
      } else {
        OnlyRevoking(cfg, s.store, s.clock, c, f);
        Interleaving.ExecKeepsRows(cfg, s.store, s.clock, c);
        assert forall i :: 0 <= i < |before| ==> Interleaving.RowKept(before[i], after[i]);
      }
    }
  }

  ghost predicate OneLiveThroughout(cfg: Config, s: Interleaving.System, steps: seq<Interleaving.Step>, f: Family)
    requires Interleaving.AllWellFormed(s)
    decreases |steps|
  {
    && AtMostOneLive(s.store, f)
    && (steps != [] ==> OneLiveThroughout(cfg, Interleaving.Take(cfg, s, steps[0]), steps[1..], f))
  }

  ghost predicate NeverSplits(cfg: Config, s: Interleaving.System, steps: seq<Interleaving.Step>, f: Family)
    requires Interleaving.AllWellFormed(s)
    decreases |steps|
  {
    steps != [] ==>
      !Splits(s, steps[0], f) && NeverSplits(cfg, Interleaving.Take(cfg, s, steps[0]), steps[1..], f)
  }

  /** Under every schedule, a family with at most one live row keeps to at most one throughout if and only if no request
      reaches its save into the family while the family has a live row. */
  lemma {:induction false} OneLiveBetweenCalls(cfg: Config, s: Interleaving.System, steps: seq<Interleaving.Step>,
                                               f: Family)
    requires Interleaving.AllWellFormed(s) && Exhausted(s.store, f) && AtMostOneLive(s.store, f)
    ensures OneLiveThroughout(cfg, s, steps, f) <==> NeverSplits(cfg, s, steps, f)
    decreases |steps|
  {
    if steps != [] {
      var s' := Interleaving.Take(cfg, s, steps[0]);
      StepSplitsExactly(cfg, s, steps[0], f);
      if AtMostOneLive(s'.store, f) {
        OneLiveBetweenCalls(cfg, s', steps[1..], f);
      }
    }
  }

  // ---- Exactly when death is permanent between storage calls ----

  ghost predicate NoneWillRevive(s: Interleaving.System, f: Family) {
    forall id :: id in s.threads ==> !WillRevive(s.threads[id], f)
  }

  ghost predicate CodesNamed(st: Store) {
    forall c :: 0 <= c < |st.codes| ==> st.codes[c].family == Some(OfCode(c))
  }

  lemma CallKeepsNames(cfg: Config, st: Store, now: int, c: Call)
    requires CodesNamed(st) && WellFormed(c)
    ensures CodesNamed(Exec(cfg, st, now, c).0)
  {
  }

  lemma {:induction false} RunKeepsNames(cfg: Config, s: Interleaving.System, steps: seq<Interleaving.Step>)
    requires Interleaving.AllWellFormed(s) && CodesNamed(s.store)
    ensures CodesNamed(Interleaving.Run(cfg, s, steps).store)
    decreases |steps|
  {
    if steps != [] {
      if steps[0].Advance? && steps[0].id in s.threads {
        CallKeepsNames(cfg, s.store, s.clock, s.threads[steps[0].id]);
      }
      RunKeepsNames(cfg, Interleaving.Take(cfg, s, steps[0]), steps[1..]);
    }
  }

  /** A read of a dead family leads nobody to revive it. */
  lemma ReadCannotRevive(cfg: Config, st: Store, now: int, c: Call, f: Family)
    requires Dead(st, f) && WellFormed(c) && Interleaving.IsRead(c)
    ensures !WillRevive(Exec(cfg, st, now, c).1, f)
  {
    if c.ReadRefresh? {
      RefreshAvoidsDead(cfg, st, now, c.request, c.value, f);
    }
  }

  /** Neither does a write, a claim included: the code of a dead family is spent. */
  lemma ClaimCannotRevive(cfg: Config, st: Store, now: int, c: Call, f: Family)
    requires CodesNamed(st) && Dead(st, f) && WellFormed(c) && Interleaving.CallOk(cfg, st, c) && c.ClaimCode?
    ensures var (st', c') := Exec(cfg, st, now, c); Dead(st', f) && !WillRevive(c', f)
  {
  }

  lemma WriteCannotRevive(cfg: Config, st: Store, now: int, c: Call, f: Family)
    requires Dead(st, f) && WellFormed(c) && !Interleaving.IsRead(c) && !c.ClaimCode? && !WillRevive(c, f)
    ensures var (st', c') := Exec(cfg, st, now, c); Dead(st', f) && !WillRevive(c', f)
  {
  }

  lemma StepKeepsDead(cfg: Config, s: Interleaving.System, step: Interleaving.Step, f: Family)
    requires Interleaving.Inv(cfg, s) && CodesNamed(s.store) && Dead(s.store, f) && NoneWillRevive(s, f)
    ensures var s' := Interleaving.Take(cfg, s, step); Dead(s'.store, f) && NoneWillRevive(s', f)
  {
    if step.Advance? && step.id in s.threads {
      var c := s.threads[step.id];
      assert Interleaving.CallOk(cfg, s.store, c);
      if Interleaving.IsRead(c) {
        ReadCannotRevive(cfg, s.store, s.clock, c, f);
        ReadsReady(cfg, s.store, s.clock, c);
      } else if c.ClaimCode? {
        ClaimCannotRevive(cfg, s.store, s.clock, c, f);
      } else {
        WriteCannotRevive(cfg, s.store, s.clock, c, f);
      }
    }
  }

  lemma {:induction false} RunKeepsDead(cfg: Config, s: Interleaving.System, steps: seq<Interleaving.Step>, f: Family)
    requires Interleaving.Inv(cfg, s) && CodesNamed(s.store) && Dead(s.store, f) && NoneWillRevive(s, f)
    ensures AllRevoked(Interleaving.Run(cfg, s, steps).store, f)
    decreases |steps|
  {
    if steps != [] {
      var s' := Interleaving.Take(cfg, s, steps[0]);
      StepKeepsDead(cfg, s, steps[0], f);
      Interleaving.TakeKeepsInv(cfg, s, steps[0]);
      RunKeepsNames(cfg, s, [steps[0]]);
      assert [steps[0]][1..] == [] && Interleaving.Run(cfg, s, [steps[0]]) == s';
      RunKeepsDead(cfg, s', steps[1..], f);
    }
  }

  /** A request about to save or rotate into a family, left to run on, leaves a live row in it. */
  lemma PendingRequestRevives(cfg: Config, s: Interleaving.System, id: nat, f: Family)
    requires Interleaving.AllWellFormed(s) && id in s.threads && WillRevive(s.threads[id], f)
    ensures !AllRevoked(Interleaving.Run(cfg, s, Interleaving.Advances(id, 2)).store, f)
  {
    Interleaving.AdvancesRunToEnd(cfg, s, id, 2);
    PendingEnds(cfg, s.store, s.clock, s.threads[id], f);
  }

  /** In every reachable state, the death of a family is permanent under every schedule to come if and only if no
      suspended request has already passed its checks and is about to put a row into it. */
  lemma {:induction false} DeathBetweenCalls(cfg: Config, clock: int, before: seq<Interleaving.Step>, f: Family)
    requires Dead(Interleaving.Run(cfg, Interleaving.Initial(clock), before).store, f)
    ensures var s := Interleaving.Run(cfg, Interleaving.Initial(clock), before);
            (forall after :: AllRevoked(Interleaving.Run(cfg, s, after).store, f)) <==> NoneWillRevive(s, f)
  {
    var s := Interleaving.Run(cfg, Interleaving.Initial(clock), before);
    Interleaving.ReachableInv(cfg, clock, before);
    RunKeepsNames(cfg, Interleaving.Initial(clock), before);
    if NoneWillRevive(s, f) {
      forall after ensures AllRevoked(Interleaving.Run(cfg, s, after).store, f) {
        RunKeepsDead(cfg, s, after, f);
      }
    } else {
      var id :| id in s.threads && WillRevive(s.threads[id], f);
      PendingRequestRevives(cfg, s, id, f);
    }
  }

  /** The redemption a code request would perform if it were handled now. */
  ghost predicate WouldRedeem(cfg: Config, st: Store, now: int, r: Request, code: nat) {
    && r.RedeemCode? && r.code == Some(code) && Start(cfg, r).ReadCode? && code < |st.codes|
    && AfterReadCode(cfg, now, r, code, Some(st.codes[code])).ClaimCode?
    && (st.codes[code].jkt.Some? ==> r.proof == st.codes[code].jkt)
  }

  lemma Claimed(cfg: Config, s: Interleaving.System, a: nat, r: Request, code: nat)
    requires Interleaving.AllWellFormed(s) && a !in s.threads && CodesNamed(s.store)
    requires WouldRedeem(cfg, s.store, s.clock, r, code)
    ensures var s' := Interleaving.Run(cfg, s, ClaimSteps(a, r));
            && s'.store == MarkCodeUsed(s.store, code).0 && s'.clock == s.clock
            && s'.threads.Keys == s.threads.Keys + {a}
            && s'.threads[a].SaveToken? && s'.threads[a].grant.family == Existing(OfCode(code))
  {
    var steps := ClaimSteps(a, r);
    var row := s.store.codes[code];
    var s1 := Interleaving.Take(cfg, s, steps[0]);
    assert s1.threads[a] == ReadCode(r, code);
    var s2 := Interleaving.Take(cfg, s1, steps[1]);
    assert s2.store == s.store && s2.threads[a] == ClaimCode(r, code, row);
    var s3 := Interleaving.Take(cfg, s2, steps[2]);
    assert steps[1..][1..][1..] == [] && steps[1..][1..] == [steps[2]];
    assert Interleaving.Run(cfg, s2, steps[1..][1..]) == s3;
    assert Interleaving.Run(cfg, s1, steps[1..]) == s3;
  }

  /** Steps after which a redemption has claimed its code and is about to save. */
  function ClaimSteps(a: nat, r: Request): seq<Interleaving.Step> {
    [Interleaving.Arrive(a, r), Interleaving.Advance(a), Interleaving.Advance(a)]
  }

  /** From every state in which a redemption would succeed, a copy of that request arriving after the claim and before
      the save is a replay: it kills the family, and the save then puts a live row into the dead family. */
  lemma ReplayedCodeRevives(cfg: Config, s: Interleaving.System, a: nat, b: nat, r: Request, code: nat)
    requires Interleaving.AllWellFormed(s) && CodesNamed(s.store) && a !in s.threads && b !in s.threads && a != b
    requires WouldRedeem(cfg, s.store, s.clock, r, code)
    ensures var claimed := Interleaving.Run(cfg, s, ClaimSteps(a, r));
            var killed := Interleaving.Run(cfg, claimed, Interleaving.Uninterrupted(b, r));
            && Kills(World(claimed.store, claimed.clock), r, OfCode(code)) && Dead(killed.store, OfCode(code))
            && !AllRevoked(Interleaving.Run(cfg, killed, Interleaving.Advances(a, 2)).store, OfCode(code))
  {
    Claimed(cfg, s, a, r, code);
    var claimed := Interleaving.Run(cfg, s, ClaimSteps(a, r));
    Interleaving.HandleIsASchedule(cfg, claimed, b, r);
    KillingLeadsTo(cfg, World(claimed.store, claimed.clock), r, OfCode(code));
    var killed := Interleaving.Run(cfg, claimed, Interleaving.Uninterrupted(b, r));
    PendingRequestRevives(cfg, killed, a, OfCode(code));
  }
}
