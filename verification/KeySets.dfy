/** The in-memory signing-key set under seeding, rotation, pruning and the passing of time (keys.py), and the two
    fallbacks that rely on it (routes/logout.py, routes/wellknown.py). */
module KeySets {
  import opened Prelude

  datatype Algorithm = HS256 | RS256

  datatype SigningKey = SigningKey(kid: string, algorithm: Algorithm, material: string, isCurrent: bool,
                                   createdAt: int, expiresAt: Option<int>)

  predicate IsActive(k: SigningKey, now: int) {
    k.expiresAt.None? || now < k.expiresAt.value
  }

  // ---- The operations on values ----

  /** `active_keys`, and what `prune_expired` leaves. */
  function Active(keys: seq<SigningKey>, now: int): seq<SigningKey> {
    if keys == [] then []
    else if IsActive(keys[0], now) then [keys[0]] + Active(keys[1..], now)
    else Active(keys[1..], now)
  }

  function OfAlgorithm(keys: seq<SigningKey>, alg: Algorithm): seq<SigningKey> {
    if keys == [] then []
    else if keys[0].algorithm == alg then [keys[0]] + OfAlgorithm(keys[1..], alg)
    else OfAlgorithm(keys[1..], alg)
  }

  /** The current keys of an algorithm, expired or not. */
  function Currents(keys: seq<SigningKey>, alg: Algorithm): seq<SigningKey> {
    if keys == [] then []
    else if keys[0].algorithm == alg && keys[0].isCurrent then [keys[0]] + Currents(keys[1..], alg)
    else Currents(keys[1..], alg)
  }

  function WithKid(keys: seq<SigningKey>, kid: string): Option<SigningKey> {
    if keys == [] then None else if keys[0].kid == kid then Some(keys[0]) else WithKid(keys[1..], kid)
  }

  function Find(keys: seq<SigningKey>, kid: string, now: int): Option<SigningKey> {
    WithKid(Active(keys, now), kid)
  }

  function CurrentForAlg(keys: seq<SigningKey>, alg: Algorithm, now: int): Option<SigningKey> {
    var found := Currents(Active(keys, now), alg);
    if found == [] then None else Some(found[0])
  }

  function ActiveForAlg(keys: seq<SigningKey>, alg: Algorithm, now: int): seq<SigningKey> {
    OfAlgorithm(Active(keys, now), alg)
  }

  function RetiredKey(k: SigningKey, alg: Algorithm, expiresAt: int): SigningKey {
    if k.algorithm == alg && k.isCurrent then k.(isCurrent := false, expiresAt := Some(expiresAt)) else k
  }

  function Retire(keys: seq<SigningKey>, alg: Algorithm, expiresAt: int): (r: seq<SigningKey>)
    ensures |r| == |keys| && forall i :: 0 <= i < |keys| ==> r[i] == RetiredKey(keys[i], alg, expiresAt)
  {
    if keys == [] then [] else [RetiredKey(keys[0], alg, expiresAt)] + Retire(keys[1..], alg, expiresAt)
  }

  function Rotate(keys: seq<SigningKey>, newKey: SigningKey, grace: int, now: int): seq<SigningKey> {
    Retire(keys, newKey.algorithm, now + grace) + [newKey]
  }

  /** The key `generate_signing_key` makes: current, without expiry. */
  function NewKey(kid: string, alg: Algorithm, material: string, now: int): SigningKey {
    SigningKey(kid, alg, material, true, now, None)
  }

  datatype Config = Config(jwtSecret: string, pem: Option<string>, pemKid: Option<string>)

  function Seed(cfg: Config, now: int): seq<SigningKey> {
    var hs := NewKey("hs256-initial", HS256, cfg.jwtSecret, now);
    if cfg.pem.Some? && cfg.pem.value != "" then
      var kid := if cfg.pemKid.Some? && cfg.pemKid.value != "" then cfg.pemKid.value else "rs256-initial";
      [hs, NewKey(kid, RS256, cfg.pem.value, now)]
    else [hs]
  }

  /** The object itself. */
  class KeySet {
    var keys: seq<SigningKey>

    constructor ()
      ensures keys == []
    {
      keys := [];
    }

    method Add(key: SigningKey)
      modifies this
      ensures keys == old(keys) + [key]
    {
      keys := keys + [key];
    }

    method FindByKid(kid: string, now: int) returns (found: Option<SigningKey>)
      ensures found == Find(keys, kid, now)
    {
      var i := 0;
      while i < |keys|
        invariant 0 <= i <= |keys|
        invariant Find(keys, kid, now) == Find(keys[i..], kid, now)
      {
        assert keys[i..][1..] == keys[i + 1..];
        FindUnfolds(keys[i..], kid, now);
        if keys[i].kid == kid && IsActive(keys[i], now) {
          return Some(keys[i]);
        }
        i := i + 1;
      }
      return None;
    }

    method CurrentKey(alg: Algorithm, now: int) returns (found: Option<SigningKey>)
      ensures found == CurrentForAlg(keys, alg, now)
    {
      var i := 0;
      while i < |keys|
        invariant 0 <= i <= |keys|
        invariant CurrentForAlg(keys, alg, now) == CurrentForAlg(keys[i..], alg, now)
      {
        assert keys[i..][1..] == keys[i + 1..];
        CurrentForAlgUnfolds(keys[i..], alg, now);
        if keys[i].algorithm == alg && keys[i].isCurrent && IsActive(keys[i], now) {
          return Some(keys[i]);
        }
        i := i + 1;
      }
      return None;
    }

    method RotateKeys(newKey: SigningKey, grace: int, now: int)
      modifies this
      ensures keys == Rotate(old(keys), newKey, grace, now)
    {
      var expiresAt := now + grace;
      for i := 0 to |keys|
        invariant |keys| == |old(keys)|
        invariant forall j :: 0 <= j < i ==> keys[j] == RetiredKey(old(keys)[j], newKey.algorithm, expiresAt)
        invariant forall j :: i <= j < |keys| ==> keys[j] == old(keys)[j]
      {
        if keys[i].algorithm == newKey.algorithm && keys[i].isCurrent {
          keys := keys[i := keys[i].(isCurrent := false, expiresAt := Some(expiresAt))];
        }
      }
      assert keys == Retire(old(keys), newKey.algorithm, expiresAt);
      Add(newKey);
    }

    method PruneExpired(now: int) returns (pruned: seq<string>)
      modifies this
      ensures keys == Active(old(keys), now) && pruned == Kids(Expired(old(keys), now))
    {
      var all := keys;
      pruned := [];
      var kept := [];
      for i := 0 to |all|
        invariant pruned == Kids(Expired(all[..i], now)) && kept == Active(all[..i], now)
        invariant keys == all && (pruned == [] ==> kept == all[..i])
      {
        assert all[..i + 1] == all[..i] + [all[i]];
        ActiveAppend(all[..i], [all[i]], now);
        ExpiredSnoc(all[..i], all[i], now);
        if IsActive(all[i], now) {
          kept := kept + [all[i]];
        } else {
          pruned := pruned + [all[i].kid];
        }
      }
      assert all[..|all|] == all;
      if pruned != [] {
        keys := kept;
      }
    }
  }

  method SeedKeySet(cfg: Config, now: int) returns (keySet: KeySet)
    ensures fresh(keySet) && keySet.keys == Seed(cfg, now)
  {
    keySet := new KeySet();
    keySet.Add(NewKey("hs256-initial", HS256, cfg.jwtSecret, now));
    if cfg.pem.Some? && cfg.pem.value != "" {
      var kid := if cfg.pemKid.Some? && cfg.pemKid.value != "" then cfg.pemKid.value else "rs256-initial";
      keySet.Add(NewKey(kid, RS256, cfg.pem.value, now));
    }
  }

  /** What `prune_expired` drops. */
  function Expired(keys: seq<SigningKey>, now: int): seq<SigningKey> {
    if keys == [] then []
    else if IsActive(keys[0], now) then Expired(keys[1..], now)
    else [keys[0]] + Expired(keys[1..], now)
  }

  lemma {:induction false} ExpiredSnoc(keys: seq<SigningKey>, k: SigningKey, now: int)
    ensures Kids(Expired(keys + [k], now)) == Kids(Expired(keys, now)) + if IsActive(k, now) then [] else [k.kid]
    decreases |keys|
  {
    if keys != [] {
      assert (keys + [k])[0] == keys[0] && (keys + [k])[1..] == keys[1..] + [k];
      ExpiredSnoc(keys[1..], k, now);
      if !IsActive(keys[0], now) {
        assert Expired(keys, now)[1..] == Expired(keys[1..], now);
        assert Expired(keys + [k], now)[1..] == Expired(keys[1..] + [k], now);
      } else {
        assert Expired(keys, now) == Expired(keys[1..], now);
        assert Expired(keys + [k], now) == Expired(keys[1..] + [k], now);
      }
    } else {
      assert keys + [k] == [k];
    }
  }

  lemma FindUnfolds(keys: seq<SigningKey>, kid: string, now: int)
    requires keys != []
    ensures Find(keys, kid, now)
            == if keys[0].kid == kid && IsActive(keys[0], now) then Some(keys[0]) else Find(keys[1..], kid, now)
  {
    ActiveUnfolds(keys, now);
  }

  lemma CurrentForAlgUnfolds(keys: seq<SigningKey>, alg: Algorithm, now: int)
    requires keys != []
    ensures CurrentForAlg(keys, alg, now)
            == if keys[0].algorithm == alg && keys[0].isCurrent && IsActive(keys[0], now) then Some(keys[0])
               else CurrentForAlg(keys[1..], alg, now)
  {
    ActiveUnfolds(keys, now);
  }

  lemma ActiveUnfolds(keys: seq<SigningKey>, now: int)
    requires keys != []
    ensures if IsActive(keys[0], now)
            then
              && Active(keys, now) != [] && Active(keys, now)[0] == keys[0]
              && Active(keys, now)[1..] == Active(keys[1..], now)
            else Active(keys, now) == Active(keys[1..], now)
  {
  }

  // ---- Runs ----

  datatype Event =
    | Rotation(kid: string, algorithm: Algorithm, material: string, grace: nat, at: int)
    | Pruning(at: int)

  function Apply(keys: seq<SigningKey>, e: Event): seq<SigningKey> {
    match e
    case Rotation(kid, alg, material, grace, at) => Rotate(keys, NewKey(kid, alg, material, at), grace, at)
    case Pruning(at) => Active(keys, at)
  }

  function Run(keys: seq<SigningKey>, events: seq<Event>): seq<SigningKey>
    decreases |events|
  {
    if events == [] then keys else Run(Apply(keys, events[0]), events[1..])
  }

  /** The same run without any pruning: the reference. */
  function RunUnpruned(keys: seq<SigningKey>, events: seq<Event>): seq<SigningKey>
    decreases |events|
  {
    if events == [] then keys
    else RunUnpruned(if events[0].Rotation? then Apply(keys, events[0]) else keys, events[1..])
  }

  ghost predicate Between(events: seq<Event>, start: int, now: int) {
    && start <= now
    && (forall i :: 0 <= i < |events| ==> start <= events[i].at <= now)
    && (forall i, j :: 0 <= i < j < |events| ==> events[i].at <= events[j].at)
  }

  /** A current key never expires. */
  ghost predicate CurrentsPermanent(keys: seq<SigningKey>) {
    forall i :: 0 <= i < |keys| && keys[i].isCurrent ==> keys[i].expiresAt.None?
  }

  // ---- How the operations interact ----

  lemma {:induction false} ActiveAppend(a: seq<SigningKey>, b: seq<SigningKey>, now: int)
    ensures Active(a + b, now) == Active(a, now) + Active(b, now)
    decreases |a|
  {
    if a == [] {
      assert a + b == b;
    } else {
      assert (a + b)[0] == a[0] && (a + b)[1..] == a[1..] + b;
      ActiveAppend(a[1..], b, now);
    }
  }

  lemma {:induction false} CurrentsAppend(a: seq<SigningKey>, b: seq<SigningKey>, alg: Algorithm)
    ensures Currents(a + b, alg) == Currents(a, alg) + Currents(b, alg)
    decreases |a|
  {
    if a == [] {
      assert a + b == b;
    } else {
      assert (a + b)[0] == a[0] && (a + b)[1..] == a[1..] + b;
      CurrentsAppend(a[1..], b, alg);
    }
  }

  lemma {:induction false} ActiveTwice(keys: seq<SigningKey>, t: int, now: int)
    requires t <= now
    ensures Active(Active(keys, t), now) == Active(keys, now)
    decreases |keys|
  {
    if keys != [] {
      ActiveTwice(keys[1..], t, now);
      ActiveUnfolds(keys, t);
    }
  }

  lemma {:induction false} ActiveRetire(keys: seq<SigningKey>, alg: Algorithm, expiresAt: int, now: int)
    requires CurrentsPermanent(keys)
    ensures Active(Retire(Active(keys, now), alg, expiresAt), now) == Active(Retire(keys, alg, expiresAt), now)
    decreases |keys|
  {
    if keys != [] {
      assert CurrentsPermanent(keys[1..]);
      ActiveRetire(keys[1..], alg, expiresAt, now);
      var rest := Active(keys[1..], now);
      if IsActive(keys[0], now) {
        assert Active(keys, now)[1..] == rest;
      } else {
        assert Active(keys, now) == rest;
      }
    }
  }

  lemma {:induction false} CurrentsRetire(keys: seq<SigningKey>, alg: Algorithm, expiresAt: int, other: Algorithm)
    ensures Currents(Retire(keys, alg, expiresAt), other) == if alg == other then [] else Currents(keys, other)
    decreases |keys|
  {
    if keys != [] {
      CurrentsRetire(keys[1..], alg, expiresAt, other);
    }
  }

  lemma {:induction false} CurrentsActive(keys: seq<SigningKey>, alg: Algorithm, now: int)
    requires CurrentsPermanent(keys)
    ensures Currents(Active(keys, now), alg) == Currents(keys, alg)
    ensures CurrentsPermanent(Active(keys, now))
    decreases |keys|
  {
    if keys != [] {
      assert CurrentsPermanent(keys[1..]);
      CurrentsActive(keys[1..], alg, now);
      ActiveUnfolds(keys, now);
    }
  }

  lemma PermanentApply(keys: seq<SigningKey>, e: Event)
    requires CurrentsPermanent(keys)
    ensures CurrentsPermanent(Apply(keys, e))
  {
    if e.Pruning? {
      CurrentsActive(keys, HS256, e.at);
    }
  }

  // ---- Main result: one current key per algorithm ----

  /** Exactly one current key, and it never expires. */
  ghost predicate OneCurrent(keys: seq<SigningKey>, alg: Algorithm) {
    CurrentsPermanent(keys) && |Currents(keys, alg)| == 1
  }

  lemma OneCurrentStep(keys: seq<SigningKey>, e: Event, alg: Algorithm)
    requires CurrentsPermanent(keys) && (OneCurrent(keys, alg) || (e.Rotation? && e.algorithm == alg))
    ensures OneCurrent(Apply(keys, e), alg)
  {
    PermanentApply(keys, e);
    match e
    case Rotation(kid, a, material, grace, at) =>
      CurrentsRetire(keys, a, at + grace, alg);
      CurrentsAppend(Retire(keys, a, at + grace), [NewKey(kid, a, material, at)], alg);
    case Pruning(at) => CurrentsActive(keys, alg, at);
  }

  lemma {:induction false} OneCurrentRun(keys: seq<SigningKey>, events: seq<Event>, alg: Algorithm)
    requires CurrentsPermanent(keys)
    requires OneCurrent(keys, alg) || exists i :: 0 <= i < |events| && events[i].Rotation? && events[i].algorithm == alg
    ensures OneCurrent(Run(keys, events), alg)
    decreases |events|
  {
    if events != [] {
      var keys' := Apply(keys, events[0]);
      PermanentApply(keys, events[0]);
      if OneCurrent(keys, alg) || (events[0].Rotation? && events[0].algorithm == alg) {
        OneCurrentStep(keys, events[0], alg);
      } else {
        var i :| 0 <= i < |events| && events[i].Rotation? && events[i].algorithm == alg;
        assert events[1..][i - 1] == events[i];
      }
      OneCurrentRun(keys', events[1..], alg);
    }
  }

  predicate Seeded(cfg: Config, alg: Algorithm) {
    alg == HS256 || (cfg.pem.Some? && cfg.pem.value != "")
  }

  /** In every run, each algorithm that was seeded or ever rotated has exactly one current key.  It never expires,
      and it is the key `current_for_alg` answers with, at any time. */
  lemma AlwaysOneCurrentKey(cfg: Config, start: int, events: seq<Event>, alg: Algorithm, now: int)
    requires Seeded(cfg, alg) || exists i :: 0 <= i < |events| && events[i].Rotation? && events[i].algorithm == alg
    ensures var keys := Run(Seed(cfg, start), events);
            && CurrentsPermanent(keys) && |Currents(keys, alg)| == 1
            && CurrentForAlg(keys, alg, now) == Some(Currents(keys, alg)[0])
            && Currents(keys, alg)[0].expiresAt.None? && Currents(keys, alg)[0].algorithm == alg
  {
    SeedIsCurrent(cfg, start, alg);
    OneCurrentRun(Seed(cfg, start), events, alg);
    var keys := Run(Seed(cfg, start), events);
    CurrentsActive(keys, alg, now);
    CurrentsAreCurrent(keys, alg);
  }

  lemma SeedIsCurrent(cfg: Config, start: int, alg: Algorithm)
    ensures CurrentsPermanent(Seed(cfg, start)) && (Seeded(cfg, alg) ==> OneCurrent(Seed(cfg, start), alg))
  {
    var keys := Seed(cfg, start);
    var tail := keys[1..];
    if Seeded(cfg, RS256) {
      assert tail[1..] == [] && Currents(tail, alg) == if alg == RS256 then [keys[1]] else [];
    } else {
      assert tail == [];
    }
  }

  lemma {:induction false} CurrentsAreCurrent(keys: seq<SigningKey>, alg: Algorithm)
    ensures forall k :: k in Currents(keys, alg) ==> k in keys && k.isCurrent && k.algorithm == alg
    decreases |keys|
  {
    if keys != [] {
      CurrentsAreCurrent(keys[1..], alg);
    }
  }

  // ---- Main result: pruning is invisible ----

  lemma ApplyKeepsView(keys: seq<SigningKey>, full: seq<SigningKey>, e: Event)
    requires CurrentsPermanent(keys) && CurrentsPermanent(full) && Active(keys, e.at) == Active(full, e.at)
    ensures Active(Apply(keys, e), e.at) == Active(if e.Rotation? then Apply(full, e) else full, e.at)
  {
    match e
    case Rotation(kid, alg, material, grace, at) =>
      var newKey := [NewKey(kid, alg, material, at)];
      ActiveRetire(keys, alg, at + grace, at);
      ActiveRetire(full, alg, at + grace, at);
      ActiveAppend(Retire(keys, alg, at + grace), newKey, at);
      ActiveAppend(Retire(full, alg, at + grace), newKey, at);
    case Pruning(at) => ActiveTwice(keys, at, at);
  }

  lemma ViewLater(keys: seq<SigningKey>, full: seq<SigningKey>, t: int, now: int)
    requires Active(keys, t) == Active(full, t) && t <= now
    ensures Active(keys, now) == Active(full, now)
  {
    ActiveTwice(keys, t, now);
    ActiveTwice(full, t, now);
  }

  lemma {:induction false} RunKeepsView(keys: seq<SigningKey>, full: seq<SigningKey>, events: seq<Event>, start: int,
                                        now: int)
    requires CurrentsPermanent(keys) && CurrentsPermanent(full) && Active(keys, start) == Active(full, start)
    requires Between(events, start, now)
    ensures Active(Run(keys, events), now) == Active(RunUnpruned(full, events), now)
    decreases |events|
  {
    if events == [] {
      ViewLater(keys, full, start, now);
    } else {
      var e := events[0];
      ViewLater(keys, full, start, e.at);
      ApplyKeepsView(keys, full, e);
      PermanentApply(keys, e);
      if e.Rotation? {
        PermanentApply(full, e);
      }
      RunKeepsView(Apply(keys, e), if e.Rotation? then Apply(full, e) else full, events[1..], e.at, now);
    }
  }

  /** Pruning changes no lookup: at any time after a run, every lookup answers as if nothing had ever been pruned. */
  lemma PruningIsInvisible(cfg: Config, start: int, events: seq<Event>, now: int, kid: string, alg: Algorithm)
    requires Between(events, start, now)
    ensures var keys, full := Run(Seed(cfg, start), events), RunUnpruned(Seed(cfg, start), events);
            && Active(keys, now) == Active(full, now) && Find(keys, kid, now) == Find(full, kid, now)
            && CurrentForAlg(keys, alg, now) == CurrentForAlg(full, alg, now)
            && ActiveForAlg(keys, alg, now) == ActiveForAlg(full, alg, now)
  {
    SeedIsCurrent(cfg, start, HS256);
    RunKeepsView(Seed(cfg, start), Seed(cfg, start), events, start, now);
  }

  // ---- Main result: a key is found exactly until its grace ends ----

  /** `k` entered the set, as it was then, with `events[n..]` still to come. */
  ghost predicate Introduced(cfg: Config, start: int, events: seq<Event>, n: nat, k: SigningKey) {
    && n <= |events|
    && (n == 0 ==> k in Seed(cfg, start))
    && (n > 0 ==> var e := events[n - 1];
                  e.Rotation? && k == NewKey(e.kid, e.algorithm, e.material, e.at))
  }

  /** `m` is the first rotation of `alg` from position `n` on. */
  ghost predicate NextRotation(events: seq<Event>, n: nat, alg: Algorithm, m: nat) {
    && n <= m < |events| && events[m].Rotation? && events[m].algorithm == alg
    && NoRotation(events, n, m, alg)
  }

  ghost predicate NoRotation(events: seq<Event>, n: nat, m: nat, alg: Algorithm)
    requires m <= |events|
  {
    forall i :: n <= i < m ==> !(events[i].Rotation? && events[i].algorithm == alg)
  }

  function Kids(keys: seq<SigningKey>): seq<string> {
    if keys == [] then [] else [keys[0].kid] + Kids(keys[1..])
  }

  function RotationKids(events: seq<Event>): seq<string> {
    if events == [] then []
    else if events[0].Rotation? then [events[0].kid] + RotationKids(events[1..])
    else RotationKids(events[1..])
  }

  ghost predicate Distinct(s: seq<string>) {
    forall i, j :: 0 <= i < j < |s| ==> s[i] != s[j]
  }

  lemma {:induction false} KidsAt(keys: seq<SigningKey>)
    ensures |Kids(keys)| == |keys| && forall i :: 0 <= i < |keys| ==> Kids(keys)[i] == keys[i].kid
    decreases |keys|
  {
    if keys != [] {
      KidsAt(keys[1..]);
    }
  }

  lemma KidsOfRotation(keys: seq<SigningKey>, e: Event)
    requires e.Rotation?
    ensures Kids(Apply(keys, e)) == Kids(keys) + [e.kid]
  {
    KidsAt(keys);
    KidsAt(Apply(keys, e));
  }

  lemma {:induction false} KidsOfRun(keys: seq<SigningKey>, events: seq<Event>)
    ensures Kids(RunUnpruned(keys, events)) == Kids(keys) + RotationKids(events)
    decreases |events|
  {
    if events != [] && events[0].Rotation? {
      KidsOfRun(Apply(keys, events[0]), events[1..]);
      KidsOfRotation(keys, events[0]);
    } else if events != [] {
      KidsOfRun(keys, events[1..]);
    }
  }

  lemma {:induction false} RunUnprunedSplit(keys: seq<SigningKey>, a: seq<Event>, b: seq<Event>)
    ensures RunUnpruned(keys, a + b) == RunUnpruned(RunUnpruned(keys, a), b)
    decreases |a|
  {
    if a == [] {
      assert a + b == b;
    } else {
      assert (a + b)[0] == a[0] && (a + b)[1..] == a[1..] + b;
      RunUnprunedSplit(if a[0].Rotation? then Apply(keys, a[0]) else keys, a[1..], b);
    }
  }

  /** A key that no later event touches: retired already, or no rotation of its algorithm follows. */
  lemma {:induction false} KeyStays(keys: seq<SigningKey>, events: seq<Event>, p: nat)
    requires p < |keys|
    requires !keys[p].isCurrent || NoRotation(events, 0, |events|, keys[p].algorithm)
    ensures p < |RunUnpruned(keys, events)| && RunUnpruned(keys, events)[p] == keys[p]
    decreases |events|
  {
    if events != [] {
      KeyStays(if events[0].Rotation? then Apply(keys, events[0]) else keys, events[1..], p);
    }
  }

  lemma {:induction false} KeyRetires(keys: seq<SigningKey>, events: seq<Event>, p: nat, m: nat)
    requires p < |keys| && keys[p].isCurrent && NextRotation(events, 0, keys[p].algorithm, m)
    ensures p < |RunUnpruned(keys, events)|
    ensures RunUnpruned(keys, events)[p]
         == keys[p].(isCurrent := false, expiresAt := Some(events[m].at + events[m].grace))
    decreases |events|
  {
    var next := if events[0].Rotation? then Apply(keys, events[0]) else keys;
    if m == 0 {
      KeyStays(next, events[1..], p);
    } else {
      assert forall i :: 0 <= i < m - 1 ==> events[1..][i] == events[i + 1];
      KeyRetires(next, events[1..], p, m - 1);
    }
  }

  lemma {:induction false} FindAt(keys: seq<SigningKey>, p: nat, now: int)
    requires p < |keys| && Distinct(Kids(keys))
    ensures Find(keys, keys[p].kid, now) == if IsActive(keys[p], now) then Some(keys[p]) else None
    decreases |keys|
  {
    KidsAt(keys);
    FindUnfolds(keys, keys[p].kid, now);
    if p > 0 {
      assert Kids(keys)[0] != Kids(keys)[p];
      assert Kids(keys)[1..] == Kids(keys[1..]);
      FindAt(keys[1..], p - 1, now);
    } else {
      assert Kids(keys)[1..] == Kids(keys[1..]);
      NotFound(keys[1..], keys[0].kid, now);
    }
  }

  lemma {:induction false} NotFound(keys: seq<SigningKey>, kid: string, now: int)
    requires kid !in Kids(keys)
    ensures Find(keys, kid, now) == None
    decreases |keys|
  {
    if keys != [] {
      FindUnfolds(keys, kid, now);
      NotFound(keys[1..], kid, now);
    }
  }

  /** Where an introduced key sits in the unpruned run, at its introduction. */
  lemma IntroducedAt(cfg: Config, start: int, events: seq<Event>, n: nat, k: SigningKey) returns (p: nat)
    requires Introduced(cfg, start, events, n, k)
    ensures var entered := RunUnpruned(Seed(cfg, start), events[..n]); p < |entered| && entered[p] == k
  {
    var seed := Seed(cfg, start);
    if n == 0 {
      p :| 0 <= p < |seed| && seed[p] == k;
    } else {
      var before := RunUnpruned(seed, events[..n - 1]);
      assert events[..n] == events[..n - 1] + [events[n - 1]];
      RunUnprunedSplit(seed, events[..n - 1], [events[n - 1]]);
      p := |before|;
    }
  }

  /** What `k`, introduced before `events[n..]`, has become: retired by the first rotation of its algorithm, if any. */
  ghost predicate HasFate(found: SigningKey, k: SigningKey, events: seq<Event>, n: nat)
    requires n <= |events|
  {
    && found.kid == k.kid
    && (forall m: nat | NextRotation(events, n, k.algorithm, m) ::
          found == k.(isCurrent := false, expiresAt := Some(events[m].at + events[m].grace)))
    && (NoRotation(events, n, |events|, k.algorithm) ==> found == k)
  }

  lemma {:induction false} FateOf(keys: seq<SigningKey>, events: seq<Event>, p: nat)
    requires p < |keys| && keys[p].isCurrent
    ensures var full := RunUnpruned(keys, events); p < |full| && HasFate(full[p], keys[p], events, 0)
  {
    RotationOrNone(events, 0, keys[p].algorithm);
    forall m: nat | NextRotation(events, 0, keys[p].algorithm, m)
      ensures p < |RunUnpruned(keys, events)|
      ensures RunUnpruned(keys, events)[p]
              == keys[p].(isCurrent := false, expiresAt := Some(events[m].at + events[m].grace))
    {
      KeyRetires(keys, events, p, m);
    }
    if NoRotation(events, 0, |events|, keys[p].algorithm) {
      KeyStays(keys, events, p);
    }
  }

  lemma FateShifts(found: SigningKey, k: SigningKey, events: seq<Event>, n: nat)
    requires n <= |events| && HasFate(found, k, events[n..], 0)
    ensures HasFate(found, k, events, n)
  {
    var later := events[n..];
    forall m: nat | NextRotation(events, n, k.algorithm, m)
      ensures found == k.(isCurrent := false, expiresAt := Some(events[m].at + events[m].grace))
    {
      assert forall i :: 0 <= i < m - n ==> later[i] == events[n + i];
      assert NextRotation(later, 0, k.algorithm, m - n);
    }
  }

  /** The same for a key introduced in the middle of a run. */
  lemma FateInRun(keys: seq<SigningKey>, events: seq<Event>, n: nat, p: nat)
    requires n <= |events| && p < |RunUnpruned(keys, events[..n])| && RunUnpruned(keys, events[..n])[p].isCurrent
    ensures var full := RunUnpruned(keys, events);
            p < |full| && HasFate(full[p], RunUnpruned(keys, events[..n])[p], events, n)
  {
    var entered := RunUnpruned(keys, events[..n]);
    assert events == events[..n] + events[n..];
    RunUnprunedSplit(keys, events[..n], events[n..]);
    FateOf(entered, events[n..], p);
    FateShifts(RunUnpruned(entered, events[n..])[p], entered[p], events, n);
  }

  lemma {:induction false} RotationOrNone(events: seq<Event>, n: nat, alg: Algorithm)
    requires n <= |events|
    ensures NoRotation(events, n, |events|, alg) || exists m: nat :: NextRotation(events, n, alg, m)
    decreases |events|
  {
    if |events| > n {
      var before := events[..|events| - 1];
      RotationOrNone(before, n, alg);
      if NoRotation(before, n, |before|, alg) {
        assert forall i :: n <= i < |before| ==> events[i] == before[i];
        assert NoRotation(events, n, |before|, alg);
        if !NoRotation(events, n, |events|, alg) {
          assert NextRotation(events, n, alg, |before|);
        }
      } else {
        var m: nat :| NextRotation(before, n, alg, m);
        assert forall i :: n <= i <= m ==> events[i] == before[i];
        assert NextRotation(events, n, alg, m);
      }
    }
  }

  /** With distinct kids, a key is found by its kid, unretired, until the next rotation of its algorithm; from that
      rotation on it is found, retired, exactly until the grace that rotation gave it is over. */
  lemma {:induction false} FoundExactlyUntilGraceEnds(
    cfg: Config, start: int, events: seq<Event>, n: nat, k: SigningKey, now: int)
    requires Between(events, start, now) && Introduced(cfg, start, events, n, k)
    requires Distinct(Kids(Seed(cfg, start)) + RotationKids(events))
    ensures var found := Find(Run(Seed(cfg, start), events), k.kid, now);
            && (forall m: nat | NextRotation(events, n, k.algorithm, m) ::
                  var deadline := events[m].at + events[m].grace;
                  found == if now < deadline then Some(k.(isCurrent := false, expiresAt := Some(deadline))) else None)
            && (NoRotation(events, n, |events|, k.algorithm) ==> found == Some(k))
  {
    var seed := Seed(cfg, start);
    PruningIsInvisible(cfg, start, events, now, k.kid, k.algorithm);
    KidsOfRun(seed, events);
    var p := IntroducedAt(cfg, start, events, n, k);
    IntroducedPermanent(cfg, start, events, n, k);
    FateInRun(seed, events, n, p);
    FindAt(RunUnpruned(seed, events), p, now);
  }

  lemma IntroducedPermanent(cfg: Config, start: int, events: seq<Event>, n: nat, k: SigningKey)
    requires Introduced(cfg, start, events, n, k)
    ensures k.isCurrent && k.expiresAt.None?
  {
  }

  /** Distinct kids are needed already at seeding: the PEM's key is found by its own kid unless that kid is configured
      to be the one the HS256 key has. */
  lemma SeededKidMayBeTaken(cfg: Config, start: int, now: int)
    requires Seeded(cfg, RS256)
    ensures var seed := Seed(cfg, start);
            (Find(seed, seed[1].kid, now) == Some(seed[1])) <==> cfg.pemKid != Some("hs256-initial")
  {
    var seed := Seed(cfg, start);
    FindUnfolds(seed, seed[1].kid, now);
    FindUnfolds(seed[1..], seed[1].kid, now);
    assert "rs256-initial"[0] != "hs256-initial"[0];
  }

  // ---- Main result: the static-PEM fallbacks are unreachable ----

  function Materials(keys: seq<SigningKey>): (r: seq<string>)
    ensures |r| == |keys| && forall i :: 0 <= i < |keys| ==> r[i] == keys[i].material
  {
    if keys == [] then [] else [keys[0].material] + Materials(keys[1..])
  }

  /** What a logout hint is verified against, before the fallback to the configured PEM. */
  function KeySetMaterials(keys: seq<SigningKey>, kid: Option<string>, now: int): seq<string> {
    var found := if kid.Some? && kid.value != "" then Find(keys, kid.value, now) else None;
    if found.Some? && found.value.algorithm == RS256 then [found.value.material]
    else Materials(ActiveForAlg(keys, RS256, now))
  }

  function HintMaterials(cfg: Config, keys: seq<SigningKey>, kid: Option<string>, now: int): seq<string> {
    var materials := KeySetMaterials(keys, kid, now);
    if materials == [] && cfg.pem.Some? && cfg.pem.value != "" then [cfg.pem.value] else materials
  }

  /** A published key: its kid, absent in the fallback when none is configured, and the material it is derived from. */
  datatype PublishedKey = PublishedKey(kid: Option<string>, material: string)

  function Publish(keys: seq<SigningKey>): (r: seq<PublishedKey>)
    ensures |r| == |keys| && forall i :: 0 <= i < |keys| ==> r[i] == PublishedKey(Some(keys[i].kid), keys[i].material)
  {
    if keys == [] then [] else [PublishedKey(Some(keys[0].kid), keys[0].material)] + Publish(keys[1..])
  }

  function Jwks(cfg: Config, idTokenAlg: Algorithm, keys: seq<SigningKey>, now: int): seq<PublishedKey> {
    var published := Publish(OfAlgorithm(Active(keys, now), RS256));
    if published == [] && idTokenAlg == RS256 && cfg.pem.Some? && cfg.pem.value != "" then
      [PublishedKey(if cfg.pemKid.Some? && cfg.pemKid.value != "" then cfg.pemKid else None, cfg.pem.value)]
    else published
  }

  lemma {:induction false} CurrentsAmongAlgorithm(keys: seq<SigningKey>, alg: Algorithm)
    ensures forall k :: k in Currents(keys, alg) ==> k in OfAlgorithm(keys, alg)
    decreases |keys|
  {
    if keys != [] {
      CurrentsAmongAlgorithm(keys[1..], alg);
    }
  }

  lemma {:induction false} ActiveForAlgMembers(keys: seq<SigningKey>, alg: Algorithm, now: int)
    ensures forall k :: k in ActiveForAlg(keys, alg, now) <==> k in keys && k.algorithm == alg && IsActive(k, now)
    decreases |keys|
  {
    if keys != [] {
      ActiveUnfolds(keys, now);
      ActiveForAlgMembers(keys[1..], alg, now);
    }
  }

  lemma {:induction false} FoundIsActive(keys: seq<SigningKey>, kid: string, now: int)
    ensures Find(keys, kid, now).Some?
            ==> var k := Find(keys, kid, now).value; k in keys && k.kid == kid && IsActive(k, now)
    decreases |keys|
  {
    if keys != [] {
      FindUnfolds(keys, kid, now);
      FoundIsActive(keys[1..], kid, now);
    }
  }

  lemma HintMaterialsFromSet(cfg: Config, keys: seq<SigningKey>, kid: Option<string>, now: int)
    requires ActiveForAlg(keys, RS256, now) != []
    ensures HintMaterials(cfg, keys, kid, now) == KeySetMaterials(keys, kid, now) != []
    ensures forall m | m in KeySetMaterials(keys, kid, now) ::
              exists k :: k in keys && k.algorithm == RS256 && IsActive(k, now) && k.material == m
  {
    if kid.Some? {
      FoundIsActive(keys, kid.value, now);
    }
    ActiveForAlgMembers(keys, RS256, now);
    var active := ActiveForAlg(keys, RS256, now);
    forall m | m in Materials(active)
      ensures exists k :: k in keys && k.algorithm == RS256 && IsActive(k, now) && k.material == m
    {
      var i :| 0 <= i < |active| && Materials(active)[i] == m;
      assert active[i] in active;
    }
  }

  lemma CurrentIsPublished(cfg: Config, idTokenAlg: Algorithm, keys: seq<SigningKey>, now: int)
    requires CurrentForAlg(keys, RS256, now).Some?
    ensures ActiveForAlg(keys, RS256, now) != []
    ensures Jwks(cfg, idTokenAlg, keys, now) == Publish(ActiveForAlg(keys, RS256, now))
    ensures var c := CurrentForAlg(keys, RS256, now).value;
            c.isCurrent && PublishedKey(Some(c.kid), c.material) in Jwks(cfg, idTokenAlg, keys, now)
  {
    var active := ActiveForAlg(keys, RS256, now);
    CurrentsAreCurrent(Active(keys, now), RS256);
    CurrentsAmongAlgorithm(Active(keys, now), RS256);
    var c := CurrentForAlg(keys, RS256, now).value;
    assert c == Currents(Active(keys, now), RS256)[0];
    assert c in active;
    var i :| 0 <= i < |active| && active[i] == c;
    assert Publish(active)[i] == PublishedKey(Some(c.kid), c.material);
  }

  /** Once a PEM is seeded, in every run and at every time, hint verification and key publication never fall back to it:
      every material tried and every key published is that of a stored, active RS256 key, the current one among those
      published.  So a hint signed by an expired key is not verified against the configured PEM in its stead. */
  lemma FallbacksUnreachable(cfg: Config, start: int, events: seq<Event>, kid: Option<string>, alg: Algorithm, now: int)
    requires Seeded(cfg, RS256)
    ensures var keys := Run(Seed(cfg, start), events);
            && HintMaterials(cfg, keys, kid, now) == KeySetMaterials(keys, kid, now) != []
            && (forall m :: m in HintMaterials(cfg, keys, kid, now)
                  ==> exists k :: k in keys && k.algorithm == RS256 && IsActive(k, now) && k.material == m)
            && Jwks(cfg, alg, keys, now) == Publish(ActiveForAlg(keys, RS256, now)) != []
            && CurrentForAlg(keys, RS256, now).Some?
            && var c := CurrentForAlg(keys, RS256, now).value;
               c.isCurrent && PublishedKey(Some(c.kid), c.material) in Jwks(cfg, alg, keys, now)
  {
    AlwaysOneCurrentKey(cfg, start, events, RS256, now);
    var keys := Run(Seed(cfg, start), events);
    CurrentIsPublished(cfg, alg, keys, now);
    HintMaterialsFromSet(cfg, keys, kid, now);
  }

  /** Which materials a logout hint is verified against: that of the active RS256 key it names, else those of all active
      RS256 keys, else, if there is none, the configured PEM. */
  lemma HintMaterialsExactly(cfg: Config, keys: seq<SigningKey>, kid: Option<string>, now: int, m: string)
    ensures var named := if kid.Some? && kid.value != "" then Find(keys, kid.value, now) else None;
            var active := set k | k in keys && k.algorithm == RS256 && IsActive(k, now) :: k.material;
            m in HintMaterials(cfg, keys, kid, now)
            <==> (if named.Some? && named.value.algorithm == RS256 then m == named.value.material
                  else if active != {} then m in active
                  else m != "" && cfg.pem == Some(m))
  {
    ActiveForAlgMembers(keys, RS256, now);
    var found := ActiveForAlg(keys, RS256, now);
    var active := set k | k in keys && k.algorithm == RS256 && IsActive(k, now) :: k.material;
    assert m in Materials(found) <==> m in active by {
      if m in Materials(found) {
        var i :| 0 <= i < |found| && Materials(found)[i] == m;
        assert found[i] in found;
      }
      if m in active {
        var k :| k in keys && k.algorithm == RS256 && IsActive(k, now) && k.material == m;
        var i :| 0 <= i < |found| && found[i] == k;
        assert Materials(found)[i] == m;
      }
    }
    assert found == [] <==> active == {} by {
      if found != [] {
        assert found[0] in found && found[0].material in active;
      }
    }
  }

  // ---- Main result: which key is current ----

  ghost predicate LastRotation(events: seq<Event>, alg: Algorithm, m: nat) {
    && m < |events| && events[m].Rotation? && events[m].algorithm == alg
    && NoRotation(events, m + 1, |events|, alg)
  }

  lemma {:induction false} CurrentsUntouched(keys: seq<SigningKey>, events: seq<Event>, alg: Algorithm)
    requires CurrentsPermanent(keys) && NoRotation(events, 0, |events|, alg)
    ensures Currents(Run(keys, events), alg) == Currents(keys, alg)
    decreases |events|
  {
    if events != [] {
      var e := events[0];
      PermanentApply(keys, e);
      CurrentsUntouched(Apply(keys, e), events[1..], alg);
      match e
      case Rotation(kid, a, material, grace, at) =>
        CurrentsRetire(keys, a, at + grace, alg);
        CurrentsAppend(Retire(keys, a, at + grace), [NewKey(kid, a, material, at)], alg);
      case Pruning(at) => CurrentsActive(keys, alg, at);
    }
  }

  lemma CurrentsAfterRotation(keys: seq<SigningKey>, e: Event)
    requires e.Rotation?
    ensures Currents(Apply(keys, e), e.algorithm) == [NewKey(e.kid, e.algorithm, e.material, e.at)]
  {
    var newKey := NewKey(e.kid, e.algorithm, e.material, e.at);
    CurrentsRetire(keys, e.algorithm, e.at + e.grace, e.algorithm);
    CurrentsAppend(Retire(keys, e.algorithm, e.at + e.grace), [newKey], e.algorithm);
    assert [newKey][1..] == [];
  }

  lemma {:induction false} CurrentsFollowRotation(keys: seq<SigningKey>, events: seq<Event>, alg: Algorithm, m: nat)
    requires CurrentsPermanent(keys) && LastRotation(events, alg, m)
    ensures Currents(Run(keys, events), alg) == [NewKey(events[m].kid, alg, events[m].material, events[m].at)]
    decreases |events|
  {
    PermanentApply(keys, events[0]);
    if m == 0 {
      CurrentsAfterRotation(keys, events[0]);
      CurrentsUntouched(Apply(keys, events[0]), events[1..], alg);
    } else {
      assert forall i :: m <= i < |events| - 1 ==> events[1..][i] == events[i + 1];
      CurrentsFollowRotation(Apply(keys, events[0]), events[1..], alg, m - 1);
    }
  }

  /** In every run and at any time, the current key of an algorithm is the one its last rotation brought; before any
      rotation it is the seeded one: the configured secret, or the configured PEM under its configured kid. */
  lemma CurrentIsTheLatest(cfg: Config, start: int, events: seq<Event>, alg: Algorithm, now: int)
    ensures var current := CurrentForAlg(Run(Seed(cfg, start), events), alg, now);
            && (forall m: nat | LastRotation(events, alg, m) ::
                  current == Some(NewKey(events[m].kid, alg, events[m].material, events[m].at)))
            && (NoRotation(events, 0, |events|, alg) ==>
                  match alg
                  case HS256 => current == Some(NewKey("hs256-initial", HS256, cfg.jwtSecret, start))
                  case RS256 =>
                    if cfg.pem.None? || cfg.pem.value == "" then current == None
                    else
                      var kid := if cfg.pemKid in {None, Some("")} then "rs256-initial" else cfg.pemKid.value;
                      current == Some(NewKey(kid, RS256, cfg.pem.value, start)))
  {
    var seed := Seed(cfg, start);
    SeedIsCurrent(cfg, start, alg);
    PermanentRun(seed, events);
    CurrentsActive(Run(seed, events), alg, now);
    forall m: nat | LastRotation(events, alg, m)
      ensures Currents(Run(seed, events), alg) == [NewKey(events[m].kid, alg, events[m].material, events[m].at)]
    {
      CurrentsFollowRotation(seed, events, alg, m);
    }
    if NoRotation(events, 0, |events|, alg) {
      CurrentsUntouched(seed, events, alg);
      SeedCurrents(cfg, start, alg);
    }
  }

  lemma SeedCurrents(cfg: Config, start: int, alg: Algorithm)
    ensures Currents(Seed(cfg, start), alg)
         == match alg
            case HS256 => [Seed(cfg, start)[0]]
            case RS256 => Seed(cfg, start)[1..]
  {
    var seed := Seed(cfg, start);
    var tail := seed[1..];
    if Seeded(cfg, RS256) {
      assert tail[1..] == [] && tail == [seed[1]];
      assert Currents(tail, alg) == if alg == RS256 then [seed[1]] else [];
    } else {
      assert tail == [];
    }
  }

  lemma {:induction false} PermanentRun(keys: seq<SigningKey>, events: seq<Event>)
    requires CurrentsPermanent(keys)
    ensures CurrentsPermanent(Run(keys, events))
    decreases |events|
  {
    if events != [] {
      PermanentApply(keys, events[0]);
      PermanentRun(Apply(keys, events[0]), events[1..]);
    }
  }
}
