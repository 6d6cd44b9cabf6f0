/** In-memory replay guards: a map from key to expiry, swept on every call.  The DPoP replay store
    (services/dpop.py) and the jti guard (services/client_assertion.py) are two uses of it. */
module ReplayGuards {
  import opened Prelude

  type Entries = map<string, real>

  datatype Observation = Fresh | Seen | Full

  // ---- The operation on values ----

  function Sweep(entries: Entries, now: real): Entries {
    map k | k in entries && !(entries[k] <= now) :: entries[k]
  }

  /** Sweep, then refuse a key that is still there, then refuse anything beyond the capacity (if there is one), else
      remember the key for `ttl` seconds. */
  function Observe(entries: Entries, capacity: Option<nat>, key: string, ttl: real, now: real): (Entries, Observation) {
    var swept := Sweep(entries, now);
    if key in swept then (swept, Seen)
    else if capacity.Some? && |swept| >= capacity.value then (swept, Full)
    else (swept[key := now + ttl], Fresh)
  }

  /** The DPoP replay store: unbounded, one lifetime for all. */
  class DpopReplayStore {
    var entries: Entries

    constructor ()
      ensures entries == map[]
    {
      entries := map[];
    }

    method CheckAndInsert(jti: string, now: real) returns (accepted: bool)
      modifies this
      ensures (entries, if accepted then Fresh else Seen)
           == Observe(old(entries), None, jti, REPLAY_TTL_SECS as real, now)
    {
      SweepExpired(now);
      if jti in entries {
        return false;
      }
      entries := entries[jti := now + REPLAY_TTL_SECS as real];
      return true;
    }

    method SweepExpired(now: real)
      modifies this
      ensures entries == Sweep(old(entries), now)
    {
      var expired := set k | k in entries && entries[k] <= now;
      ghost var all := expired;
      while expired != {}
        invariant expired <= all
        invariant entries == old(entries) - (all - expired)
        decreases expired
      {
        var k :| k in expired;
        entries := entries - {k};
        expired := expired - {k};
      }
    }
  }

  /** The jti guard: bounded, with the lifetime of each assertion clamped to the maximum. */
  class JtiReplayGuard {
    var entries: Entries
    const maxEntries: nat

    constructor (max: int)
      ensures entries == map[] && maxEntries == AtLeastOne(max)
    {
      entries, maxEntries := map[], AtLeastOne(max);
    }

    method ObserveJti(clientId: string, jti: string, ttlSecs: real, now: real) returns (o: Observation)
      modifies this
      ensures (entries, o) == Observe(old(entries), Some(maxEntries), GuardKey(clientId, jti), ClampTtl(ttlSecs), now)
    {
      var ttl := Min(Max(ttlSecs, 0.0), MAX_JTI_TTL_SECS as real);
      SweepExpired(now);
      var key := GuardKey(clientId, jti);
      if key in entries {
        return Seen;
      }
      if |entries| >= maxEntries {
        return Full;
      }
      entries := entries[key := now + ttl];
      return Fresh;
    }

    method SweepExpired(now: real)
      modifies this
      ensures entries == Sweep(old(entries), now)
    {
      var expired := set k | k in entries && entries[k] <= now;
      ghost var all := expired;
      while expired != {}
        invariant expired <= all
        invariant entries == old(entries) - (all - expired)
        decreases expired
      {
        var k :| k in expired;
        entries := entries - {k};
        expired := expired - {k};
      }
    }
  }

  const REPLAY_TTL_SECS := 660
  const DPOP_IAT_SKEW_SECS := 300
  const MAX_JTI_TTL_SECS := 300

  function ClampTtl(ttlSecs: real): real {
    Min(Max(ttlSecs, 0.0), MAX_JTI_TTL_SECS as real)
  }

  /** `f"{client_id}\\0{jti}"` */
  function GuardKey(clientId: string, jti: string): string {
    clientId + [0 as char] + jti
  }

  predicate NulFree(s: string) {
    forall i :: 0 <= i < |s| ==> s[i] != 0 as char
  }

  lemma FirstNul(a: string, x: string)
    requires NulFree(a)
    ensures var key := GuardKey(a, x);
            |a| < |key| && key[|a|] == 0 as char && (forall i :: 0 <= i < |a| ==> key[i] != 0 as char)
            && a == key[..|a|] && x == key[|a| + 1..]
  {
    assert forall i :: 0 <= i < |a| ==> GuardKey(a, x)[i] == a[i];
  }

  /** Keys stand for pairs when the namespaces have no NUL in them. */
  lemma KeysStandForPairs(a: string, x: string, b: string, y: string)
    requires NulFree(a) && NulFree(b)
    ensures GuardKey(a, x) == GuardKey(b, y) <==> a == b && x == y
  {
    FirstNul(a, x);
    FirstNul(b, y);
  }

  /** Without that, two pairs can share a key. */
  lemma KeysCollideOnNul()
    ensures var nul := [0 as char];
            GuardKey("a" + nul + "b", "c") == GuardKey("a", "b" + nul + "c") && "a" + nul + "b" != "a"
  {
    var nul := [0 as char];
    assert |"a" + nul + "b"| == 3;
  }

  // ---- Runs against an unbounded history ----

  datatype Call = Call(key: string, ttl: real, now: real)

  function Expiry(c: Call): real {
    c.now + c.ttl
  }

  ghost predicate Ordered(calls: seq<Call>) {
    forall i, j :: 0 <= i < j < |calls| ==> calls[i].now <= calls[j].now
  }

  /** The table after a run, and the answer to its last call. */
  function After(capacity: Option<nat>, calls: seq<Call>): Entries
    decreases |calls|
  {
    if calls == [] then map[] else LastObservation(capacity, calls).0
  }

  function LastObservation(capacity: Option<nat>, calls: seq<Call>): (Entries, Observation)
    requires calls != []
    decreases |calls|, 0
  {
    var c := calls[|calls| - 1];
    Observe(After(capacity, calls[..|calls| - 1]), capacity, c.key, c.ttl, c.now)
  }

  /** The accepted calls of a run, in order: an unbounded history. */
  function Log(capacity: Option<nat>, calls: seq<Call>): seq<Call>
    decreases |calls|
  {
    if calls == [] then []
    else
      var earlier := Log(capacity, calls[..|calls| - 1]);
      if LastObservation(capacity, calls).1 == Fresh then earlier + [calls[|calls| - 1]] else earlier
  }

  /** Some accepted call for `key` is still within its lifetime. */
  ghost predicate Live(log: seq<Call>, key: string, now: real) {
    exists i :: 0 <= i < |log| && log[i].key == key && now < Expiry(log[i])
  }

  ghost predicate Recorded(log: seq<Call>, key: string, expiry: real) {
    exists i :: 0 <= i < |log| && log[i].key == key && Expiry(log[i]) == expiry
  }

  /** What the table remembers at `now`: every accepted call still alive, and nothing that was not accepted. */
  ghost predicate Remembers(log: seq<Call>, entries: Entries, now: real) {
    && (forall k :: k in entries ==> Recorded(log, k, entries[k]))
    && (forall i :: 0 <= i < |log| && now < Expiry(log[i]) ==>
          log[i].key in entries && entries[log[i].key] == Expiry(log[i]))
  }

  lemma SweepKeepsLive(log: seq<Call>, entries: Entries, before: real, now: real)
    requires Remembers(log, entries, before) && before <= now
    ensures Remembers(log, Sweep(entries, now), now)
    ensures forall k :: k in Sweep(entries, now) <==> Live(log, k, now)
  {
    forall k | k in Sweep(entries, now)
      ensures Live(log, k, now)
    {
      assert Recorded(log, k, entries[k]);
    }
  }

  lemma InsertRemembers(log: seq<Call>, swept: Entries, c: Call)
    requires Remembers(log, swept, c.now) && c.key !in swept
    ensures Remembers(log + [c], swept[c.key := Expiry(c)], c.now)
  {
    var entries, log' := swept[c.key := Expiry(c)], log + [c];
    forall k | k in entries
      ensures Recorded(log', k, entries[k])
    {
      if k == c.key {
        assert log'[|log|] == c;
      } else {
        var i :| 0 <= i < |log| && log[i].key == k && Expiry(log[i]) == swept[k];
        assert log'[i] == log[i];
      }
    }
  }

  lemma ObserveRemembers(capacity: Option<nat>, log: seq<Call>, entries: Entries, before: real, c: Call)
    requires Remembers(log, entries, before) && before <= c.now
    ensures var (entries', o) := Observe(entries, capacity, c.key, c.ttl, c.now);
            Remembers(if o == Fresh then log + [c] else log, entries', c.now)
  {
    SweepKeepsLive(log, entries, before, c.now);
    var swept := Sweep(entries, c.now);
    var o := Observe(entries, capacity, c.key, c.ttl, c.now).1;
    if o == Fresh {
      InsertRemembers(log, swept, c);
    }
  }

  lemma {:induction false} RunRemembers(capacity: Option<nat>, calls: seq<Call>, now: real)
    requires Ordered(calls) && (calls != [] ==> calls[|calls| - 1].now <= now)
    ensures Remembers(Log(capacity, calls), After(capacity, calls), now)
    decreases |calls|
  {
    if calls != [] {
      var init, c := calls[..|calls| - 1], calls[|calls| - 1];
      RunRemembers(capacity, init, c.now);
      ObserveRemembers(capacity, Log(capacity, init), After(capacity, init), c.now, c);
    }
  }

  /** The guard refines an unbounded history.  In every run, the next call is refused as seen exactly when an accepted
      call for its key is still alive; it is refused as full exactly when it is not seen and as many keys are alive as
      there is room for; and no live entry is ever evicted: the keys found by the call are exactly the live ones. */
  lemma GuardRefinesHistory(capacity: Option<nat>, calls: seq<Call>, c: Call)
    requires Ordered(calls + [c])
    ensures var log, found := Log(capacity, calls), Sweep(After(capacity, calls), c.now).Keys;
            var o := LastObservation(capacity, calls + [c]).1;
            && (forall k :: k in found <==> Live(log, k, c.now))
            && (o == Seen <==> Live(log, c.key, c.now))
            && (o == Full <==> !Live(log, c.key, c.now) && capacity.Some? && |found| >= capacity.value)
  {
    var all := calls + [c];
    assert all[..|calls|] == calls && all[|calls|] == c;
    assert forall i :: 0 <= i < |calls| ==> calls[i] == all[i];
    RunRemembers(capacity, calls, c.now);
    SweepKeepsLive(Log(capacity, calls), After(capacity, calls), c.now, c.now);
    var swept := Sweep(After(capacity, calls), c.now);
    assert |swept| == |swept.Keys|;
  }

  /** Call `i` of the run was accepted. */
  predicate Accepted(capacity: Option<nat>, calls: seq<Call>, i: nat)
    requires i < |calls|
  {
    LastObservation(capacity, calls[..i + 1]).1 == Fresh
  }

  /** What a history gains after its first `from` calls comes from later accepted calls only. */
  lemma {:induction false} LogGrows(capacity: Option<nat>, calls: seq<Call>, from: nat, until: nat, key: string)
    requires from <= until <= |calls|
    requires forall i :: from <= i < until && Accepted(capacity, calls, i) ==> calls[i].key != key
    ensures var short, long := Log(capacity, calls[..from]), Log(capacity, calls[..until]);
            short <= long && forall x :: |short| <= x < |long| ==> long[x].key != key
    decreases until - from
  {
    if from < until {
      LogGrows(capacity, calls, from, until - 1, key);
      assert calls[..until][..until - 1] == calls[..until - 1];
      assert Accepted(capacity, calls, until - 1) ==> calls[until - 1].key != key;
    }
  }

  lemma NothingElseAlive(capacity: Option<nat>, calls: seq<Call>, i: nat)
    requires Ordered(calls) && i < |calls| && Accepted(capacity, calls, i)
    ensures Log(capacity, calls[..i + 1]) == Log(capacity, calls[..i]) + [calls[i]]
    ensures !Live(Log(capacity, calls[..i]), calls[i].key, calls[i].now)
  {
    assert calls[..i + 1][..i] == calls[..i] && calls[..i + 1] == calls[..i] + [calls[i]];
    GuardRefinesHistory(capacity, calls[..i], calls[i]);
  }

  /** The exact condition for a second acceptance.  After an accepted call, the next call for the same key is refused as
      seen exactly while the first one's lifetime lasts. */
  lemma SeenExactlyWithinLifetime(capacity: Option<nat>, calls: seq<Call>, i: nat, j: nat)
    requires Ordered(calls) && i < j < |calls| && calls[i].key == calls[j].key && Accepted(capacity, calls, i)
    requires forall x :: i < x < j && Accepted(capacity, calls, x) ==> calls[x].key != calls[i].key
    ensures LastObservation(capacity, calls[..j + 1]).1 == Seen <==> calls[j].now < Expiry(calls[i])
  {
    var key, now := calls[i].key, calls[j].now;
    NothingElseAlive(capacity, calls, i);
    LogGrows(capacity, calls, i + 1, j, key);
    var short, long := Log(capacity, calls[..i]), Log(capacity, calls[..j]);
    assert calls[..j + 1] == calls[..j] + [calls[j]];
    GuardRefinesHistory(capacity, calls[..j], calls[j]);
    assert long[|short|] == calls[i];
    assert forall x :: 0 <= x < |short| ==> long[x] == short[x];
  }

  /** Any accepted call blocks its key for its whole lifetime, whatever else was accepted in between. */
  lemma BlockedWhileAlive(capacity: Option<nat>, calls: seq<Call>, i: nat, j: nat)
    requires Ordered(calls) && i < j < |calls| && calls[i].key == calls[j].key
    requires Accepted(capacity, calls, i) && calls[j].now < Expiry(calls[i])
    ensures LastObservation(capacity, calls[..j + 1]).1 == Seen
  {
    NothingElseAlive(capacity, calls, i);
    LogPrefix(capacity, calls, i + 1, j);
    var short, long := Log(capacity, calls[..i]), Log(capacity, calls[..j]);
    assert calls[..j + 1] == calls[..j] + [calls[j]];
    GuardRefinesHistory(capacity, calls[..j], calls[j]);
    assert long[|short|] == calls[i];
  }

  lemma {:induction false} LogPrefix(capacity: Option<nat>, calls: seq<Call>, from: nat, until: nat)
    requires from <= until <= |calls|
    ensures Log(capacity, calls[..from]) <= Log(capacity, calls[..until])
    decreases until - from
  {
    if from < until {
      LogPrefix(capacity, calls, from, until - 1);
      assert calls[..until][..until - 1] == calls[..until - 1];
    }
  }

  // ---- Runs of attempts, of which only some get as far as the guard ----

  /** The calls a run of attempts makes on the guard, each attempt making one or none. */
  function Flatten(attempts: seq<Option<Call>>): (calls: seq<Call>)
    ensures attempts != [] && attempts[|attempts| - 1].Some? ==>
              calls != [] && calls[|calls| - 1] == attempts[|attempts| - 1].value
    decreases |attempts|
  {
    if attempts == [] then []
    else
      var last := attempts[|attempts| - 1];
      Flatten(attempts[..|attempts| - 1]) + (if last.Some? then [last.value] else [])
  }

  ghost predicate OrderedAttempts(attempts: seq<Option<Call>>) {
    forall i, j :: 0 <= i < j < |attempts| && attempts[i].Some? && attempts[j].Some? ==>
      attempts[i].value.now <= attempts[j].value.now
  }

  /** The guard's answer to attempt `i`. */
  function Answer(capacity: Option<nat>, attempts: seq<Option<Call>>, i: nat): Observation
    requires i < |attempts| && attempts[i].Some?
  {
    LastObservation(capacity, Flatten(attempts[..i + 1])).1
  }

  /** Where the call of attempt `i` sits in a longer run. */
  lemma {:induction false} CallInRun(attempts: seq<Option<Call>>, i: nat, n: nat)
    requires i < n <= |attempts| && attempts[i].Some?
    ensures var calls, x := Flatten(attempts[..n]), |Flatten(attempts[..i])|;
            x < |calls| && calls[x] == attempts[i].value && calls[..x + 1] == Flatten(attempts[..i + 1])
    decreases n
  {
    assert attempts[..n][..n - 1] == attempts[..n - 1];
    if i < n - 1 {
      CallInRun(attempts, i, n - 1);
    }
  }

  lemma {:induction false} CallComesFrom(attempts: seq<Option<Call>>, n: nat, x: nat) returns (y: nat)
    requires n <= |attempts| && x < |Flatten(attempts[..n])|
    ensures y < n && attempts[y].Some? && x == |Flatten(attempts[..y])|
    decreases n
  {
    assert attempts[..n][..n - 1] == attempts[..n - 1];
    if x < |Flatten(attempts[..n - 1])| {
      y := CallComesFrom(attempts, n - 1, x);
    } else {
      y := n - 1;
    }
  }

  lemma {:induction false} FlattenGrows(attempts: seq<Option<Call>>, i: nat, j: nat)
    requires i <= j <= |attempts|
    ensures |Flatten(attempts[..i])| <= |Flatten(attempts[..j])|
    decreases j - i
  {
    if i < j {
      FlattenGrows(attempts, i, j - 1);
      assert attempts[..j][..j - 1] == attempts[..j - 1];
    }
  }

  lemma FlattenOrdered(attempts: seq<Option<Call>>, n: nat)
    requires OrderedAttempts(attempts) && n <= |attempts|
    ensures Ordered(Flatten(attempts[..n]))
  {
    var calls := Flatten(attempts[..n]);
    forall x, z | 0 <= x < z < |calls|
      ensures calls[x].now <= calls[z].now
    {
      var i := CallComesFrom(attempts, n, x);
      var j := CallComesFrom(attempts, n, z);
      CallInRun(attempts, i, n);
      CallInRun(attempts, j, n);
      if j <= i {
        FlattenGrows(attempts, j, i);
      }
    }
  }

  /** Two attempts that reach the guard, as two calls of one run. */
  lemma PairOfCalls(attempts: seq<Option<Call>>, i: nat, j: nat) returns (calls: seq<Call>, x: nat)
    requires OrderedAttempts(attempts) && i < j < |attempts| && attempts[i].Some? && attempts[j].Some?
    ensures Ordered(calls) && x < |calls| - 1 && x == |Flatten(attempts[..i])|
    ensures calls[..x + 1] == Flatten(attempts[..i + 1]) && calls[..|calls|] == calls == Flatten(attempts[..j + 1])
    ensures calls[x] == attempts[i].value && calls[|calls| - 1] == attempts[j].value
  {
    calls, x := Flatten(attempts[..j + 1]), |Flatten(attempts[..i])|;
    LastCall(attempts, j);
    CallInRun(attempts, i, j);
    CallInRun(attempts, i, j + 1);
    FlattenOrdered(attempts, j + 1);
  }

  lemma LastCall(attempts: seq<Option<Call>>, i: nat)
    requires i < |attempts| && attempts[i].Some?
    ensures Flatten(attempts[..i + 1]) == Flatten(attempts[..i]) + [attempts[i].value]
  {
    assert attempts[..i + 1][..i] == attempts[..i];
  }

  /** An accepted attempt blocks its key for its whole lifetime. */
  lemma AttemptBlocked(capacity: Option<nat>, attempts: seq<Option<Call>>, i: nat, j: nat)
    requires OrderedAttempts(attempts) && i < j < |attempts| && attempts[i].Some? && attempts[j].Some?
    requires attempts[i].value.key == attempts[j].value.key && Answer(capacity, attempts, i) == Fresh
    requires attempts[j].value.now < Expiry(attempts[i].value)
    ensures Answer(capacity, attempts, j) == Seen
  {
    var calls, x := PairOfCalls(attempts, i, j);
    BlockedWhileAlive(capacity, calls, x, |calls| - 1);
  }

  /** An accepted call between those of two attempts was made by an attempt between them. */
  lemma AcceptedBetween(capacity: Option<nat>, attempts: seq<Option<Call>>, i: nat, j: nat, z: nat) returns (y: nat)
    requires i < j < |attempts| && attempts[j].Some?
    requires |Flatten(attempts[..i])| < z < |Flatten(attempts[..j + 1])| - 1
    requires Accepted(capacity, Flatten(attempts[..j + 1]), z)
    ensures i < y < j && attempts[y].Some? && attempts[y].value == Flatten(attempts[..j + 1])[z]
    ensures Answer(capacity, attempts, y) == Fresh
  {
    assert attempts[..j + 1][..j] == attempts[..j];
    y := CallComesFrom(attempts, j, z);
    CallInRun(attempts, y, j + 1);
    if y <= i {
      FlattenGrows(attempts, y, i);
    }
  }

  /** The next attempt on an accepted key is refused as seen exactly while that lifetime lasts. */
  lemma AttemptSeenExactly(capacity: Option<nat>, attempts: seq<Option<Call>>, i: nat, j: nat)
    requires OrderedAttempts(attempts) && i < j < |attempts| && attempts[i].Some? && attempts[j].Some?
    requires attempts[i].value.key == attempts[j].value.key && Answer(capacity, attempts, i) == Fresh
    requires forall y :: i < y < j && attempts[y].Some? && attempts[y].value.key == attempts[i].value.key ==>
               Answer(capacity, attempts, y) != Fresh
    ensures Answer(capacity, attempts, j) == Seen <==> attempts[j].value.now < Expiry(attempts[i].value)
  {
    var calls, x := PairOfCalls(attempts, i, j);
    forall z | x < z < |calls| - 1 && Accepted(capacity, calls, z)
      ensures calls[z].key != calls[x].key
    {
      var y := AcceptedBetween(capacity, attempts, i, j, z);
    }
    SeenExactlyWithinLifetime(capacity, calls, x, |calls| - 1);
  }

  lemma {:induction false} LogFromAccepted(capacity: Option<nat>, calls: seq<Call>, x: nat) returns (z: nat)
    requires x < |Log(capacity, calls)|
    ensures z < |calls| && Accepted(capacity, calls, z) && calls[z] == Log(capacity, calls)[x]
    decreases |calls|
  {
    var init := calls[..|calls| - 1];
    if x < |Log(capacity, init)| {
      z := LogFromAccepted(capacity, init, x);
      assert calls[..z + 1] == init[..z + 1];
    } else {
      z := |calls| - 1;
      assert calls[..z + 1] == calls;
    }
  }

  /** Attempt `y` was accepted and is still alive when attempt `i` asks about the same key. */
  ghost predicate Blocks(capacity: Option<nat>, attempts: seq<Option<Call>>, y: nat, i: nat)
    requires y < i < |attempts| && attempts[i].Some?
  {
    && attempts[y].Some? && attempts[y].value.key == attempts[i].value.key
    && Answer(capacity, attempts, y) == Fresh && attempts[i].value.now < Expiry(attempts[y].value)
  }

  ghost predicate Blocked(capacity: Option<nat>, attempts: seq<Option<Call>>, i: nat)
    requires i < |attempts| && attempts[i].Some?
  {
    exists y: nat :: y < i && Blocks(capacity, attempts, y, i)
  }

  lemma LiveIsBlocked(capacity: Option<nat>, attempts: seq<Option<Call>>, i: nat)
    requires i < |attempts| && attempts[i].Some?
    requires Live(Log(capacity, Flatten(attempts[..i])), attempts[i].value.key, attempts[i].value.now)
    ensures Blocked(capacity, attempts, i)
  {
    var calls := Flatten(attempts[..i]);
    var log := Log(capacity, calls);
    var x :| 0 <= x < |log| && log[x].key == attempts[i].value.key && attempts[i].value.now < Expiry(log[x]);
    var z := LogFromAccepted(capacity, calls, x);
    var y := CallComesFrom(attempts, i, z);
    CallInRun(attempts, y, i);
    assert Blocks(capacity, attempts, y, i);
  }

  /** An attempt is answered as seen if and only if an earlier accepted attempt on its key is alive; as full if and only
      if it is not, and as many keys are alive as there is room for. */
  lemma AnsweredExactly(capacity: Option<nat>, attempts: seq<Option<Call>>, i: nat)
    requires OrderedAttempts(attempts) && i < |attempts| && attempts[i].Some?
    ensures var found := Sweep(After(capacity, Flatten(attempts[..i])), attempts[i].value.now).Keys;
            && (Answer(capacity, attempts, i) == Seen <==> Blocked(capacity, attempts, i))
            && (Answer(capacity, attempts, i) == Full <==>
                  !Blocked(capacity, attempts, i) && capacity.Some? && |found| >= capacity.value)
  {
    var calls, c := Flatten(attempts[..i]), attempts[i].value;
    LastCall(attempts, i);
    FlattenOrdered(attempts, i + 1);
    GuardRefinesHistory(capacity, calls, c);
    if Live(Log(capacity, calls), c.key, c.now) {
      LiveIsBlocked(capacity, attempts, i);
    }
    if Blocked(capacity, attempts, i) {
      var y: nat :| y < i && Blocks(capacity, attempts, y, i);
      AttemptBlocked(capacity, attempts, y, i);
    }
  }

  /** Two calls in a row, the second after the first one's lifetime: both are accepted. */
  lemma TwoAccepted(capacity: Option<nat>, c: Call, d: Call)
    requires c.now <= d.now && Expiry(c) <= d.now && (capacity.Some? ==> capacity.value >= 1)
    ensures LastObservation(capacity, [c]).1 == Fresh && LastObservation(capacity, [c, d]).1 == Fresh
  {
    assert [c][..0] == [] && [c, d][..1] == [c];
    assert Sweep(map[], c.now) == map[];
    assert Sweep(map[c.key := Expiry(c)], d.now) == map[];
  }

  lemma TwoAttemptsAccepted(capacity: Option<nat>, c: Call, d: Call)
    requires c.now <= d.now && Expiry(c) <= d.now && (capacity.Some? ==> capacity.value >= 1)
    ensures var attempts := [Some(c), Some(d)];
            Answer(capacity, attempts, 0) == Fresh && Answer(capacity, attempts, 1) == Fresh
  {
    var attempts := [Some(c), Some(d)];
    assert attempts[..1] == [Some(c)] && attempts[..2] == attempts && attempts[..2][..1] == [Some(c)];
    assert [Some(c)][..0] == [];
    assert Flatten([Some(c)]) == [c] && Flatten(attempts) == [c, d];
    TwoAccepted(capacity, c, d);
  }
}

/** The time and replay tail of DPoP proof validation (services/dpop.py; sections 4.3 and 11.1 of RFC 9449). */
module DpopProofs {
  import opened Prelude
  import opened ReplayGuards

  /** One presentation of a proof, at one reading of the wall clock and one of the monotonic clock.  `iat` is
      absent when the claim is not a number. */
  datatype Presentation = Presentation(jti: string, iat: Option<real>, nonceOk: bool, wall: real, mono: real)

  predicate InWindow(p: Presentation) {
    p.iat.Some? && -(DPOP_IAT_SKEW_SECS as real) <= p.wall - p.iat.value <= DPOP_IAT_SKEW_SECS as real
  }

  /** The call a presentation makes on the shared store: a proof refused earlier does not burn its jti. */
  function AsCall(p: Presentation): Option<Call> {
    if InWindow(p) && p.nonceOk then Some(Call(p.jti, REPLAY_TTL_SECS as real, p.mono)) else None
  }

  function Calls(ps: seq<Presentation>): seq<Option<Call>> {
    seq(|ps|, i requires 0 <= i < |ps| => AsCall(ps[i]))
  }

  predicate Validates(ps: seq<Presentation>, i: nat)
    requires i < |ps|
  {
    AsCall(ps[i]).Some? && Answer(None, Calls(ps), i) == Fresh
  }

  method ValidateTail(store: DpopReplayStore, p: Presentation) returns (valid: bool)
    modifies store
    ensures if InWindow(p) && p.nonceOk
            then (store.entries, if valid then Fresh else Seen)
                   == Observe(old(store.entries), None, p.jti, REPLAY_TTL_SECS as real, p.mono)
            else !valid && store.entries == old(store.entries)
  {
    if p.iat.None? { return false; }
    var age := p.wall - p.iat.value;
    if !(-(DPOP_IAT_SKEW_SECS as real) <= age && age <= DPOP_IAT_SKEW_SECS as real) { return false; }
    if !p.nonceOk { return false; }
    valid := store.CheckAndInsert(p.jti, p.mono);
  }

  ghost predicate Ordered(ps: seq<Presentation>) {
    forall i, j :: 0 <= i < j < |ps| ==> ps[i].mono <= ps[j].mono
  }

  /** A proof, that is a fixed jti and iat, never validates twice, provided the monotonic clock gains less than sixty
      seconds on the wall clock between the two presentations: both fall within 600 seconds of wall time, and the entry
      lives 660 seconds of monotonic time. */
  lemma NoProofValidatesTwice(ps: seq<Presentation>, i: nat, j: nat)
    requires Ordered(ps) && i < j < |ps| && ps[i].jti == ps[j].jti && ps[i].iat == ps[j].iat
    requires (ps[j].mono - ps[i].mono) - (ps[j].wall - ps[i].wall) < 60.0
    ensures !(Validates(ps, i) && Validates(ps, j))
  {
    if Validates(ps, i) && AsCall(ps[j]).Some? {
      AttemptBlocked(None, Calls(ps), i, j);
    }
  }

  /** Presentation `y` validated, with the same jti, within the last 660 monotonic seconds. */
  ghost predicate JustValidated(ps: seq<Presentation>, y: nat, i: nat)
    requires y < i < |ps|
  {
    Validates(ps, y) && ps[y].jti == ps[i].jti && ps[i].mono - ps[y].mono < 660.0
  }

  lemma BlocksIsJustValidated(ps: seq<Presentation>, y: nat, i: nat)
    requires y < i < |ps| && AsCall(ps[i]).Some?
    ensures Blocks(None, Calls(ps), y, i) <==> JustValidated(ps, y, i)
  {
  }

  /** A presentation validates if and only if its iat is within 300 seconds of the wall clock, its nonce is in order,
      and no earlier presentation of its jti validated within the last 660 monotonic seconds. */
  lemma ValidatesExactly(ps: seq<Presentation>, i: nat)
    requires Ordered(ps) && i < |ps|
    ensures Validates(ps, i)
            <==> && ps[i].iat.Some? && -300.0 <= ps[i].wall - ps[i].iat.value <= 300.0 && ps[i].nonceOk
                 && forall y: nat :: y < i ==> !JustValidated(ps, y, i)
  {
    if AsCall(ps[i]).Some? {
      AnsweredExactly(None, Calls(ps), i);
      forall y: nat | y < i ensures Blocks(None, Calls(ps), y, i) <==> JustValidated(ps, y, i) {
        BlocksIsJustValidated(ps, y, i);
      }
    }
  }

  /** Exactly when a proof validates again: after a validation, the next presentation of the same jti that is otherwise
      in order is accepted if and only if 660 seconds of monotonic time have passed. */
  lemma ValidatesAgainExactlyAfterTtl(ps: seq<Presentation>, i: nat, j: nat)
    requires Ordered(ps) && i < j < |ps| && ps[i].jti == ps[j].jti && Validates(ps, i)
    requires InWindow(ps[j]) && ps[j].nonceOk
    requires forall y :: i < y < j && ps[y].jti == ps[i].jti ==> !Validates(ps, y)
    ensures Validates(ps, j) <==> ps[j].mono - ps[i].mono >= REPLAY_TTL_SECS as real
  {
    AttemptSeenExactly(None, Calls(ps), i, j);
  }

  /** Sixty seconds of drift are one too many: the same proof validates at both ends of its window. */
  lemma SixtySecondsOfDriftBreakIt()
    ensures var first := Presentation("j", Some(300.0), true, 0.0, 0.0);
            var second := Presentation("j", Some(300.0), true, 600.0, 660.0);
            var ps := [first, second];
            Ordered(ps) && (ps[1].mono - ps[0].mono) - (ps[1].wall - ps[0].wall) == 60.0
            && Validates(ps, 0) && Validates(ps, 1)
  {
    var ps := [Presentation("j", Some(300.0), true, 0.0, 0.0), Presentation("j", Some(300.0), true, 600.0, 660.0)];
    var c0, c1 := AsCall(ps[0]).value, AsCall(ps[1]).value;
    assert Calls(ps) == [Some(c0), Some(c1)];
    TwoAttemptsAccepted(None, c0, c1);
  }
}

/** Redeeming a jwt-bearer assertion (services/jwt_bearer_grant.py; section 3 of RFC 7523). */
module JwtBearer {
  import opened Prelude
  import opened ReplayGuards

  const IAT_SKEW_SECS := 60

  /** One attempt on the shared guard: an assertion whose issuer, signature and audience are already settled
      (`trusted`), with the wall-clock readings the library's expiry check and the handler take and the guard's
      monotonic reading; or a client assertion, which uses the same guard in another namespace. */
  datatype Attempt =
    | Assertion(trusted: bool, iss: string, jti: Option<string>, exp: real, iat: real,
                decodedAt: real, enforcedAt: real, mono: real)
    | ClientAssertion(clientId: string, clientJti: string, ttl: real, mono: real)

  /** Python's `int(x)`: truncation toward zero. */
  function Truncate(x: real): int {
    if x >= 0.0 then x.Floor else Ceil(x)
  }

  predicate NotExpired(a: Attempt)
    requires a.Assertion?
  {
    Truncate(a.exp) as real > a.decodedAt
  }

  function Ttl(a: Attempt): real
    requires a.Assertion?
  {
    Max(a.exp - a.enforcedAt, 0.0)
  }

  /** Everything that is checked before the guard is asked. */
  predicate ReachesGuard(a: Attempt)
    requires a.Assertion?
  {
    && a.trusted && NotExpired(a) && a.iat <= a.enforcedAt + IAT_SKEW_SECS as real
    && a.jti.Some? && a.jti.value != "" && Ttl(a) <= MAX_JTI_TTL_SECS as real
  }

  function Namespace(iss: string): string {
    "jwt-bearer:" + iss
  }

  function AsCall(a: Attempt): Option<Call> {
    match a
    case Assertion(_, iss, jti, _, _, _, _, mono) =>
      if ReachesGuard(a) then Some(Call(GuardKey(Namespace(iss), jti.value), ClampTtl(Ttl(a)), mono)) else None
    case ClientAssertion(clientId, jti, ttl, mono) => Some(Call(GuardKey(clientId, jti), ClampTtl(Max(ttl, 0.0)), mono))
  }

  function Calls(attempts: seq<Attempt>): seq<Option<Call>> {
    seq(|attempts|, i requires 0 <= i < |attempts| => AsCall(attempts[i]))
  }

  /** Attempt `i` was let through by `_enforce_replay`. */
  predicate Redeemed(max: nat, attempts: seq<Attempt>, i: nat)
    requires i < |attempts|
  {
    attempts[i].Assertion? && AsCall(attempts[i]).Some? && Answer(Some(max), Calls(attempts), i) == Fresh
  }

  method EnforceReplay(guard: JtiReplayGuard, a: Attempt) returns (redeemed: bool)
    requires a.Assertion?
    modifies guard
    ensures if ReachesGuard(a)
            then var (entries, o) := Observe(old(guard.entries), Some(guard.maxEntries),
                                             GuardKey(Namespace(a.iss), a.jti.value), ClampTtl(Ttl(a)), a.mono);
                 guard.entries == entries && (redeemed <==> o == Fresh)
            else !redeemed && guard.entries == old(guard.entries)
  {
    if !a.trusted { return false; }
    if !(Truncate(a.exp) as real > a.decodedAt) { return false; }
    if a.iat > a.enforcedAt + IAT_SKEW_SECS as real { return false; }
    if a.jti.None? || a.jti.value == "" { return false; }
    var ttl := Max(a.exp - a.enforcedAt, 0.0);
    if ttl > MAX_JTI_TTL_SECS as real { return false; }
    var o := guard.ObserveJti(Namespace(a.iss), a.jti.value, ttl, a.mono);
    redeemed := o == Fresh;
  }

  ghost predicate Ordered(attempts: seq<Attempt>) {
    forall i, j :: 0 <= i < j < |attempts| ==> attempts[i].mono <= attempts[j].mono
  }

  /** The TTL clamp never bites, since what would be clamped was refused: the guard remembers an assertion for
      exactly the life it has left when the guard is asked.  An assertion that got that far was not expired when it
      was decoded. */
  lemma AliveUntilExpiry(a: Attempt)
    requires a.Assertion? && ReachesGuard(a)
    ensures AsCall(a) == Some(Call(GuardKey(Namespace(a.iss), a.jti.value), Ttl(a), a.mono))
    ensures Ttl(a) >= a.exp - a.enforcedAt
    ensures a.decodedAt >= 0.0 ==> a.exp > a.decodedAt
  {
    assert a.decodedAt >= 0.0 ==> Truncate(a.exp) > 0;
    assert (Ceil(a.exp) - 1) as real < a.exp;
  }

  /** No assertion is redeemed twice in any run, whatever else uses the guard, if the monotonic clock advances
      between the two attempts by no more than the wall clock does from when the first is enforced to when the
      second is decoded. */
  lemma NoAssertionRedeemedTwice(max: nat, attempts: seq<Attempt>, i: nat, j: nat)
    requires Ordered(attempts) && i < j < |attempts| && attempts[i].Assertion? && attempts[j].Assertion?
    requires attempts[i].iss == attempts[j].iss && attempts[i].jti == attempts[j].jti
    requires attempts[i].exp == attempts[j].exp && attempts[j].decodedAt >= 0.0
    requires attempts[j].mono - attempts[i].mono <= attempts[j].decodedAt - attempts[i].enforcedAt
    ensures !(Redeemed(max, attempts, i) && Redeemed(max, attempts, j))
  {
    if Redeemed(max, attempts, i) && ReachesGuard(attempts[j]) {
      AliveUntilExpiry(attempts[i]);
      AliveUntilExpiry(attempts[j]);
      AttemptBlocked(Some(max), Calls(attempts), i, j);
    }
  }

  /** The special case of one wall-clock reading per request: then a monotonic clock that does not run ahead of the wall
      clock is enough. */
  lemma OneReadingSuffices(max: nat, attempts: seq<Attempt>, i: nat, j: nat)
    requires Ordered(attempts) && i < j < |attempts| && attempts[i].Assertion? && attempts[j].Assertion?
    requires attempts[i].iss == attempts[j].iss && attempts[i].jti == attempts[j].jti
    requires attempts[i].exp == attempts[j].exp && attempts[j].decodedAt == attempts[j].enforcedAt >= 0.0
    requires attempts[j].mono - attempts[i].mono <= attempts[j].enforcedAt - attempts[i].enforcedAt
    ensures !(Redeemed(max, attempts, i) && Redeemed(max, attempts, j))
  {
    NoAssertionRedeemedTwice(max, attempts, i, j);
  }

  /** Exactly when the guard stops refusing a redeemed assertion: the next attempt on it that gets as far as the
      guard is refused as seen if and only if the monotonic time since the redemption is less than the life the
      assertion had left when the guard was first asked.  How that attempt read the wall clock plays no part. */
  lemma SeenExactlyForItsLife(max: nat, attempts: seq<Attempt>, i: nat, j: nat)
    requires Ordered(attempts) && i < j < |attempts| && attempts[i].Assertion? && attempts[j].Assertion?
    requires attempts[i].iss == attempts[j].iss && attempts[i].jti == attempts[j].jti
    requires Redeemed(max, attempts, i) && ReachesGuard(attempts[j])
    requires forall y | i < y < j && AsCall(attempts[y]).Some? ::
               AsCall(attempts[y]).value.key == AsCall(attempts[i]).value.key ==>
                 Answer(Some(max), Calls(attempts), y) != Fresh
    ensures Answer(Some(max), Calls(attempts), j) == Seen
            <==> attempts[j].mono - attempts[i].mono < Ttl(attempts[i])
  {
    AliveUntilExpiry(attempts[i]);
    AttemptSeenExactly(Some(max), Calls(attempts), i, j);
  }

  /** An assertion is redeemed if and only if its issuer, signature and audience are settled, its expiry rounded
      down lies after the decoding, its iat is at most a minute ahead, it has a jti, it has at most 300 seconds
      left to live, the guard holds no live acceptance of its key, and the guard has room. */
  lemma RedeemedExactly(max: nat, attempts: seq<Attempt>, i: nat)
    requires Ordered(attempts) && i < |attempts| && attempts[i].Assertion?
    ensures var a := attempts[i];
            var inOrder := && a.trusted && a.exp >= 0.0 && a.decodedAt < a.exp.Floor as real
                           && a.iat - a.enforcedAt <= 60.0 && a.jti.Some? && a.jti.value != ""
                           && a.exp - a.enforcedAt <= 300.0;
            && (a.decodedAt >= 0.0 ==> (AsCall(a).Some? <==> inOrder))
            && (Redeemed(max, attempts, i) <==>
                  && AsCall(a).Some? && !Blocked(Some(max), Calls(attempts), i)
                  && |Sweep(After(Some(max), Flatten(Calls(attempts)[..i])), a.mono).Keys| < max)
  {
    if AsCall(attempts[i]).Some? {
      AnsweredExactly(Some(max), Calls(attempts), i);
    }
  }

  /** A client assertion is remembered for its remaining life, but for at least nothing and at most 300 seconds:
      the next one with its client and jti is refused as seen exactly that long. */
  lemma ClientAssertionSeenExactly(max: nat, attempts: seq<Attempt>, i: nat, j: nat)
    requires Ordered(attempts) && i < j < |attempts| && attempts[i].ClientAssertion? && attempts[j].ClientAssertion?
    requires attempts[i].clientId == attempts[j].clientId && attempts[i].clientJti == attempts[j].clientJti
    requires Answer(Some(max), Calls(attempts), i) == Fresh
    requires forall y | i < y < j && AsCall(attempts[y]).Some? ::
               AsCall(attempts[y]).value.key == AsCall(attempts[i]).value.key ==>
                 Answer(Some(max), Calls(attempts), y) != Fresh
    ensures var ttl := attempts[i].ttl;
            var life := if ttl < 0.0 then 0.0 else if ttl < 300.0 then ttl else 300.0;
            Answer(Some(max), Calls(attempts), j) == Seen <==> attempts[j].mono - attempts[i].mono < life
  {
    AttemptSeenExactly(Some(max), Calls(attempts), i, j);
  }

  /** Two readings are enough to break it: the expiry check passes just before the assertion expires, and the guard is
      asked just after it forgot the first redemption. */
  lemma TwoReadingsBreakIt()
    ensures var first := Assertion(true, "i", Some("j"), 100.0, 0.0, 0.0, 0.0, 0.0);
            var second := Assertion(true, "i", Some("j"), 100.0, 0.0, 99.5, 100.5, 100.5);
            var attempts := [first, second];
            Ordered(attempts) && Redeemed(10, attempts, 0) && Redeemed(10, attempts, 1)
  {
    var first := Assertion(true, "i", Some("j"), 100.0, 0.0, 0.0, 0.0, 0.0);
    var second := Assertion(true, "i", Some("j"), 100.0, 0.0, 99.5, 100.5, 100.5);
    var attempts := [first, second];
    var c0, c1 := AsCall(first).value, AsCall(second).value;
    assert Calls(attempts) == [Some(c0), Some(c1)];
    TwoAttemptsAccepted(Some(10), c0, c1);
  }

  /** So are two attempts that both straddle the expiry: the first leaves an entry with no life in it. */
  lemma StraddlingTheExpiryBreaksIt()
    ensures var first := Assertion(true, "i", Some("j"), 100.0, 0.0, 99.90, 100.10, 0.0);
            var second := Assertion(true, "i", Some("j"), 100.0, 0.0, 99.95, 100.15, 0.05);
            var attempts := [first, second];
            Ordered(attempts) && Redeemed(10, attempts, 0) && Redeemed(10, attempts, 1)
  {
    var first := Assertion(true, "i", Some("j"), 100.0, 0.0, 99.90, 100.10, 0.0);
    var second := Assertion(true, "i", Some("j"), 100.0, 0.0, 99.95, 100.15, 0.05);
    var attempts := [first, second];
    var c0, c1 := AsCall(first).value, AsCall(second).value;
    assert Calls(attempts) == [Some(c0), Some(c1)];
    TwoAttemptsAccepted(Some(10), c0, c1);
  }
}
