/** The circuit breaker and the concurrency limiter (services/resilience.py). */
module CircuitBreakers {
  import opened Prelude

  datatype Phase = Closed | Open | HalfOpen

  datatype Settings = Settings(failureThreshold: nat, successThreshold: nat, openSecs: nat, maxProbes: nat)

  predicate ValidSettings(cfg: Settings) {
    cfg.failureThreshold >= 1 && cfg.successThreshold >= 1 && cfg.openSecs >= 1 && cfg.maxProbes >= 1
  }

  datatype Breaker = Breaker(phase: Phase, failures: nat, successes: nat, openedAt: Option<real>, probes: nat,
                             trips: nat)

  const NEW_BREAKER := Breaker(Closed, 0, 0, None, 0, 0)

  // ---- The operations on values ----

  /** `state()`: an open breaker whose time is up becomes half-open as a side effect of being looked at. */
  function Poll(cfg: Settings, b: Breaker, now: real): Breaker {
    if b.phase.Open? && b.openedAt.Some? && now - b.openedAt.value >= cfg.openSecs as real
    then b.(phase := HalfOpen, probes := 0, successes := 0)
    else b
  }

  function Tripped(b: Breaker, now: real): Breaker {
    Breaker(Open, 0, 0, Some(now), 0, b.trips + 1)
  }

  function Reset(b: Breaker): Breaker {
    Breaker(Closed, 0, 0, None, 0, b.trips)
  }

  function AllowRequest(cfg: Settings, b0: Breaker, now: real): (Breaker, bool) {
    var b := Poll(cfg, b0, now);
    match b.phase
    case Closed => (b, true)
    case Open => (b, false)
    case HalfOpen => if b.probes >= cfg.maxProbes then (b, false) else (b.(probes := b.probes + 1), true)
  }

  /** `max(0, p - 1)` */
  function OneLess(p: nat): nat {
    if p == 0 then 0 else p - 1
  }

  function RecordSuccess(cfg: Settings, b0: Breaker, now: real): Breaker {
    var b := Poll(cfg, b0, now);
    match b.phase
    case HalfOpen =>
      var b' := b.(probes := OneLess(b.probes), successes := b.successes + 1);
      if b'.successes >= cfg.successThreshold then Reset(b') else b'
    case Closed => b.(failures := 0)
    case Open => b
  }

  function RecordFailure(cfg: Settings, b0: Breaker, now: real): Breaker {
    var b := Poll(cfg, b0, now);
    match b.phase
    case HalfOpen => Tripped(b, now)
    case Closed =>
      var b' := b.(failures := b.failures + 1);
      if b'.failures >= cfg.failureThreshold then Tripped(b', now) else b'
    case Open => b
  }

  /** The object itself. */
  class CircuitBreaker {
    const cfg: Settings
    var phase: Phase
    var failures: nat
    var successes: nat
    var openedAt: Option<real>
    var probes: nat
    var trips: nat

    ghost function Value(): Breaker
      reads this
    {
      Breaker(phase, failures, successes, openedAt, probes, trips)
    }

    constructor (failureThreshold: int, successThreshold: int, openSecs: int, maxProbes: int)
      ensures Value() == NEW_BREAKER && ValidSettings(cfg)
      ensures cfg == Settings(AtLeastOne(failureThreshold), AtLeastOne(successThreshold), AtLeastOne(openSecs),
                              AtLeastOne(maxProbes))
    {
      cfg := Settings(AtLeastOne(failureThreshold), AtLeastOne(successThreshold), AtLeastOne(openSecs),
                      AtLeastOne(maxProbes));
      phase, failures, successes, openedAt, probes, trips := Closed, 0, 0, None, 0, 0;
    }

    method State(now: real) returns (p: Phase)
      modifies this
      ensures Value() == Poll(cfg, old(Value()), now) && p == phase
    {
      if phase == Open && openedAt.Some? && now - openedAt.value >= cfg.openSecs as real {
        phase := HalfOpen;
        probes := 0;
        successes := 0;
      }
      p := phase;
    }

    method Allow(now: real) returns (admitted: bool)
      modifies this
      ensures (Value(), admitted) == AllowRequest(cfg, old(Value()), now)
    {
      var p := State(now);
      if p == Closed { return true; }
      if p == Open { return false; }
      if probes >= cfg.maxProbes { return false; }
      probes := probes + 1;
      return true;
    }

    method Succeeded(now: real)
      modifies this
      ensures Value() == RecordSuccess(cfg, old(Value()), now)
    {
      var p := State(now);
      if p == HalfOpen {
        probes := OneLess(probes);
        successes := successes + 1;
        if successes >= cfg.successThreshold {
          Close();
        }
      } else if p == Closed {
        failures := 0;
      }
    }

    method Failed(now: real)
      modifies this
      ensures Value() == RecordFailure(cfg, old(Value()), now)
    {
      var p := State(now);
      if p == HalfOpen {
        probes := OneLess(probes);
        Trip(now);
      } else if p == Closed {
        failures := failures + 1;
        if failures >= cfg.failureThreshold {
          Trip(now);
        }
      }
    }

    method Trip(now: real)
      modifies this
      ensures Value() == Tripped(old(Value()), now)
    {
      phase, openedAt, failures, successes, probes, trips := Open, Some(now), 0, 0, 0, trips + 1;
    }

    method Close()
      modifies this
      ensures Value() == Reset(old(Value()))
    {
      phase, openedAt, failures, successes, probes := Closed, None, 0, 0, 0;
    }
  }

  // ---- The concurrency limiter ----

  datatype Limiter = Limiter(maxConcurrent: nat, inFlight: nat, rejected: nat)

  function TryAcquire(l: Limiter): (Limiter, bool) {
    if l.inFlight >= l.maxConcurrent then (l.(rejected := l.rejected + 1), false)
    else (l.(inFlight := l.inFlight + 1), true)
  }

  function Release(l: Limiter): Limiter {
    if l.inFlight > 0 then l.(inFlight := l.inFlight - 1) else l
  }

  class ConcurrencyLimiter {
    const maxConcurrent: nat
    var inFlight: nat
    var rejected: nat

    ghost function Value(): Limiter
      reads this
    {
      Limiter(maxConcurrent, inFlight, rejected)
    }

    constructor (max: int)
      ensures Value() == Limiter(AtLeastOne(max), 0, 0)
    {
      maxConcurrent, inFlight, rejected := AtLeastOne(max), 0, 0;
    }

    method Acquire() returns (admitted: bool)
      modifies this
      ensures (Value(), admitted) == TryAcquire(old(Value()))
    {
      if inFlight >= maxConcurrent {
        rejected := rejected + 1;
        return false;
      }
      inFlight := inFlight + 1;
      return true;
    }

    method Free()
      modifies this
      ensures Value() == Release(old(Value()))
    {
      if inFlight > 0 {
        inFlight := inFlight - 1;
      }
    }
  }
}

/** What the counters of the breaker stand for: the outcomes recorded since the breaker last changed phase.  The
    reference keeps whole logs and no counters. */
module BreakerHistory {
  import opened Prelude
  import opened CircuitBreakers

  datatype Outcome = Success | Failure

  /** One stay in a phase, with what was recorded during it. */
  datatype Episode =
    | ClosedEpisode(log: seq<Outcome>)
    | OpenEpisode(since: real)
    | HalfOpenEpisode(start: real, log: seq<Outcome>)

  type History = h: seq<Episode> | h != [] witness [ClosedEpisode([])]

  datatype Event =
    | Looked(now: real)                    // state(), or a request refused or admitted by allow_request()
    | Recorded(outcome: Outcome, now: real)

  function Last(h: History): Episode {
    h[|h| - 1]
  }

  function SetLast(h: History, e: Episode): History {
    h[..|h| - 1] + [e]
  }

  /** The last `n` outcomes exist and are all failures. */
  ghost predicate EndsInFailures(log: seq<Outcome>, n: nat) {
    n <= |log| && forall i :: |log| - n <= i < |log| ==> log[i] == Failure
  }

  // ---- The reference machine ----

  function SpecLook(cfg: Settings, h: History, now: real): History {
    match Last(h)
    case OpenEpisode(since) => if now - since >= cfg.openSecs as real then h + [HalfOpenEpisode(now, [])] else h
    case _ => h
  }

  ghost function SpecRecord(cfg: Settings, h0: History, o: Outcome, now: real): History {
    var h := SpecLook(cfg, h0, now);
    match Last(h)
    case ClosedEpisode(log) =>
      var h' := SetLast(h, ClosedEpisode(log + [o]));
      if EndsInFailures(log + [o], cfg.failureThreshold) then h' + [OpenEpisode(now)] else h'
    case HalfOpenEpisode(start, log) =>
      var h' := SetLast(h, HalfOpenEpisode(start, log + [o]));
      if o == Failure then h' + [OpenEpisode(now)]
      else if |log| + 1 == cfg.successThreshold then h' + [ClosedEpisode([])]
      else h'
    case OpenEpisode(_) => h
  }

  ghost function SpecStep(cfg: Settings, h: History, e: Event): History {
    match e
    case Looked(now) => SpecLook(cfg, h, now)
    case Recorded(o, now) => SpecRecord(cfg, h, o, now)
  }

  function Step(cfg: Settings, b: Breaker, e: Event): Breaker {
    match e
    case Looked(now) => Poll(cfg, b, now)
    case Recorded(Success, now) => RecordSuccess(cfg, b, now)
    case Recorded(Failure, now) => RecordFailure(cfg, b, now)
  }

  // ---- What every history looks like ----

  function Trips(h: seq<Episode>): nat {
    if h == [] then 0 else Trips(h[..|h| - 1]) + (if h[|h| - 1].OpenEpisode? then 1 else 0)
  }

  /** A stay in CLOSED that has not ended: no point of it had a full run of failures. */
  ghost predicate NeverTripped(cfg: Settings, log: seq<Outcome>) {
    forall n :: 0 < n <= |log| ==> !EndsInFailures(log[..n], cfg.failureThreshold)
  }

  ghost predicate AllSuccess(log: seq<Outcome>) {
    forall i :: 0 <= i < |log| ==> log[i] == Success
  }

  /** How one stay ended, given the next one. */
  ghost predicate EndedRightly(cfg: Settings, e: Episode, next: Episode) {
    match e
    case ClosedEpisode(log) =>
      && next.OpenEpisode? && log != []
      && EndsInFailures(log, cfg.failureThreshold) && NeverTripped(cfg, log[..|log| - 1])
    case OpenEpisode(since) =>
      next.HalfOpenEpisode? && next.start >= since + cfg.openSecs as real
    case HalfOpenEpisode(start, log) =>
      && log != [] && AllSuccess(log[..|log| - 1])
      && (next.ClosedEpisode? || (next.OpenEpisode? && next.since >= start))
      && (next.ClosedEpisode? <==> log[|log| - 1] == Success)
      && (next.ClosedEpisode? ==> |log| == cfg.successThreshold)
      && (next.OpenEpisode? ==> |log| <= cfg.successThreshold)
  }

  /** What holds of the stay that is still going on. */
  ghost predicate GoingOn(cfg: Settings, e: Episode) {
    match e
    case ClosedEpisode(log) => NeverTripped(cfg, log)
    case OpenEpisode(_) => true
    case HalfOpenEpisode(_, log) => AllSuccess(log) && |log| < cfg.successThreshold
  }

  ghost predicate Lawful(cfg: Settings, h: History) {
    && h[0].ClosedEpisode?
    && (forall i :: 0 <= i < |h| - 1 ==> EndedRightly(cfg, h[i], h[i + 1]))
    && GoingOn(cfg, Last(h))
  }

  ghost predicate StartedBy(e: Episode, now: real) {
    match e
    case ClosedEpisode(_) => true
    case OpenEpisode(since) => since <= now
    case HalfOpenEpisode(start, _) => start <= now
  }

  ghost predicate Timely(h: History, now: real) {
    forall i :: 0 <= i < |h| ==> StartedBy(h[i], now)
  }

  /** Trips are recorded in the order in which they happened. */
  ghost predicate TripsInOrder(h: History) {
    forall i, j :: 0 <= i < j < |h| && h[i].OpenEpisode? && h[j].OpenEpisode? ==> h[i].since <= h[j].since
  }

  // ---- The counters agree with the logs ----

  ghost predicate Counts(log: seq<Outcome>, failures: nat) {
    && EndsInFailures(log, failures)
    && (failures < |log| ==> log[|log| - failures - 1] == Success)
  }

  ghost predicate Agrees(cfg: Settings, b: Breaker, h: History) {
    && b.trips == Trips(h)
    && (match Last(h)
        case ClosedEpisode(log) => b.phase.Closed? && Counts(log, b.failures) && b.failures < cfg.failureThreshold
        case OpenEpisode(since) => b.phase.Open? && b.openedAt == Some(since)
        case HalfOpenEpisode(_, log) => b.phase.HalfOpen? && b.successes == |log|)
  }

  lemma TripsAppend(h: seq<Episode>, e: Episode)
    ensures Trips(h + [e]) == Trips(h) + (if e.OpenEpisode? then 1 else 0)
  {
    assert (h + [e])[..|h|] == h;
  }

  lemma CountsAfter(log: seq<Outcome>, failures: nat, o: Outcome)
    requires Counts(log, failures)
    ensures o == Failure ==> Counts(log + [o], failures + 1)
    ensures o == Success ==> Counts(log + [o], 0)
  {
  }

  /** The counter reaches the threshold exactly when the log ends in that many failures. */
  lemma CountsDecide(log: seq<Outcome>, failures: nat, n: nat)
    requires Counts(log, failures)
    ensures EndsInFailures(log, n) <==> n <= failures
  {
    if n > failures && n <= |log| {
      assert log[|log| - failures - 1] == Success;
    }
  }

  lemma SetLastFacts(h: History, e: Episode)
    ensures |SetLast(h, e)| == |h| && Last(SetLast(h, e)) == e
    ensures forall i :: 0 <= i < |h| - 1 ==> SetLast(h, e)[i] == h[i]
    ensures Trips(SetLast(h, e)) == Trips(h[..|h| - 1]) + (if e.OpenEpisode? then 1 else 0)
  {
    TripsAppend(h[..|h| - 1], e);
  }

  ghost predicate Inv(cfg: Settings, b: Breaker, h: History, now: real) {
    Agrees(cfg, b, h) && Lawful(cfg, h) && Timely(h, now) && TripsInOrder(h)
  }

  lemma LookKeeps(cfg: Settings, b: Breaker, h: History, before: real, now: real)
    requires ValidSettings(cfg) && Inv(cfg, b, h, before) && before <= now
    ensures Inv(cfg, Poll(cfg, b, now), SpecLook(cfg, h, now), now)
  {
    var h' := SpecLook(cfg, h, now);
    if h' != h {
      EndKeeps(cfg, h, HalfOpenEpisode(now, []), now);
    }
  }

  /** Recording into the current stay without ending it. */
  lemma ExtendKeeps(cfg: Settings, h: History, e: Episode, now: real)
    requires Lawful(cfg, h) && Timely(h, now) && TripsInOrder(h)
    requires || (Last(h).ClosedEpisode? && e.ClosedEpisode?)
             || (Last(h).HalfOpenEpisode? && e.HalfOpenEpisode? && e.start == Last(h).start)
    ensures var h' := SetLast(h, e);
            && Timely(h', now) && TripsInOrder(h') && h'[0].ClosedEpisode? && Trips(h') == Trips(h)
            && (forall i :: 0 <= i < |h'| - 1 ==> EndedRightly(cfg, h'[i], h'[i + 1]))
  {
    SetLastFacts(h, e);
    var h' := SetLast(h, e);
    forall i | 0 <= i < |h'| - 1
      ensures EndedRightly(cfg, h'[i], h'[i + 1])
    {
      assert EndedRightly(cfg, h[i], h[i + 1]);
    }
  }

  /** Ending the current stay and starting the next. */
  lemma EndKeeps(cfg: Settings, h: History, e: Episode, now: real)
    requires Timely(h, now) && TripsInOrder(h) && h[0].ClosedEpisode?
    requires forall i :: 0 <= i < |h| - 1 ==> EndedRightly(cfg, h[i], h[i + 1])
    requires EndedRightly(cfg, Last(h), e) && GoingOn(cfg, e)
    requires StartedBy(e, now) && (e.OpenEpisode? ==> e.since == now)
    ensures var h' := h + [e];
            && Lawful(cfg, h') && Timely(h', now) && TripsInOrder(h')
            && Trips(h') == Trips(h) + (if e.OpenEpisode? then 1 else 0)
  {
    TripsAppend(h, e);
    var h' := h + [e];
    forall i | 0 <= i < |h'| - 1
      ensures EndedRightly(cfg, h'[i], h'[i + 1])
    {
      assert i < |h| - 1 ==> EndedRightly(cfg, h[i], h[i + 1]);
    }
  }

  lemma NeverTrippedAfter(cfg: Settings, log: seq<Outcome>, o: Outcome)
    requires NeverTripped(cfg, log) && !EndsInFailures(log + [o], cfg.failureThreshold)
    ensures NeverTripped(cfg, log + [o])
  {
    forall n | 0 < n <= |log| + 1
      ensures !EndsInFailures((log + [o])[..n], cfg.failureThreshold)
    {
      if n <= |log| {
        assert (log + [o])[..n] == log[..n];
      } else {
        assert (log + [o])[..n] == log + [o];
      }
    }
  }

  lemma RecordKeepsClosed(cfg: Settings, b: Breaker, h: History, o: Outcome, now: real)
    requires ValidSettings(cfg) && Inv(cfg, b, h, now) && Last(h).ClosedEpisode?
    ensures Inv(cfg, Step(cfg, b, Recorded(o, now)), SpecRecord(cfg, h, o, now), now)
  {
    var log := Last(h).log;
    var log' := log + [o];
    var h' := SetLast(h, ClosedEpisode(log'));
    SetLastFacts(h, ClosedEpisode(log'));
    ExtendKeeps(cfg, h, ClosedEpisode(log'), now);
    CountsAfter(log, b.failures, o);
    CountsDecide(log', if o == Failure then b.failures + 1 else 0, cfg.failureThreshold);
    if EndsInFailures(log', cfg.failureThreshold) {
      assert log'[..|log'| - 1] == log;
      EndKeeps(cfg, h', OpenEpisode(now), now);
    } else {
      NeverTrippedAfter(cfg, log, o);
    }
  }

  lemma RecordKeepsHalfOpen(cfg: Settings, b: Breaker, h: History, o: Outcome, now: real)
    requires ValidSettings(cfg) && Inv(cfg, b, h, now) && Last(h).HalfOpenEpisode?
    ensures Inv(cfg, Step(cfg, b, Recorded(o, now)), SpecRecord(cfg, h, o, now), now)
  {
    var log, start := Last(h).log, Last(h).start;
    var log' := log + [o];
    var e := HalfOpenEpisode(start, log');
    var h' := SetLast(h, e);
    SetLastFacts(h, e);
    ExtendKeeps(cfg, h, e, now);
    assert log'[..|log'| - 1] == log;
    if o == Failure {
      EndKeeps(cfg, h', OpenEpisode(now), now);
    } else if |log'| == cfg.successThreshold {
      EndKeeps(cfg, h', ClosedEpisode([]), now);
    }
  }

  lemma StepKeeps(cfg: Settings, b: Breaker, h: History, e: Event, before: real)
    requires ValidSettings(cfg) && Inv(cfg, b, h, before) && before <= e.now
    ensures Inv(cfg, Step(cfg, b, e), SpecStep(cfg, h, e), e.now)
  {
    LookKeeps(cfg, b, h, before, e.now);
    if e.Recorded? {
      LookFirst(cfg, b, h, e.outcome, e.now);
      RecordKeeps(cfg, Poll(cfg, b, e.now), SpecLook(cfg, h, e.now), e.outcome, e.now);
    }
  }

  /** Recording begins with a look. */
  lemma LookFirst(cfg: Settings, b: Breaker, h: History, o: Outcome, now: real)
    ensures Step(cfg, Poll(cfg, b, now), Recorded(o, now)) == Step(cfg, b, Recorded(o, now))
    ensures SpecRecord(cfg, SpecLook(cfg, h, now), o, now) == SpecRecord(cfg, h, o, now)
    ensures SpecLook(cfg, SpecLook(cfg, h, now), now) == SpecLook(cfg, h, now)
  {
    var h' := SpecLook(cfg, h, now);
    assert SpecLook(cfg, h', now) == h';
    assert Poll(cfg, Poll(cfg, b, now), now) == Poll(cfg, b, now);
  }

  lemma RecordKeeps(cfg: Settings, b: Breaker, h: History, o: Outcome, now: real)
    requires ValidSettings(cfg) && Inv(cfg, b, h, now) && SpecLook(cfg, h, now) == h
    ensures Inv(cfg, Step(cfg, b, Recorded(o, now)), SpecRecord(cfg, h, o, now), now)
  {
    match Last(h)
    case ClosedEpisode(_) => RecordKeepsClosed(cfg, b, h, o, now);
    case HalfOpenEpisode(_, _) => RecordKeepsHalfOpen(cfg, b, h, o, now);
    case OpenEpisode(_) =>
  }

  // ---- Whole runs ----

  ghost predicate Ordered(events: seq<Event>) {
    forall i, j :: 0 <= i < j < |events| ==> events[i].now <= events[j].now
  }

  function Run(cfg: Settings, b: Breaker, events: seq<Event>): Breaker
    decreases |events|
  {
    if events == [] then b else Step(cfg, Run(cfg, b, events[..|events| - 1]), events[|events| - 1])
  }

  ghost function SpecRun(cfg: Settings, events: seq<Event>): History
    decreases |events|
  {
    if events == [] then [ClosedEpisode([])]
    else SpecStep(cfg, SpecRun(cfg, events[..|events| - 1]), events[|events| - 1])
  }

  lemma {:induction false} RunAgrees(cfg: Settings, events: seq<Event>, now: real)
    requires ValidSettings(cfg) && Ordered(events) && forall i :: 0 <= i < |events| ==> events[i].now <= now
    ensures Inv(cfg, Run(cfg, NEW_BREAKER, events), SpecRun(cfg, events), now)
    decreases |events|
  {
    if events == [] {
      assert Trips([ClosedEpisode([])]) == Trips([]);
    } else {
      var e := events[|events| - 1];
      RunAgrees(cfg, events[..|events| - 1], e.now);
      StepKeeps(cfg, Run(cfg, NEW_BREAKER, events[..|events| - 1]), SpecRun(cfg, events[..|events| - 1]), e, e.now);
    }
  }

  // ---- The logs are what was recorded ----

  function LogOf(e: Episode): seq<Outcome> {
    match e
    case ClosedEpisode(log) => log
    case OpenEpisode(_) => []
    case HalfOpenEpisode(_, log) => log
  }

  function Logs(h: seq<Episode>): seq<Outcome> {
    if h == [] then [] else Logs(h[..|h| - 1]) + LogOf(h[|h| - 1])
  }

  /** The outcomes recorded while the breaker, as it stood on being asked, was not open. */
  function Heeded(cfg: Settings, events: seq<Event>): seq<Outcome>
    decreases |events|
  {
    if events == [] then []
    else
      var init, e := events[..|events| - 1], events[|events| - 1];
      if e.Recorded? && !Poll(cfg, Run(cfg, NEW_BREAKER, init), e.now).phase.Open? then Heeded(cfg, init) + [e.outcome]
      else Heeded(cfg, init)
  }

  lemma LogsAppend(h: seq<Episode>, e: Episode)
    ensures Logs(h + [e]) == Logs(h) + LogOf(e)
  {
    assert (h + [e])[..|h|] == h;
  }

  lemma LogsLook(cfg: Settings, h: History, now: real)
    ensures Logs(SpecLook(cfg, h, now)) == Logs(h)
  {
    if SpecLook(cfg, h, now) != h {
      LogsAppend(h, HalfOpenEpisode(now, []));
    }
  }

  /** Recording into a stay that is not open adds the outcome to the logs, whether or not it ends the stay. */
  lemma LogsExtend(h: History, e: Episode, next: Option<Episode>, o: Outcome)
    requires LogOf(e) == LogOf(Last(h)) + [o] && (next.Some? ==> LogOf(next.value) == [])
    ensures Logs(SetLast(h, e)) == Logs(h) + [o]
    ensures next.Some? ==> Logs(SetLast(h, e) + [next.value]) == Logs(h) + [o]
  {
    LogsAppend(h[..|h| - 1], e);
    if next.Some? {
      LogsAppend(SetLast(h, e), next.value);
    }
  }

  lemma LogsRecord(cfg: Settings, h: History, o: Outcome, now: real)
    requires SpecLook(cfg, h, now) == h
    ensures Logs(SpecRecord(cfg, h, o, now)) == if Last(h).OpenEpisode? then Logs(h) else Logs(h) + [o]
  {
    match Last(h)
    case ClosedEpisode(log) => LogsExtend(h, ClosedEpisode(log + [o]), Some(OpenEpisode(now)), o);
    case HalfOpenEpisode(start, log) =>
      LogsExtend(h, HalfOpenEpisode(start, log + [o]), Some(OpenEpisode(now)), o);
      LogsExtend(h, HalfOpenEpisode(start, log + [o]), Some(ClosedEpisode([])), o);
    case OpenEpisode(_) =>
  }

  lemma {:induction false} LogsAreOutcomes(cfg: Settings, events: seq<Event>)
    requires ValidSettings(cfg) && Ordered(events)
    ensures Logs(SpecRun(cfg, events)) == Heeded(cfg, events)
    decreases |events|
  {
    if events == [] {
      assert Logs([ClosedEpisode([])]) == Logs([]);
    } else {
      var init, e := events[..|events| - 1], events[|events| - 1];
      var b, h := Run(cfg, NEW_BREAKER, init), SpecRun(cfg, init);
      LogsAreOutcomes(cfg, init);
      RunAgrees(cfg, init, e.now);
      LookKeeps(cfg, b, h, e.now, e.now);
      LogsLook(cfg, h, e.now);
      if e.Recorded? {
        LookFirst(cfg, b, h, e.outcome, e.now);
        LogsRecord(cfg, SpecLook(cfg, h, e.now), e.outcome, e.now);
      }
    }
  }

  /** Over every run the breaker is where the logs say it is.  A stay in CLOSED ended exactly when its log first
      ended in `failureThreshold` failures; a stay in HALF_OPEN closed after exactly `successThreshold` successes
      and no failure, or reopened on its first failure; a stay in OPEN lasted at least `openSecs`; and
      `total_trips` counts the stays in OPEN.  The logs of all stays, one after the other, are exactly the recorded
      outcomes that did not meet OPEN. */
  lemma BreakerFollowsHistory(cfg: Settings, events: seq<Event>)
    requires ValidSettings(cfg) && Ordered(events)
    ensures var b, h := Run(cfg, NEW_BREAKER, events), SpecRun(cfg, events);
            && Lawful(cfg, h) && TripsInOrder(h) && b.trips == Trips(h) && Logs(h) == Heeded(cfg, events)
            && (b.phase.Closed? <==> Last(h).ClosedEpisode?)
            && (b.phase.Open? <==> Last(h).OpenEpisode?)
            && (b.phase.HalfOpen? <==> Last(h).HalfOpenEpisode?)
  {
    RunAgrees(cfg, events, if events == [] then 0.0 else events[|events| - 1].now);
    LogsAreOutcomes(cfg, events);
  }

  /** A stay in OPEN is followed by nothing before its time is up. */
  lemma OpenLasts(cfg: Settings, h: History, i: nat, now: real)
    requires Lawful(cfg, h) && Timely(h, now) && i < |h| && h[i].OpenEpisode?
    ensures i + 1 < |h| ==> now >= h[i].since + cfg.openSecs as real
  {
    if i + 1 < |h| {
      assert EndedRightly(cfg, h[i], h[i + 1]);
      assert StartedBy(h[i + 1], now);
    }
  }
}
