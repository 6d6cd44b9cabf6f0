/** The resilience middleware as any number of requests advanced one call at a time in any order
    (middleware_ratelimit.py).  Every call into the breaker or the limiter is one step. */
module ResilienceMiddleware {
  import opened Prelude
  import opened CircuitBreakers
  import H = BreakerHistory

  /** Whether a request is a half-open probe and, if so, the half-open period whose slot it took.  A period is named by
      the number of trips so far.  A probe takes no slot if the breaker closed between its look and its admission. */
  datatype Role = Ordinary | Probe(period: Option<nat>)

  /** Where a request is: what it will call next. */
  datatype Stage =
    | Arriving                             // next: state()
    | Entered                              // seen not OPEN; next: try_acquire
    | Permitted                            // holds a permit; next: state()
    | AtProbeGate                          // saw HALF_OPEN; next: allow_request
    | Refusing                             // refused at the probe gate; next: release
    | Handling(role: Role)                 // the handler is running
    | Returned(ok: bool, role: Role)       // permit released; next: state()
    | Recording(ok: bool, role: Role)      // next: record_success or record_failure
    | Crashed(role: Role)                  // the handler raised; next: state()
    | CrashRecording(role: Role)           // next: record_failure
    | CrashReleasing                       // next: release
    | Done(reached: bool)                  // finished; did the handler run?

  datatype Handler = Returns(status: int) | Raises

  /** The breaker with its full history, and the trip counter the middleware exports. */
  datatype Circuit = Circuit(breaker: Breaker, history: H.History, lastTrips: nat, counted: nat)

  /** The limiter, with the permits every request took and gave back. */
  datatype Gate = Gate(limiter: Limiter, acquired: multiset<nat>, released: multiset<nat>)

  /** A request that is not in the map has not arrived yet. */
  datatype System = System(circuit: Circuit, gate: Gate, clock: real, requests: map<nat, Stage>)

  datatype Step =
    | Advance(id: nat, handler: Handler)
    | Tick(elapsed: real)

  ghost function Initial(maxConcurrent: int, clock: real): System {
    System(Circuit(NEW_BREAKER, [H.ClosedEpisode([])], 0, 0),
           Gate(Limiter(AtLeastOne(maxConcurrent), 0, 0), multiset{}, multiset{}), clock, map[])
  }

  // ---- The calls ----

  function Look(cfg: Settings, c: Circuit, now: real): Circuit {
    c.(breaker := Poll(cfg, c.breaker, now), history := H.SpecLook(cfg, c.history, now))
  }

  ghost function Record(cfg: Settings, c: Circuit, now: real, ok: bool): Circuit {
    var o := if ok then H.Success else H.Failure;
    c.(breaker := H.Step(cfg, c.breaker, H.Recorded(o, now)), history := H.SpecRecord(cfg, c.history, o, now))
  }

  /** `_record_circuit_metrics`: the trips counter grows by what was not yet counted. */
  function CountTrips(cfg: Settings, c0: Circuit, now: real): Circuit {
    var c := Look(cfg, c0, now);
    if c.breaker.trips > c.lastTrips
    then c.(counted := c.counted + (c.breaker.trips - c.lastTrips), lastTrips := c.breaker.trips)
    else c
  }

  function ReleasePermit(g: Gate, id: nat): Gate {
    g.(limiter := Release(g.limiter), released := g.released + multiset{id})
  }

  // ---- One step of one request ----

  function StageOf(s: System, id: nat): Stage {
    if id in s.requests then s.requests[id] else Arriving
  }

  /** What the step does to the breaker, and where the request is afterwards. */
  ghost function CircuitStep(cfg: Settings, c: Circuit, now: real, stage: Stage, admitted: bool, handler: Handler)
    : (Circuit, Stage)
  {
    match stage
    case Arriving =>
      var c' := Look(cfg, c, now);
      if c'.breaker.phase.Open? then (CountTrips(cfg, c', now), Done(false)) else (c', Entered)
    case Entered => (c, if admitted then Permitted else Done(false))
    case Permitted =>
      var c' := Look(cfg, c, now);
      (c', if c'.breaker.phase.HalfOpen? then AtProbeGate else Handling(Ordinary))
    case AtProbeGate =>
      var c' := Look(cfg, c, now);
      var (breaker, allowed) := AllowRequest(cfg, c'.breaker, now);
      var period := if breaker.phase.HalfOpen? then Some(breaker.trips) else None;
      (c'.(breaker := breaker), if allowed then Handling(Probe(period)) else Refusing)
    case Refusing => (CountTrips(cfg, c, now), Done(false))
    case Handling(role) =>
      (c, match handler case Returns(status) => Returned(status < 500, role) case Raises => Crashed(role))
    case Returned(ok, role) =>
      var c' := Look(cfg, c, now);
      if c'.breaker.phase.Closed? || role.Probe? then (c', Recording(ok, role))
      else (CountTrips(cfg, c', now), Done(true))
    case Recording(ok, role) => (CountTrips(cfg, Record(cfg, c, now, ok), now), Done(true))
    case Crashed(role) =>
      var c' := Look(cfg, c, now);
      if c'.breaker.phase.Closed? || role.Probe? then (c', CrashRecording(role))
      else (CountTrips(cfg, c', now), CrashReleasing)
    case CrashRecording(role) => (CountTrips(cfg, Record(cfg, c, now, false), now), CrashReleasing)
    case CrashReleasing => (c, Done(true))
    case Done(reached) => (c, Done(reached))
  }

  /** The stages whose next call releases the permit. */
  predicate Releases(stage: Stage, handler: Handler) {
    stage.Refusing? || (stage.Handling? && handler.Returns?) || stage.CrashReleasing?
  }

  /** What the step does to the limiter. */
  function GateStep(g: Gate, id: nat, stage: Stage, handler: Handler): (Gate, bool) {
    if stage.Entered? then
      var (limiter, admitted) := TryAcquire(g.limiter);
      (g.(limiter := limiter, acquired := if admitted then g.acquired + multiset{id} else g.acquired), admitted)
    else if Releases(stage, handler) then (ReleasePermit(g, id), false)
    else (g, false)
  }

  ghost function AdvanceRequest(cfg: Settings, s: System, id: nat, handler: Handler): System {
    var stage := StageOf(s, id);
    var (gate, admitted) := GateStep(s.gate, id, stage, handler);
    var (circuit, stage') := CircuitStep(cfg, s.circuit, s.clock, stage, admitted, handler);
    s.(circuit := circuit, gate := gate, requests := s.requests[id := stage'])
  }

  ghost function Take(cfg: Settings, s: System, step: Step): System {
    match step
    case Advance(id, handler) => AdvanceRequest(cfg, s, id, handler)
    case Tick(elapsed) => if elapsed >= 0.0 then s.(clock := s.clock + elapsed) else s
  }

  ghost function Run(cfg: Settings, s: System, steps: seq<Step>): System
    decreases |steps|
  {
    if steps == [] then s else Run(cfg, Take(cfg, s, steps[0]), steps[1..])
  }

  // ---- Permits ----

  predicate HoldsPermit(stage: Stage) {
    stage.Permitted? || stage.AtProbeGate? || stage.Refusing? || stage.Handling? || stage.Crashed?
    || stage.CrashRecording? || stage.CrashReleasing?
  }

  predicate ReachedHandler(stage: Stage) {
    stage.Handling? || stage.Returned? || stage.Recording? || stage.Crashed? || stage.CrashRecording?
    || stage.CrashReleasing? || stage == Done(true)
  }

  /** The admitted, unfinished requests. */
  function Holders(requests: map<nat, Stage>): set<nat> {
    set id | id in requests && HoldsPermit(requests[id])
  }

  /** What the limiter saw of one request. */
  ghost predicate LedgerOk(g: Gate, stage: Stage, id: nat) {
    && g.acquired[id] == g.released[id] + (if HoldsPermit(stage) then 1 else 0)
    && g.acquired[id] <= 1
    && (stage.Arriving? || stage.Entered? ==> g.acquired[id] == 0)
    && (ReachedHandler(stage) ==> g.acquired[id] == 1)
  }

  ghost predicate PermitsOk(s: System) {
    && s.gate.limiter.inFlight == |Holders(s.requests)|
    && s.gate.limiter.inFlight <= s.gate.limiter.maxConcurrent
    && (forall id :: LedgerOk(s.gate, StageOf(s, id), id))
  }

  // ---- Probe slots ----

  function SlotOf(stage: Stage): Option<nat> {
    match stage
    case Handling(Probe(p)) => p
    case Returned(_, Probe(p)) => p
    case Recording(_, Probe(p)) => p
    case Crashed(Probe(p)) => p
    case CrashRecording(Probe(p)) => p
    case _ => None
  }

  /** The unfinished probes admitted in half-open period `period`. */
  function Probing(requests: map<nat, Stage>, period: nat): set<nat> {
    set id | id in requests && SlotOf(requests[id]) == Some(period)
  }

  ghost predicate SlotsOk(cfg: Settings, b: Breaker, requests: map<nat, Stage>) {
    b.phase.HalfOpen? ==> b.probes <= cfg.maxProbes && b.probes <= |Probing(requests, b.trips)|
  }

  ghost predicate CircuitOk(cfg: Settings, c: Circuit, now: real) {
    && c.counted == c.lastTrips <= c.breaker.trips
    && H.Inv(cfg, c.breaker, c.history, now)
  }

  ghost predicate Inv(cfg: Settings, s: System) {
    PermitsOk(s) && SlotsOk(cfg, s.circuit.breaker, s.requests) && CircuitOk(cfg, s.circuit, s.clock)
  }

  // ---- Each step keeps it ----

  lemma HoldersAfter(requests: map<nat, Stage>, id: nat, stage: Stage)
    ensures var before, after := Holders(requests), Holders(requests[id := stage]);
            && after == (if HoldsPermit(stage) then before + {id} else before - {id})
            && |after| == |before| + (if HoldsPermit(stage) && id !in before then 1 else 0)
                                   - (if !HoldsPermit(stage) && id in before then 1 else 0)
  {
    var before, after := Holders(requests), Holders(requests[id := stage]);
    assert after == (if HoldsPermit(stage) then before + {id} else before - {id});
  }

  /** The limiter and the stage move together: a permit is held from the call that took it to the call that frees it. */
  lemma StagesFollowGate(cfg: Settings, c: Circuit, now: real, g: Gate, id: nat, stage: Stage, handler: Handler)
    ensures var (g', admitted) := GateStep(g, id, stage, handler);
            var (c', stage') := CircuitStep(cfg, c, now, stage, admitted, handler);
            && (HoldsPermit(stage') <==> (admitted || (HoldsPermit(stage) && !Releases(stage, handler))))
            && (Releases(stage, handler) ==> HoldsPermit(stage))
            && !stage'.Arriving? && (stage'.Entered? ==> stage.Arriving?)
            && (ReachedHandler(stage') ==> ReachedHandler(stage) || HoldsPermit(stage))
  {
  }

  lemma PermitsKept(cfg: Settings, s: System, id: nat, handler: Handler)
    requires PermitsOk(s)
    ensures PermitsOk(AdvanceRequest(cfg, s, id, handler))
  {
    var stage := StageOf(s, id);
    StagesFollowGate(cfg, s.circuit, s.clock, s.gate, id, stage, handler);
    var s' := AdvanceRequest(cfg, s, id, handler);
    HoldersAfter(s.requests, id, s'.requests[id]);
    assert LedgerOk(s.gate, stage, id);
    if HoldsPermit(stage) {
      assert id in Holders(s.requests);
      assert |Holders(s.requests)| > 0;
    }
    forall x
      ensures LedgerOk(s'.gate, StageOf(s', x), x)
    {
      assert LedgerOk(s.gate, StageOf(s, x), x);
    }
  }

  lemma LookKeeps(cfg: Settings, c: Circuit, now: real)
    requires ValidSettings(cfg) && CircuitOk(cfg, c, now)
    ensures CircuitOk(cfg, Look(cfg, c, now), now) && CircuitOk(cfg, CountTrips(cfg, c, now), now)
  {
    H.LookKeeps(cfg, c.breaker, c.history, now, now);
  }

  lemma RecordKeeps(cfg: Settings, c: Circuit, now: real, ok: bool)
    requires ValidSettings(cfg) && CircuitOk(cfg, c, now)
    ensures CircuitOk(cfg, Record(cfg, c, now, ok), now)
  {
    var o := if ok then H.Success else H.Failure;
    H.StepKeeps(cfg, c.breaker, c.history, H.Recorded(o, now), now);
  }

  /** Admitting or refusing a probe changes nothing the history speaks of. */
  lemma GateKeeps(cfg: Settings, c: Circuit, now: real)
    requires ValidSettings(cfg) && CircuitOk(cfg, c, now)
    ensures CircuitOk(cfg, CircuitStep(cfg, c, now, AtProbeGate, false, Raises).0, now)
  {
    LookKeeps(cfg, c, now);
    var c' := Look(cfg, c, now);
    var (breaker, _) := AllowRequest(cfg, c'.breaker, now);
    assert breaker == c'.breaker.(probes := breaker.probes);
    assert H.Agrees(cfg, breaker, c'.history);
  }

  lemma RecordingKeeps(cfg: Settings, c: Circuit, now: real, ok: bool)
    requires ValidSettings(cfg) && CircuitOk(cfg, c, now)
    ensures CircuitOk(cfg, CountTrips(cfg, Record(cfg, c, now, ok), now), now)
  {
    RecordKeeps(cfg, c, now, ok);
    LookKeeps(cfg, Record(cfg, c, now, ok), now);
  }

  lemma LookingKeeps(cfg: Settings, c: Circuit, now: real)
    requires ValidSettings(cfg) && CircuitOk(cfg, c, now)
    ensures CircuitOk(cfg, Look(cfg, c, now), now) && CircuitOk(cfg, CountTrips(cfg, c, now), now)
    ensures CircuitOk(cfg, CountTrips(cfg, Look(cfg, c, now), now), now)
  {
    LookKeeps(cfg, c, now);
    LookKeeps(cfg, Look(cfg, c, now), now);
  }

  lemma CircuitKept(cfg: Settings, c: Circuit, now: real, stage: Stage, admitted: bool, handler: Handler)
    requires ValidSettings(cfg) && CircuitOk(cfg, c, now)
    ensures CircuitOk(cfg, CircuitStep(cfg, c, now, stage, admitted, handler).0, now)
  {
    match stage
    case Recording(ok, _) => RecordingKeeps(cfg, c, now, ok);
    case CrashRecording(_) => RecordingKeeps(cfg, c, now, false);
    case AtProbeGate => GateKeeps(cfg, c, now);
    case _ => LookingKeeps(cfg, c, now);
  }

  lemma ProbingAfter(requests: map<nat, Stage>, id: nat, stage: Stage, period: nat)
    ensures var before, after := Probing(requests, period), Probing(requests[id := stage], period);
            && (id in before && SlotOf(stage) == Some(period) ==> |after| == |before|)
            && (id !in before && SlotOf(stage) == Some(period) ==> |after| == |before| + 1)
            && (id in before && SlotOf(stage) != Some(period) ==> |after| == |before| - 1)
            && (id !in before && SlotOf(stage) != Some(period) ==> |after| == |before|)
  {
    var before, after := Probing(requests, period), Probing(requests[id := stage], period);
    assert after == (if SlotOf(stage) == Some(period) then before + {id} else before - {id});
  }

  /** What one step may do to the probe count, and to the slot the request holds. */
  ghost predicate SlotMove(cfg: Settings, b: Breaker, b': Breaker, stage: Stage, stage': Stage) {
    b'.phase.HalfOpen? ==>
      || b'.probes == 0
      || (b'.probes == 1 && b'.trips == b.trips && SlotOf(stage') == Some(b'.trips))
      || (b.phase.HalfOpen? && b'.trips == b.trips
          && (|| (b'.probes == b.probes + 1 && b.probes < cfg.maxProbes && stage.AtProbeGate?
                  && SlotOf(stage') == Some(b.trips))
              || (b'.probes == b.probes && SlotOf(stage') == SlotOf(stage))
              || (b'.probes == b.probes - 1 && SlotOf(stage').None?)))
  }

  lemma LookMoves(cfg: Settings, c: Circuit, now: real)
    ensures var b, b' := c.breaker, Look(cfg, c, now).breaker;
            b' == b || (b'.phase.HalfOpen? && b'.probes == 0 && b'.trips == b.trips)
    ensures var b, b' := c.breaker, CountTrips(cfg, c, now).breaker;
            b' == b || (b'.phase.HalfOpen? && b'.probes == 0 && b'.trips == b.trips)
    ensures CountTrips(cfg, Look(cfg, c, now), now).breaker == Look(cfg, c, now).breaker
  {
  }

  lemma RecordMoves(cfg: Settings, c: Circuit, now: real, ok: bool, stage: Stage, stage': Stage)
    requires SlotOf(stage').None?
    ensures SlotMove(cfg, c.breaker, CountTrips(cfg, Record(cfg, c, now, ok), now).breaker, stage, stage')
  {
    LookMoves(cfg, Record(cfg, c, now, ok), now);
  }

  /** A slot is only ever given up by the recording that frees it, and `max(0, p - 1)` can only undercount when probes
      of an earlier period come in late. */
  lemma SlotsFollowCircuit(cfg: Settings, c: Circuit, now: real, stage: Stage, admitted: bool, handler: Handler)
    requires ValidSettings(cfg)
    ensures var (c', stage') := CircuitStep(cfg, c, now, stage, admitted, handler);
            SlotMove(cfg, c.breaker, c'.breaker, stage, stage')
  {
    match stage
    case Recording(ok, _) => RecordMoves(cfg, c, now, ok, stage, Done(true));
    case CrashRecording(_) => RecordMoves(cfg, c, now, false, stage, CrashReleasing);
    case _ => LookMoves(cfg, c, now);
  }

  lemma SlotsKept(cfg: Settings, s: System, id: nat, handler: Handler)
    requires ValidSettings(cfg) && SlotsOk(cfg, s.circuit.breaker, s.requests)
    ensures var s' := AdvanceRequest(cfg, s, id, handler); SlotsOk(cfg, s'.circuit.breaker, s'.requests)
  {
    var stage := StageOf(s, id);
    var (_, admitted) := GateStep(s.gate, id, stage, handler);
    SlotsFollowCircuit(cfg, s.circuit, s.clock, stage, admitted, handler);
    var s' := AdvanceRequest(cfg, s, id, handler);
    ProbingAfter(s.requests, id, s'.requests[id], s.circuit.breaker.trips);
    assert id in Probing(s.requests, s.circuit.breaker.trips) <==> SlotOf(stage) == Some(s.circuit.breaker.trips);
    if SlotOf(s'.requests[id]) == Some(s.circuit.breaker.trips) {
      assert id in Probing(s'.requests, s.circuit.breaker.trips);
      assert |Probing(s'.requests, s.circuit.breaker.trips)| >= 1;
    }
  }

  lemma StepKeeps(cfg: Settings, s: System, step: Step)
    requires ValidSettings(cfg) && Inv(cfg, s)
    ensures Inv(cfg, Take(cfg, s, step))
  {
    match step
    case Advance(id, handler) =>
      PermitsKept(cfg, s, id, handler);
      SlotsKept(cfg, s, id, handler);
      var (_, admitted) := GateStep(s.gate, id, StageOf(s, id), handler);
      CircuitKept(cfg, s.circuit, s.clock, StageOf(s, id), admitted, handler);
    case Tick(elapsed) =>
      assert forall id :: StageOf(Take(cfg, s, step), id) == StageOf(s, id);
  }

  lemma {:induction false} RunKeeps(cfg: Settings, s: System, steps: seq<Step>)
    requires ValidSettings(cfg) && Inv(cfg, s)
    ensures Inv(cfg, Run(cfg, s, steps))
    decreases |steps|
  {
    if steps != [] {
      StepKeeps(cfg, s, steps[0]);
      RunKeeps(cfg, Take(cfg, s, steps[0]), steps[1..]);
    }
  }

  lemma Reachable(cfg: Settings, maxConcurrent: int, clock: real, steps: seq<Step>)
    requires ValidSettings(cfg)
    ensures Inv(cfg, Run(cfg, Initial(maxConcurrent, clock), steps))
  {
    assert H.Trips([H.ClosedEpisode([])]) == H.Trips([]);
    RunKeeps(cfg, Initial(maxConcurrent, clock), steps);
  }

  // ---- Main results ----

  /** Under every interleaving of requests, clock ticks and handler outcomes: `_in_flight` is exactly the number of
      admitted, unfinished requests and never exceeds the limit, and every request gives back exactly the permits
      it took: none if it was refused before, one if it reached the handler. */
  lemma PermitsAreConserved(cfg: Settings, maxConcurrent: int, clock: real, steps: seq<Step>)
    requires ValidSettings(cfg)
    ensures var s := Run(cfg, Initial(maxConcurrent, clock), steps);
            && s.gate.limiter.inFlight == |Holders(s.requests)| <= s.gate.limiter.maxConcurrent
            && (forall id :: id in s.requests && s.requests[id].Done? ==>
                  && s.gate.acquired[id] == s.gate.released[id] <= 1
                  && (s.requests[id].reached ==> s.gate.released[id] == 1))
            && (forall id :: id in s.requests && HoldsPermit(s.requests[id]) ==>
                  s.gate.acquired[id] == 1 && s.gate.released[id] == 0)
  {
    Reachable(cfg, maxConcurrent, clock, steps);
    var s := Run(cfg, Initial(maxConcurrent, clock), steps);
    forall id | id in s.requests
      ensures LedgerOk(s.gate, s.requests[id], id)
    {
      assert LedgerOk(s.gate, StageOf(s, id), id);
    }
  }

  /** No probe slot is ever lost: while the breaker is half-open, the slots in use are at most the limit and at most the
      unfinished probes of this very period, however late the probes of earlier periods finish. */
  lemma NoProbeSlotLost(cfg: Settings, maxConcurrent: int, clock: real, steps: seq<Step>)
    requires ValidSettings(cfg)
    ensures var s := Run(cfg, Initial(maxConcurrent, clock), steps);
            s.circuit.breaker.phase.HalfOpen? ==>
              && s.circuit.breaker.probes <= cfg.maxProbes
              && s.circuit.breaker.probes <= |Probing(s.requests, s.circuit.breaker.trips)|
  {
    Reachable(cfg, maxConcurrent, clock, steps);
  }

  /** Request `id` alone, for `n` calls. */
  ghost function Advances(cfg: Settings, s: System, id: nat, handler: Handler, n: nat): System
    decreases n
  {
    if n == 0 then s else Advances(cfg, AdvanceRequest(cfg, s, id, handler), id, handler, n - 1)
  }

  /** So while fewer probes of the period are unfinished than the limit allows, and once they have all finished in
      particular, the next request is admitted as a probe, if a permit is free. */
  lemma NextProbeIsAdmitted(cfg: Settings, maxConcurrent: int, clock: real, steps: seq<Step>, id: nat)
    requires ValidSettings(cfg)
    requires var s := Run(cfg, Initial(maxConcurrent, clock), steps);
             && s.circuit.breaker.phase.HalfOpen? && |Probing(s.requests, s.circuit.breaker.trips)| < cfg.maxProbes
             && s.gate.limiter.inFlight < s.gate.limiter.maxConcurrent && id !in s.requests
    ensures var s := Run(cfg, Initial(maxConcurrent, clock), steps);
            StageOf(Advances(cfg, s, id, Raises, 4), id) == Handling(Probe(Some(s.circuit.breaker.trips)))
  {
    Reachable(cfg, maxConcurrent, clock, steps);
    var s := Run(cfg, Initial(maxConcurrent, clock), steps);
    FreeSlotAdmits(cfg, s, id);
  }

  lemma FreeSlotAdmits(cfg: Settings, s: System, id: nat)
    requires ValidSettings(cfg) && s.circuit.breaker.phase.HalfOpen? && s.circuit.breaker.probes < cfg.maxProbes
    requires s.gate.limiter.inFlight < s.gate.limiter.maxConcurrent && id !in s.requests
    ensures StageOf(Advances(cfg, s, id, Raises, 4), id) == Handling(Probe(Some(s.circuit.breaker.trips)))
  {
    assert Look(cfg, s.circuit, s.clock).breaker == s.circuit.breaker;
    var s1 := AdvanceRequest(cfg, s, id, Raises);
    assert s1.circuit.breaker == s.circuit.breaker && StageOf(s1, id) == Entered && s1.gate == s.gate;
    var s2 := AdvanceRequest(cfg, s1, id, Raises);
    assert s2.circuit == s1.circuit && StageOf(s2, id) == Permitted;
    var s3 := AdvanceRequest(cfg, s2, id, Raises);
    assert s3.circuit.breaker == s.circuit.breaker && StageOf(s3, id) == AtProbeGate;
    var s4 := AdvanceRequest(cfg, s3, id, Raises);
    assert Advances(cfg, s3, id, Raises, 1) == s4 by {
      assert Advances(cfg, s4, id, Raises, 0) == s4;
    }
    assert Advances(cfg, s1, id, Raises, 3) == Advances(cfg, s2, id, Raises, 2) == s4;
  }

  /** No request arriving within `openSecs` of a trip reaches the handler: its first step ends it. */
  lemma OpenRefusesArrivals(cfg: Settings, maxConcurrent: int, clock: real, steps: seq<Step>, trip: nat, id: nat,
                            handler: Handler)
    requires ValidSettings(cfg)
    requires var s := Run(cfg, Initial(maxConcurrent, clock), steps);
             && trip < |s.circuit.history| && s.circuit.history[trip].OpenEpisode?
             && s.clock < s.circuit.history[trip].since + cfg.openSecs as real && id !in s.requests
    ensures var s := Run(cfg, Initial(maxConcurrent, clock), steps);
            StageOf(AdvanceRequest(cfg, s, id, handler), id) == Done(false)
  {
    Reachable(cfg, maxConcurrent, clock, steps);
    var s := Run(cfg, Initial(maxConcurrent, clock), steps);
    H.OpenLasts(cfg, s.circuit.history, trip, s.clock);
  }

  /** Once finished, a request stays as it is. */
  lemma {:induction false} DoneStaysDone(cfg: Settings, s: System, id: nat, steps: seq<Step>)
    requires StageOf(s, id).Done?
    ensures StageOf(Run(cfg, s, steps), id) == StageOf(s, id)
    decreases |steps|
  {
    if steps != [] {
      assert StageOf(Take(cfg, s, steps[0]), id) == StageOf(s, id);
      DoneStaysDone(cfg, Take(cfg, s, steps[0]), id, steps[1..]);
    }
  }

  /** The breaker inside the middleware obeys its history, and the exported trip counter never counts a trip twice nor
      ahead of time; every refusal by the breaker and every accounting after the handler brings it up to date. */
  lemma TripsAreCountedOnce(cfg: Settings, maxConcurrent: int, clock: real, steps: seq<Step>, id: nat, handler: Handler)
    requires ValidSettings(cfg)
    ensures var s := Run(cfg, Initial(maxConcurrent, clock), steps);
            && H.Lawful(cfg, s.circuit.history) && s.circuit.breaker.trips == H.Trips(s.circuit.history)
            && s.circuit.counted <= s.circuit.breaker.trips
            && var s' := AdvanceRequest(cfg, s, id, handler);
               Accounts(StageOf(s, id), StageOf(s', id)) ==> s'.circuit.counted == s'.circuit.breaker.trips
  {
    Reachable(cfg, maxConcurrent, clock, steps);
    var s := Run(cfg, Initial(maxConcurrent, clock), steps);
    var (_, admitted) := GateStep(s.gate, id, StageOf(s, id), handler);
    AccountingCounts(cfg, s.circuit, s.clock, StageOf(s, id), admitted, handler);
  }

  /** The steps that end in the metrics: a refusal by the breaker, and the accounting after the handler. */
  predicate Accounts(stage: Stage, stage': Stage) {
    || (stage.Arriving? && stage'.Done?) || stage.Refusing? || stage.Recording? || stage.CrashRecording?
    || (stage.Returned? && stage'.Done?) || (stage.Crashed? && stage'.CrashReleasing?)
  }

  lemma CountTripsCounts(cfg: Settings, c: Circuit, now: real)
    requires c.counted == c.lastTrips <= c.breaker.trips
    ensures var c' := CountTrips(cfg, c, now); c'.counted == c'.breaker.trips
  {
  }

  lemma AccountingCounts(cfg: Settings, c: Circuit, now: real, stage: Stage, admitted: bool, handler: Handler)
    requires ValidSettings(cfg) && CircuitOk(cfg, c, now)
    ensures var (c', stage') := CircuitStep(cfg, c, now, stage, admitted, handler);
            Accounts(stage, stage') ==> c'.counted == c'.breaker.trips
  {
    match stage
    case Recording(ok, _) =>
      RecordKeeps(cfg, c, now, ok);
      CountTripsCounts(cfg, Record(cfg, c, now, ok), now);
    case CrashRecording(_) =>
      RecordKeeps(cfg, c, now, false);
      CountTripsCounts(cfg, Record(cfg, c, now, false), now);
    case _ =>
      LookKeeps(cfg, c, now);
      CountTripsCounts(cfg, c, now);
      CountTripsCounts(cfg, Look(cfg, c, now), now);
  }

  // ---- The middleware as written: admission before the handler, accounting after it ----

  /** How far a request is from its next stop (the handler or the end). */
  function Distance(stage: Stage): nat {
    match stage
    case Arriving => 5
    case Entered => 4
    case Permitted => 3
    case AtProbeGate => 2
    case Refusing => 1
    case Returned(_, _) => 2
    case Recording(_, _) => 1
    case Crashed(_) => 3
    case CrashRecording(_) => 2
    case CrashReleasing => 1
    case Handling(_) => 0
    case Done(_) => 0
  }

  /** The steps of one request alone, up to its next stop. */
  ghost function Drive(cfg: Settings, c: Circuit, g: Gate, now: real, id: nat, stage: Stage): (Circuit, Gate, Stage)
    decreases Distance(stage)
  {
    if Distance(stage) == 0 then (c, g, stage)
    else
      var (g', admitted) := GateStep(g, id, stage, Raises);
      var (c', stage') := CircuitStep(cfg, c, now, stage, admitted, Raises);
      StepIsCloser(cfg, c, now, stage, admitted);
      Drive(cfg, c', g', now, id, stage')
  }

  lemma StepIsCloser(cfg: Settings, c: Circuit, now: real, stage: Stage, admitted: bool)
    requires Distance(stage) > 0
    ensures Distance(CircuitStep(cfg, c, now, stage, admitted, Raises).1) < Distance(stage)
  {
  }

  lemma DriveStep(cfg: Settings, c: Circuit, g: Gate, now: real, id: nat, stage: Stage)
    requires Distance(stage) > 0
    ensures var (g', admitted) := GateStep(g, id, stage, Raises);
            var (c', stage') := CircuitStep(cfg, c, now, stage, admitted, Raises);
            Drive(cfg, c, g, now, id, stage) == Drive(cfg, c', g', now, id, stage')
  {
  }

  /** The accounting of one finished request, on either path. */
  ghost function Settle(cfg: Settings, c: Circuit, now: real, role: Role, ok: bool): Circuit {
    var c' := Look(cfg, c, now);
    if c'.breaker.phase.Closed? || role.Probe? then CountTrips(cfg, Record(cfg, c', now, ok), now)
    else CountTrips(cfg, c', now)
  }

  lemma ReturnedSettles(cfg: Settings, c: Circuit, g: Gate, now: real, id: nat, role: Role, ok: bool)
    ensures Drive(cfg, c, g, now, id, Returned(ok, role)) == (Settle(cfg, c, now, role, ok), g, Done(true))
  {
    DriveStep(cfg, c, g, now, id, Returned(ok, role));
    DriveStep(cfg, Look(cfg, c, now), g, now, id, Recording(ok, role));
  }

  lemma CrashedSettles(cfg: Settings, c: Circuit, g: Gate, now: real, id: nat, role: Role)
    ensures Drive(cfg, c, g, now, id, Crashed(role))
         == (Settle(cfg, c, now, role, false), ReleasePermit(g, id), Done(true))
  {
    DriveStep(cfg, c, g, now, id, Crashed(role));
    DriveStep(cfg, Look(cfg, c, now), g, now, id, CrashRecording(role));
    CrashReleases(cfg, Settle(cfg, c, now, role, false), g, now, id);
  }

  lemma CrashReleases(cfg: Settings, c: Circuit, g: Gate, now: real, id: nat)
    ensures Drive(cfg, c, g, now, id, CrashReleasing) == (c, ReleasePermit(g, id), Done(true))
  {
    DriveStep(cfg, c, g, now, id, CrashReleasing);
  }

  // ---- Main result: who is admitted ----

  /** A request arriving alone: refused while the breaker is open or no permit is free, admitted while it is
      closed, and while it is half-open admitted as a probe exactly if a probe slot is free.  Only an admitted
      request keeps a permit, only a probe takes a slot, and only a request without a permit counts as rejected. */
  lemma AdmittedExactly(cfg: Settings, c: Circuit, g: Gate, now: real, id: nat)
    ensures var (c', g', stage) := Drive(cfg, c, g, now, id, Arriving);
            var b := Poll(cfg, c.breaker, now);
            var room := g.limiter.inFlight < g.limiter.maxConcurrent;
            && stage == (if b.phase.Open? || !room then Done(false)
                         else if b.phase.Closed? then Handling(Ordinary)
                         else if b.probes < cfg.maxProbes then Handling(Probe(Some(b.trips)))
                         else Done(false))
            && g'.limiter.inFlight == g.limiter.inFlight + (if stage.Handling? then 1 else 0)
            && g'.limiter.rejected == g.limiter.rejected + (if !b.phase.Open? && !room then 1 else 0)
            && c'.breaker == b.(probes := b.probes + (if stage.Handling? && stage.role.Probe? then 1 else 0))
  {
    var c1 := Look(cfg, c, now);
    DriveStep(cfg, c, g, now, id, Arriving);
    if !c1.breaker.phase.Open? {
      var (g2, admitted) := GateStep(g, id, Entered, Raises);
      DriveStep(cfg, c1, g, now, id, Entered);
      assert Look(cfg, c1, now) == c1;
      if admitted {
        DriveStep(cfg, c1, g2, now, id, Permitted);
        if c1.breaker.phase.HalfOpen? {
          GateDecides(cfg, c1, g2, now, id);
        }
      }
    }
  }

  lemma GateDecides(cfg: Settings, c: Circuit, g: Gate, now: real, id: nat)
    requires c.breaker.phase.HalfOpen?
    ensures var (c', g', stage) := Drive(cfg, c, g, now, id, AtProbeGate);
            var free := c.breaker.probes < cfg.maxProbes;
            && stage == (if free then Handling(Probe(Some(c.breaker.trips))) else Done(false))
            && g' == (if free then g else ReleasePermit(g, id))
            && c'.breaker == if free then c.breaker.(probes := c.breaker.probes + 1) else c.breaker
  {
    var c1 := Look(cfg, c, now);
    assert c1.breaker == c.breaker;
    DriveStep(cfg, c, g, now, id, AtProbeGate);
    if c.breaker.probes >= cfg.maxProbes {
      DriveStep(cfg, c1, g, now, id, Refusing);
    }
  }

  // ---- Main result: what is recorded ----

  /** The outcome of a handler: success for a status below 500, failure for any other and for an exception. */
  function OutcomeOf(handler: Handler): H.Outcome {
    match handler
    case Returns(status) => if status < 500 then H.Success else H.Failure
    case Raises => H.Failure
  }

  lemma LookLogs(cfg: Settings, c: Circuit, now: real)
    ensures H.Logs(Look(cfg, c, now).history) == H.Logs(c.history)
    ensures H.Logs(CountTrips(cfg, c, now).history) == H.Logs(c.history)
    ensures Look(cfg, c, now).breaker == Poll(cfg, c.breaker, now)
  {
    H.LogsLook(cfg, c.history, now);
  }

  lemma RecordLogs(cfg: Settings, c: Circuit, now: real, ok: bool)
    requires ValidSettings(cfg) && CircuitOk(cfg, c, now)
    ensures H.Logs(Record(cfg, c, now, ok).history)
         == if Poll(cfg, c.breaker, now).phase.Open? then H.Logs(c.history)
            else H.Logs(c.history) + [if ok then H.Success else H.Failure]
  {
    var o := if ok then H.Success else H.Failure;
    H.LookKeeps(cfg, c.breaker, c.history, now, now);
    H.LookFirst(cfg, c.breaker, c.history, o, now);
    H.LogsLook(cfg, c.history, now);
    H.LogsRecord(cfg, H.SpecLook(cfg, c.history, now), o, now);
  }

  lemma SettleLogs(cfg: Settings, c: Circuit, now: real, role: Role, ok: bool)
    requires ValidSettings(cfg) && CircuitOk(cfg, c, now)
    ensures var phase := Poll(cfg, c.breaker, now).phase;
            H.Logs(Settle(cfg, c, now, role, ok).history)
            == H.Logs(c.history) + if phase.Closed? || (role.Probe? && !phase.Open?)
                                   then [if ok then H.Success else H.Failure] else []
  {
    var c1 := Look(cfg, c, now);
    LookLogs(cfg, c, now);
    LookKeeps(cfg, c, now);
    assert Poll(cfg, c1.breaker, now) == c1.breaker;
    RecordLogs(cfg, c1, now, ok);
    LookLogs(cfg, c1, now);
    LookLogs(cfg, Record(cfg, c1, now, ok), now);
  }

  /** The calls a request makes after its handler, alone, are the accounting of its outcome and one release. */
  lemma FinishesAlone(cfg: Settings, s: System, id: nat, role: Role, handler: Handler)
    requires StageOf(s, id) == Handling(role)
    ensures Advances(cfg, s, id, handler, 4)
         == s.(circuit := Settle(cfg, s.circuit, s.clock, role, OutcomeOf(handler) == H.Success),
               gate := ReleasePermit(s.gate, id), requests := s.requests[id := Done(true)])
  {
    var s1 := AdvanceRequest(cfg, s, id, handler);
    var stage := StageOf(s1, id);
    AloneIsDrive(cfg, s1, id, handler, 3);
    match handler {
      case Returns(status) => ReturnedSettles(cfg, s1.circuit, s1.gate, s1.clock, id, role, status < 500);
      case Raises => CrashedSettles(cfg, s1.circuit, s1.gate, s1.clock, id, role);
    }
    assert s1.requests[id := Done(true)] == s.requests[id := Done(true)];
  }

  /** Past the handler, the calls of one request alone are its drive to the end. */
  lemma {:induction false} AloneIsDrive(cfg: Settings, s: System, id: nat, handler: Handler, n: nat)
    requires ReachedHandler(StageOf(s, id)) && !StageOf(s, id).Handling? && Distance(StageOf(s, id)) <= n
    ensures var (c, g, stage) := Drive(cfg, s.circuit, s.gate, s.clock, id, StageOf(s, id));
            Advances(cfg, s, id, handler, n) == s.(circuit := c, gate := g, requests := s.requests[id := stage])
    decreases n
  {
    var stage := StageOf(s, id);
    if n == 0 || Distance(stage) == 0 {
      assert s.requests[id := stage] == s.requests;
      DoneAlone(cfg, s, id, handler, n);
    } else {
      var s' := AdvanceRequest(cfg, s, id, handler);
      DriveStep(cfg, s.circuit, s.gate, s.clock, id, stage);
      StepIsCloser(cfg, s.circuit, s.clock, stage, false);
      PastHandler(cfg, s, id, handler);
      AloneIsDrive(cfg, s', id, handler, n - 1);
      var last := Drive(cfg, s'.circuit, s'.gate, s'.clock, id, StageOf(s', id)).2;
      assert s'.requests[id := last] == s.requests[id := last];
    }
  }

  lemma PastHandler(cfg: Settings, s: System, id: nat, handler: Handler)
    requires ReachedHandler(StageOf(s, id)) && !StageOf(s, id).Handling? && !StageOf(s, id).Done?
    ensures var (g', _) := GateStep(s.gate, id, StageOf(s, id), Raises);
            var (c', stage') := CircuitStep(cfg, s.circuit, s.clock, StageOf(s, id), false, Raises);
            && AdvanceRequest(cfg, s, id, handler)
                 == s.(circuit := c', gate := g', requests := s.requests[id := stage'])
            && ReachedHandler(stage') && !stage'.Handling?
  {
  }

  lemma {:induction false} DoneAlone(cfg: Settings, s: System, id: nat, handler: Handler, n: nat)
    requires StageOf(s, id).Done?
    ensures Advances(cfg, s, id, handler, n) == s
    decreases n
  {
    if n > 0 {
      assert s.requests[id := StageOf(s, id)] == s.requests;
      DoneAlone(cfg, s, id, handler, n - 1);
    }
  }

  /** From every reachable state, a request that runs on alone from its handler to its end adds its outcome to the
      logs if the breaker, looked at after the handler, is closed, or if it is a probe and the breaker is not open;
      otherwise it adds nothing.  It gives back its permit. */
  lemma OutcomeIsRecorded(cfg: Settings, maxConcurrent: int, clock: real, steps: seq<Step>, id: nat, role: Role,
                          handler: Handler)
    requires ValidSettings(cfg) && StageOf(Run(cfg, Initial(maxConcurrent, clock), steps), id) == Handling(role)
    ensures var s := Run(cfg, Initial(maxConcurrent, clock), steps);
            var s' := Advances(cfg, s, id, handler, 4);
            var phase := Poll(cfg, s.circuit.breaker, s.clock).phase;
            && StageOf(s', id) == Done(true)
            && H.Logs(s'.circuit.history)
                 == H.Logs(s.circuit.history) + (if phase.Closed? || (role.Probe? && !phase.Open?)
                                                 then [OutcomeOf(handler)] else [])
            && s'.gate.limiter.inFlight == s.gate.limiter.inFlight - 1
  {
    Reachable(cfg, maxConcurrent, clock, steps);
    var s := Run(cfg, Initial(maxConcurrent, clock), steps);
    FinishesAlone(cfg, s, id, role, handler);
    SettleLogs(cfg, s.circuit, s.clock, role, OutcomeOf(handler) == H.Success);
    assert id in Holders(s.requests);
  }

  class Middleware {
    const circuit: CircuitBreaker
    const concurrency: ConcurrencyLimiter
    var lastTrips: nat
    var counted: nat
    ghost var history: H.History
    ghost var acquired: multiset<nat>
    ghost var released: multiset<nat>

    ghost function CircuitValue(): Circuit
      reads this, circuit
    {
      Circuit(circuit.Value(), history, lastTrips, counted)
    }

    ghost function GateValue(): Gate
      reads this, concurrency
    {
      Gate(concurrency.Value(), acquired, released)
    }

    constructor (breaker: CircuitBreaker, limiter: ConcurrencyLimiter)
      ensures circuit == breaker && concurrency == limiter
      ensures CircuitValue() == Circuit(breaker.Value(), [H.ClosedEpisode([])], 0, 0)
      ensures GateValue() == Gate(limiter.Value(), multiset{}, multiset{})
    {
      circuit, concurrency, lastTrips, counted := breaker, limiter, 0, 0;
      history, acquired, released := [H.ClosedEpisode([])], multiset{}, multiset{};
    }

    method LookAt(now: real) returns (p: Phase)
      modifies this, circuit
      ensures CircuitValue() == Look(circuit.cfg, old(CircuitValue()), now) && p == circuit.phase
      ensures GateValue() == old(GateValue())
    {
      p := circuit.State(now);
      history := H.SpecLook(circuit.cfg, history, now);
    }

    method RecordMetrics(now: real)
      modifies this, circuit
      ensures CircuitValue() == CountTrips(circuit.cfg, old(CircuitValue()), now)
      ensures GateValue() == old(GateValue())
    {
      var _ := LookAt(now);
      var trips := circuit.trips;
      if trips > lastTrips {
        counted := counted + (trips - lastTrips);
        lastTrips := trips;
      }
    }

    method RecordOutcome(now: real, ok: bool)
      modifies this, circuit
      ensures CircuitValue() == Record(circuit.cfg, old(CircuitValue()), now, ok)
      ensures GateValue() == old(GateValue())
    {
      history := H.SpecRecord(circuit.cfg, history, if ok then H.Success else H.Failure, now);
      if ok {
        circuit.Succeeded(now);
      } else {
        circuit.Failed(now);
      }
    }

    method GiveBack(id: nat)
      modifies this, concurrency
      ensures GateValue() == ReleasePermit(old(GateValue()), id)
      ensures CircuitValue() == old(CircuitValue())
    {
      concurrency.Free();
      released := released + multiset{id};
    }

    method SettleOutcome(now: real, role: Role, ok: bool)
      modifies this, circuit
      ensures CircuitValue() == Settle(circuit.cfg, old(CircuitValue()), now, role, ok)
      ensures GateValue() == old(GateValue())
    {
      var p := LookAt(now);
      if p == Closed || role.Probe? {
        RecordOutcome(now, ok);
      }
      RecordMetrics(now);
    }

    /** The half-open gate, after the permit was taken. */
    method PassProbeGate(id: nat, now: real) returns (role: Option<Role>)
      modifies this, circuit, concurrency
      ensures (CircuitValue(), GateValue(), if role.Some? then Handling(role.value) else Done(false))
           == Drive(circuit.cfg, old(CircuitValue()), old(GateValue()), now, id, AtProbeGate)
    {
      DriveStep(circuit.cfg, CircuitValue(), GateValue(), now, id, AtProbeGate);
      var _ := LookAt(now);
      var allowed := circuit.Allow(now);
      if !allowed {
        DriveStep(circuit.cfg, CircuitValue(), GateValue(), now, id, Refusing);
        GiveBack(id);
        RecordMetrics(now);
        return None;
      }
      return Some(Probe(if circuit.phase == HalfOpen then Some(circuit.trips) else None));
    }

    /** Everything before the handler: `None` when the request was answered 503. */
    method Admit(id: nat, now: real) returns (role: Option<Role>)
      modifies this, circuit, concurrency
      ensures (CircuitValue(), GateValue(), if role.Some? then Handling(role.value) else Done(false))
           == Drive(circuit.cfg, old(CircuitValue()), old(GateValue()), now, id, Arriving)
    {
      DriveStep(circuit.cfg, CircuitValue(), GateValue(), now, id, Arriving);
      var p := LookAt(now);
      if p == Open {
        RecordMetrics(now);
        return None;
      }
      DriveStep(circuit.cfg, CircuitValue(), GateValue(), now, id, Entered);
      var admitted := concurrency.Acquire();
      if !admitted {
        return None;
      }
      acquired := acquired + multiset{id};
      DriveStep(circuit.cfg, CircuitValue(), GateValue(), now, id, Permitted);
      p := LookAt(now);
      if p != HalfOpen {
        return Some(Ordinary);
      }
      role := PassProbeGate(id, now);
    }

    /** The accounting after a response: the permit goes back first. */
    method FinishReturned(id: nat, now: real, role: Role, status: int)
      modifies this, circuit, concurrency
      ensures (CircuitValue(), GateValue(), Done(true))
           == Drive(circuit.cfg, old(CircuitValue()), ReleasePermit(old(GateValue()), id), now, id,
                    Returned(status < 500, role))
    {
      GiveBack(id);
      ReturnedSettles(circuit.cfg, CircuitValue(), GateValue(), now, id, role, status < 500);
      SettleOutcome(now, role, status < 500);
    }

    /** The accounting after an exception: the outcome is recorded first, the permit goes back last. */
    method FinishRaised(id: nat, now: real, role: Role)
      modifies this, circuit, concurrency
      ensures (CircuitValue(), GateValue(), Done(true))
           == Drive(circuit.cfg, old(CircuitValue()), old(GateValue()), now, id, Crashed(role))
    {
      CrashedSettles(circuit.cfg, CircuitValue(), GateValue(), now, id, role);
      SettleOutcome(now, role, false);
      GiveBack(id);
    }
  }
}
