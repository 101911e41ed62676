/**
  The mock event source (mock_event_source/src/main.rs): a stand-in server
  that publishes the same event stream as the firmware, plus `parameters`
  announcements. Modelled: the sensor-range enumerations with their fixed
  discriminants and defaults, the shared `ServerState` and its `send_event`,
  the `/start`, `/stop` and `/parameters` handlers, and one iteration of the
  generator loop with its integer run-relative `time`.

  The broadcast channel, the lock, the 100 ms timer and the floating-point
  flight simulation are outside the model; events a handler or the generator
  sends are returned instead.
 */
module MockServer {
  import opened Basics
  import opened Events

  /** Milliseconds of simulated time per generator iteration. */
  const MillisPerTick: nat := 100

  /** The generator sends a heartbeat when its counter is a multiple of 10. */
  const IdleEvery: nat := 10

  datatype AccelRange = Range2G | Range4G | Range8G | Range16G
  datatype GyroRange = Range250DPS | Range500DPS | Range1000DPS | Range2000DPS
  datatype FilterBandwidthHz =
    | BandWidth260 | BandWidth184 | BandWidth94 | BandWidth44
    | BandWidth21 | BandWidth10 | BandWidth5

  /** `accel_range as u32`: the explicit discriminant. */
  function AccelValue(a: AccelRange): nat {
    match a
    case Range2G => 2
    case Range4G => 4
    case Range8G => 8
    case Range16G => 16
  }

  function GyroValue(g: GyroRange): nat {
    match g
    case Range250DPS => 250
    case Range500DPS => 500
    case Range1000DPS => 1000
    case Range2000DPS => 2000
  }

  function FilterValue(f: FilterBandwidthHz): nat {
    match f
    case BandWidth260 => 260
    case BandWidth184 => 184
    case BandWidth94 => 94
    case BandWidth44 => 44
    case BandWidth21 => 21
    case BandWidth10 => 10
    case BandWidth5 => 5
  }

  /** The form value each variant is accepted under (`#[field(value = ...)]`). */
  function AccelFromField(v: string): Option<AccelRange> {
    if v == "2" then Some(Range2G)
    else if v == "4" then Some(Range4G)
    else if v == "8" then Some(Range8G)
    else if v == "16" then Some(Range16G)
    else None
  }

  function GyroFromField(v: string): Option<GyroRange> {
    if v == "250" then Some(Range250DPS)
    else if v == "500" then Some(Range500DPS)
    else if v == "1000" then Some(Range1000DPS)
    else if v == "2000" then Some(Range2000DPS)
    else None
  }

  function FilterFromField(v: string): Option<FilterBandwidthHz> {
    if v == "260" then Some(BandWidth260)
    else if v == "184" then Some(BandWidth184)
    else if v == "94" then Some(BandWidth94)
    else if v == "44" then Some(BandWidth44)
    else if v == "21" then Some(BandWidth21)
    else if v == "10" then Some(BandWidth10)
    else if v == "5" then Some(BandWidth5)
    else None
  }

  /** Each enumeration is accepted as a form field under exactly the decimal
      rendering of the number it is announced as: what a viewer reads in a
      `parameters` event it can send back unchanged. */
  lemma AccelFieldRoundTrip(a: AccelRange)
    ensures AccelFromField(NatToDecimal(AccelValue(a))) == Some(a)
  {
    assert NatToDecimal(16) == NatToDecimal(1) + [DigitChar(6)];
  }

  lemma GyroFieldRoundTrip(g: GyroRange)
    ensures GyroFromField(NatToDecimal(GyroValue(g))) == Some(g)
  {
    match g {
      case Range250DPS =>
        assert NatToDecimal(25) == "25";
        assert NatToDecimal(250) == "250";
      case Range500DPS =>
        assert NatToDecimal(50) == "50";
        assert NatToDecimal(500) == "500";
      case Range1000DPS =>
        assert NatToDecimal(10) == "10";
        assert NatToDecimal(100) == "100";
        assert NatToDecimal(1000) == "1000";
      case Range2000DPS =>
        assert NatToDecimal(20) == "20";
        assert NatToDecimal(200) == "200";
        assert NatToDecimal(2000) == "2000";
    }
  }

  lemma FilterFieldRoundTrip(f: FilterBandwidthHz)
    ensures FilterFromField(NatToDecimal(FilterValue(f))) == Some(f)
  {
    match f {
      case BandWidth260 =>
        assert NatToDecimal(26) == "26";
        assert NatToDecimal(260) == "260";
      case BandWidth184 =>
        assert NatToDecimal(18) == "18";
        assert NatToDecimal(184) == "184";
      case BandWidth94 => assert NatToDecimal(94) == "94";
      case BandWidth44 => assert NatToDecimal(44) == "44";
      case BandWidth21 => assert NatToDecimal(21) == "21";
      case BandWidth10 => assert NatToDecimal(10) == "10";
      case BandWidth5 =>
    }
  }

  /** Distinct variants have distinct discriminants, so an announcement
      identifies the configured ranges. */
  lemma DiscriminantsInjective(a: AccelRange, a': AccelRange, g: GyroRange, g': GyroRange,
                               f: FilterBandwidthHz, f': FilterBandwidthHz)
    ensures AccelValue(a) == AccelValue(a') ==> a == a'
    ensures GyroValue(g) == GyroValue(g') ==> g == g'
    ensures FilterValue(f) == FilterValue(f') ==> f == f'
  {
  }

  /** The shared server state, without the broadcast sender. */
  datatype ServerState = ServerState(
    telemetryRunning: bool,
    telemetryRequested: bool,
    emptyWeight: string,
    waterWeight: string,
    airPressure: string,
    accelRange: AccelRange,
    gyroRange: GyroRange,
    filterBandwidth: FilterBandwidthHz,
    eventId: nat)

  /** The state `main` builds: idle, weights and pressure "0.0", and the
      `Default` of each enumeration (8 G, 500 deg/s, 21 Hz). */
  function InitialState(): ServerState {
    ServerState(false, false, "0.0", "0.0", "0.0", Range8G, Range500DPS, BandWidth21, 0)
  }

  /** The `Parameters` record serialized into a `parameters` event. */
  datatype ParametersView = ParametersView(
    emptyWeight: string,
    waterWeight: string,
    airPressure: string,
    accelRange: nat,
    gyroRange: nat,
    filterBandwidth: nat)

  /** What an event carries: nothing, a telemetry record (of which only the
      integer `time` is modelled), or a parameters record. */
  datatype Payload = NoData | TelemetryData(time: nat) | ParametersData(view: ParametersView)

  /** An event as it leaves the server, with the number its `id` field renders. */
  datatype SseEvent = SseEvent(kind: Kind, id: nat, data: Payload)

  /** The `Parameters` record built from a state. */
  function Snapshot(st: ServerState): (v: ParametersView)
    ensures v.accelRange in {2, 4, 8, 16}
    ensures v.gyroRange in {250, 500, 1000, 2000}
    ensures v.filterBandwidth in {260, 184, 94, 44, 21, 10, 5}
  {
    ParametersView(st.emptyWeight, st.waterWeight, st.airPressure,
                   AccelValue(st.accelRange), GyroValue(st.gyroRange), FilterValue(st.filterBandwidth))
  }

  /** Two states announce the same parameters exactly when they hold the same
      parameter fields. */
  lemma SnapshotDeterminesParameters(a: ServerState, b: ServerState)
    ensures Snapshot(a) == Snapshot(b) <==>
            a.emptyWeight == b.emptyWeight && a.waterWeight == b.waterWeight &&
            a.airPressure == b.airPressure && a.accelRange == b.accelRange &&
            a.gyroRange == b.gyroRange && a.filterBandwidth == b.filterBandwidth
  {
    DiscriminantsInjective(a.accelRange, b.accelRange, a.gyroRange, b.gyroRange,
                           a.filterBandwidth, b.filterBandwidth);
  }

  /** `ServerState::send_event`: increment the counter first, then tag the
      event with the new value. */
  function SendEvent(st: ServerState, kind: Kind, data: Payload): (r: (ServerState, SseEvent))
    ensures r.0 == st.(eventId := st.eventId + 1)
    ensures r.1 == SseEvent(kind, r.0.eventId, data)
  {
    var st1 := st.(eventId := st.eventId + 1);
    (st1, SseEvent(kind, st1.eventId, data))
  }

  /** `/start`: request telemetry unless it is already requested. */
  function Start(st: ServerState): (r: (ServerState, string))
    ensures r.0.telemetryRequested
    ensures st.telemetryRequested ==> r == (st, "Telemetry already running")
    ensures !st.telemetryRequested ==> r == (st.(telemetryRequested := true), "Telemetry started")
  {
    if st.telemetryRequested then (st, "Telemetry already running")
    else (st.(telemetryRequested := true), "Telemetry started")
  }

  /** `/stop`: withdraw the telemetry request unless it is already withdrawn. */
  function Stop(st: ServerState): (r: (ServerState, string))
    ensures !r.0.telemetryRequested
    ensures !st.telemetryRequested ==> r == (st, "Telemetry already stopped")
    ensures st.telemetryRequested ==> r == (st.(telemetryRequested := false), "Telemetry stopped")
  {
    if !st.telemetryRequested then (st, "Telemetry already stopped")
    else (st.(telemetryRequested := false), "Telemetry stopped")
  }

  /** A second `/start` (or `/stop`) changes nothing and says so. */
  lemma StartStopIdempotent(st: ServerState)
    ensures Start(Start(st).0) == (Start(st).0, "Telemetry already running")
    ensures Stop(Stop(st).0) == (Stop(st).0, "Telemetry already stopped")
  {
  }

  /** The query parameters a `/parameters` request supplied; absent ones are `None`. */
  datatype ParametersQuery = ParametersQuery(
    emptyWeight: Option<string>,
    waterWeight: Option<string>,
    airPressure: Option<string>,
    accelRange: Option<AccelRange>,
    gyroRange: Option<GyroRange>,
    filterBandwidth: Option<FilterBandwidthHz>)

  /** The `if let Some(..)` assignments of `/parameters`: each supplied field
      replaces the stored one, each absent field is kept. */
  function Overwrite(st: ServerState, q: ParametersQuery): (r: ServerState)
    ensures r.emptyWeight == q.emptyWeight.Otherwise(st.emptyWeight)
    ensures r.waterWeight == q.waterWeight.Otherwise(st.waterWeight)
    ensures r.airPressure == q.airPressure.Otherwise(st.airPressure)
    ensures r.accelRange == q.accelRange.Otherwise(st.accelRange)
    ensures r.gyroRange == q.gyroRange.Otherwise(st.gyroRange)
    ensures r.filterBandwidth == q.filterBandwidth.Otherwise(st.filterBandwidth)
    ensures r.telemetryRunning == st.telemetryRunning
    ensures r.telemetryRequested == st.telemetryRequested
    ensures r.eventId == st.eventId
  {
    var st1 := if q.emptyWeight.Some? then st.(emptyWeight := q.emptyWeight.value) else st;
    var st2 := if q.waterWeight.Some? then st1.(waterWeight := q.waterWeight.value) else st1;
    var st3 := if q.airPressure.Some? then st2.(airPressure := q.airPressure.value) else st2;
    var st4 := if q.accelRange.Some? then st3.(accelRange := q.accelRange.value) else st3;
    var st5 := if q.gyroRange.Some? then st4.(gyroRange := q.gyroRange.value) else st4;
    if q.filterBandwidth.Some? then st5.(filterBandwidth := q.filterBandwidth.value) else st5
  }

  /** `/parameters`: overwrite the supplied fields, then announce all of them in
      one `parameters` event; the response body is empty. */
  function SetParameters(st: ServerState, q: ParametersQuery): (r: (ServerState, SseEvent, string))
    ensures r.0 == Overwrite(st, q).(eventId := st.eventId + 1)
    ensures r.1 == SseEvent(Parameters, st.eventId + 1, ParametersData(Snapshot(r.0)))
    ensures r.2 == ""
  {
    var st1 := Overwrite(st, q);
    var (st2, event) := SendEvent(st1, Parameters, ParametersData(Snapshot(st1)));
    (st2, event, "")
  }

  /** Repeating a `/parameters` request changes no parameter again: only the
      event counter moves, and the second announcement equals the first. */
  lemma SetParametersIdempotent(st: ServerState, q: ParametersQuery)
    ensures var (st1, e1, _) := SetParameters(st, q);
            var (st2, e2, _) := SetParameters(st1, q);
            st2 == st1.(eventId := st1.eventId + 1) && e2.data == e1.data && e2.id == e1.id + 1
  {
  }

  /** An empty `/parameters` request only announces the current parameters. */
  lemma EmptyQueryOnlyAnnounces(st: ServerState)
    ensures var q := ParametersQuery(None, None, None, None, None, None);
            var (st1, e, _) := SetParameters(st, q);
            st1 == st.(eventId := st.eventId + 1) && e.data == ParametersData(Snapshot(st))
  {
  }

  /** Right after start-up, an empty `/parameters` request announces weights and
      pressure "0.0", 8 G, 500 deg/s and 21 Hz, as event 1. */
  lemma InitialAnnouncement()
    ensures var q := ParametersQuery(None, None, None, None, None, None);
            var (_, e, _) := SetParameters(InitialState(), q);
            e == SseEvent(Parameters, 1, ParametersData(ParametersView("0.0", "0.0", "0.0", 8, 500, 21)))
  {
  }

  /** The generator's own loop variables: the iteration counter and the
      counter value at which the current run started. */
  datatype Generator = Generator(counter: nat, start: nat)

  /** An event the generator has built but not yet numbered. */
  datatype Draft = Draft(kind: Kind, data: Payload)

  /** The generator's numbering loop: each event is tagged with the current
      counter, and the counter is incremented after it. */
  function NumberFrom(drafts: seq<Draft>, first: nat): (r: seq<SseEvent>)
    ensures |r| == |drafts|
    ensures forall i :: 0 <= i < |r| ==>
              r[i].id == first + i && r[i].kind == drafts[i].kind && r[i].data == drafts[i].data
    decreases |drafts|
  {
    if |drafts| == 0 then []
    else [SseEvent(drafts[0].kind, first, drafts[0].data)] + NumberFrom(drafts[1..], first + 1)
  }

  /** The events one iteration builds, and where the run start moves. */
  function TickDrafts(g: Generator, st: ServerState, counter: nat): (ServerState, nat, seq<Draft>)
    requires g.start <= counter
  {
    if st.telemetryRequested then
      var (st1, start, started) :=
        if !st.telemetryRunning then (st.(telemetryRunning := true), counter, [Draft(TelemetryStarted, NoData)])
        else (st, g.start, []);
      (st1, start, started + [Draft(Telemetry, TelemetryData((counter - start) * MillisPerTick))])
    else
      var (st1, stopped) :=
        if st.telemetryRunning then (st.(telemetryRunning := false), [Draft(TelemetryStopped, NoData)])
        else (st, []);
      (st1, g.start, stopped + if counter % IdleEvery == 0 then [Draft(Idle, NoData)] else [])
  }

  /** One iteration of `generator_loop`. */
  function GeneratorTick(g: Generator, st: ServerState): (r: (Generator, ServerState, seq<SseEvent>))
    requires g.start <= g.counter
    ensures r.0.counter == g.counter + 1
    ensures r.0.start <= r.0.counter
    ensures r.1.telemetryRunning == st.telemetryRequested
    ensures r.1 == st.(telemetryRunning := r.1.telemetryRunning, eventId := r.1.eventId)
    ensures st.telemetryRequested && !st.telemetryRunning ==>
              r.0.start == r.0.counter && |r.2| == 2 &&
              r.2[0].kind == TelemetryStarted && r.2[0].data == NoData &&
              r.2[1].kind == Telemetry
    ensures st.telemetryRequested && st.telemetryRunning ==>
              r.0.start == g.start && |r.2| == 1 && r.2[0].kind == Telemetry
    ensures st.telemetryRequested ==>
              r.2[|r.2| - 1].data == TelemetryData(MillisPerTick * (r.0.counter - r.0.start))
    ensures !st.telemetryRequested ==>
              r.0.start == g.start &&
              |r.2| == (if st.telemetryRunning then 1 else 0) + (if r.0.counter % IdleEvery == 0 then 1 else 0) &&
              (st.telemetryRunning ==> r.2[0].kind == TelemetryStopped) &&
              (r.0.counter % IdleEvery == 0 ==> r.2[|r.2| - 1].kind == Idle) &&
              (forall i :: 0 <= i < |r.2| ==> r.2[i].data == NoData)
    ensures forall i :: 0 <= i < |r.2| ==> r.2[i].id == st.eventId + i
    ensures r.1.eventId == st.eventId + |r.2|
  {
    var counter := g.counter + 1;
    var (st1, start, drafts) := TickDrafts(g, st, counter);
    var events := NumberFrom(drafts, st1.eventId);
    (Generator(counter, start), st1.(eventId := st1.eventId + |drafts|), events)
  }

  /** Within a run the reading's `time` grows by exactly 100 ms per iteration,
      starting from 0 at the iteration that opened the run. */
  lemma TimeAdvances(g: Generator, st: ServerState)
    requires g.start <= g.counter
    requires st.telemetryRequested
    ensures var (g1, st1, e1) := GeneratorTick(g, st);
            (!st.telemetryRunning ==> e1[|e1| - 1].data == TelemetryData(0)) &&
            (st1.telemetryRequested ==>
              var (_, _, e2) := GeneratorTick(g1, st1);
              e2[|e2| - 1].data.time == e1[|e1| - 1].data.time + MillisPerTick)
  {
  }

  /** Everything that can happen to the mock server between two observations. */
  datatype Input =
    | GeneratorIteration
    | StartRequest
    | StopRequest
    | ParametersRequest(query: ParametersQuery)

  /** The generator's variables together with the shared state. */
  datatype World = World(gen: Generator, state: ServerState)

  predicate Reachable(w: World) {
    w.gen.start <= w.gen.counter
  }

  function InitialWorld(): World {
    World(Generator(0, 0), InitialState())
  }

  function Apply(w: World, input: Input): (r: (World, seq<SseEvent>))
    requires Reachable(w)
    ensures Reachable(r.0)
  {
    match input
    case GeneratorIteration =>
      var (g1, st1, evs) := GeneratorTick(w.gen, w.state);
      (World(g1, st1), evs)
    case StartRequest => (w.(state := Start(w.state).0), [])
    case StopRequest => (w.(state := Stop(w.state).0), [])
    case ParametersRequest(q) =>
      var (st1, e, _) := SetParameters(w.state, q);
      (w.(state := st1), [e])
  }

  function Run(w: World, inputs: seq<Input>): (r: (World, seq<SseEvent>))
    requires Reachable(w)
    ensures Reachable(r.0)
    decreases |inputs|
  {
    if |inputs| == 0 then (w, [])
    else
      var front := Run(w, inputs[..|inputs| - 1]);
      var last := Apply(front.0, inputs[|inputs| - 1]);
      (last.0, front.1 + last.1)
  }

  function KindsOf(es: seq<SseEvent>): (r: seq<Kind>)
    ensures |r| == |es|
    ensures forall i :: 0 <= i < |es| ==> r[i] == es[i].kind
    decreases |es|
  {
    if |es| == 0 then [] else KindsOf(es[..|es| - 1]) + [es[|es| - 1].kind]
  }

  lemma KindsOfAppend(a: seq<SseEvent>, b: seq<SseEvent>)
    ensures KindsOf(a + b) == KindsOf(a) + KindsOf(b)
  {
  }

  /** One generator iteration publishes an ordered batch and leaves the
      session flag where the batch's last lifecycle event says. */
  lemma GeneratorOrdered(g: Generator, st: ServerState)
    requires g.start <= g.counter
    ensures var (_, st1, evs) := GeneratorTick(g, st);
            Ordered(KindsOf(evs), st.telemetryRunning) &&
            PhaseAfter(KindsOf(evs), st.telemetryRunning) == st1.telemetryRunning
  {
    var ks := KindsOf(GeneratorTick(g, st).2);
    var p := st.telemetryRunning;
    if |ks| == 1 {
      assert ks == [ks[0]];
      OrderedSingle(ks[0], p);
    } else if |ks| == 2 {
      assert ks == [ks[0], ks[1]];
      OrderedPair(ks[0], ks[1], p);
    }
  }

  lemma ApplyOrdered(w: World, input: Input)
    requires Reachable(w)
    ensures Ordered(KindsOf(Apply(w, input).1), w.state.telemetryRunning)
    ensures PhaseAfter(KindsOf(Apply(w, input).1), w.state.telemetryRunning) ==
            Apply(w, input).0.state.telemetryRunning
  {
    var p := w.state.telemetryRunning;
    match input
    case GeneratorIteration =>
      GeneratorOrdered(w.gen, w.state);
    case ParametersRequest(q) =>
      assert KindsOf(Apply(w, input).1) == [Parameters] by {
        assert Apply(w, input).1 == [SetParameters(w.state, q).1];
      }
      OrderedSingle(Parameters, p);
    case StartRequest =>
    case StopRequest =>
  }

  /** Over any interleaving of iterations and requests the mock server's
      events obey the same session ordering as the firmware's. */
  lemma {:induction false} RunOrdered(w: World, inputs: seq<Input>)
    requires Reachable(w)
    ensures Ordered(KindsOf(Run(w, inputs).1), w.state.telemetryRunning)
    ensures PhaseAfter(KindsOf(Run(w, inputs).1), w.state.telemetryRunning) ==
            Run(w, inputs).0.state.telemetryRunning
    decreases |inputs|
  {
    if |inputs| > 0 {
      var front := Run(w, inputs[..|inputs| - 1]);
      var last := Apply(front.0, inputs[|inputs| - 1]);
      assert Run(w, inputs) == (last.0, front.1 + last.1);
      RunOrdered(w, inputs[..|inputs| - 1]);
      ApplyOrdered(front.0, inputs[|inputs| - 1]);
      KindsOfAppend(front.1, last.1);
      OrderedAppend(KindsOf(front.1), KindsOf(last.1), w.state.telemetryRunning);
      PhaseAfterAppend(KindsOf(front.1), KindsOf(last.1), w.state.telemetryRunning);
    }
  }

  /** The two numbering schemes can hand out the same id: from start-up, a
      `/start` and a `/parameters` request followed by one generator iteration
      publish id 1 twice. */
  lemma IdsCanRepeat()
    ensures var evs := Run(InitialWorld(),
              [StartRequest, ParametersRequest(ParametersQuery(None, None, None, None, None, None)),
               GeneratorIteration]).1;
            |evs| == 3 && evs[0].kind == Parameters && evs[1].kind == TelemetryStarted &&
            evs[0].id == 1 && evs[1].id == 1
  {
    var q := ParametersQuery(None, None, None, None, None, None);
    var inputs := [StartRequest, ParametersRequest(q), GeneratorIteration];
    var w0 := InitialWorld();
    assert inputs[..2][..1][..0] == [];
    assert inputs[..2][..1] == [StartRequest];
    assert inputs[..2] == [StartRequest, ParametersRequest(q)];
    var r1 := Run(w0, inputs[..2][..1]);
    assert Run(w0, inputs[..2][..1][..0]) == (w0, []);
    assert r1.0 == Apply(w0, StartRequest).0;
    assert r1.1 == [] && r1.0.state.telemetryRequested && r1.0.state.eventId == 0;
    var r2 := Run(w0, inputs[..2]);
    assert r2.1 == [SseEvent(Parameters, 1, ParametersData(Snapshot(r2.0.state)))];
    assert r2.0.state.eventId == 1 && r2.0.state.telemetryRequested && !r2.0.state.telemetryRunning;
    var r3 := Run(w0, inputs);
    var last := Apply(r2.0, GeneratorIteration);
    assert r3.1 == r2.1 + last.1;
    assert last.1[0].kind == TelemetryStarted && last.1[0].id == 1;
  }
}
