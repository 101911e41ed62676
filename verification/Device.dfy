/**
  The firmware's event plumbing (src/rocket-telemetry.cpp): `send_event`
  fanning one event out to the registered push-channel clients, the
  `loop` / `do_telemetry` / `do_idle` tick that decides which events exist,
  the `/start`, `/stop` and `/calibrate` handlers and the two button
  callbacks that set the flags the tick reads.

  Sensor readings, the display, GPIO and delays are outside the model: the
  serialized telemetry JSON of a tick is a parameter, and a client is a
  record of its connection flag and queued-packet count that the transport
  changes between ticks through an input.
 */
module Device {
  import opened Basics
  import opened Events

  /** `SSE_MAX_QUEUED_MESSAGES`, the per-client queue bound of the ESP32 build of
      the AsyncEventSource library (the library is not part of this model). */
  const SseMaxQueuedMessages: nat := 32

  /** `loop_counter` is a `uint32_t`: its increment wraps at 2^32. */
  const LoopCounterModulus: nat := 0x1_0000_0000

  /** The backlight is left alone for the first 20 ticks after boot. */
  const BacklightHoldTicks: nat := 20

  /** While idle, one heartbeat every 10 ticks. */
  const IdleEvery: nat := 10

  type LoopCounter = n: nat | n < LoopCounterModulus

  /** What `send_event` can observe of a registered `AsyncEventSourceClient`. */
  datatype Client = Client(connected: bool, packetsWaiting: nat)

  /** One `client->send(message, event, id)` call. `client` is the client's
      position in the list as it was when `send_event` began. */
  datatype Delivery = Delivery(client: nat, message: string, event: string, id: nat)

  /** A client `send_event` keeps (and sends to): still connected and not saturated. */
  predicate Live(c: Client) {
    c.connected && c.packetsWaiting < SseMaxQueuedMessages
  }

  /** The registered clients that are live, in their original order. */
  function LiveClients(cs: seq<Client>): (r: seq<Client>)
    ensures |r| <= |cs|
    decreases |cs|
  {
    if |cs| == 0 then []
    else if Live(cs[0]) then [cs[0]] + LiveClients(cs[1..])
    else LiveClients(cs[1..])
  }

  /** A client survives the filter exactly when it is registered and live. */
  lemma {:induction false} LiveClientsMembers(cs: seq<Client>)
    ensures forall c :: c in LiveClients(cs) <==> c in cs && Live(c)
    decreases |cs|
  {
    if |cs| > 0 {
      LiveClientsMembers(cs[1..]);
      assert cs == [cs[0]] + cs[1..];
    }
  }

  /** Filtering the live clients again drops nobody. */
  lemma {:induction false} LiveClientsIdempotent(cs: seq<Client>)
    ensures LiveClients(LiveClients(cs)) == LiveClients(cs)
    decreases |cs|
  {
    if |cs| > 0 {
      LiveClientsIdempotent(cs[1..]);
      if Live(cs[0]) {
        var r := LiveClients(cs);
        assert r[0] == cs[0];
        assert r[1..] == LiveClients(cs[1..]);
      }
    }
  }

  /** Filtering out a client that is not live shortens the list. */
  lemma {:induction false} LiveClientsShorter(cs: seq<Client>, i: nat)
    requires i < |cs| && !Live(cs[i])
    ensures |LiveClients(cs)| < |cs|
    decreases |cs|
  {
    if i > 0 {
      LiveClientsShorter(cs[1..], i - 1);
    }
  }

  /** Positions `from ..` of the clients that are live, ascending. */
  function LiveIndices(cs: seq<Client>, from: nat): (r: seq<nat>)
    requires from <= |cs|
    ensures |r| <= |cs| - from
    decreases |cs| - from
  {
    if from == |cs| then []
    else if Live(cs[from]) then [from] + LiveIndices(cs, from + 1)
    else LiveIndices(cs, from + 1)
  }

  /** The positions listed are exactly the live ones from `from` on, ascending. */
  lemma {:induction false} LiveIndicesExact(cs: seq<Client>, from: nat)
    requires from <= |cs|
    ensures forall j :: 0 <= j < |LiveIndices(cs, from)| ==>
              from <= LiveIndices(cs, from)[j] < |cs| && Live(cs[LiveIndices(cs, from)[j]])
    ensures forall j, j' :: 0 <= j < j' < |LiveIndices(cs, from)| ==>
              LiveIndices(cs, from)[j] < LiveIndices(cs, from)[j']
    ensures forall i :: from <= i < |cs| && Live(cs[i]) ==> i in LiveIndices(cs, from)
    decreases |cs| - from
  {
    if from < |cs| {
      LiveIndicesExact(cs, from + 1);
      var r := LiveIndices(cs, from);
      var rest := LiveIndices(cs, from + 1);
      if Live(cs[from]) {
        assert r == [from] + rest;
        forall j | 1 <= j < |r| ensures r[j] == rest[j - 1] && from < r[j] {
        }
      } else {
        assert r == rest;
      }
    }
  }

  /** The client position each send went to, in order. */
  function Recipients(ds: seq<Delivery>): (r: seq<nat>)
    ensures |r| == |ds|
    ensures forall j :: 0 <= j < |ds| ==> r[j] == ds[j].client
    decreases |ds|
  {
    if |ds| == 0 then [] else [ds[0].client] + Recipients(ds[1..])
  }

  /** The `std::remove_if` pass of `send_event` over clients `from ..`: a client
      that is disconnected or has too many packets waiting is dropped without
      being sent anything; every other client is sent the event once and kept. */
  function Sweep(cs: seq<Client>, from: nat, message: string, event: string, id: nat)
    : (r: (seq<Client>, seq<Delivery>))
    requires from <= |cs|
    ensures r.0 == LiveClients(cs[from..])
    ensures Recipients(r.1) == LiveIndices(cs, from)
    ensures |r.1| == |r.0|
    ensures forall j :: 0 <= j < |r.1| ==>
              r.1[j].message == message && r.1[j].event == event && r.1[j].id == id
    decreases |cs| - from
  {
    if from == |cs| then ([], [])
    else
      var rest := Sweep(cs, from + 1, message, event, id);
      assert cs[from..][1..] == cs[from + 1..];
      if !cs[from].connected || cs[from].packetsWaiting >= SseMaxQueuedMessages then
        rest
      else
        var ds := [Delivery(from, message, event, id)] + rest.1;
        assert ds[1..] == rest.1;
        ([cs[from]] + rest.0, ds)
  }

  /** The outcome of one `send_event`: the new `event_id`, the client list after
      the sweep, and the sends issued, in order. */
  datatype Fanout = Fanout(eventId: nat, clients: seq<Client>, deliveries: seq<Delivery>)

  /** `send_event(message, event)`: allocate the next id, then send
      `(message or "", event, id)` to every live client and drop the others. */
  function SendEvent(message: Option<string>, event: string, eventId: nat, clients: seq<Client>)
    : (r: Fanout)
    ensures r.eventId == eventId + 1
    ensures r.clients == LiveClients(clients)
    ensures Recipients(r.deliveries) == LiveIndices(clients, 0)
    ensures |r.deliveries| == |r.clients|
    ensures forall j :: 0 <= j < |r.deliveries| ==>
              r.deliveries[j].message == (if message.None? then "" else message.value) &&
              r.deliveries[j].event == event &&
              r.deliveries[j].id == r.eventId
  {
    var id := eventId + 1;
    var messageToSend := match message case None => "" case Some(m) => m;
    var swept := Sweep(clients, 0, messageToSend, event, id);
    assert clients[0..] == clients;
    Fanout(id, swept.0, swept.1)
  }

  /** In a strictly ascending sequence no value occurs twice. */
  lemma AscendingDistinct(r: seq<nat>)
    requires forall j, j' :: 0 <= j < j' < |r| ==> r[j] < r[j']
    ensures forall j, j' :: 0 <= j < |r| && 0 <= j' < |r| && r[j] == r[j'] ==> j == j'
  {
  }

  /** Every live client is sent the event exactly once, dropped clients are sent
      nothing, and sends follow the clients' registration order. */
  lemma SendEventOncePerLiveClient(message: Option<string>, event: string, eventId: nat,
                                    clients: seq<Client>, i: nat)
    requires i < |clients|
    ensures var ds := SendEvent(message, event, eventId, clients).deliveries;
            Live(clients[i]) ==>
              exists j :: 0 <= j < |ds| && ds[j].client == i &&
                forall j' :: 0 <= j' < |ds| && ds[j'].client == i ==> j' == j
    ensures var ds := SendEvent(message, event, eventId, clients).deliveries;
            !Live(clients[i]) ==> forall j :: 0 <= j < |ds| ==> ds[j].client != i
    ensures var ds := SendEvent(message, event, eventId, clients).deliveries;
            forall j, j' :: 0 <= j < j' < |ds| ==> ds[j].client < ds[j'].client
  {
    var ds := SendEvent(message, event, eventId, clients).deliveries;
    var idx := LiveIndices(clients, 0);
    LiveIndicesExact(clients, 0);
    assert |ds| == |idx| && forall j :: 0 <= j < |ds| ==> ds[j].client == idx[j] by {
      assert Recipients(ds) == idx;
    }
    if Live(clients[i]) {
      assert i in idx;
      var j :| 0 <= j < |idx| && idx[j] == i;
      assert ds[j].client == i;
      AscendingDistinct(idx);
    }
  }

  /** The firmware's globals that the tick and the request handlers share. */
  datatype DeviceState = DeviceState(
    telemetryRequested: bool,
    telemetryRunning: bool,
    calibrationRequested: bool,
    backlightOn: bool,
    backlightRequested: bool,
    eventId: nat,
    loopCounter: LoopCounter,
    clients: seq<Client>)

  /** The globals right after boot: idle, backlight on, no clients, counters at zero. */
  function Boot(): DeviceState {
    DeviceState(false, false, false, true, true, 0, 0, [])
  }

  /** One published event as `send_event` numbered it. */
  datatype Published = Published(kind: Kind, id: nat, message: string)

  function KindsOf(ps: seq<Published>): (r: seq<Kind>)
    ensures |r| == |ps|
    ensures forall i :: 0 <= i < |ps| ==> r[i] == ps[i].kind
    decreases |ps|
  {
    if |ps| == 0 then [] else KindsOf(ps[..|ps| - 1]) + [ps[|ps| - 1].kind]
  }

  lemma KindsOfAppend(a: seq<Published>, b: seq<Published>)
    ensures KindsOf(a + b) == KindsOf(a) + KindsOf(b)
  {
  }

  /** Ids `first, first + 1, ...` in publication order. */
  predicate NumberedFrom(ps: seq<Published>, first: nat) {
    forall i :: 0 <= i < |ps| ==> ps[i].id == first + i
  }

  /** Numbering carries across a concatenation when the second part continues the first. */
  lemma NumberedAppend(a: seq<Published>, b: seq<Published>, first: nat)
    requires NumberedFrom(a, first) && NumberedFrom(b, first + |a|)
    ensures NumberedFrom(a + b, first)
  {
    forall i | 0 <= i < |a + b| ensures (a + b)[i].id == first + i {
      if i >= |a| {
        assert (a + b)[i] == b[i - |a|];
      }
    }
  }

  /** Readings carry the tick's JSON; every other event goes out with an empty message. */
  predicate CarriesReading(ps: seq<Published>, telemetryJson: string) {
    forall i :: 0 <= i < |ps| ==> ps[i].message == (if ps[i].kind == Telemetry then telemetryJson else "")
  }

  /** `send_event` called from the tick: the event is numbered and fanned out. */
  function Publish(s: DeviceState, message: Option<string>, kind: Kind): (r: (DeviceState, Published))
    ensures r.0 == s.(eventId := s.eventId + 1, clients := LiveClients(s.clients))
    ensures r.1 == Published(kind, s.eventId + 1, message.Otherwise(""))
  {
    var f := SendEvent(message, Tag(kind), s.eventId, s.clients);
    (s.(eventId := f.eventId, clients := f.clients), Published(kind, f.eventId, message.Otherwise("")))
  }

  /** `do_telemetry`: on the first requested tick mark the run started and
      announce it, then publish this tick's reading. */
  function DoTelemetry(s: DeviceState, telemetryJson: string): (r: (DeviceState, seq<Published>))
    ensures |r.1| == if s.telemetryRunning then 1 else 2
    ensures !s.telemetryRunning ==> r.1[0] == Published(TelemetryStarted, s.eventId + 1, "")
    ensures r.1[|r.1| - 1] == Published(Telemetry, s.eventId + |r.1|, telemetryJson)
    ensures r.0 == s.(telemetryRunning := true, eventId := s.eventId + |r.1|,
                      clients := LiveClients(s.clients))
  {
    if !s.telemetryRunning then
      LiveClientsIdempotent(s.clients);
      var started := Publish(s.(telemetryRunning := true), None, TelemetryStarted);
      var reading := Publish(started.0, Some(telemetryJson), Telemetry);
      (reading.0, [started.1, reading.1])
    else
      var reading := Publish(s, Some(telemetryJson), Telemetry);
      (reading.0, [reading.1])
  }

  /** A telemetry tick's events are numbered on from the counter, and only
      the reading carries the JSON. */
  lemma TelemetryBatch(s: DeviceState, telemetryJson: string)
    ensures CarriesReading(DoTelemetry(s, telemetryJson).1, telemetryJson)
    ensures NumberedFrom(DoTelemetry(s, telemetryJson).1, s.eventId + 1)
  {
    var evs := DoTelemetry(s, telemetryJson).1;
    forall i | 0 <= i < |evs|
      ensures evs[i].id == s.eventId + 1 + i
      ensures evs[i].message == (if evs[i].kind == Telemetry then telemetryJson else "")
    {
      assert i == |evs| - 1 || (i == 0 && !s.telemetryRunning);
    }
  }

  /** `do_idle`: on the first unrequested tick mark the run stopped and announce
      it, then send a heartbeat if the tick number is a multiple of 10. */
  function DoIdle(s: DeviceState): (r: (DeviceState, seq<Published>))
    ensures |r.1| == (if s.telemetryRunning then 1 else 0) +
                     (if s.loopCounter % IdleEvery == 0 then 1 else 0)
    ensures s.telemetryRunning ==> r.1[0] == Published(TelemetryStopped, s.eventId + 1, "")
    ensures s.loopCounter % IdleEvery == 0 ==>
              r.1[|r.1| - 1] == Published(Idle, s.eventId + |r.1|, "")
    ensures r.0 == s.(telemetryRunning := false, eventId := s.eventId + |r.1|,
                      clients := if |r.1| == 0 then s.clients else LiveClients(s.clients))
  {
    var heartbeat := s.loopCounter % IdleEvery == 0;
    if s.telemetryRunning then
      var stopped := Publish(s.(telemetryRunning := false), None, TelemetryStopped);
      if heartbeat then
        LiveClientsIdempotent(s.clients);
        var idle := Publish(stopped.0, None, Idle);
        (idle.0, [stopped.1, idle.1])
      else (stopped.0, [stopped.1])
    else if heartbeat then
      var idle := Publish(s, None, Idle);
      (idle.0, [idle.1])
    else (s, [])
  }

  /** An idle tick's events are numbered on from the counter and carry no JSON. */
  lemma IdleBatch(s: DeviceState, telemetryJson: string)
    ensures CarriesReading(DoIdle(s).1, telemetryJson)
    ensures forall i :: 0 <= i < |DoIdle(s).1| ==> DoIdle(s).1[i].kind != Telemetry
    ensures NumberedFrom(DoIdle(s).1, s.eventId + 1)
  {
    var evs := DoIdle(s).1;
    var n := s.eventId;
    assert forall i :: 0 <= i < |evs| ==> evs[i].kind != Telemetry && evs[i].message == "" && evs[i].id == n + 1 + i by {
      if s.telemetryRunning && s.loopCounter % IdleEvery == 0 {
        assert evs == [Published(TelemetryStopped, n + 1, ""), Published(Idle, n + 2, "")];
      } else if s.telemetryRunning {
        assert evs == [Published(TelemetryStopped, n + 1, "")];
      } else if s.loopCounter % IdleEvery == 0 {
        assert evs == [Published(Idle, n + 1, "")];
      }
    }
  }

  /** The part of `loop()` before the session logic: count the tick, apply a
      pending backlight change once the hold period is over, and consume a
      calibration request (the new zero-pressure reading is outside the model). */
  function Housekeeping(s: DeviceState): (r: DeviceState)
    ensures r.loopCounter == (s.loopCounter + 1) % LoopCounterModulus
    ensures !r.calibrationRequested
    ensures r.loopCounter > BacklightHoldTicks ==> r.backlightOn == r.backlightRequested
    ensures r.loopCounter <= BacklightHoldTicks ==> r.backlightOn == s.backlightOn
    ensures r == s.(loopCounter := r.loopCounter, backlightOn := r.backlightOn,
                    calibrationRequested := false)
  {
    var counter := (s.loopCounter + 1) % LoopCounterModulus;
    var s1 := s.(loopCounter := counter);
    var s2 := if counter > BacklightHoldTicks && s1.backlightOn != s1.backlightRequested
              then s1.(backlightOn := s1.backlightRequested) else s1;
    if s2.calibrationRequested then s2.(calibrationRequested := false) else s2
  }

  /** One call of `loop()`, given the JSON the sensors would produce this tick. */
  function Tick(s: DeviceState, telemetryJson: string): (r: (DeviceState, seq<Published>))
    ensures r.0.loopCounter == (s.loopCounter + 1) % LoopCounterModulus
    ensures !r.0.calibrationRequested
    ensures r.0.loopCounter > BacklightHoldTicks ==> r.0.backlightOn == r.0.backlightRequested
    ensures r.0.telemetryRequested == s.telemetryRequested
    ensures r.0.backlightRequested == s.backlightRequested
    ensures r.0.telemetryRunning == s.telemetryRequested
    ensures s.telemetryRequested ==>
              |r.1| == (if s.telemetryRunning then 1 else 2) &&
              (!s.telemetryRunning ==> r.1[0].kind == TelemetryStarted) &&
              r.1[|r.1| - 1].kind == Telemetry
    ensures !s.telemetryRequested ==>
              |r.1| == (if s.telemetryRunning then 1 else 0) +
                       (if r.0.loopCounter % IdleEvery == 0 then 1 else 0) &&
              (s.telemetryRunning ==> r.1[0].kind == TelemetryStopped) &&
              (r.0.loopCounter % IdleEvery == 0 ==> r.1[|r.1| - 1].kind == Idle)
    ensures CarriesReading(r.1, telemetryJson)
    ensures NumberedFrom(r.1, s.eventId + 1)
    ensures r.0.eventId == s.eventId + |r.1|
    ensures r.0.clients == if |r.1| == 0 then s.clients else LiveClients(s.clients)
  {
    var h := Housekeeping(s);
    if h.telemetryRequested then TelemetryBatch(h, telemetryJson); DoTelemetry(h, telemetryJson)
    else IdleBatch(h, telemetryJson); DoIdle(h)
  }

  /** `handle_start`: request telemetry unless it is already requested. */
  function HandleStart(s: DeviceState): (r: (DeviceState, string))
    ensures r.0.telemetryRequested
    ensures s.telemetryRequested ==> r == (s, "Telemetry already running")
    ensures !s.telemetryRequested ==>
              r == (s.(telemetryRequested := true), "Telemetry started")
  {
    if s.telemetryRequested then (s, "Telemetry already running")
    else (s.(telemetryRequested := true), "Telemetry started")
  }

  /** `handle_stop`: withdraw the telemetry request unless it is already withdrawn. */
  function HandleStop(s: DeviceState): (r: (DeviceState, string))
    ensures !r.0.telemetryRequested
    ensures !s.telemetryRequested ==> r == (s, "Telemetry already stopped")
    ensures s.telemetryRequested ==>
              r == (s.(telemetryRequested := false), "Telemetry stopped")
  {
    if !s.telemetryRequested then (s, "Telemetry already stopped")
    else (s.(telemetryRequested := false), "Telemetry stopped")
  }

  /** Starting twice is starting once; stopping twice is stopping once. */
  lemma StartStopIdempotent(s: DeviceState)
    ensures HandleStart(HandleStart(s).0) == (HandleStart(s).0, "Telemetry already running")
    ensures HandleStop(HandleStop(s).0) == (HandleStop(s).0, "Telemetry already stopped")
  {
  }

  /** A stop undoes a start that changed something, and the other way round. */
  lemma StartStopInverse(s: DeviceState)
    ensures !s.telemetryRequested ==> HandleStop(HandleStart(s).0).0 == s
    ensures s.telemetryRequested ==> HandleStart(HandleStop(s).0).0 == s
  {
  }

  /** `handle_calibrate`: ask the next tick to re-zero the pressure reference. */
  function HandleCalibrate(s: DeviceState): (r: (DeviceState, string))
    ensures r.0 == s.(calibrationRequested := true)
    ensures r.1 == "Calibration done"
  {
    (s.(calibrationRequested := true), "Calibration done")
  }

  /** The button-1 callback: ask for a calibration and flip the telemetry request. */
  function Button1Pressed(s: DeviceState): (r: DeviceState)
    ensures r.calibrationRequested
    ensures r.telemetryRequested == !s.telemetryRequested
    ensures r.(calibrationRequested := s.calibrationRequested, telemetryRequested := s.telemetryRequested) == s
  {
    s.(calibrationRequested := true, telemetryRequested := !s.telemetryRequested)
  }

  /** The button-2 callback: flip the requested backlight state. */
  function Button2Pressed(s: DeviceState): (r: DeviceState)
    ensures r.backlightRequested == !s.backlightRequested
    ensures r.(backlightRequested := s.backlightRequested) == s
  {
    s.(backlightRequested := !s.backlightRequested)
  }

  /** Pressing button 1 twice leaves the telemetry request where it was. */
  lemma Button1Twice(s: DeviceState)
    ensures Button1Pressed(Button1Pressed(s)) == s.(calibrationRequested := true)
  {
  }

  /** `events.onConnect`: a new client is appended to the list. */
  function Connect(s: DeviceState, c: Client): (r: DeviceState)
    ensures r.clients == s.clients + [c]
    ensures r.(clients := s.clients) == s
  {
    s.(clients := s.clients + [c])
  }

  /** The transport's side of a registered client between ticks: it
      disconnects, or its count of unsent packets grows or drains. A position
      past the end of the list (the client was already dropped) changes nothing. */
  function UpdateClient(s: DeviceState, i: nat, c: Client): (r: DeviceState)
    ensures |r.clients| == |s.clients|
    ensures forall j :: 0 <= j < |s.clients| ==> r.clients[j] == if j == i then c else s.clients[j]
    ensures r.(clients := s.clients) == s
  {
    if i < |s.clients| then s.(clients := s.clients[i := c]) else s
  }

  /** Filtering distributes over concatenation. */
  lemma {:induction false} LiveClientsAppend(a: seq<Client>, b: seq<Client>)
    ensures LiveClients(a + b) == LiveClients(a) + LiveClients(b)
    decreases |a|
  {
    if |a| > 0 {
      assert (a + b)[0] == a[0] && (a + b)[1..] == a[1..] + b;
      LiveClientsAppend(a[1..], b);
    } else {
      assert a + b == b;
    }
  }

  /** A client that connects live is kept, after the clients already
      registered, by the next tick that publishes. */
  lemma ConnectedLiveIsKept(s: DeviceState, c: Client, json: string)
    requires Live(c)
    ensures var (s1, evs) := Tick(Connect(s, c), json);
            |evs| > 0 ==> s1.clients == LiveClients(s.clients) + [c]
  {
    LiveClientsAppend(s.clients, [c]);
    assert LiveClients([c]) == [c] by {
      assert [c][1..] == [];
    }
  }

  /** A client that has disconnected or filled its queue is dropped by the
      next tick that publishes; every client that remains is live. */
  lemma ChangedClientDropped(s: DeviceState, i: nat, c: Client, json: string)
    requires i < |s.clients| && !Live(c)
    ensures var (s1, evs) := Tick(UpdateClient(s, i, c), json);
            |evs| > 0 ==> c !in s1.clients && |s1.clients| < |s.clients| &&
                          forall j :: 0 <= j < |s1.clients| ==> Live(s1.clients[j])
  {
    var u := UpdateClient(s, i, c).clients;
    LiveClientsMembers(u);
    LiveClientsShorter(u, i);
  }

  /** Everything that can happen to the firmware between two observations:
      a tick, a request, a button press, a client connecting or a registered
      client's connection changing. */
  datatype Input =
    | TickInput(telemetryJson: string)
    | StartRequest
    | StopRequest
    | CalibrateRequest
    | Button1
    | Button2
    | ClientConnects(client: Client)
    | ClientChanges(index: nat, client: Client)

  function Apply(s: DeviceState, input: Input): (DeviceState, seq<Published>) {
    match input
    case TickInput(json) => Tick(s, json)
    case StartRequest => (HandleStart(s).0, [])
    case StopRequest => (HandleStop(s).0, [])
    case CalibrateRequest => (HandleCalibrate(s).0, [])
    case Button1 => (Button1Pressed(s), [])
    case Button2 => (Button2Pressed(s), [])
    case ClientConnects(c) => (Connect(s, c), [])
    case ClientChanges(i, c) => (UpdateClient(s, i, c), [])
  }

  /** The state after a sequence of inputs and every event published on the way. */
  function Run(s: DeviceState, inputs: seq<Input>): (DeviceState, seq<Published>)
    decreases |inputs|
  {
    if |inputs| == 0 then (s, [])
    else
      var (s1, evs1) := Run(s, inputs[..|inputs| - 1]);
      var (s2, evs2) := Apply(s1, inputs[|inputs| - 1]);
      (s2, evs1 + evs2)
  }

  /** A telemetry tick's batch is ordered and leaves the session running. */
  lemma TelemetryOrdered(s: DeviceState, json: string)
    ensures Ordered(KindsOf(DoTelemetry(s, json).1), s.telemetryRunning)
    ensures PhaseAfter(KindsOf(DoTelemetry(s, json).1), s.telemetryRunning) == DoTelemetry(s, json).0.telemetryRunning
  {
    var r := DoTelemetry(s, json);
    var ks := KindsOf(r.1);
    var p := s.telemetryRunning;
    assert Ordered(ks, p) && PhaseAfter(ks, p) by {
      if p {
        assert ks == [Telemetry];
        OrderedSingle(Telemetry, p);
      } else {
        assert ks == [TelemetryStarted, Telemetry];
        OrderedPair(TelemetryStarted, Telemetry, p);
      }
    }
  }

  /** An idle tick's batch is ordered and leaves the session stopped. */
  lemma IdleOrdered(s: DeviceState)
    ensures Ordered(KindsOf(DoIdle(s).1), s.telemetryRunning)
    ensures PhaseAfter(KindsOf(DoIdle(s).1), s.telemetryRunning) == DoIdle(s).0.telemetryRunning
  {
    var r := DoIdle(s);
    var ks := KindsOf(r.1);
    var p := s.telemetryRunning;
    assert Ordered(ks, p) && !PhaseAfter(ks, p) by {
      if p && s.loopCounter % IdleEvery == 0 {
        assert ks == [TelemetryStopped, Idle];
        OrderedPair(TelemetryStopped, Idle, p);
      } else if p {
        assert ks == [TelemetryStopped];
        OrderedSingle(TelemetryStopped, p);
      } else if s.loopCounter % IdleEvery == 0 {
        assert ks == [Idle];
        OrderedSingle(Idle, p);
      } else {
        assert ks == [];
      }
    }
  }

  /** One tick publishes a correctly ordered batch and leaves the session flag
      where the batch's last lifecycle event says. */
  lemma TickOrdered(s: DeviceState, json: string)
    ensures var (s1, evs) := Tick(s, json);
            Ordered(KindsOf(evs), s.telemetryRunning) &&
            PhaseAfter(KindsOf(evs), s.telemetryRunning) == s1.telemetryRunning
  {
    var h := Housekeeping(s);
    assert h.telemetryRunning == s.telemetryRunning;
    if h.telemetryRequested {
      TelemetryOrdered(h, json);
    } else {
      IdleOrdered(h);
    }
  }

  /** One input publishes a correctly ordered batch and leaves the session flag
      where the batch's last lifecycle event says; ids continue the count. */
  lemma ApplyOrdered(s: DeviceState, input: Input)
    ensures var (s1, evs) := Apply(s, input);
            Ordered(KindsOf(evs), s.telemetryRunning) &&
            PhaseAfter(KindsOf(evs), s.telemetryRunning) == s1.telemetryRunning &&
            NumberedFrom(evs, s.eventId + 1) && s1.eventId == s.eventId + |evs|
  {
    if input.TickInput? {
      TickOrdered(s, input.telemetryJson);
    }
  }

  /** Over any run of inputs the published events obey the session ordering
      from the state's starting phase and end in the phase the state records. */
  lemma {:induction false} RunOrdered(s: DeviceState, inputs: seq<Input>)
    ensures Ordered(KindsOf(Run(s, inputs).1), s.telemetryRunning)
    ensures PhaseAfter(KindsOf(Run(s, inputs).1), s.telemetryRunning) == Run(s, inputs).0.telemetryRunning
    decreases |inputs|
  {
    if |inputs| > 0 {
      var front := Run(s, inputs[..|inputs| - 1]);
      var last := Apply(front.0, inputs[|inputs| - 1]);
      assert Run(s, inputs) == (last.0, front.1 + last.1);
      RunOrdered(s, inputs[..|inputs| - 1]);
      ApplyOrdered(front.0, inputs[|inputs| - 1]);
      KindsOfAppend(front.1, last.1);
      OrderedAppend(KindsOf(front.1), KindsOf(last.1), s.telemetryRunning);
      PhaseAfterAppend(KindsOf(front.1), KindsOf(last.1), s.telemetryRunning);
    }
  }

  /** Over any run of inputs the published ids are consecutive, continuing the
      state's counter, and the counter ends at the last id published. */
  lemma {:induction false} RunNumbered(s: DeviceState, inputs: seq<Input>)
    ensures NumberedFrom(Run(s, inputs).1, s.eventId + 1)
    ensures Run(s, inputs).0.eventId == s.eventId + |Run(s, inputs).1|
    decreases |inputs|
  {
    if |inputs| > 0 {
      var front := Run(s, inputs[..|inputs| - 1]);
      var last := Apply(front.0, inputs[|inputs| - 1]);
      assert Run(s, inputs) == (last.0, front.1 + last.1);
      RunNumbered(s, inputs[..|inputs| - 1]);
      ApplyOrdered(front.0, inputs[|inputs| - 1]);
      NumberedAppend(front.1, last.1, s.eventId + 1);
    }
  }

  /** From boot, whatever the requests, presses and ticks: no heartbeat inside a
      run, no reading outside one, `telemetry_started` and `telemetry_stopped`
      alternate beginning with `telemetry_started`, and ids are 1, 2, 3, ... */
  lemma SessionFromBoot(inputs: seq<Input>)
    ensures var (_, evs) := Run(Boot(), inputs);
            Ordered(KindsOf(evs), false) &&
            (forall i :: 0 <= i < |evs| ==> evs[i].id == i + 1)
  {
    RunOrdered(Boot(), inputs);
    RunNumbered(Boot(), inputs);
  }

  /** A request-and-run cycle from any state with no session requested or
      running: start, two ticks, stop, one more tick publishes
      `telemetry_started` and a reading, then a reading, then
      `telemetry_stopped` (followed by a heartbeat if that tick is a tenth one),
      with consecutive ids. */
  lemma StartTicksStop(s: DeviceState, json: string)
    requires !s.telemetryRequested && !s.telemetryRunning
    ensures var (s1, _) := HandleStart(s);
            var (s2, e2) := Tick(s1, json);
            var (s3, e3) := Tick(s2, json);
            var (s4, _) := HandleStop(s3);
            var (s5, e5) := Tick(s4, json);
            |e2| == 2 && e2[0].kind == TelemetryStarted && e2[1].kind == Telemetry &&
            |e3| == 1 && e3[0].kind == Telemetry &&
            |e5| >= 1 && e5[0].kind == TelemetryStopped &&
            !s5.telemetryRunning &&
            e3[0].id == e2[1].id + 1 && e5[0].id == e3[0].id + 1
  {
  }
}
