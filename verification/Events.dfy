/**
  The event vocabulary shared by the firmware and the mock server, and the
  session ordering rule both of them follow: a run is opened by
  `telemetry_started` and closed by `telemetry_stopped`; `telemetry` events
  only occur inside a run, `idle` heartbeats only outside one, and
  `parameters` announcements may occur anywhere.
 */
module Events {

  datatype Kind = Telemetry | Idle | TelemetryStarted | TelemetryStopped | Parameters

  /** The event name as it goes out on the server-sent-events stream. */
  function Tag(k: Kind): string {
    match k
    case Telemetry => "telemetry"
    case Idle => "idle"
    case TelemetryStarted => "telemetry_started"
    case TelemetryStopped => "telemetry_stopped"
    case Parameters => "parameters"
  }

  /** Distinct kinds go out under distinct names, so a viewer can tell them apart. */
  lemma TagInjective(a: Kind, b: Kind)
    requires Tag(a) == Tag(b)
    ensures a == b
  {
  }

  predicate IsLifecycle(k: Kind) {
    k == TelemetryStarted || k == TelemetryStopped
  }

  /** Whether a session is running after an event, given whether it was before. */
  function Step(inRun: bool, k: Kind): bool {
    match k
    case TelemetryStarted => true
    case TelemetryStopped => false
    case _ => inRun
  }

  /** Whether an event may be published in the given phase. */
  predicate Permitted(k: Kind, inRun: bool) {
    match k
    case TelemetryStarted => !inRun
    case TelemetryStopped => inRun
    case Telemetry => inRun
    case Idle => !inRun
    case Parameters => true
  }

  /** The phase after a sequence of events, starting in phase `inRun`. */
  function PhaseAfter(ks: seq<Kind>, inRun: bool): bool
    decreases |ks|
  {
    if |ks| == 0 then inRun else Step(PhaseAfter(ks[..|ks| - 1], inRun), ks[|ks| - 1])
  }

  /** Every event of `ks` is permitted in the phase the events before it leave. */
  predicate Ordered(ks: seq<Kind>, inRun: bool)
    decreases |ks|
  {
    |ks| == 0 ||
    (Ordered(ks[..|ks| - 1], inRun) && Permitted(ks[|ks| - 1], PhaseAfter(ks[..|ks| - 1], inRun)))
  }

  lemma OrderedSingle(a: Kind, p: bool)
    ensures Ordered([a], p) <==> Permitted(a, p)
    ensures PhaseAfter([a], p) == Step(p, a)
  {
    assert [a][..0] == [];
  }

  lemma OrderedPair(a: Kind, b: Kind, p: bool)
    ensures Ordered([a, b], p) <==> Permitted(a, p) && Permitted(b, Step(p, a))
    ensures PhaseAfter([a, b], p) == Step(Step(p, a), b)
  {
    assert [a, b][..1] == [a];
    OrderedSingle(a, p);
  }

  lemma {:induction false} PhaseAfterAppend(a: seq<Kind>, b: seq<Kind>, p: bool)
    ensures PhaseAfter(a + b, p) == PhaseAfter(b, PhaseAfter(a, p))
    decreases |b|
  {
    if |b| > 0 {
      assert (a + b)[..|a + b| - 1] == a + b[..|b| - 1];
      PhaseAfterAppend(a, b[..|b| - 1], p);
    } else {
      assert a + b == a;
    }
  }

  /** Ordering of a concatenation splits at the join: the second part is checked
      from the phase the first part leaves. */
  lemma {:induction false} OrderedAppend(a: seq<Kind>, b: seq<Kind>, p: bool)
    ensures Ordered(a + b, p) <==> Ordered(a, p) && Ordered(b, PhaseAfter(a, p))
    decreases |b|
  {
    if |b| > 0 {
      assert (a + b)[..|a + b| - 1] == a + b[..|b| - 1];
      OrderedAppend(a, b[..|b| - 1], p);
      PhaseAfterAppend(a, b[..|b| - 1], p);
    } else {
      assert a + b == a;
    }
  }

  /** In an ordered sequence each event is permitted by the phase before it. */
  lemma {:induction false} OrderedAt(ks: seq<Kind>, p: bool, j: nat)
    requires Ordered(ks, p)
    requires j < |ks|
    ensures Permitted(ks[j], PhaseAfter(ks[..j], p))
    decreases |ks|
  {
    if j < |ks| - 1 {
      var front := ks[..|ks| - 1];
      assert front[..j] == ks[..j];
      OrderedAt(front, p, j);
    }
  }

  lemma PhaseAfterPrefixStep(ks: seq<Kind>, p: bool, i: nat)
    requires i < |ks|
    ensures PhaseAfter(ks[..i + 1], p) == Step(PhaseAfter(ks[..i], p), ks[i])
  {
    assert ks[..i + 1][..i] == ks[..i];
  }

  /** After a `telemetry_started`, the session stays in a run until a `telemetry_stopped`. */
  lemma {:induction false} PhaseStaysRunning(ks: seq<Kind>, p: bool, i: nat, j: nat)
    requires i < j <= |ks|
    requires ks[i] == TelemetryStarted
    requires forall m :: i < m < j ==> ks[m] != TelemetryStopped
    ensures PhaseAfter(ks[..j], p)
    decreases j
  {
    PhaseAfterPrefixStep(ks, p, j - 1);
    if j - 1 > i {
      PhaseStaysRunning(ks, p, i, j - 1);
    }
  }

  /** After a `telemetry_stopped`, the session stays idle until a `telemetry_started`. */
  lemma {:induction false} PhaseStaysIdle(ks: seq<Kind>, p: bool, i: nat, j: nat)
    requires i < j <= |ks|
    requires ks[i] == TelemetryStopped
    requires forall m :: i < m < j ==> ks[m] != TelemetryStarted
    ensures !PhaseAfter(ks[..j], p)
    decreases j
  {
    PhaseAfterPrefixStep(ks, p, j - 1);
    if j - 1 > i {
      PhaseStaysIdle(ks, p, i, j - 1);
    }
  }

  /** Events that are not lifecycle events leave the phase as it is. */
  lemma {:induction false} PhaseSteady(ks: seq<Kind>, p: bool, i: nat, j: nat)
    requires i <= j <= |ks|
    requires forall m :: i <= m < j ==> !IsLifecycle(ks[m])
    ensures PhaseAfter(ks[..j], p) == PhaseAfter(ks[..i], p)
    decreases j
  {
    if j > i {
      PhaseAfterPrefixStep(ks, p, j - 1);
      PhaseSteady(ks, p, i, j - 1);
    }
  }

  /** No `idle` event falls between a `telemetry_started` and the next `telemetry_stopped`. */
  lemma NoIdleInsideRun(ks: seq<Kind>, p: bool, i: nat, j: nat)
    requires Ordered(ks, p)
    requires i < j < |ks|
    requires ks[i] == TelemetryStarted
    requires forall m :: i < m < j ==> ks[m] != TelemetryStopped
    ensures ks[j] != Idle
  {
    PhaseStaysRunning(ks, p, i, j);
    OrderedAt(ks, p, j);
  }

  /** No `telemetry` event falls between a `telemetry_stopped` and the next `telemetry_started`. */
  lemma NoTelemetryOutsideRun(ks: seq<Kind>, p: bool, i: nat, j: nat)
    requires Ordered(ks, p)
    requires i < j < |ks|
    requires ks[i] == TelemetryStopped
    requires forall m :: i < m < j ==> ks[m] != TelemetryStarted
    ensures ks[j] != Telemetry
  {
    PhaseStaysIdle(ks, p, i, j);
    OrderedAt(ks, p, j);
  }

  /** Two lifecycle events with none between them are of different kinds:
      `telemetry_started` and `telemetry_stopped` strictly alternate. */
  lemma LifecycleAlternates(ks: seq<Kind>, p: bool, i: nat, j: nat)
    requires Ordered(ks, p)
    requires i < j < |ks|
    requires IsLifecycle(ks[i]) && IsLifecycle(ks[j])
    requires forall m :: i < m < j ==> !IsLifecycle(ks[m])
    ensures ks[i] != ks[j]
  {
    PhaseAfterPrefixStep(ks, p, i);
    PhaseSteady(ks, p, i + 1, j);
    OrderedAt(ks, p, j);
  }

  /** Starting idle, the first lifecycle event is a `telemetry_started`. */
  lemma FirstLifecycleIsStart(ks: seq<Kind>, j: nat)
    requires Ordered(ks, false)
    requires j < |ks|
    requires IsLifecycle(ks[j])
    requires forall m :: 0 <= m < j ==> !IsLifecycle(ks[m])
    ensures ks[j] == TelemetryStarted
  {
    PhaseSteady(ks, false, 0, j);
    assert ks[..0] == [];
    OrderedAt(ks, false, j);
  }
}
