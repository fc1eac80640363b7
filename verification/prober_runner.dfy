/** The probe runner of the `prober` package: a loop that, until its probe's
    stop channel holds a value, checks the target, classifies the outcome as
    UP or DOWN, and publishes a copy of the probe on the alert bus whenever the
    classification differs from the previous status. */
module ProberRunner {
  import opened Net
  import opened ProberProbe

  const UpStatus: string := "UP"
  const DownStatus: string := "DOWN"

  /** A check is UP only for a response with status code 200. */
  function Classify(o: Outcome): (s: string)
    ensures s == UpStatus <==> o == Response(200)
    ensures s == DownStatus <==> o != Response(200)
  {
    if o.Response? && o.statusCode == 200 then UpStatus else DownStatus
  }

  /** What one completed iteration does to the probe: its new status, and
      whether a copy of the probe goes on the alert bus. */
  datatype Transition = Transition(status: string, alert: bool)

  function Iterate(status: string, o: Outcome): (t: Transition)
    ensures t.status == UpStatus <==> o == Response(200)
    ensures t.status == UpStatus || t.status == DownStatus
    ensures t.alert <==> t.status != status
  {
    var s := Classify(o);
    Transition(s, s != status)
  }

  /** The probe after a sequence of completed checks. */
  function Final(p: Probe, outcomes: seq<Outcome>): Probe
    decreases |outcomes|
  {
    if outcomes == [] then p
    else Final(p.(status := Iterate(p.status, outcomes[0]).status), outcomes[1..])
  }

  /** The probe copies published during a sequence of completed checks. */
  function Events(p: Probe, outcomes: seq<Outcome>): seq<Probe>
    decreases |outcomes|
  {
    if outcomes == [] then []
    else
      var t := Iterate(p.status, outcomes[0]);
      var q := p.(status := t.status);
      (if t.alert then [q] else []) + Events(q, outcomes[1..])
  }

  /** Running two batches of checks one after the other publishes what one
      run over both publishes: a stop-free run may be cut anywhere. */
  lemma {:induction false} EventsAppend(p: Probe, a: seq<Outcome>, b: seq<Outcome>)
    ensures Events(p, a + b) == Events(p, a) + Events(Final(p, a), b)
    ensures Final(p, a + b) == Final(Final(p, a), b)
    decreases |a|
  {
    if a != [] {
      var q := p.(status := Iterate(p.status, a[0]).status);
      assert (a + b)[1..] == a[1..] + b;
      EventsAppend(q, a[1..], b);
    } else {
      assert a + b == b;
    }
  }

  /** The published copies differ from the probe only in status; the first
      differs in status from the probe, each differs from the one before, and
      the last carries the final status: alerts mark changes and nothing else. */
  lemma {:induction false} EventsAlternate(p: Probe, outcomes: seq<Outcome>)
    ensures var ev := Events(p, outcomes);
      && |ev| <= |outcomes|
      && (forall i :: 0 <= i < |ev| ==> ev[i] == p.(status := ev[i].status))
      && (|ev| > 0 ==> ev[0].status != p.status && ev[|ev| - 1].status == Final(p, outcomes).status)
      && (|ev| == 0 ==> Final(p, outcomes).status == p.status)
      && (forall i :: 0 <= i < |ev| - 1 ==> ev[i].status != ev[i + 1].status)
    decreases |outcomes|
  {
    if outcomes != [] {
      var t := Iterate(p.status, outcomes[0]);
      var q := p.(status := t.status);
      EventsAlternate(q, outcomes[1..]);
    }
  }

  /** A check that classifies as the current status publishes nothing. */
  lemma {:induction false} SteadyChecksAreSilent(p: Probe, outcomes: seq<Outcome>)
    requires forall i :: 0 <= i < |outcomes| ==> Classify(outcomes[i]) == p.status
    ensures Events(p, outcomes) == []
    ensures Final(p, outcomes) == p
    decreases |outcomes|
  {
    if outcomes != [] {
      assert Classify(outcomes[0]) == p.status;
      assert p.(status := p.status) == p;
      SteadyChecksAreSilent(p, outcomes[1..]);
    }
  }

  /** A fresh probe has status "", so its first completed check always alerts. */
  lemma FirstCheckAlerts(p: Probe, outcomes: seq<Outcome>)
    requires p.status == "" && outcomes != []
    ensures Events(p, outcomes) != []
    ensures Events(p, outcomes)[0] == p.(status := Classify(outcomes[0]))
  {
    var t := Iterate(p.status, outcomes[0]);
    assert t.alert;
  }

  /** An endpoint that goes from answering 200 to answering 500 causes exactly
      one alert, at the transition, however long it then stays DOWN. */
  lemma UpThenDownAlertsOnce(p: Probe, n: nat)
    requires p.status == UpStatus && n >= 1
    ensures Events(p, seq(n, _ => Response(500))) == [p.(status := DownStatus)]
  {
    var outs := seq(n, _ => Response(500));
    var q := p.(status := DownStatus);
    assert Iterate(p.status, outs[0]) == Transition(DownStatus, true);
    SteadyChecksAreSilent(q, outs[1..]);
  }

  /** `runner` with its alert bus (`NewProbeRunner`); the HTTP client is the
      `outcomes` argument of `Run`. */
  class Runner {
    const alertBus: AlertBus

    constructor (alertBus: AlertBus)
      ensures this.alertBus == alertBus
    {
      this.alertBus := alertBus;
    }

    /** `runner.Run` over the checks whose outcomes are given. Each iteration
        first polls the stop channel without blocking and returns when it holds
        a value; otherwise it checks, overwrites the status and alerts on a
        change. The run also ends, without stopping, when the outcomes are used
        up. A nil channel never delivers, as in Go. */
    method Run(probe: Probe, outcomes: seq<Outcome>) returns (last: Probe, stopped: bool)
      modifies alertBus, probe.finish
      ensures probe.finish != null && old(probe.finish.buffered) > 0 ==>
                && stopped && last == probe
                && alertBus.events == old(alertBus.events)
                && probe.finish.buffered == old(probe.finish.buffered) - 1
      ensures (probe.finish == null || old(probe.finish.buffered) == 0) ==>
                && !stopped && last == Final(probe, outcomes)
                && alertBus.events == old(alertBus.events) + Events(probe, outcomes)
                && (probe.finish != null ==> probe.finish.buffered == 0)
    {
      var p := probe;
      var oldStatus: string;
      var i := 0;
      stopped := false;
      while true
        invariant 0 <= i <= |outcomes|
        invariant i > 0 ==> probe.finish == null || old(probe.finish.buffered) == 0
        invariant probe.finish != null ==> probe.finish.buffered == old(probe.finish.buffered)
        invariant p == Final(probe, outcomes[..i])
        invariant alertBus.events == old(alertBus.events) + Events(probe, outcomes[..i])
        decreases |outcomes| - i
      {
        var received := false;
        if probe.finish != null {
          received := probe.finish.TryReceive();
        }
        if received {
          stopped := true;
          last := p;
          return;
        }
        if i == |outcomes| {
          break;
        }
        oldStatus := p.status;
        p := p.(status := Classify(outcomes[i]));
        if oldStatus != p.status {
          alertBus.events := alertBus.events + [p];
        }
        EventsAppend(probe, outcomes[..i], [outcomes[i]]);
        assert outcomes[..i + 1] == outcomes[..i] + [outcomes[i]];
        i := i + 1;
      }
      assert outcomes[..i] == outcomes;
      last := p;
    }
  }
}
