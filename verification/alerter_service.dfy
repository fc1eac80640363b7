/** The alerting service of `internal/alerter/service.go`: the list of
    alerters reading the probes' alert bus, built once, and closed together. */
module AlerterService {
  import opened Wrappers
  import ProberProbe

  /** An alerter, told apart by `id`. A `Closer` also implements `io.Closer`;
      `closeErr` is the message of the error its `Close` returns, if any. */
  datatype Alerter = Plain(id: nat) | Closer(id: nat, closeErr: Option<string>)

  /** A nil alerter is `None`. */
  type MaybeAlerter = Option<Alerter>

  datatype ServiceError = AlertBusNotReady

  /** `filter`: the non-nil alerters, in their original order. */
  function Filter(alerters: seq<MaybeAlerter>): (r: seq<Alerter>)
    ensures |r| <= |alerters|
    ensures forall a :: a in r <==> Some(a) in alerters
    decreases |alerters|
  {
    if alerters == [] then []
    else
      var init := Filter(alerters[..|alerters| - 1]);
      assert alerters == alerters[..|alerters| - 1] + [alerters[|alerters| - 1]];
      match alerters[|alerters| - 1]
      case None => init
      case Some(a) => init + [a]
  }

  /** Filtering a concatenation filters each part and keeps their order; with
      `Filter([None]) == []` and `Filter([Some(a)]) == [a]` this pins `Filter` down. */
  lemma {:induction false} FilterAppend(xs: seq<MaybeAlerter>, ys: seq<MaybeAlerter>)
    ensures Filter(xs + ys) == Filter(xs) + Filter(ys)
    decreases |ys|
  {
    if ys == [] {
      assert xs + ys == xs;
    } else {
      var init := ys[..|ys| - 1];
      FilterAppend(xs, init);
      assert (xs + ys)[..|xs + ys| - 1] == xs + init;
    }
  }

  /** The alerters as a list of non-nil interface values. */
  function Lift(alerters: seq<Alerter>): (r: seq<MaybeAlerter>)
    ensures |r| == |alerters|
    ensures forall i :: 0 <= i < |alerters| ==> r[i] == Some(alerters[i])
    decreases |alerters|
  {
    if alerters == [] then [] else Lift(alerters[..|alerters| - 1]) + [Some(alerters[|alerters| - 1])]
  }

  /** A list holding no nil is kept whole. */
  lemma {:induction false} FilterLift(alerters: seq<Alerter>)
    ensures Filter(Lift(alerters)) == alerters
    decreases |alerters|
  {
    if alerters != [] {
      var init := alerters[..|alerters| - 1];
      FilterLift(init);
      var lifted := Lift(alerters);
      assert lifted[..|lifted| - 1] == Lift(init);
      assert alerters == init + [alerters[|alerters| - 1]];
    }
  }

  /** Filtering what `filter` returned changes nothing more. */
  lemma FilterIdempotent(alerters: seq<MaybeAlerter>)
    ensures Filter(Lift(Filter(alerters))) == Filter(alerters)
  {
    FilterLift(Filter(alerters));
  }

  /** The message of the error the last failing closer returns, if any. */
  function LastFailure(alerters: seq<Alerter>): (r: Option<string>)
    ensures r.None? <==> forall i :: 0 <= i < |alerters| && alerters[i].Closer? ==> alerters[i].closeErr.None?
    ensures r.Some? ==>
              exists i :: 0 <= i < |alerters| && alerters[i].Closer? && alerters[i].closeErr == r
                && forall j :: i < j < |alerters| && alerters[j].Closer? ==> alerters[j].closeErr.None?
    decreases |alerters|
  {
    if alerters == [] then None
    else
      var n := |alerters| - 1;
      var last := alerters[n];
      if last.Closer? && last.closeErr.Some? then
        assert alerters[n].Closer? && alerters[n].closeErr == last.closeErr;
        last.closeErr
      else
        var r := LastFailure(alerters[..n]);
        assert forall i :: 0 <= i < n ==> alerters[..n][i] == alerters[i];
        r
  }

  /** The alerters that implement `io.Closer`, in order. */
  function Closers(alerters: seq<Alerter>): (r: seq<Alerter>)
    ensures forall a :: a in r <==> a in alerters && a.Closer?
    decreases |alerters|
  {
    if alerters == [] then []
    else
      var init := Closers(alerters[..|alerters| - 1]);
      assert alerters == alerters[..|alerters| - 1] + [alerters[|alerters| - 1]];
      if alerters[|alerters| - 1].Closer? then init + [alerters[|alerters| - 1]] else init
  }

  /** Closing one more alerter appends it to the closed ones iff it is a `Closer`. */
  lemma ClosersAppend(alerters: seq<Alerter>, a: Alerter)
    ensures Closers(alerters + [a]) == Closers(alerters) + (if a.Closer? then [a] else [])
  {
    assert (alerters + [a])[..|alerters|] == alerters;
  }

  /** `service`. */
  class Service {
    const alertBus: ProberProbe.AlertBus
    const alerters: seq<Alerter>

    constructor (alertBus: ProberProbe.AlertBus, alerters: seq<Alerter>)
      ensures this.alertBus == alertBus && this.alerters == alerters
    {
      this.alertBus := alertBus;
      this.alerters := alerters;
    }

    /** `Close`: closes every `Closer`, in order (`closed`), going on after a
        failure. The result is nil iff every close succeeded; otherwise it wraps
        the last failure, followed by a newline. */
    method Close() returns (err: Option<string>, ghost closed: seq<Alerter>)
      ensures closed == Closers(alerters)
      ensures err.None? <==> forall i :: 0 <= i < |alerters| && alerters[i].Closer? ==> alerters[i].closeErr.None?
      ensures err.Some? ==> LastFailure(alerters).Some? && err.value == LastFailure(alerters).value + "\n"
    {
      err := None;
      closed := [];
      var i := 0;
      while i < |alerters|
        invariant 0 <= i <= |alerters|
        invariant closed == Closers(alerters[..i])
        invariant err == if LastFailure(alerters[..i]).None? then None else Some(LastFailure(alerters[..i]).value + "\n")
      {
        var a := alerters[i];
        if a.Closer? {
          closed := closed + [a];
          var cErr := a.closeErr;
          if cErr.Some? {
            err := Some(cErr.value + "\n");
          }
        }
        assert alerters[..i + 1][..i] == alerters[..i];
        i := i + 1;
      }
      assert alerters[..i] == alerters;
    }
  }

  /** The package-level `once` and `instance` of `NewService`. */
  class Singleton {
    var instance: Service?

    constructor ()
      ensures instance == null
    {
      instance := null;
    }

    /** `NewService`: a nil bus is refused before anything else. The first
        accepted call builds the service over the non-nil alerters (the Discord
        alerter, `discord`); every later one returns that service whatever bus it
        is passed. */
    method NewService(alertBus: ProberProbe.AlertBus?, discord: MaybeAlerter) returns (r: Result<Service, ServiceError>)
      modifies this
      ensures alertBus == null ==> r == Err(AlertBusNotReady) && instance == old(instance)
      ensures alertBus != null && old(instance) != null ==> r == Ok(old(instance)) && instance == old(instance)
      ensures alertBus != null && old(instance) == null ==>
                && r.Ok? && fresh(r.value) && instance == r.value
                && r.value.alertBus == alertBus && r.value.alerters == Filter([discord])
    {
      if alertBus == null {
        return Err(AlertBusNotReady);
      }
      var alerters := [discord];
      if instance == null {
        instance := new Service(alertBus, Filter(alerters));
      }
      r := Ok(instance);
    }
  }
}
