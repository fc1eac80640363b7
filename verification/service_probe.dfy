/** The older probe registry of the `service` package (`internal/service/probe.go`).
    It calls the same persistence client as the `prober` registry, over
    `model.Probe`, and its runner keeps the status to itself: there is no
    alert bus. Its decisions are stated through those of the `prober` registry. */
module ServiceProbe {
  import opened Wrappers
  import opened Storage
  import opened Net
  import Channels
  import ProberProbe
  import ProberValidator
  import ProberRunner
  import ProberService
  import opened Persistence
  import opened ModelProbe
  import opened ServiceValidator

  datatype ServiceError =
    | Invalid(ve: ValidatorError)
    | ProbeAlreadyExist
    | ProbeNotFound
    | Store(cause: Err)

  /** The error of this package matching a `prober` registry error. */
  function Legacy(e: ProberService.ServiceError): ServiceError
  {
    match e
    case Invalid(ve) => Invalid(FromProberError(ve))
    case ProbeAlreadyExist => ProbeAlreadyExist
    case ProbeNotFound => ProbeNotFound
    case Store(cause) => Store(cause)
  }

  function LegacyOption(e: Option<ProberService.ServiceError>): Option<ServiceError>
  {
    if e.None? then None else Some(Legacy(e.value))
  }

  /** `Read`: the `prober` registry's answer for the same bucket, as a `model` probe. */
  function Read(bucket: Bucket, name: string, fault: bool): (r: Result<Probe, ServiceError>)
    ensures r == Err(ProbeNotFound) <==> ProberService.Readable(bucket, name, fault) && !Present(bucket, name)
    ensures r.Err? && r.error.Store? <==> !ProberService.Readable(bucket, name, fault)
    ensures ProberService.Readable(bucket, name, fault) && Present(bucket, name) ==>
              r.Ok? && r.value == FromProber(ToProbe(bucket[name].record)) && r.value.id == 0
    ensures r.Ok? ==>
              && Present(bucket, name)
              && bucket[name] == Encode(Record(r.value.name, r.value.url, r.value.delay))
              && r.value.finish == null
  {
    match GetProbe(bucket, name, fault)
    case Err(e) => Err(Store(e))
    case Ok(None) => Err(ProbeNotFound)
    case Ok(Some(q)) => Ok(FromProber(q))
  }

  /** The status the runner holds after the given checks: "" before the first,
      then the classification of the latest one. */
  function LatestStatus(outcomes: seq<Outcome>): (s: string)
    ensures outcomes != [] ==> (s == "UP" <==> outcomes[|outcomes| - 1] == Response(200))
    ensures outcomes != [] ==> (s == "DOWN" <==> outcomes[|outcomes| - 1] != Response(200))
  {
    if outcomes == [] then "" else ProberRunner.Classify(outcomes[|outcomes| - 1])
  }

  /** The older `ProbeService`. */
  class ProbeService {
    const persistenceClient: PersistenceClient
    /** The probes handed to `go ps.run(...)`, in order. */
    ghost var runners: seq<Probe>

    ghost predicate Valid()
      reads this, persistenceClient, persistenceClient.probeFinishChannels.Values
    {
      persistenceClient.Valid()
    }

    constructor (persistenceClient: PersistenceClient)
      requires persistenceClient.Valid()
      ensures Valid() && runners == [] && this.persistenceClient == persistenceClient
    {
      this.persistenceClient := persistenceClient;
      runners := [];
    }

    /** `Create`: decides exactly as the `prober` registry's `Create`; on success
        stores the record and starts a runner for the probe with its fresh channel. */
    method Create(probe: Probe, faults: ProberService.Faults) returns (err: Option<ServiceError>)
      requires Valid()
      modifies this, persistenceClient
      ensures Valid()
      ensures err == LegacyOption(ProberService.CreateError(old(persistenceClient.bucket), ToProber(probe), faults))
      ensures err.Some? ==>
                && persistenceClient.bucket == old(persistenceClient.bucket)
                && persistenceClient.probeFinishChannels == old(persistenceClient.probeFinishChannels)
                && runners == old(runners)
      ensures err.None? ==>
                && persistenceClient.bucket ==
                     old(persistenceClient.bucket)[probe.name := Encode(Record(probe.name, probe.url, probe.delay))]
                && |runners| == |old(runners)| + 1 && runners[..|old(runners)|] == old(runners)
                && var started := runners[|old(runners)|];
                && started == probe.(finish := started.finish)
                && started.finish != null && fresh(started.finish) && started.finish.buffered == 0
                && persistenceClient.probeFinishChannels ==
                     old(persistenceClient.probeFinishChannels)[probe.name := started.finish]
    {
      ValidationAgrees(probe);
      var invalid := RunValidators(probe, ProbeValidators());
      if invalid.Some? {
        return Some(Invalid(invalid.value));
      }
      var (exist, e) := ExistProbeByName(persistenceClient.bucket, probe.name, faults.lookup);
      if e.Some? {
        return Some(Store(e.value));
      }
      if exist {
        return Some(ProbeAlreadyExist);
      }
      var insertErr, inserted := persistenceClient.InsertProbe(ToProber(probe), faults.insert);
      if insertErr.Some? {
        return Some(Store(insertErr.value));
      }
      runners := runners + [probe.(finish := inserted.finish)];
      err := None;
    }

    /** `ReadAll`: the probes `GetAllProbes` returns, as `model` probes. */
    method ReadAll(fault: bool) returns (r: Result<seq<Probe>, Err>, ghost keys: seq<string>)
      ensures r.Ok? <==> !fault && AllDecodable(persistenceClient.bucket)
      ensures r.Ok? ==>
                && Enumerates(persistenceClient.bucket, keys) && |r.value| == |keys|
                && forall i :: 0 <= i < |keys| ==>
                     r.value[i] == FromProber(Loaded(persistenceClient.bucket, keys)[i])
    {
      var all;
      all, keys := persistenceClient.GetAllProbes(fault);
      if all.Err? {
        return Err(all.error), keys;
      }
      var ps := all.value;
      r := Ok(seq(|ps|, i requires 0 <= i < |ps| => FromProber(ps[i])));
    }

    /** The checks `Update` makes before it touches storage, answered as the
        `prober` registry answers them. */
    method CheckUpdate(name: string, probe: Probe, faults: ProberService.Faults) returns (err: Option<ServiceError>)
      requires Valid()
      ensures err == LegacyOption(ProberService.UpdateChecks(persistenceClient.bucket, name, ToProber(probe), faults))
    {
      ghost var expected := ProberService.UpdateChecks(persistenceClient.bucket, name, ToProber(probe), faults);
      ValidationAgrees(probe);
      var invalid := RunValidators(probe, ProbeValidators());
      if invalid.Some? {
        assert LegacyOption(expected) == Some(Invalid(invalid.value));
        return Some(Invalid(invalid.value));
      }
      var (exist, e) := ExistProbeByName(persistenceClient.bucket, name, faults.lookup);
      if e.Some? {
        assert expected == Some(ProberService.Store(e.value));
        return Some(Store(e.value));
      }
      if !exist {
        assert expected == Some(ProberService.ProbeNotFound);
        return Some(ProbeNotFound);
      }
      var (taken, e') := ExistProbeByName(persistenceClient.bucket, probe.name, faults.lookupCandidate);
      if e'.Some? {
        assert expected == Some(ProberService.Store(e'.value));
        return Some(Store(e'.value));
      }
      if taken && name != probe.name {
        assert expected == Some(ProberService.ProbeAlreadyExist);
        return Some(ProbeAlreadyExist);
      }
      err := None;
    }

    /** `Update`: decides exactly as the `prober` registry's `Update` and, like
        it, deletes then inserts without atomicity. */
    method Update(name: string, probe: Probe, faults: ProberService.Faults) returns (err: Option<ServiceError>)
      requires Valid()
      modifies this, persistenceClient, persistenceClient.probeFinishChannels.Values
      ensures Valid()
      ensures err == LegacyOption(ProberService.UpdateError(old(persistenceClient.bucket), name, ToProber(probe), faults))
      ensures ProberService.UpdateChecks(old(persistenceClient.bucket), name, ToProber(probe), faults).Some? || faults.delete ==>
                && persistenceClient.bucket == old(persistenceClient.bucket)
                && persistenceClient.probeFinishChannels == old(persistenceClient.probeFinishChannels)
                && runners == old(runners)
                && forall n :: n in old(persistenceClient.probeFinishChannels) ==>
                     old(persistenceClient.probeFinishChannels)[n].buffered == 0
      ensures ProberService.UpdateChecks(old(persistenceClient.bucket), name, ToProber(probe), faults).None? && !faults.delete ==>
                && (name in old(persistenceClient.probeFinishChannels) ==>
                      old(persistenceClient.probeFinishChannels)[name].buffered == 1)
                && (forall n :: n in old(persistenceClient.probeFinishChannels) && n != name ==>
                      old(persistenceClient.probeFinishChannels)[n].buffered == 0)
      ensures ProberService.UpdateChecks(old(persistenceClient.bucket), name, ToProber(probe), faults).None?
              && !faults.delete && faults.insert ==>
                && persistenceClient.bucket == old(persistenceClient.bucket) - {name}
                && persistenceClient.probeFinishChannels == old(persistenceClient.probeFinishChannels) - {name}
                && runners == old(runners)
      ensures err.None? ==>
                && persistenceClient.bucket ==
                     (old(persistenceClient.bucket) - {name})[probe.name := Encode(Record(probe.name, probe.url, probe.delay))]
                && |runners| == |old(runners)| + 1 && runners[..|old(runners)|] == old(runners)
                && var started := runners[|old(runners)|];
                && started == probe.(finish := started.finish)
                && started.finish != null && fresh(started.finish) && started.finish.buffered == 0
                && persistenceClient.probeFinishChannels ==
                     (old(persistenceClient.probeFinishChannels) - {name})[probe.name := started.finish]
    {
      ghost var expected := ProberService.UpdateError(persistenceClient.bucket, name, ToProber(probe), faults);
      err := CheckUpdate(name, probe, faults);
      if err.Some? {
        return;
      }
      var deleteErr := persistenceClient.DeleteProbeByName(name, faults.delete);
      if deleteErr.Some? {
        assert expected == Some(ProberService.Store(deleteErr.value));
        return Some(Store(deleteErr.value));
      }
      var insertErr, inserted := persistenceClient.InsertProbe(ToProber(probe), faults.insert);
      if insertErr.Some? {
        assert expected == Some(ProberService.Store(insertErr.value));
        return Some(Store(insertErr.value));
      }
      runners := runners + [probe.(finish := inserted.finish)];
      err := None;
    }

    /** `Delete`: decides exactly as the `prober` registry's `Delete`. */
    method Delete(name: string, faults: ProberService.Faults) returns (err: Option<ServiceError>)
      requires Valid()
      modifies persistenceClient, persistenceClient.probeFinishChannels.Values
      ensures Valid()
      ensures err == LegacyOption(ProberService.DeleteError(old(persistenceClient.bucket), name, faults))
      ensures err.Some? ==>
                && persistenceClient.bucket == old(persistenceClient.bucket)
                && persistenceClient.probeFinishChannels == old(persistenceClient.probeFinishChannels)
                && forall n :: n in old(persistenceClient.probeFinishChannels) ==>
                     old(persistenceClient.probeFinishChannels)[n].buffered == 0
      ensures err.None? ==>
                && persistenceClient.bucket == old(persistenceClient.bucket) - {name}
                && persistenceClient.probeFinishChannels == old(persistenceClient.probeFinishChannels) - {name}
                && (name in old(persistenceClient.probeFinishChannels) ==>
                      old(persistenceClient.probeFinishChannels)[name].buffered == 1)
                && (forall n :: n in old(persistenceClient.probeFinishChannels) && n != name ==>
                      old(persistenceClient.probeFinishChannels)[n].buffered == 0)
    {
      var probe := Probe(name, "", 0, null, 0);
      NameOnlyAgrees(probe);
      var invalid := RunValidators(probe, [NameInvalid]);
      if invalid.Some? {
        return Some(Invalid(invalid.value));
      }
      var (exist, e) := ExistProbeByName(persistenceClient.bucket, name, faults.lookup);
      if e.Some? {
        return Some(Store(e.value));
      }
      if !exist {
        return Some(ProbeNotFound);
      }
      var deleteErr := persistenceClient.DeleteProbeByName(name, faults.delete);
      if deleteErr.Some? {
        return Some(Store(deleteErr.value));
      }
      err := None;
    }

    /** `runAllProbes`: one runner per loaded probe; a load failure is wrapped
        as "fail initial probes loading" and starts nothing. */
    method RunAllProbes(fault: bool) returns (err: Option<ServiceError>, ghost loaded: seq<ProberProbe.Probe>, ghost keys: seq<string>)
      requires Valid()
      modifies this, persistenceClient
      ensures Valid() && persistenceClient.bucket == old(persistenceClient.bucket)
      ensures err.None? <==> !fault && AllDecodable(persistenceClient.bucket)
      ensures err.Some? ==>
                && err.value.Store? && err.value.cause.Wrapped? && err.value.cause.context == "fail initial probes loading"
                && runners == old(runners)
                && persistenceClient.probeFinishChannels == old(persistenceClient.probeFinishChannels)
      ensures err.None? ==>
                && Enumerates(persistenceClient.bucket, keys) && |loaded| == |keys|
                && (forall i :: 0 <= i < |keys| ==>
                      loaded[i] == Loaded(persistenceClient.bucket, keys)[i].(finish := loaded[i].finish))
      ensures err.None? ==>
                && |loaded| == |persistenceClient.bucket|
                && runners == old(runners) + FromProbers(loaded)
                && (forall i :: 0 <= i < |loaded| ==>
                      loaded[i].finish != null && fresh(loaded[i].finish) && loaded[i].finish.buffered == 0)
                && persistenceClient.probeFinishChannels == Register(old(persistenceClient.probeFinishChannels), loaded)
      ensures err.None? && KeyedByName(persistenceClient.bucket) ==>
                forall i :: 0 <= i < |loaded| ==>
                  && loaded[i].name in persistenceClient.probeFinishChannels
                  && persistenceClient.probeFinishChannels[loaded[i].name] == loaded[i].finish
    {
      var r;
      r, keys := persistenceClient.LoadProbes(fault);
      if r.Err? {
        err, loaded := Some(Store(Wrapped("fail initial probes loading", r.error))), [];
        return;
      }
      loaded := r.value;
      EnumeratesSize(persistenceClient.bucket, keys);
      if KeyedByName(persistenceClient.bucket) {
        LoadedRegistered(old(persistenceClient.probeFinishChannels), persistenceClient.bucket, keys, loaded);
      }
      runners := runners + FromProbers(r.value);
      err := None;
    }

    /** `run`: stops when its channel holds a value, otherwise records "DOWN"
        for a transport error or a non-200 code and "UP" for 200. */
    method Run(probe: Probe, outcomes: seq<Outcome>) returns (status: string, stopped: bool)
      modifies probe.finish
      ensures probe.finish != null && old(probe.finish.buffered) > 0 ==>
                stopped && status == "" && probe.finish.buffered == old(probe.finish.buffered) - 1
      ensures (probe.finish == null || old(probe.finish.buffered) == 0) ==>
                && !stopped && status == LatestStatus(outcomes)
                && (probe.finish != null ==> probe.finish.buffered == 0)
    {
      status := "";
      var i := 0;
      stopped := false;
      while true
        invariant 0 <= i <= |outcomes|
        invariant i > 0 ==> probe.finish == null || old(probe.finish.buffered) == 0
        invariant probe.finish != null ==> probe.finish.buffered == old(probe.finish.buffered)
        invariant status == LatestStatus(outcomes[..i])
        decreases |outcomes| - i
      {
        var received := false;
        if probe.finish != null {
          received := probe.finish.TryReceive();
        }
        if received {
          stopped := true;
          return;
        }
        if i == |outcomes| {
          break;
        }
        if outcomes[i].TransportError? {
          status := "DOWN";
        } else if outcomes[i].statusCode != 200 {
          status := "DOWN";
        } else {
          status := "UP";
        }
        assert outcomes[..i + 1][i] == outcomes[i];
        i := i + 1;
      }
      assert outcomes[..i] == outcomes;
    }
  }

  /** The package-level `once` and `instance` of the older `NewProbeService`. */
  class Singleton {
    var instance: ProbeService?

    constructor ()
      ensures instance == null
    {
      instance := null;
    }

    /** `NewProbeService`: the first call builds the service over the bucket on
        disk and runs `runAllProbes`, whose error is dropped; later calls return
        the same service. */
    method NewProbeService(disk: Bucket, loadFails: bool) returns (s: ProbeService)
      modifies this
      ensures instance == s
      ensures old(instance) != null ==> s == old(instance)
      ensures old(instance) == null ==>
                && fresh(s) && s.Valid() && s.persistenceClient.bucket == disk
                && (loadFails || !AllDecodable(disk) ==> s.runners == [])
                && (!loadFails && AllDecodable(disk) ==>
                      exists keys :: Enumerates(disk, keys) && |s.runners| == |keys| &&
                        forall i :: 0 <= i < |keys| ==>
                          s.runners[i] == FromProber(Loaded(disk, keys)[i]).(finish := s.runners[i].finish))
    {
      if instance == null {
        var persistenceClient := new PersistenceClient(disk);
        s := new ProbeService(persistenceClient);
        var _, loaded, keys := s.RunAllProbes(loadFails);
        instance := s;
      } else {
        s := instance;
      }
    }
  }
}
