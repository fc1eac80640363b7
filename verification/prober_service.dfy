/** The probe registry of the `prober` package (`internal/prober/service.go`):
    create, read, update and delete over the persistence client, starting a
    runner for every probe it inserts or loads, and the runner loop that
    publishes status changes on the alert bus. */
module ProberService {
  import opened Wrappers
  import opened Storage
  import opened Net
  import opened Channels
  import opened ProberProbe
  import opened ProberValidator
  import ProberRunner
  import opened Persistence

  datatype ServiceError =
    | Invalid(ve: ValidatorError)
    | ProbeAlreadyExist
    | ProbeNotFound
    | Store(cause: Err)

  /** Which bolt transactions fail during one registry call: the lookup of
      `name` (or of the probe's name in `Create`), the lookup of the candidate's
      name in `Update`, the delete and the insert. */
  datatype Faults = Faults(lookup: bool, lookupCandidate: bool, delete: bool, insert: bool)

  const NoFaults := Faults(false, false, false, false)

  /** No lookup fails and the key, if stored, decodes. */
  ghost predicate Readable(bucket: Bucket, name: string, fault: bool)
  {
    !fault && (name !in bucket || bucket[name].Json?)
  }

  /** `Read`: the stored probe, `ErrProbeNotFound` when the store yields none,
      and store errors otherwise. The probe comes from the store, so it never
      carries the runner's live status. */
  function Read(bucket: Bucket, name: string, fault: bool): (r: Result<Probe, ServiceError>)
    ensures r == Err(ProbeNotFound) <==> Readable(bucket, name, fault) && !Present(bucket, name)
    ensures r.Err? && r.error.Store? <==> !Readable(bucket, name, fault)
    ensures Readable(bucket, name, fault) && Present(bucket, name) ==> r == Ok(ToProbe(bucket[name].record))
    ensures r.Ok? ==>
              && Present(bucket, name) && bucket[name] == Encode(NewProbeEntity(r.value))
              && r.value.status == "" && r.value.finish == null
  {
    match GetProbe(bucket, name, fault)
    case Err(e) => Err(Store(e))
    case Ok(None) => Err(ProbeNotFound)
    case Ok(Some(p)) => Ok(p)
  }

  /** The error `Create` returns: validation first, then the existence check
      and its store error, then the insert's store error. */
  function CreateError(bucket: Bucket, probe: Probe, faults: Faults): (r: Option<ServiceError>)
    ensures !Acceptable(probe) ==>
              RunValidators(probe, ProbeValidators()).Some? && r == Some(Invalid(RunValidators(probe, ProbeValidators()).value))
    ensures Acceptable(probe) && !Readable(bucket, probe.name, faults.lookup) ==>
              r == Some(Store(ExistProbeByName(bucket, probe.name, faults.lookup).1.value))
    ensures r == Some(ProbeAlreadyExist) <==> Acceptable(probe) && !faults.lookup && Present(bucket, probe.name)
    ensures Acceptable(probe) && Readable(bucket, probe.name, faults.lookup) && !Present(bucket, probe.name) && faults.insert ==>
              r == Some(Store(Wrapped("failed to insert probe", Tx)))
    ensures r.None? <==>
              && Acceptable(probe) && Readable(bucket, probe.name, faults.lookup)
              && !Present(bucket, probe.name) && !faults.insert
  {
    ProbeValidation(probe);
    var invalid := RunValidators(probe, ProbeValidators());
    if invalid.Some? then Some(Invalid(invalid.value))
    else
      var (exist, e) := ExistProbeByName(bucket, probe.name, faults.lookup);
      if e.Some? then Some(Store(e.value))
      else if exist then Some(ProbeAlreadyExist)
      else if faults.insert then Some(Store(Wrapped("failed to insert probe", Tx)))
      else None
  }

  /** The checks `Update` makes before it changes anything: validation, then
      `name` must exist, then the candidate's name must not belong to another probe. */
  function UpdateChecks(bucket: Bucket, name: string, probe: Probe, faults: Faults): (r: Option<ServiceError>)
    ensures !Acceptable(probe) ==>
              RunValidators(probe, ProbeValidators()).Some? && r == Some(Invalid(RunValidators(probe, ProbeValidators()).value))
    ensures Acceptable(probe) && !Readable(bucket, name, faults.lookup) ==>
              r == Some(Store(ExistProbeByName(bucket, name, faults.lookup).1.value))
    ensures Acceptable(probe) && Readable(bucket, name, faults.lookup) && !Present(bucket, name) ==>
              r == Some(ProbeNotFound)
    ensures Acceptable(probe) && Readable(bucket, name, faults.lookup) && Present(bucket, name)
            && !Readable(bucket, probe.name, faults.lookupCandidate) ==>
              r == Some(Store(ExistProbeByName(bucket, probe.name, faults.lookupCandidate).1.value))
    ensures r == Some(ProbeAlreadyExist) <==>
              && Acceptable(probe) && !faults.lookup && Present(bucket, name)
              && !faults.lookupCandidate && Present(bucket, probe.name) && name != probe.name
    ensures r.None? <==>
              && Acceptable(probe) && !faults.lookup && Present(bucket, name)
              && Readable(bucket, probe.name, faults.lookupCandidate)
              && (name == probe.name || !Present(bucket, probe.name))
  {
    ProbeValidation(probe);
    var invalid := RunValidators(probe, ProbeValidators());
    if invalid.Some? then Some(Invalid(invalid.value))
    else
      var (exist, e) := ExistProbeByName(bucket, name, faults.lookup);
      if e.Some? then Some(Store(e.value))
      else if !exist then Some(ProbeNotFound)
      else
        var (taken, e') := ExistProbeByName(bucket, probe.name, faults.lookupCandidate);
        if e'.Some? then Some(Store(e'.value))
        else if taken && name != probe.name then Some(ProbeAlreadyExist)
        else None
  }

  /** The error `Update` returns: its checks, then the delete's and the
      insert's store errors. */
  function UpdateError(bucket: Bucket, name: string, probe: Probe, faults: Faults): (r: Option<ServiceError>)
    ensures UpdateChecks(bucket, name, probe, faults).Some? ==> r == UpdateChecks(bucket, name, probe, faults)
    ensures r.None? <==> UpdateChecks(bucket, name, probe, faults).None? && !faults.delete && !faults.insert
    ensures UpdateChecks(bucket, name, probe, faults).None? && faults.delete ==>
              r == Some(Store(Wrapped("failed to delete probe", Tx)))
    ensures UpdateChecks(bucket, name, probe, faults).None? && !faults.delete && faults.insert ==>
              r == Some(Store(Wrapped("failed to insert probe", Tx)))
  {
    var checks := UpdateChecks(bucket, name, probe, faults);
    if checks.Some? then checks
    else if faults.delete then Some(Store(Wrapped("failed to delete probe", Tx)))
    else if faults.insert then Some(Store(Wrapped("failed to insert probe", Tx)))
    else None
  }

  /** The error `Delete` returns: only the name is validated, then it must
      exist, then the delete's store error. */
  function DeleteError(bucket: Bucket, name: string, faults: Faults): (r: Option<ServiceError>)
    ensures name == "" ==> r == Some(Invalid(ValidatorError("Name", "name is required")))
    ensures r == Some(ProbeNotFound) <==> name != "" && Readable(bucket, name, faults.lookup) && !Present(bucket, name)
    ensures r.None? <==> name != "" && !faults.lookup && Present(bucket, name) && !faults.delete
  {
    var invalid := RunValidators(Probe(name, "", "", 0, null), [NameInvalid]);
    if invalid.Some? then Some(Invalid(invalid.value))
    else
      var (exist, e) := ExistProbeByName(bucket, name, faults.lookup);
      if e.Some? then Some(Store(e.value))
      else if !exist then Some(ProbeNotFound)
      else if faults.delete then Some(Store(Wrapped("failed to delete probe", Tx)))
      else None
  }

  /** After a successful `Create`, reading the name gives the probe back with
      an empty status, and creating it again is refused. */
  lemma CreateThenRead(bucket: Bucket, probe: Probe, faults: Faults)
    requires CreateError(bucket, probe, faults).None?
    ensures var after := bucket[probe.name := Encode(NewProbeEntity(probe))];
      && Read(after, probe.name, false) == Ok(probe.(status := "", finish := null))
      && CreateError(after, probe, NoFaults) == Some(ProbeAlreadyExist)
  {
    var after := bucket[probe.name := Encode(NewProbeEntity(probe))];
    EntityRoundTrip(probe, NewProbeEntity(probe));
    assert Present(after, probe.name);
  }

  /** Re-saving a probe under its own name passes the checks. */
  lemma UpdateSameNameAllowed(bucket: Bucket, probe: Probe, faults: Faults)
    requires Acceptable(probe) && Present(bucket, probe.name)
    requires !faults.lookup && !faults.lookupCandidate
    ensures UpdateChecks(bucket, probe.name, probe, faults).None?
  {
  }

  /** After a successful `Update`, the candidate's name reads back as the
      candidate, and a renamed probe's old name is gone. */
  lemma UpdateThenRead(bucket: Bucket, name: string, probe: Probe, faults: Faults)
    requires UpdateError(bucket, name, probe, faults).None?
    ensures var after := (bucket - {name})[probe.name := Encode(NewProbeEntity(probe))];
      && Read(after, probe.name, false) == Ok(probe.(status := "", finish := null))
      && (name != probe.name ==> Read(after, name, false) == Err(ProbeNotFound))
  {
    var after := (bucket - {name})[probe.name := Encode(NewProbeEntity(probe))];
    EntityRoundTrip(probe, NewProbeEntity(probe));
    assert Present(after, probe.name);
    assert name != probe.name ==> name !in after;
  }

  /** After a successful `Delete`, reading or deleting the name again finds nothing. */
  lemma DeleteThenNotFound(bucket: Bucket, name: string, faults: Faults)
    requires DeleteError(bucket, name, faults).None?
    ensures Read(bucket - {name}, name, false) == Err(ProbeNotFound)
    ensures DeleteError(bucket - {name}, name, NoFaults) == Some(ProbeNotFound)
  {
    assert name !in bucket - {name};
  }

  /** The `service` of the `prober` package. */
  class Service {
    const persistenceClient: PersistenceClient
    const alertBus: AlertBus
    /** The probes handed to `go ps.run(...)`, in order. */
    ghost var runners: seq<Probe>

    ghost predicate Valid()
      reads this, persistenceClient, persistenceClient.probeFinishChannels.Values
    {
      persistenceClient.Valid()
    }

    constructor (persistenceClient: PersistenceClient, alertBus: AlertBus)
      requires persistenceClient.Valid()
      ensures Valid() && runners == []
      ensures this.persistenceClient == persistenceClient && this.alertBus == alertBus
    {
      this.persistenceClient := persistenceClient;
      this.alertBus := alertBus;
      runners := [];
    }

    /** `Create`: on success the record is stored, the probe has a fresh
        registered stop channel and its runner is started; any error leaves the
        store, the channel table and the runners as they were. */
    method Create(probe: Probe, faults: Faults) returns (err: Option<ServiceError>)
      requires Valid()
      modifies this, persistenceClient
      ensures Valid()
      ensures err == CreateError(old(persistenceClient.bucket), probe, faults)
      ensures err.Some? ==>
                && persistenceClient.bucket == old(persistenceClient.bucket)
                && persistenceClient.probeFinishChannels == old(persistenceClient.probeFinishChannels)
                && runners == old(runners)
      ensures err.None? ==>
                && persistenceClient.bucket == old(persistenceClient.bucket)[probe.name := Encode(NewProbeEntity(probe))]
                && |runners| == |old(runners)| + 1 && runners[..|old(runners)|] == old(runners)
                && var started := runners[|old(runners)|];
                && started == probe.(finish := started.finish)
                && started.finish != null && fresh(started.finish) && started.finish.buffered == 0
                && persistenceClient.probeFinishChannels ==
                     old(persistenceClient.probeFinishChannels)[probe.name := started.finish]
    {
      var invalid := RunValidators(probe, ProbeValidators());
      if invalid.Some? {
        return Some(Invalid(invalid.value));
      }
      var (exist, e) := ExistProbeByName(persistenceClient.bucket, probe.name, faults.lookup);
      if e.Some? {
        return Some(Store(e.value));
      }
      if exist {
        return Some(ProbeAlreadyExist);
      }
      var insertErr, inserted := persistenceClient.InsertProbe(probe, faults.insert);
      if insertErr.Some? {
        return Some(Store(insertErr.value));
      }
      runners := runners + [inserted];
      err := None;
    }

    /** `ReadAll`: the probes `GetAllProbes` returns. */
    method ReadAll(fault: bool) returns (r: Result<seq<Probe>, Err>, ghost keys: seq<string>)
      ensures r.Ok? <==> !fault && AllDecodable(persistenceClient.bucket)
      ensures r.Ok? ==> Enumerates(persistenceClient.bucket, keys) && r.value == Loaded(persistenceClient.bucket, keys)
      ensures r.Ok? ==> forall i :: 0 <= i < |r.value| ==> r.value[i].status == ""
    {
      r, keys := persistenceClient.GetAllProbes(fault);
    }

    /** The checks `Update` makes before it touches storage: the probe's
        fields, then that `name` exists, then that the new name is free. */
    method CheckUpdate(name: string, probe: Probe, faults: Faults) returns (err: Option<ServiceError>)
      requires Valid()
      ensures err == UpdateChecks(persistenceClient.bucket, name, probe, faults)
    {
      var invalid := RunValidators(probe, ProbeValidators());
      if invalid.Some? {
        return Some(Invalid(invalid.value));
      }
      var (exist, e) := ExistProbeByName(persistenceClient.bucket, name, faults.lookup);
      if e.Some? {
        return Some(Store(e.value));
      }
      if !exist {
        return Some(ProbeNotFound);
      }
      var (taken, e') := ExistProbeByName(persistenceClient.bucket, probe.name, faults.lookupCandidate);
      if e'.Some? {
        return Some(Store(e'.value));
      }
      if taken && name != probe.name {
        return Some(ProbeAlreadyExist);
      }
      err := None;
    }

    /** `Update`: nothing changes unless its checks pass. Then it deletes
        `name`, signalling that probe's runner, and inserts the candidate,
        starting a new runner. It is not atomic: when the insert fails after the
        delete, the old record and its channel are gone and the error is returned. */
    method Update(name: string, probe: Probe, faults: Faults) returns (err: Option<ServiceError>)
      requires Valid()
      modifies this, persistenceClient, persistenceClient.probeFinishChannels.Values
      ensures Valid()
      ensures err == UpdateError(old(persistenceClient.bucket), name, probe, faults)
      ensures UpdateChecks(old(persistenceClient.bucket), name, probe, faults).Some? || faults.delete ==>
                && persistenceClient.bucket == old(persistenceClient.bucket)
                && persistenceClient.probeFinishChannels == old(persistenceClient.probeFinishChannels)
                && runners == old(runners)
                && forall n :: n in old(persistenceClient.probeFinishChannels) ==>
                     old(persistenceClient.probeFinishChannels)[n].buffered == 0
      ensures UpdateChecks(old(persistenceClient.bucket), name, probe, faults).None? && !faults.delete ==>
                && (name in old(persistenceClient.probeFinishChannels) ==>
                      old(persistenceClient.probeFinishChannels)[name].buffered == 1)
                && (forall n :: n in old(persistenceClient.probeFinishChannels) && n != name ==>
                      old(persistenceClient.probeFinishChannels)[n].buffered == 0)
      ensures UpdateChecks(old(persistenceClient.bucket), name, probe, faults).None? && !faults.delete && faults.insert ==>
                && persistenceClient.bucket == old(persistenceClient.bucket) - {name}
                && persistenceClient.probeFinishChannels == old(persistenceClient.probeFinishChannels) - {name}
                && runners == old(runners)
      ensures err.None? ==>
                && persistenceClient.bucket ==
                     (old(persistenceClient.bucket) - {name})[probe.name := Encode(NewProbeEntity(probe))]
                && |runners| == |old(runners)| + 1 && runners[..|old(runners)|] == old(runners)
                && var started := runners[|old(runners)|];
                && started == probe.(finish := started.finish)
                && started.finish != null && fresh(started.finish) && started.finish.buffered == 0
                && persistenceClient.probeFinishChannels ==
                     (old(persistenceClient.probeFinishChannels) - {name})[probe.name := started.finish]
    {
      err := CheckUpdate(name, probe, faults);
      if err.Some? {
        return;
      }
      var deleteErr := persistenceClient.DeleteProbeByName(name, faults.delete);
      if deleteErr.Some? {
        return Some(Store(deleteErr.value));
      }
      var insertErr, inserted := persistenceClient.InsertProbe(probe, faults.insert);
      if insertErr.Some? {
        return Some(Store(insertErr.value));
      }
      runners := runners + [inserted];
      err := None;
    }

    /** `Delete`: validates the name only, requires it to exist, then deletes
        the record and signals the probe's runner through the persistence client. */
    method Delete(name: string, faults: Faults) returns (err: Option<ServiceError>)
      requires Valid()
      modifies persistenceClient, persistenceClient.probeFinishChannels.Values
      ensures Valid()
      ensures err == DeleteError(old(persistenceClient.bucket), name, faults)
      ensures err.Some? ==>
                && persistenceClient.bucket == old(persistenceClient.bucket)
                && persistenceClient.probeFinishChannels == old(persistenceClient.probeFinishChannels)
                && forall n :: n in old(persistenceClient.probeFinishChannels) ==>
                     old(persistenceClient.probeFinishChannels)[n].buffered == 0
      ensures err.None? ==>
                && persistenceClient.bucket == old(persistenceClient.bucket) - {name}
                && persistenceClient.probeFinishChannels == old(persistenceClient.probeFinishChannels) - {name}
                && (name in old(persistenceClient.probeFinishChannels) ==>
                      old(persistenceClient.probeFinishChannels)[name].buffered == 1)
                && (forall n :: n in old(persistenceClient.probeFinishChannels) && n != name ==>
                      old(persistenceClient.probeFinishChannels)[n].buffered == 0)
    {
      var invalid := RunValidators(Probe(name, "", "", 0, null), [NameInvalid]);
      if invalid.Some? {
        return Some(Invalid(invalid.value));
      }
      var (exist, e) := ExistProbeByName(persistenceClient.bucket, name, faults.lookup);
      if e.Some? {
        return Some(Store(e.value));
      }
      if !exist {
        return Some(ProbeNotFound);
      }
      var deleteErr := persistenceClient.DeleteProbeByName(name, faults.delete);
      if deleteErr.Some? {
        return Some(Store(deleteErr.value));
      }
      err := None;
    }

    /** `runAllProbes`: loads every stored probe and starts one runner per
        loaded probe; a load failure is wrapped and starts nothing. */
    method RunAllProbes(fault: bool) returns (err: Option<ServiceError>, ghost keys: seq<string>)
      requires Valid()
      modifies this, persistenceClient
      ensures Valid() && persistenceClient.bucket == old(persistenceClient.bucket)
      ensures err.None? <==> !fault && AllDecodable(persistenceClient.bucket)
      ensures err.Some? ==>
                && err.value.Store? && err.value.cause.Wrapped? && err.value.cause.context == "fail initial probes loading"
                && runners == old(runners)
                && persistenceClient.probeFinishChannels == old(persistenceClient.probeFinishChannels)
      ensures err.None? ==>
                && |runners| == |old(runners)| + |persistenceClient.bucket|
                && runners[..|old(runners)|] == old(runners)
                && (forall i :: |old(runners)| <= i < |runners| ==>
                      runners[i].status == "" && runners[i].finish != null && fresh(runners[i].finish))
                && persistenceClient.probeFinishChannels ==
                     Register(old(persistenceClient.probeFinishChannels), runners[|old(runners)|..])
      ensures err.None? ==>
                && Enumerates(persistenceClient.bucket, keys) && |runners[|old(runners)|..]| == |keys|
                && forall i :: 0 <= i < |keys| ==>
                     runners[|old(runners)|..][i] ==
                       Loaded(persistenceClient.bucket, keys)[i].(finish := runners[|old(runners)|..][i].finish)
    {
      var loaded;
      loaded, keys := persistenceClient.LoadProbes(fault);
      if loaded.Err? {
        err := Some(Store(Wrapped("fail initial probes loading", loaded.error)));
        return;
      }
      EnumeratesSize(persistenceClient.bucket, keys);
      runners := runners + loaded.value;
      assert runners[|old(runners)|..] == loaded.value;
      err := None;
    }

    /** `run`: the same loop as `runner.Run`, publishing on the service's alert bus. */
    method Run(probe: Probe, outcomes: seq<Outcome>) returns (last: Probe, stopped: bool)
      modifies alertBus, probe.finish
      ensures probe.finish != null && old(probe.finish.buffered) > 0 ==>
                && stopped && last == probe
                && alertBus.events == old(alertBus.events)
                && probe.finish.buffered == old(probe.finish.buffered) - 1
      ensures (probe.finish == null || old(probe.finish.buffered) == 0) ==>
                && !stopped && last == ProberRunner.Final(probe, outcomes)
                && alertBus.events == old(alertBus.events) + ProberRunner.Events(probe, outcomes)
                && (probe.finish != null ==> probe.finish.buffered == 0)
    {
      var p := probe;
      var oldStatus: string;
      var i := 0;
      stopped := false;
      while true
        invariant 0 <= i <= |outcomes|
        invariant i > 0 ==> probe.finish == null || old(probe.finish.buffered) == 0
        invariant probe.finish != null ==> probe.finish.buffered == old(probe.finish.buffered)
        invariant p == ProberRunner.Final(probe, outcomes[..i])
        invariant alertBus.events == old(alertBus.events) + ProberRunner.Events(probe, outcomes[..i])
        decreases |outcomes| - i
      {
        var received := false;
        if probe.finish != null {
          received := probe.finish.TryReceive();
        }
        if received {
          stopped := true;
          last := p;
          return;
        }
        if i == |outcomes| {
          break;
        }
        oldStatus := p.status;
        if outcomes[i].TransportError? {
          p := p.(status := "DOWN");
        } else if outcomes[i].statusCode != 200 {
          p := p.(status := "DOWN");
        } else {
          p := p.(status := "UP");
        }
        if oldStatus != p.status {
          alertBus.events := alertBus.events + [p];
        }
        ProberRunner.EventsAppend(probe, outcomes[..i], [outcomes[i]]);
        assert outcomes[..i + 1] == outcomes[..i] + [outcomes[i]];
        i := i + 1;
      }
      assert outcomes[..i] == outcomes;
      last := p;
    }
  }

  /** The package-level `once` and `instance` of `NewProbeService`. */
  class Singleton {
    var instance: Service?

    constructor ()
      ensures instance == null
    {
      instance := null;
    }

    /** `NewProbeService`: the first call builds the service over the bucket on
        disk and runs `runAllProbes`, whose error is dropped; every later call
        returns that same service whatever it is passed. */
    method NewProbeService(alertBus: AlertBus, disk: Bucket, loadFails: bool) returns (s: Service)
      modifies this
      ensures instance == s
      ensures old(instance) != null ==> s == old(instance)
      ensures old(instance) == null ==>
                && fresh(s) && s.Valid() && s.alertBus == alertBus && s.persistenceClient.bucket == disk
                && (loadFails || !AllDecodable(disk) ==> s.runners == [])
                && (!loadFails && AllDecodable(disk) ==>
                      exists keys :: Enumerates(disk, keys) && |s.runners| == |keys| &&
                        forall i :: 0 <= i < |keys| ==>
                          s.runners[i] == Loaded(disk, keys)[i].(finish := s.runners[i].finish))
    {
      if instance == null {
        var persistenceClient := new PersistenceClient(disk);
        s := new Service(persistenceClient, alertBus);
        var _, keys := s.RunAllProbes(loadFails);
        assert s.runners[0..] == s.runners;
        instance := s;
      } else {
        s := instance;
      }
    }
  }
}
