/** The persistence client of `internal/persistence/client.go` and
    `internal/persistence/entity.go`: the `probe` bucket of the bolt database,
    plus the table of stop channels of the probes registered since start-up. */
module Persistence {
  import opened Wrappers
  import opened Storage
  import opened Channels
  import opened ProberProbe

  /** `newProbeEntity`: the persisted subset of a probe. */
  function NewProbeEntity(p: Probe): (r: Record)
    ensures r.name == p.name && r.url == p.url && r.delay == p.delay
  {
    Record(p.name, p.url, p.delay)
  }

  /** `toProbe`: a probe with no status and no stop channel. */
  function ToProbe(r: Record): (p: Probe)
    ensures p.status == "" && p.finish == null
  {
    Probe(r.name, r.url, "", r.delay, null)
  }

  /** The entity mappers are inverse on Name, URL and Delay; Status and Finish are dropped. */
  lemma EntityRoundTrip(p: Probe, r: Record)
    ensures ToProbe(NewProbeEntity(p)) == p.(status := "", finish := null)
    ensures NewProbeEntity(ToProbe(r)) == r
  {
  }

  /** `GetProbe`: nil when the key is absent or the stored record has an empty
      name; an error when the transaction fails or the record does not decode. */
  function GetProbe(bucket: Bucket, name: string, fault: bool): (r: Result<Option<Probe>, Err>)
    ensures fault ==> r == Err(Wrapped("failed to retrieve probe", Tx))
    ensures !fault && name in bucket && !bucket[name].Json? ==>
              r == Err(Wrapped("failed to retrieve probe", Wrapped("failed to unmarshal probe", Unmarshal)))
    ensures r == Ok(None) <==> !fault && (name !in bucket || (bucket[name].Json? && bucket[name].record.name == ""))
    ensures !fault && Present(bucket, name) ==> r == Ok(Some(ToProbe(bucket[name].record)))
    ensures r.Ok? && r.value.Some? ==>
              && name in bucket && bucket[name] == Encode(NewProbeEntity(r.value.value))
              && r.value.value.name != "" && r.value.value.status == "" && r.value.value.finish == null
  {
    if fault then Err(Wrapped("failed to retrieve probe", Tx))
    else if name !in bucket then Ok(None)
    else match Decode(bucket[name])
      case Err(e) => Err(Wrapped("failed to retrieve probe", Wrapped("failed to unmarshal probe", e)))
      case Ok(rec) => if rec.name == "" then Ok(None) else Ok(Some(ToProbe(rec)))
  }

  /** Storing a probe's record and reading its name back gives the probe with
      no status and no channel, or nil when the name is empty. `InsertProbe`
      refuses the empty name, so that branch describes a bucket bolt never
      holds. */
  lemma InsertThenGetProbe(bucket: Bucket, p: Probe)
    ensures GetProbe(bucket[p.name := Encode(NewProbeEntity(p))], p.name, false) ==
              if p.name == "" then Ok(None) else Ok(Some(p.(status := "", finish := null)))
  {
    EntityRoundTrip(p, NewProbeEntity(p));
  }

  /** After its key is deleted, a name reads back as nil. */
  lemma DeleteThenGetProbe(bucket: Bucket, name: string)
    ensures GetProbe(bucket - {name}, name, false) == Ok(None)
  {
  }

  /** A record is stored under `name` and has a non-empty name: what
      `ExistProbeByName` reports as existing. */
  ghost predicate Present(bucket: Bucket, name: string)
  {
    name in bucket && bucket[name].Json? && bucket[name].record.name != ""
  }

  /** `ExistProbeByName`: whether `GetProbe` yields a probe, with its error. */
  function ExistProbeByName(bucket: Bucket, name: string, fault: bool): (r: (bool, Option<Err>))
    ensures r.0 <==> !fault && Present(bucket, name)
    ensures r.1.None? <==> !fault && (name !in bucket || bucket[name].Json?)
    ensures r.0 ==> r.1.None?
    ensures r.1.Some? <==> GetProbe(bucket, name, fault).Err?
    ensures r.1.Some? ==> r.1.value == GetProbe(bucket, name, fault).error
  {
    match GetProbe(bucket, name, fault)
    case Err(e) => (false, Some(e))
    case Ok(p) => (p.Some?, None)
  }

  /** Every decodable record sits under its own name, as `InsertProbe` stores them. */
  ghost predicate KeyedByName(bucket: Bucket)
  {
    forall k :: k in bucket && bucket[k].Json? ==> bucket[k].record.name == k
  }

  /** The probes `GetAllProbes` builds from the records under `keys`, in that order. */
  function Loaded(bucket: Bucket, keys: seq<string>): (ps: seq<Probe>)
    requires forall i :: 0 <= i < |keys| ==> keys[i] in bucket && bucket[keys[i]].Json?
    ensures |ps| == |keys|
    ensures forall i :: 0 <= i < |keys| ==> ps[i] == ToProbe(bucket[keys[i]].record)
  {
    seq(|keys|, i requires 0 <= i < |keys| => ToProbe(bucket[keys[i]].record))
  }

  /** The channel table after registering each probe's channel under its name,
      in order: a later probe of the same name replaces an earlier one. */
  function Register(m: map<string, BoolChannel>, ps: seq<Probe>): map<string, BoolChannel>
    requires forall i :: 0 <= i < |ps| ==> ps[i].finish != null
    decreases |ps|
  {
    if ps == [] then m
    else Register(m, ps[..|ps| - 1])[ps[|ps| - 1].name := ps[|ps| - 1].finish]
  }

  /** A name is registered iff it was before or some probe carries it; it then
      maps to the channel of the last probe carrying it, or keeps its old channel. */
  lemma {:induction false} RegisterLookup(m: map<string, BoolChannel>, ps: seq<Probe>, n: string)
    requires forall i :: 0 <= i < |ps| ==> ps[i].finish != null
    ensures n in Register(m, ps) <==> n in m || exists i :: 0 <= i < |ps| && ps[i].name == n
    ensures (forall i :: 0 <= i < |ps| ==> ps[i].name != n) && n in m ==> Register(m, ps)[n] == m[n]
    ensures forall i :: 0 <= i < |ps| && ps[i].name == n && (forall j :: i < j < |ps| ==> ps[j].name != n) ==>
              n in Register(m, ps) && Register(m, ps)[n] == ps[i].finish
    decreases |ps|
  {
    if ps != [] {
      var init := ps[..|ps| - 1];
      RegisterLookup(m, init, n);
      assert forall i :: 0 <= i < |init| ==> init[i] == ps[i];
    }
  }

  /** Loading probes with distinct names registers each one's own channel. */
  lemma RegisterDistinct(m: map<string, BoolChannel>, ps: seq<Probe>)
    requires forall i :: 0 <= i < |ps| ==> ps[i].finish != null
    requires forall i, j :: 0 <= i < j < |ps| ==> ps[i].name != ps[j].name
    ensures forall i :: 0 <= i < |ps| ==> ps[i].name in Register(m, ps) && Register(m, ps)[ps[i].name] == ps[i].finish
  {
    forall i | 0 <= i < |ps|
      ensures ps[i].name in Register(m, ps) && Register(m, ps)[ps[i].name] == ps[i].finish
    {
      RegisterLookup(m, ps, ps[i].name);
    }
  }

  /** In a bucket keyed by name, the probes loaded in any iteration order have distinct names. */
  lemma LoadedNamesDistinct(bucket: Bucket, keys: seq<string>)
    requires KeyedByName(bucket) && Enumerates(bucket, keys)
    requires forall i :: 0 <= i < |keys| ==> keys[i] in bucket && bucket[keys[i]].Json?
    ensures forall i, j :: 0 <= i < j < |keys| ==> Loaded(bucket, keys)[i].name != Loaded(bucket, keys)[j].name
  {
  }

  /** In a bucket keyed by name, loading the probes in any iteration order
      registers each one's own channel under its name. */
  lemma LoadedRegistered(m: map<string, BoolChannel>, bucket: Bucket, keys: seq<string>, ps: seq<Probe>)
    requires KeyedByName(bucket) && AllDecodable(bucket) && Enumerates(bucket, keys)
    requires |ps| == |keys|
    requires forall i :: 0 <= i < |keys| ==> ps[i] == Loaded(bucket, keys)[i].(finish := ps[i].finish)
    requires forall i :: 0 <= i < |keys| ==> ps[i].finish != null
    ensures forall i :: 0 <= i < |ps| ==> ps[i].name in Register(m, ps) && Register(m, ps)[ps[i].name] == ps[i].finish
  {
    LoadedNamesDistinct(bucket, keys);
    forall i, j | 0 <= i < j < |ps| ensures ps[i].name != ps[j].name {
      assert ps[i].name == Loaded(bucket, keys)[i].name;
      assert ps[j].name == Loaded(bucket, keys)[j].name;
    }
    RegisterDistinct(m, ps);
  }

  class PersistenceClient {
    /** The `probe` bucket of the bolt database. */
    var bucket: Bucket
    /** `probeFinishChannels`: the stop channel of every probe registered by this client. */
    var probeFinishChannels: map<string, BoolChannel>

    /** Every registered channel is empty and belongs to one name only. */
    ghost predicate Valid()
      reads this, probeFinishChannels.Values
    {
      && (forall n :: n in probeFinishChannels ==> probeFinishChannels[n].buffered == 0)
      && (forall a, b :: a in probeFinishChannels && b in probeFinishChannels && a != b ==>
            probeFinishChannels[a] != probeFinishChannels[b])
    }

    /** `NewPersistenceClient` over the bucket found on disk: no channel is registered. */
    constructor (disk: Bucket)
      ensures Valid()
      ensures bucket == disk && probeFinishChannels == map[]
    {
      bucket := disk;
      probeFinishChannels := map[];
    }

    /** `InsertProbe`: stores the record under the probe's name, replacing any
        previous one; on success the probe gets a fresh stop channel, registered
        under its name. A failed transaction, or bolt refusing the empty name as
        a key, changes nothing. */
    method InsertProbe(probe: Probe, fault: bool) returns (err: Option<Err>, inserted: Probe)
      requires Valid()
      modifies this
      ensures Valid()
      ensures fault ==>
                && err == Some(Wrapped("failed to insert probe", Tx)) && inserted == probe
                && bucket == old(bucket) && probeFinishChannels == old(probeFinishChannels)
      ensures !fault && probe.name == "" ==>
                && err == Some(Wrapped("failed to insert probe", KeyRequired)) && inserted == probe
                && bucket == old(bucket) && probeFinishChannels == old(probeFinishChannels)
      ensures !fault && probe.name != "" ==>
                && err == None
                && bucket == old(bucket)[probe.name := Encode(NewProbeEntity(probe))]
                && inserted == probe.(finish := inserted.finish)
                && inserted.finish != null && fresh(inserted.finish) && inserted.finish.buffered == 0
                && probeFinishChannels == old(probeFinishChannels)[probe.name := inserted.finish]
    {
      if fault {
        err := Some(Wrapped("failed to insert probe", Tx));
        inserted := probe;
        return;
      }
      if probe.name == "" {
        err := Some(Wrapped("failed to insert probe", KeyRequired));
        inserted := probe;
        return;
      }
      bucket := bucket[probe.name := Encode(NewProbeEntity(probe))];
      var finish := new BoolChannel();
      inserted := probe.(finish := finish);
      probeFinishChannels := probeFinishChannels[probe.name := finish];
      err := None;
    }

    /** `DeleteProbeByName`: removes the key; if a channel is registered under
        the name, sends one value on it and unregisters it. Other channels are
        not signalled. A failed transaction changes nothing and signals nothing. */
    method DeleteProbeByName(name: string, fault: bool) returns (err: Option<Err>)
      requires Valid()
      modifies this, probeFinishChannels.Values
      ensures Valid()
      ensures fault ==>
                && err == Some(Wrapped("failed to delete probe", Tx))
                && bucket == old(bucket) && probeFinishChannels == old(probeFinishChannels)
      ensures !fault ==>
                && err == None
                && bucket == old(bucket) - {name}
                && probeFinishChannels == old(probeFinishChannels) - {name}
      ensures !fault && name in old(probeFinishChannels) ==> old(probeFinishChannels)[name].buffered == 1
      ensures forall n :: n in old(probeFinishChannels) && (fault || n != name) ==>
                old(probeFinishChannels)[n].buffered == 0
    {
      if fault {
        err := Some(Wrapped("failed to delete probe", Tx));
        return;
      }
      bucket := bucket - {name};
      if name in probeFinishChannels {
        var finish := probeFinishChannels[name];
        finish.Send();
        probeFinishChannels := probeFinishChannels - {name};
      }
      err := None;
    }

    /** `GetAllProbes`: one probe per stored record, in the bucket's iteration
        order (`keys`), or an error as soon as a record fails to decode. Unlike
        `GetProbe`, records with an empty name are kept. */
    method GetAllProbes(fault: bool) returns (r: Result<seq<Probe>, Err>, ghost keys: seq<string>)
      ensures r.Ok? <==> !fault && AllDecodable(bucket)
      ensures fault ==> r == Err(Wrapped("failed to read all probes", Tx))
      ensures !fault && r.Err? ==> r == Err(Wrapped("failed to read all probes", Unmarshal))
      ensures r.Ok? ==> Enumerates(bucket, keys) && r.value == Loaded(bucket, keys)
    {
      keys := [];
      if fault {
        r := Err(Wrapped("failed to read all probes", Tx));
        return;
      }
      var probes: seq<Probe> := [];
      var remaining := bucket.Keys;
      while remaining != {}
        invariant remaining <= bucket.Keys
        invariant forall i, j :: 0 <= i < j < |keys| ==> keys[i] != keys[j]
        invariant forall k :: k in bucket <==> k in remaining || k in keys
        invariant forall k :: k in keys ==> k !in remaining
        invariant forall i :: 0 <= i < |keys| ==> keys[i] in bucket && bucket[keys[i]].Json?
        invariant probes == Loaded(bucket, keys)
        decreases remaining
      {
        var k :| k in remaining;
        match Decode(bucket[k])
        case Err(e) =>
          r := Err(Wrapped("failed to read all probes", e));
          return;
        case Ok(rec) =>
          probes := probes + [ToProbe(rec)];
          keys := keys + [k];
        remaining := remaining - {k};
      }
      r := Ok(probes);
    }

    /** `LoadProbes`: the probes `GetAllProbes` returns, each given a fresh stop
        channel that is registered under its name; nothing changes on failure. */
    method LoadProbes(fault: bool) returns (r: Result<seq<Probe>, Err>, ghost keys: seq<string>)
      requires Valid()
      modifies this
      ensures Valid() && bucket == old(bucket)
      ensures r.Ok? <==> !fault && AllDecodable(bucket)
      ensures fault ==> r == Err(Wrapped("failed to read all probes", Tx))
      ensures !fault && r.Err? ==> r == Err(Wrapped("failed to read all probes", Unmarshal))
      ensures r.Err? ==> probeFinishChannels == old(probeFinishChannels)
      ensures r.Ok? ==>
                && Enumerates(bucket, keys) && |r.value| == |keys|
                && (forall i :: 0 <= i < |keys| ==> r.value[i] == Loaded(bucket, keys)[i].(finish := r.value[i].finish))
                && (forall i :: 0 <= i < |keys| ==>
                      r.value[i].finish != null && fresh(r.value[i].finish) && r.value[i].finish.buffered == 0)
                && probeFinishChannels == Register(old(probeFinishChannels), r.value)
    {
      var all;
      all, keys := GetAllProbes(fault);
      if all.Err? {
        r := all;
        return;
      }
      var probes := all.value;
      var out: seq<Probe> := [];
      while |out| < |probes|
        invariant |out| <= |probes|
        invariant bucket == old(bucket)
        invariant forall j :: 0 <= j < |out| ==>
                    && out[j] == probes[j].(finish := out[j].finish)
                    && out[j].finish != null && fresh(out[j].finish) && out[j].finish.buffered == 0
        invariant probeFinishChannels == Register(old(probeFinishChannels), out)
        invariant Valid()
      {
        var finish := new BoolChannel();
        var p := probes[|out|].(finish := finish);
        probeFinishChannels := probeFinishChannels[p.name := finish];
        assert (out + [p])[..|out|] == out;
        out := out + [p];
      }
      r := Ok(out);
    }
  }
}
