/** The older persistence client of `internal/persistence/probe.go`, over
    `model.Probe`: the `probe` bucket plus an in-memory cache of the probes
    inserted through it. Existence and lookup consult the cache alone. */
module PersistenceCache {
  import opened Wrappers
  import opened Storage
  import opened Channels
  import opened ModelProbe

  /** `newProbeEntity`: the persisted subset of a probe. */
  function NewProbeEntity(p: Probe): (r: Record)
    ensures r.name == p.name && r.url == p.url && r.delay == p.delay
  {
    Record(p.name, p.url, p.delay)
  }

  /** `toProbe`: a probe with no stop channel and a zero ID. */
  function ToProbe(r: Record): (p: Probe)
    ensures p.finish == null && p.id == 0
  {
    Probe(r.name, r.url, r.delay, null, 0)
  }

  /** The mappers keep Name, URL and Delay only. */
  lemma EntityRoundTrip(p: Probe, r: Record)
    ensures ToProbe(NewProbeEntity(p)) == p.(finish := null, id := 0)
    ensures NewProbeEntity(ToProbe(r)) == r
  {
  }

  /** The probes `readAllStoredProbes` builds from the records under `keys`, in that order. */
  function Stored(bucket: Bucket, keys: seq<string>): (ps: seq<Probe>)
    requires forall i :: 0 <= i < |keys| ==> keys[i] in bucket && bucket[keys[i]].Json?
    ensures |ps| == |keys|
    ensures forall i :: 0 <= i < |keys| ==> ps[i] == ToProbe(bucket[keys[i]].record)
  {
    seq(|keys|, i requires 0 <= i < |keys| => ToProbe(bucket[keys[i]].record))
  }

  class PersistenceClient {
    /** The `probe` bucket of the bolt database. */
    var bucket: Bucket
    /** `probes`: the cache, by name, of the probes inserted through this client. */
    var probes: map<string, Probe>

    /** The stop channels of the cached probes. */
    ghost function Finishes(): set<BoolChannel?>
      reads this
    {
      set k | k in probes :: probes[k].finish
    }

    /** Every cached probe sits under its own name and has an empty stop
        channel of its own. */
    ghost predicate Valid()
      reads this, Finishes()
    {
      && (forall k :: k in probes ==> probes[k].name == k && probes[k].finish != null)
      && (forall k :: k in probes ==> probes[k].finish.buffered == 0)
      && (forall a, b :: a in probes && b in probes && a != b ==> probes[a].finish != probes[b].finish)
    }

    /** A client over the bucket on disk, with an empty cache. */
    constructor (disk: Bucket)
      ensures Valid() && bucket == disk && probes == map[]
    {
      bucket := disk;
      probes := map[];
    }

    /** `ExistProbeByName`: whether the cache holds the name. */
    function ExistProbeByName(name: string): (r: bool)
      reads this, Finishes()
      requires Valid()
      ensures r <==> GetProbe(name).Some?
    {
      name in probes
    }

    /** `GetProbe`: the cached probe, which carries the name and a stop channel. */
    function GetProbe(name: string): (r: Option<Probe>)
      reads this, Finishes()
      requires Valid()
      ensures r.Some? ==> r.value.name == name && r.value.finish != null
      ensures r.None? <==> name !in probes
      ensures name in probes ==> r == Some(probes[name])
    {
      if name in probes then Some(probes[name]) else None
    }

    /** `InsertProbe`: stores the record under the probe's name; on success
        caches the probe, with a fresh stop channel, under that name. A failed
        transaction, or bolt refusing the empty name as a key, changes nothing. */
    method InsertProbe(probe: Probe, fault: bool) returns (err: Option<Err>, inserted: Probe)
      requires Valid()
      modifies this
      ensures Valid()
      ensures fault ==>
                && err == Some(Wrapped("failed to insert probe", Tx)) && inserted == probe
                && bucket == old(bucket) && probes == old(probes)
      ensures !fault && probe.name == "" ==>
                && err == Some(Wrapped("failed to insert probe", KeyRequired)) && inserted == probe
                && bucket == old(bucket) && probes == old(probes)
      ensures !fault && probe.name != "" ==>
                && err == None
                && bucket == old(bucket)[probe.name := Encode(NewProbeEntity(probe))]
                && inserted == probe.(finish := inserted.finish)
                && inserted.finish != null && fresh(inserted.finish) && inserted.finish.buffered == 0
                && probes == old(probes)[probe.name := inserted]
                && GetProbe(probe.name) == Some(inserted)
    {
      if fault {
        err := Some(Wrapped("failed to insert probe", Tx));
        inserted := probe;
        return;
      }
      if probe.name == "" {
        err := Some(Wrapped("failed to insert probe", KeyRequired));
        inserted := probe;
        return;
      }
      bucket := bucket[probe.name := Encode(NewProbeEntity(probe))];
      var finish := new BoolChannel();
      inserted := probe.(finish := finish);
      probes := probes[probe.name := inserted];
      err := None;
    }

    /** `DeleteProbeByName`: removes the key; if the name is cached, sends one
        value on that probe's stop channel and drops it from the cache. No other
        channel is signalled, and a failed transaction changes nothing. */
    method DeleteProbeByName(name: string, fault: bool) returns (err: Option<Err>)
      requires Valid()
      modifies this, Finishes()
      ensures Valid()
      ensures fault ==>
                && err == Some(Wrapped("failed to delete probe", Tx))
                && bucket == old(bucket) && probes == old(probes)
      ensures !fault ==>
                && err == None
                && bucket == old(bucket) - {name}
                && probes == old(probes) - {name}
                && !ExistProbeByName(name)
      ensures !fault && name in old(probes) ==> old(probes)[name].finish.buffered == 1
      ensures forall k :: k in old(probes) && (fault || k != name) ==> old(probes)[k].finish.buffered == 0
    {
      if fault {
        err := Some(Wrapped("failed to delete probe", Tx));
        return;
      }
      bucket := bucket - {name};
      if name in probes {
        var probe := probes[name];
        probe.finish.Send();
        probes := probes - {probe.name};
      }
      err := None;
    }

    /** `GetAllProbe`: every cached probe, once, in the map's iteration order (`keys`). */
    method GetAllProbe() returns (ps: seq<Probe>, ghost keys: seq<string>)
      ensures |ps| == |probes|
      ensures forall p :: p in ps <==> p in probes.Values
      ensures Enumerates(probes, keys) && |ps| == |keys|
      ensures forall i :: 0 <= i < |keys| ==> ps[i] == probes[keys[i]]
    {
      ps := [];
      keys := [];
      var remaining := probes.Keys;
      while remaining != {}
        invariant remaining <= probes.Keys
        invariant forall i, j :: 0 <= i < j < |keys| ==> keys[i] != keys[j]
        invariant forall k :: k in probes <==> k in remaining || k in keys
        invariant forall k :: k in keys ==> k !in remaining
        invariant |ps| == |keys|
        invariant forall i :: 0 <= i < |keys| ==> ps[i] == probes[keys[i]]
        decreases remaining
      {
        var k :| k in remaining;
        ps := ps + [probes[k]];
        keys := keys + [k];
        remaining := remaining - {k};
      }
      EnumeratesSize(probes, keys);
      forall p | p in probes.Values ensures p in ps {
        var k :| k in probes && probes[k] == p;
        var i :| 0 <= i < |keys| && keys[i] == k;
        assert ps[i] == p;
      }
    }

    /** `readAllStoredProbes`: one probe per stored record, in the bucket's
        iteration order (`keys`), or an error as soon as a record fails to decode. */
    method ReadAllStoredProbes(fault: bool) returns (r: Result<seq<Probe>, Err>, ghost keys: seq<string>)
      ensures r.Ok? <==> !fault && AllDecodable(bucket)
      ensures fault ==> r == Err(Wrapped("failed to read all probes", Tx))
      ensures !fault && r.Err? ==> r == Err(Wrapped("failed to read all probes", Unmarshal))
      ensures r.Ok? ==> Enumerates(bucket, keys) && r.value == Stored(bucket, keys)
    {
      keys := [];
      if fault {
        r := Err(Wrapped("failed to read all probes", Tx));
        return;
      }
      var ps: seq<Probe> := [];
      var remaining := bucket.Keys;
      while remaining != {}
        invariant remaining <= bucket.Keys
        invariant forall i, j :: 0 <= i < j < |keys| ==> keys[i] != keys[j]
        invariant forall k :: k in bucket <==> k in remaining || k in keys
        invariant forall k :: k in keys ==> k !in remaining
        invariant forall i :: 0 <= i < |keys| ==> keys[i] in bucket && bucket[keys[i]].Json?
        invariant ps == Stored(bucket, keys)
        decreases remaining
      {
        var k :| k in remaining;
        match Decode(bucket[k])
        case Err(e) =>
          r := Err(Wrapped("failed to read all probes", e));
          return;
        case Ok(rec) =>
          ps := ps + [ToProbe(rec)];
          keys := keys + [k];
        remaining := remaining - {k};
      }
      r := Ok(ps);
    }
  }
}
