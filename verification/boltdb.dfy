/** The bolt key-value adapter of `internal/persistence/boltdb.go`: insert,
    delete, get and get-all of entities over the single `probe` bucket. Every
    error leaves through `errors.Wrap`, which returns nil for a nil error. */
module BoltDB {
  import opened Wrappers
  import opened Storage

  /** The sentinel errors the adapter wraps onto its failures, by name. */
  const PersisterInsertion := "ErrPersisterInsertion"
  const PersisterDeletion := "ErrPersisterDeletion"
  const PersisterGet := "ErrPersisterGet"
  /** The message of a `json.Unmarshal` failure. */
  const UnmarshalMessage := "json: cannot unmarshal"

  /** `errors.Wrap`: nil stays nil; an error gains the context message. */
  function Wrap(err: Option<Err>, context: string): (r: Option<Err>)
    ensures r.None? <==> err.None?
    ensures r.Some? ==> r.value.Wrapped? && r.value.context == context && r.value.cause == err.value
  {
    if err.None? then None else Some(Wrapped(context, err.value))
  }

  /** The zero `Entity`, with an empty name. */
  const ZeroEntity := Record("", "", 0)

  /** `Get`: a missing key and an empty value both give a zero entity and no
      error; a failed transaction or an undecodable value give a zero entity and
      a wrapped error; otherwise the decoded entity. The result pointer is never nil. */
  function Get(bucket: Bucket, name: string, fault: bool): (r: (Record, Option<Err>))
    ensures r.1.None? <==> !fault && (name !in bucket || !bucket[name].Garbled?)
    ensures r.1.Some? ==> r.0 == ZeroEntity && r.1.value.Wrapped? && r.1.value.context == PersisterGet
    ensures !fault && (name !in bucket || bucket[name].Empty?) ==> r == (ZeroEntity, None)
    ensures !fault && name in bucket && bucket[name].Json? ==> r == (bucket[name].record, None)
  {
    var (entity, err) :=
      if fault then (ZeroEntity, Some(Tx))
      else if name !in bucket || bucket[name].Empty? then (ZeroEntity, None)
      else match Decode(bucket[name])
        case Ok(rec) => (rec, None)
        case Err(e) => (ZeroEntity, Some(e));
    (entity, Wrap(err, PersisterGet))
  }

  /** `Get(e.Name)` after a successful `Insert(e)` yields `e`. A successful
      `Insert` has a non-empty name; the lemma also covers the empty name, a
      key bolt never stores. */
  lemma InsertThenGet(bucket: Bucket, e: Record)
    ensures Get(bucket[e.name := Encode(e)], e.name, false) == (e, None)
  {
  }

  /** After a successful `Delete(name)`, `Get(name)` finds nothing. */
  lemma DeleteThenGet(bucket: Bucket, name: string)
    ensures Get(bucket - {name}, name, false) == (ZeroEntity, None)
  {
  }

  /** The entries of the bucket whose values decode. */
  ghost function Decodable(bucket: Bucket): (d: Bucket)
    ensures forall k :: k in d <==> k in bucket && bucket[k].Json?
  {
    map k | k in bucket && bucket[k].Json? :: bucket[k]
  }

  /** The `ForEach` callback of `GetAll` as written: a decode failure is
      wrapped onto `outer`, the enclosing function's `err`, and not onto the
      decode error itself. */
  function VisitAsWritten(outer: Option<Err>, b: Blob): (r: (Option<Record>, Option<Err>))
    ensures b.Json? ==> r == (Some(b.record), None)
    ensures !b.Json? ==> r.0.None? && (r.1.None? <==> outer.None?)
  {
    match Decode(b)
    case Ok(rec) => (Some(rec), None)
    case Err(_) => (None, Wrap(outer, UnmarshalMessage))
  }

  /** While the callback runs, `err` is still nil, so an undecodable record
      makes the callback return nil and the iteration goes on. */
  lemma GetAllSwallowsUndecodable(b: Blob)
    requires !b.Json?
    ensures VisitAsWritten(None, b) == (None, None)
  {
  }

  /** The callback as intended: a decode failure stops the iteration with the decode error. */
  function VisitStrict(b: Blob): (r: (Option<Record>, Option<Err>))
    ensures b.Json? ==> r == (Some(b.record), None)
    ensures !b.Json? ==> r.0.None? && r.1 == Some(Wrapped(UnmarshalMessage, Unmarshal))
  {
    match Decode(b)
    case Ok(rec) => (Some(rec), None)
    case Err(e) => (None, Wrap(Some(e), UnmarshalMessage))
  }

  /** `boltDBClient`: the bucket it reads and writes. */
  class BoltDBClient {
    var bucket: Bucket

    constructor (disk: Bucket)
      ensures bucket == disk
    {
      bucket := disk;
    }

    /** `Insert`: puts the entity under its name, replacing any previous value.
        Bolt refuses the empty name as a key, and then nothing changes. */
    method Insert(entity: Record, fault: bool) returns (err: Option<Err>)
      modifies this
      ensures err == Wrap(if fault then Some(Tx) else if entity.name == "" then Some(KeyRequired) else None,
                          PersisterInsertion)
      ensures fault || entity.name == "" ==> bucket == old(bucket)
      ensures !fault && entity.name != "" ==> bucket == old(bucket)[entity.name := Encode(entity)]
    {
      var txErr: Option<Err> := None;
      if fault {
        txErr := Some(Tx);
      } else if entity.name == "" {
        txErr := Some(KeyRequired);
      } else {
        bucket := bucket[entity.name := Encode(entity)];
      }
      err := Wrap(txErr, PersisterInsertion);
    }

    /** `Delete`: removes the key `name` and touches no other record. */
    method Delete(name: string, fault: bool) returns (err: Option<Err>)
      modifies this
      ensures err == Wrap(if fault then Some(Tx) else None, PersisterDeletion)
      ensures fault ==> bucket == old(bucket)
      ensures !fault ==> name !in bucket
      ensures !fault ==> forall k :: k != name ==> (k in bucket <==> k in old(bucket))
      ensures !fault ==> forall k :: k in bucket ==> bucket[k] == old(bucket)[k]
    {
      var txErr: Option<Err> := None;
      if fault {
        txErr := Some(Tx);
      } else {
        bucket := bucket - {name};
      }
      err := Wrap(txErr, PersisterDeletion);
    }

    /** `GetAll` as written: one entity per decodable record, in the bucket's
        iteration order (`keys`). An undecodable record is skipped without an
        error; only a failed transaction is reported. */
    method GetAll(fault: bool) returns (entities: seq<Record>, err: Option<Err>, ghost keys: seq<string>)
      ensures err.None? <==> !fault
      ensures fault ==> entities == []
      ensures !fault ==>
                && Enumerates(Decodable(bucket), keys) && |entities| == |keys|
                && forall i :: 0 <= i < |keys| ==> entities[i] == bucket[keys[i]].record
      ensures !fault && bucket == map[] ==> entities == []
    {
      err := None;
      entities := [];
      keys := [];
      if fault {
        err := Some(Tx);
        return;
      }
      var remaining := bucket.Keys;
      while remaining != {}
        invariant remaining <= bucket.Keys
        invariant forall i, j :: 0 <= i < j < |keys| ==> keys[i] != keys[j]
        invariant forall k :: k in bucket && bucket[k].Json? <==> (k in remaining && bucket[k].Json?) || k in keys
        invariant forall k :: k in keys ==> k !in remaining
        invariant |entities| == |keys|
        invariant forall i :: 0 <= i < |keys| ==> keys[i] in bucket && bucket[keys[i]].Json?
        invariant forall i :: 0 <= i < |keys| ==> entities[i] == bucket[keys[i]].record
        invariant err.None?
        decreases remaining
      {
        var k :| k in remaining;
        var (entity, visitErr) := VisitAsWritten(err, bucket[k]);
        if visitErr.Some? {
          err := visitErr;
          return;
        }
        if entity.Some? {
          entities := entities + [entity.value];
          keys := keys + [k];
        }
        remaining := remaining - {k};
      }
      if bucket == map[] {
        assert Decodable(bucket) == map[];
        EnumeratesSize(Decodable(bucket), keys);
      }
    }

    /** `GetAll` as its documentation intends: the same entities, or an error
        exactly when the transaction fails or some record does not decode. */
    method GetAllStrict(fault: bool) returns (entities: seq<Record>, err: Option<Err>, ghost keys: seq<string>)
      ensures err.None? <==> !fault && AllDecodable(bucket)
      ensures !fault && !AllDecodable(bucket) ==> err == Some(Wrapped(UnmarshalMessage, Unmarshal))
      ensures err.None? ==>
                && Enumerates(bucket, keys) && |entities| == |keys|
                && forall i :: 0 <= i < |keys| ==> entities[i] == bucket[keys[i]].record
    {
      err := None;
      entities := [];
      keys := [];
      if fault {
        err := Some(Tx);
        return;
      }
      var remaining := bucket.Keys;
      while remaining != {}
        invariant remaining <= bucket.Keys
        invariant forall i, j :: 0 <= i < j < |keys| ==> keys[i] != keys[j]
        invariant forall k :: k in bucket <==> k in remaining || k in keys
        invariant forall k :: k in keys ==> k !in remaining
        invariant |entities| == |keys|
        invariant forall i :: 0 <= i < |keys| ==> keys[i] in bucket && bucket[keys[i]].Json?
        invariant forall i :: 0 <= i < |keys| ==> entities[i] == bucket[keys[i]].record
        decreases remaining
      {
        var k :| k in remaining;
        var (entity, visitErr) := VisitStrict(bucket[k]);
        if visitErr.Some? {
          err := visitErr;
          return;
        }
        entities := entities + [entity.value];
        keys := keys + [k];
        remaining := remaining - {k};
      }
    }
  }
}
