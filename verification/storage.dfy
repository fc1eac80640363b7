/** The `probe` bucket of the bolt database, the JSON records stored in it, and
    the chains of wrapped Go errors the storage layer returns. */
module Storage {
  import opened Wrappers

  /** The persisted subset of a probe: `{Name, URL, Delay}` (probeEntity, Entity). */
  datatype Record = Record(name: string, url: string, delay: nat)

  /** A value stored under a key of the bucket: the JSON encoding of a record,
      the empty byte string, or bytes that `json.Unmarshal` rejects. */
  datatype Blob = Json(record: Record) | Empty | Garbled

  /** The bucket, keyed by probe name. */
  type Bucket = map<string, Blob>

  /** A Go error value: a failed bolt transaction, bolt's `ErrKeyRequired` for
      a `Put` under the empty key, a failed `json.Unmarshal`, or any of them
      wrapped with a context message (`fmt.Errorf("...: %w")`, `errors.Wrap`). */
  datatype Err = Tx | KeyRequired | Unmarshal | Wrapped(context: string, cause: Err)

  /** `json.Marshal`; the encoding round-trips through `Decode`. */
  function Encode(r: Record): (b: Blob)
    ensures Decode(b) == Ok(r)
  {
    Json(r)
  }

  /** `json.Unmarshal` into a record. */
  function Decode(b: Blob): (r: Result<Record, Err>)
    ensures r.Ok? <==> b.Json?
    ensures r.Err? ==> r.error == Unmarshal
  {
    match b
    case Json(rec) => Ok(rec)
    case _ => Err(Unmarshal)
  }

  /** Every value in the bucket decodes. */
  ghost predicate AllDecodable(bucket: Bucket)
  {
    forall k :: k in bucket ==> bucket[k].Json?
  }

  /** `keys` lists every key of the bucket exactly once: an iteration order. */
  ghost predicate Enumerates<V>(m: map<string, V>, keys: seq<string>)
  {
    && (forall i, j :: 0 <= i < j < |keys| ==> keys[i] != keys[j])
    && (forall k :: k in m <==> k in keys)
  }

  /** An enumeration lists as many keys as the map holds. */
  lemma {:induction false} EnumeratesSize<V>(m: map<string, V>, keys: seq<string>)
    requires Enumerates(m, keys)
    ensures |keys| == |m|
    decreases |keys|
  {
    if keys == [] {
      assert m == map[];
    } else {
      var k := keys[|keys| - 1];
      var init := keys[..|keys| - 1];
      var m' := m - {k};
      assert Enumerates(m', init) by {
        forall x ensures x in m' <==> x in init {
          if x in init {
            var i :| 0 <= i < |init| && init[i] == x;
            assert keys[i] == x && keys[|keys| - 1] == k;
          } else if x in keys {
            assert x == k;
          }
        }
      }
      EnumeratesSize(m', init);
    }
  }
}
