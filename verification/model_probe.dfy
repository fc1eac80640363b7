/** The probe of the older `model` package: no status, an extra numeric ID. */
module ModelProbe {
  import Channels
  import ProberProbe

  /** `model.Probe`. `delay` is a Go `uint`, in seconds; `id` is a Go `int`. */
  datatype Probe = Probe(
    name: string,
    url: string,
    delay: nat,
    finish: Channels.BoolChannel?,
    id: int)

  /** The `prober` probe carrying the same name, URL, delay and stop channel,
      with the empty status of a probe no runner has checked yet. */
  function ToProber(p: Probe): (q: ProberProbe.Probe)
    ensures q.name == p.name && q.url == p.url && q.delay == p.delay && q.finish == p.finish
    ensures q.status == ""
  {
    ProberProbe.Probe(p.name, p.url, "", p.delay, p.finish)
  }

  /** The `model` probe of a `prober` probe; the status is dropped and the ID
      is Go's zero value. */
  function FromProber(q: ProberProbe.Probe): (p: Probe)
    ensures p.name == q.name && p.url == q.url && p.delay == q.delay && p.finish == q.finish
    ensures p.id == 0
  {
    Probe(q.name, q.url, q.delay, q.finish, 0)
  }

  /** `FromProber` applied to each probe, in order. */
  function FromProbers(qs: seq<ProberProbe.Probe>): (ps: seq<Probe>)
    ensures |ps| == |qs|
    ensures forall i :: 0 <= i < |qs| ==> ps[i] == FromProber(qs[i])
  {
    seq(|qs|, i requires 0 <= i < |qs| => FromProber(qs[i]))
  }

  /** The conversions lose only the status and the ID. */
  lemma ProberRoundTrip(p: Probe, q: ProberProbe.Probe)
    ensures FromProber(ToProber(p)) == p.(id := 0)
    ensures ToProber(FromProber(q)) == q.(status := "")
  {
  }
}
