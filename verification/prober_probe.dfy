/** The probe of the `prober` package and the alert bus its runners publish on. */
module ProberProbe {
  import Channels

  /** A probe as the registry handles it. `status` is "" until its runner has
      completed a check; `finish` is the stop channel (nil until the probe is
      inserted or loaded). `delay` is a Go `uint`, in seconds. */
  datatype Probe = Probe(
    name: string,
    url: string,
    status: string,
    delay: nat,
    finish: Channels.BoolChannel?)

  /** The `chan<- Probe` alert bus: the log of every probe copy sent on it. */
  class AlertBus {
    ghost var events: seq<Probe>

    constructor ()
      ensures events == []
    {
      events := [];
    }
  }
}
