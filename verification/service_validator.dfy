/** The field validators of the older `service` package, over `model.Probe`.
    They make the same checks, in the same order, as the `prober` validators. */
module ServiceValidator {
  import opened Wrappers
  import Net
  import opened ModelProbe
  import ProberValidator

  datatype ValidatorError = ValidatorError(field: string, msg: string)

  /** A validator: nil (None) when the probe passes, otherwise the error. */
  type Validate = Probe -> Option<ValidatorError>

  /** `validatorError.Error()`: the same rendering as the `prober` package's,
      which `ProberValidator.ParseError` reads back. */
  function Error(e: ValidatorError): (s: string)
    ensures s == ProberValidator.Error(ProberValidator.ValidatorError(e.field, e.msg))
  {
    "Field [" + e.field + "]: " + e.msg + "\n"
  }

  /** The error of this package carrying a `prober` validator error's field and message. */
  function FromProberError(e: ProberValidator.ValidatorError): ValidatorError
  {
    ValidatorError(e.field, e.msg)
  }

  /** `nameInvalid`. */
  function NameInvalid(p: Probe): (r: Option<ValidatorError>)
    ensures r.None? <==> p.name != ""
    ensures r.Some? ==> r.value == ValidatorError("Name", "name is required")
  {
    if p.name == "" then Some(ValidatorError("Name", "name is required")) else None
  }

  /** `urlInvalid`: the emptiness test comes before any parsing. */
  function UrlInvalid(p: Probe): (r: Option<ValidatorError>)
    ensures p.url == "" ==> r == Some(ValidatorError("URL", "URL is required"))
    ensures p.url != "" ==> (r.None? <==> Net.Parse(p.url).Some?)
    ensures p.url != "" && r.Some? ==> r.value == ValidatorError("URL", "URL is malformed")
  {
    if p.url == "" then Some(ValidatorError("URL", "URL is required"))
    else if Net.Parse(p.url).None? then Some(ValidatorError("URL", "URL is malformed"))
    else None
  }

  /** `delayInvalid`: `Delay <= 0` on an unsigned delay fails exactly at zero. */
  function DelayInvalid(p: Probe): (r: Option<ValidatorError>)
    ensures r.None? <==> p.delay >= 1
    ensures r.Some? ==> r.value == ValidatorError("Delay", "Delay must be at least 1 and strictly positive")
  {
    if p.delay <= 0 then Some(ValidatorError("Delay", "Delay must be at least 1 and strictly positive"))
    else None
  }

  /** `runValidators`: the first validator, in argument order, that rejects the
      probe decides the result. */
  function RunValidators(p: Probe, fns: seq<Validate>): (r: Option<ValidatorError>)
    ensures r.None? <==> forall i :: 0 <= i < |fns| ==> fns[i](p).None?
    ensures r.Some? ==> exists i :: 0 <= i < |fns| && fns[i](p) == r && forall j :: 0 <= j < i ==> fns[j](p).None?
  {
    if fns == [] then None
    else if fns[0](p).Some? then fns[0](p)
    else
      var r := RunValidators(p, fns[1..]);
      assert r.Some? ==> exists i :: 1 <= i < |fns| && fns[i](p) == r && forall j :: 0 <= j < i ==> fns[j](p).None? by {
        if r.Some? {
          var i :| 0 <= i < |fns[1..]| && fns[1..][i](p) == r && forall j :: 0 <= j < i ==> fns[1..][j](p).None?;
          assert fns[i + 1](p) == r;
          forall j | 0 <= j < i + 1 ensures fns[j](p).None? {
            if j > 0 { assert fns[j] == fns[1..][j - 1]; }
          }
        }
      }
      r
  }

  /** The validators `Create` and `Update` run, in their order. */
  function ProbeValidators(): seq<Validate>
  {
    [NameInvalid, UrlInvalid, DelayInvalid]
  }

  /** The name, URL, delay chain of this package rejects a probe exactly when
      the `prober` chain rejects the same probe, with the same field and message. */
  lemma ValidationAgrees(p: Probe)
    ensures RunValidators(p, ProbeValidators()) ==
              match ProberValidator.RunValidators(ToProber(p), ProberValidator.ProbeValidators())
              case None => None
              case Some(e) => Some(FromProberError(e))
    ensures RunValidators(p, ProbeValidators()).None? <==> ProberValidator.Acceptable(ToProber(p))
  {
    var q := ToProber(p);
    ProberValidator.ProbeValidation(q);
    var fns := ProbeValidators();
    assert fns[0] == NameInvalid && fns[1] == UrlInvalid && fns[2] == DelayInvalid;
    assert fns[1..] == [UrlInvalid, DelayInvalid];
    assert fns[1..][1..] == [DelayInvalid];
    assert fns[1..][1..][1..] == [];
    var gs := ProberValidator.ProbeValidators();
    assert gs[0] == ProberValidator.NameInvalid && gs[1] == ProberValidator.UrlInvalid && gs[2] == ProberValidator.DelayInvalid;
    assert gs[1..] == [ProberValidator.UrlInvalid, ProberValidator.DelayInvalid];
    assert gs[1..][1..] == [ProberValidator.DelayInvalid];
    assert gs[1..][1..][1..] == [];
  }

  /** `Delete` validates the name alone, as the `prober` registry does. */
  lemma NameOnlyAgrees(p: Probe)
    ensures RunValidators(p, [NameInvalid]) ==
              match ProberValidator.RunValidators(ToProber(p), [ProberValidator.NameInvalid])
              case None => None
              case Some(e) => Some(FromProberError(e))
  {
    var fns: seq<Validate> := [NameInvalid];
    assert fns[0] == NameInvalid && fns[1..] == [];
    var gs: seq<ProberValidator.Validate> := [ProberValidator.NameInvalid];
    assert gs[0] == ProberValidator.NameInvalid && gs[1..] == [];
  }
}
