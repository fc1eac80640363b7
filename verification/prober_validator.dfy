/** The field validators of the `prober` package, run before a probe enters the
    registry. Each returns nil or the first problem it finds with one field. */
module ProberValidator {
  import opened Wrappers
  import Net
  import opened ProberProbe

  datatype ValidatorError = ValidatorError(field: string, msg: string)

  /** A validator: nil (None) when the probe passes, otherwise the error. */
  type Validate = Probe -> Option<ValidatorError>

  /** `validatorError.Error()`: renders `Field [<field>]: <msg>` and a newline. */
  function Error(e: ValidatorError): (s: string)
    ensures |s| == |e.field| + |e.msg| + 11
    ensures s[..7] == "Field [" && s[|s| - 1] == '\n'
  {
    "Field [" + e.field + "]: " + e.msg + "\n"
  }

  /** Reads a rendered validator error back; the inverse of `Error` on fields without `]`. */
  function ParseError(s: string): (r: Option<ValidatorError>)
  {
    if |s| < 11 || s[..7] != "Field [" || s[|s| - 1] != '\n' then None
    else
      var body := s[7..|s| - 1];
      var k := Net.IndexOf(body, ']');
      if k + 3 <= |body| && body[k + 1] == ':' && body[k + 2] == ' '
      then Some(ValidatorError(body[..k], body[k + 3..]))
      else None
  }

  lemma {:induction false} ParseErrorOfError(e: ValidatorError)
    requires ']' !in e.field
    ensures ParseError(Error(e)) == Some(e)
  {
    var s := Error(e);
    var n := |e.field|;
    var tail := "]: " + e.msg;
    var body := e.field + tail;
    Net.AppendAssoc("Field [" + e.field, "]: ", e.msg);
    Net.AppendAssoc("Field [", e.field, tail);
    assert s == "Field [" + body + "\n";
    assert s[7..|s| - 1] == body;
    Net.IndexOfAfter(e.field, tail, ']');
    assert Net.IndexOf(tail, ']') == 0;
    assert body[n + 1] == tail[1] && body[n + 2] == tail[2];
    assert body[..n] == e.field;
    assert body[n + 3..] == e.msg;
  }

  /** Two validator errors whose fields hold no `]` render differently. */
  lemma ErrorInjective(a: ValidatorError, b: ValidatorError)
    requires ']' !in a.field && ']' !in b.field
    requires Error(a) == Error(b)
    ensures a == b
  {
    ParseErrorOfError(a);
    ParseErrorOfError(b);
  }

  /** `nameInvalid`. */
  function NameInvalid(p: Probe): (r: Option<ValidatorError>)
    ensures r.None? <==> p.name != ""
    ensures r.Some? ==> r.value == ValidatorError("Name", "name is required")
  {
    if p.name == "" then Some(ValidatorError("Name", "name is required")) else None
  }

  /** `urlInvalid`: the emptiness test comes before any parsing. */
  function UrlInvalid(p: Probe): (r: Option<ValidatorError>)
    ensures p.url == "" ==> r == Some(ValidatorError("URL", "URL is required"))
    ensures p.url != "" ==> (r.None? <==> Net.Parse(p.url).Some?)
    ensures p.url != "" && r.Some? ==> r.value == ValidatorError("URL", "URL is malformed")
  {
    if p.url == "" then Some(ValidatorError("URL", "URL is required"))
    else if Net.Parse(p.url).None? then Some(ValidatorError("URL", "URL is malformed"))
    else None
  }

  /** `delayInvalid`: `Delay <= 0` on an unsigned delay fails exactly at zero. */
  function DelayInvalid(p: Probe): (r: Option<ValidatorError>)
    ensures r.None? <==> p.delay >= 1
    ensures r.Some? ==> r.value == ValidatorError("Delay", "Delay must be at least 1 and strictly positive")
  {
    if p.delay <= 0 then Some(ValidatorError("Delay", "Delay must be at least 1 and strictly positive"))
    else None
  }

  /** `runValidators`: the first validator, in argument order, that rejects the
      probe decides the result; those after it are not consulted. */
  function RunValidators(p: Probe, fns: seq<Validate>): (r: Option<ValidatorError>)
    ensures r.None? <==> forall i :: 0 <= i < |fns| ==> fns[i](p).None?
    ensures r.Some? ==> exists i :: 0 <= i < |fns| && fns[i](p) == r && forall j :: 0 <= j < i ==> fns[j](p).None?
  {
    if fns == [] then None
    else
      var e := fns[0](p);
      if e.Some? then e
      else
        var r := RunValidators(p, fns[1..]);
        assert r.Some? ==> exists i :: 1 <= i < |fns| && fns[i](p) == r && forall j :: 0 <= j < i ==> fns[j](p).None? by {
          if r.Some? {
            var i :| 0 <= i < |fns[1..]| && fns[1..][i](p) == r && forall j :: 0 <= j < i ==> fns[1..][j](p).None?;
            assert fns[i + 1](p) == r;
            forall j | 0 <= j < i + 1 ensures fns[j](p).None? {
              if j > 0 { assert fns[j] == fns[1..][j - 1]; }
            }
          }
        }
        r
  }

  /** The validators `Create` and `Update` run, in their order. */
  function ProbeValidators(): seq<Validate>
  {
    [NameInvalid, UrlInvalid, DelayInvalid]
  }

  /** A probe fit to be registered: a name, an absolute URL with a scheme and a
      host, and a delay of at least one second. */
  ghost predicate Acceptable(p: Probe)
  {
    p.name != "" && Net.Parse(p.url).Some? && p.delay > 0
  }

  /** The name, URL, delay chain accepts exactly the acceptable probes, and
      otherwise reports the first field, in that order, that is wrong. */
  lemma ProbeValidation(p: Probe)
    ensures RunValidators(p, ProbeValidators()).None? <==> Acceptable(p)
    ensures p.name == "" ==> RunValidators(p, ProbeValidators()) == NameInvalid(p)
    ensures p.name != "" ==> RunValidators(p, ProbeValidators()) == RunValidators(p, [UrlInvalid, DelayInvalid])
    ensures p.name != "" && p.url == "" ==> RunValidators(p, ProbeValidators()) == Some(ValidatorError("URL", "URL is required"))
    ensures p.name != "" && p.url != "" && Net.Parse(p.url).None? ==>
              RunValidators(p, ProbeValidators()) == Some(ValidatorError("URL", "URL is malformed"))
    ensures p.name != "" && Net.Parse(p.url).Some? && p.delay == 0 ==> RunValidators(p, ProbeValidators()) == DelayInvalid(p)
  {
    var fns := ProbeValidators();
    assert fns[0] == NameInvalid && fns[1] == UrlInvalid && fns[2] == DelayInvalid;
    assert fns[1..] == [UrlInvalid, DelayInvalid];
    assert fns[1..][1..] == [DelayInvalid];
    assert fns[1..][1..][1..] == [];
  }

  /** `Delete` validates the name alone. */
  lemma NameOnlyValidation(p: Probe)
    ensures RunValidators(p, [NameInvalid]).None? <==> p.name != ""
  {
  }
}
