# madprobe probe registry, modelled in Dafny

madprobe keeps a registry of named HTTP probes. Each probe has a name, a
target URL and a delay in seconds. The registry stores every probe as a
`{Name, URL, Delay}` record in the `probe` bucket of a bolt database. It starts
one runner per probe. A runner checks the URL over and over, classifies each
check as `UP` (HTTP 200) or `DOWN` (a transport error or any other code), and
sends a copy of the probe on the alert bus whenever that classification differs
from the previous status. Every probe has a one-slot stop channel. Deleting a
probe sends one value on it, and its runner stops at the top of its next
iteration. Alerters read the bus. The alerting service builds the list of
alerters once and closes them together.

This project models, one module per Go source file:

- the field validators of both registry versions: `ProberValidator` and
  `ServiceValidator`;
- the runner loop: `ProberRunner`;
- the newer registry: `ProberService`;
- the older registry: `ServiceProbe`;
- the three persistence adapters:
  - `Persistence`, the bucket plus a table of stop channels;
  - `PersistenceCache`, the bucket plus a cache of probes;
  - `BoltDB`, the bolt entity store;
- the alerter service and its Discord settings: `AlerterService` and `AlerterConfig`.

Shared modules hold the pieces these files rely on:

- `Wrappers`: `Option` and `Result`.
- `Channels`: the buffered `chan bool`.
- `Storage`: the bucket, JSON records and wrapped Go errors.
- `Net`: URL parsing and the outcome of one HTTP GET.
- `ProberProbe` and `ModelProbe`: the two probe types.

How the model represents the Go program:

- **Stores.** A bucket is a `map<string, Blob>`. A blob is either the JSON
  encoding of a record, the empty value, or bytes that do not decode.
- **Transaction failures.** Each can be injected through a `fault` flag (the
  registry's calls take a `Faults` value).
- **Stop channels.** A `BoolChannel` object counts the values it holds.
- **Alert bus.** A ghost log of the probe copies sent on it.
- **Runners.** Each registry records the probes it hands to `go ps.run(...)`
  in a ghost `runners` sequence. Its `Run` method models one runner over a
  given list of check outcomes.
- **Singletons.** `sync.Once` singletons are explicit `Singleton` objects.

The model follows the code in these choices:

- `Read` of the newer registry returns the stored record, not the runner's
  in-memory probe. A probe read back therefore always has status `""`, never
  the live one.
- The status of a probe no runner has checked is the empty string, not a
  separate UNKNOWN value.
- The first completed check of a fresh probe always sends an alert
  (`ProberRunner.FirstCheckAlerts`).
- `boltDBClient.Get` returns a pointer to a zero entity when the key is
  missing or its value is empty (`BoltDB.Get`), although its doc comment
  (`internal/persistence/boltdb.go:62`) says the result can be nil.

## Model

| member | source | states |
|---|---|---|
| Channels.BoolChannel.Send | internal/persistence/entity.go:63 | a send adds one value to the channel |
| Channels.BoolChannel.TryReceive | internal/prober/runner.go:28-31 | a non-blocking receive succeeds iff the channel holds a value, and then takes exactly one |
| Storage.Encode | internal/persistence/entity.go:39-43 | the JSON encoding of a record decodes back to that record |
| Storage.Decode | internal/persistence/entity.go:84-87 | decoding succeeds exactly on JSON-encoded records and otherwise fails with an unmarshal error |
| Net.ParseIsWellFormed | internal/prober/validator.go:39-53 | every URL the parser accepts has a valid scheme, a non-empty host without `/` and an empty or absolute path |
| Net.ParseIsRendered | internal/prober/validator.go:39-53 | every URL the parser accepts renders back to the parsed text |
| Net.ParseRender | internal/prober/validator.go:39-53 | every well-formed `scheme://host[/path]` URL is accepted and parsed into its own parts |
| Net.HostPortIsNotUrl | internal/prober/validator.go:39-53 | the host-and-port `localhost:8080` is rejected as a URL |
| Net.LocalhostIsUrl | internal/prober/validator.go:39-53 | `http://localhost/` is accepted with scheme `http`, host `localhost` and path `/` |
| ProberValidator.Error | internal/prober/validator.go:16-18 | the rendering starts with `Field [`, ends with a newline, and is 11 characters longer than field plus message |
| ProberValidator.ParseErrorOfError | internal/prober/validator.go:16-18 | the field and message can be read back from the rendering when the field holds no `]` |
| ProberValidator.ErrorInjective | internal/prober/validator.go:16-18 | two such errors with the same rendering are equal |
| ProberValidator.NameInvalid | internal/prober/validator.go:22-30 | fails iff the name is empty, with field `Name` and message `name is required` |
| ProberValidator.UrlInvalid | internal/prober/validator.go:32-54 | an empty URL gives `URL is required` before any parsing; otherwise fails iff the URL does not parse, with `URL is malformed` |
| ProberValidator.DelayInvalid | internal/prober/validator.go:58-66 | the unsigned delay fails iff it is 0, with field `Delay` and its message |
| ProberValidator.RunValidators | internal/prober/validator.go:73-80 | nil iff every validator passes; otherwise the error of the first failing validator, all before it passing |
| ProberValidator.ProbeValidation | internal/prober/service.go:62 | the name, URL, delay chain accepts exactly the acceptable probes and reports the first wrong field in that order |
| ProberValidator.NameOnlyValidation | internal/prober/service.go:144-148 | validating the name alone passes iff the name is non-empty |
| ProberRunner.Classify | internal/prober/runner.go:33-46 | a check is UP iff it is a response with code 200, and DOWN otherwise |
| ProberRunner.Iterate | internal/prober/runner.go:34-51 | one iteration alerts iff its new status differs from the previous status |
| ProberRunner.EventsAppend | internal/prober/runner.go:27-53 | running two batches of checks in turn publishes and ends as one run over both |
| ProberRunner.EventsAlternate | internal/prober/runner.go:49-51 | published copies differ from the probe only in status; the first differs from the start status, consecutive ones differ, the last has the final status |
| ProberRunner.SteadyChecksAreSilent | internal/prober/runner.go:49 | checks that classify as the current status publish nothing and change nothing |
| ProberRunner.FirstCheckAlerts | internal/prober/runner.go:26-51 | a probe with empty status alerts on its first completed check |
| ProberRunner.UpThenDownAlertsOnce | internal/prober/runner.go:33-51 | an UP probe facing any number of 500 responses alerts exactly once, as DOWN |
| ProberRunner.Runner.constructor | internal/prober/runner.go:17-22 | the runner publishes on the bus it is given |
| ProberRunner.Runner.Run | internal/prober/runner.go:25-54 | a value on the stop channel ends the run at once, with nothing published; otherwise the probe ends with the final status and the bus gains exactly the change events |
| Persistence.NewProbeEntity | internal/persistence/entity.go:25-32 | the record keeps name, URL and delay |
| Persistence.ToProbe | internal/persistence/entity.go:17-23 | the probe has no status and no stop channel |
| Persistence.EntityRoundTrip | internal/persistence/entity.go:17-32 | converting a probe to a record and back keeps name, URL and delay and drops status and channel; record to probe to record is the identity |
| Persistence.GetProbe | internal/persistence/entity.go:76-97 | transaction and decode failures give their wrapped errors; a missing key or a record with an empty name gives nil; a stored, decodable, named record gives exactly its decoded probe, with empty status and no channel |
| Persistence.InsertThenGetProbe | internal/persistence/entity.go:76-97 | reading back a probe just stored under its name gives that probe with empty status and no channel, or nil for an empty name, a key a successful insert never stores |
| Persistence.DeleteThenGetProbe | internal/persistence/entity.go:76-97 | reading a name whose key was just deleted gives nil |
| Persistence.ExistProbeByName | internal/persistence/entity.go:70-73 | true iff a record with a non-empty name is stored under the key; an error iff `GetProbe` fails, and then exactly `GetProbe`'s error |
| Persistence.RegisterLookup | internal/persistence/client.go:35-38 | after loading, a name maps to the channel of the last loaded probe carrying it, or keeps its old channel |
| Persistence.RegisterDistinct | internal/persistence/client.go:35-38 | loading probes with distinct names registers each probe's own channel |
| Persistence.LoadedNamesDistinct | internal/persistence/entity.go:43 | in a bucket where every record sits under its own name, loaded probes have distinct names |
| Persistence.LoadedRegistered | internal/persistence/client.go:35-38 | in such a bucket, loading in any iteration order registers each loaded probe's own channel under its name |
| Persistence.PersistenceClient.constructor | internal/persistence/client.go:18-28 | a new client has no registered channel |
| Persistence.PersistenceClient.InsertProbe | internal/persistence/entity.go:35-51 | the record replaces any value under the name, and the probe gets a fresh empty channel registered under its name; a failed transaction gives the wrapped transaction error and an empty name the wrapped `key required` error of bolt's `Put`, both changing nothing |
| Persistence.PersistenceClient.DeleteProbeByName | internal/persistence/entity.go:54-67 | removes the key, signals the name's channel exactly once and unregisters it, and signals no other channel; a failure changes and signals nothing |
| Persistence.PersistenceClient.GetAllProbes | internal/persistence/entity.go:100-118 | one probe per stored record, in iteration order, or an error iff the transaction fails or some record does not decode |
| Persistence.PersistenceClient.LoadProbes | internal/persistence/client.go:30-40 | the probes `GetAllProbes` returns, each with a fresh empty channel registered under its name; a failure leaves the channel table alone |
| ProberService.Read | internal/prober/service.go:88-97 | NotFound iff the store reads cleanly and holds no record under the name; a store error iff a lookup fails; a readable, present record gives `Ok` with exactly its decoded probe, with empty status |
| ProberService.CreateError | internal/prober/service.go:61-78 | an invalid probe gets exactly the first failing validator's error; a failed lookup gives its store error; AlreadyExist iff valid and already stored; a failed insert gives the wrapped insert error; no error iff valid, absent, readable and the insert succeeds |
| ProberService.UpdateChecks | internal/prober/service.go:106-125 | an invalid probe gets exactly the first failing validator's error; a failed lookup of `name`, then of the new name, gives its store error; NotFound when `name` is absent; AlreadyExist iff the candidate's name is stored and differs from `name`; the checks pass iff valid, `name` stored and the new name free or the same |
| ProberService.UpdateError | internal/prober/service.go:106-134 | the checks' error comes first; after them a failed delete gives the wrapped delete error, then a failed insert the wrapped insert error; no error iff the checks, the delete and the insert all succeed |
| ProberService.DeleteError | internal/prober/service.go:143-159 | an empty name fails validation; NotFound iff readable and absent; no error iff the probe exists and the delete succeeds |
| ProberService.CreateThenRead | internal/prober/service.go:61-97 | after a successful create, reading the name returns the probe with empty status, and creating it again gives AlreadyExist |
| ProberService.UpdateSameNameAllowed | internal/prober/service.go:119-125 | re-saving a stored, valid probe under its own name passes the checks |
| ProberService.UpdateThenRead | internal/prober/service.go:127-134 | after a successful update, the new name reads back as the candidate, and a renamed probe's old name is NotFound |
| ProberService.DeleteThenNotFound | internal/prober/service.go:143-158 | after a successful delete, reading or deleting the name again gives NotFound |
| ProberService.Service.Create | internal/prober/service.go:61-84 | returns `CreateError`; any error leaves the store, the channels and the runners unchanged; success stores the record, registers a fresh channel and starts one runner |
| ProberService.Service.ReadAll | internal/prober/service.go:100-102 | the stored probes, one per record, all with empty status, or an error iff some read fails |
| ProberService.Service.CheckUpdate | internal/prober/service.go:107-125 | answers exactly `UpdateChecks` on the current bucket, without changing anything |
| ProberService.Service.Update | internal/prober/service.go:106-139 | returns `UpdateError`; nothing changes before the checks pass or when the delete fails; after the delete, an insert failure leaves the old record and channel gone; success signals the old channel and starts one runner |
| ProberService.Service.Delete | internal/prober/service.go:143-159 | returns `DeleteError`; an error changes and signals nothing; success removes the record and signals only that name's channel |
| ProberService.Service.RunAllProbes | internal/prober/service.go:161-170 | a load failure is wrapped as `fail initial probes loading` and starts nothing; otherwise, for an enumeration `keys` of the bucket, the i-th new runner is the probe decoded from the record under `keys[i]`, with empty status and a fresh registered channel |
| ProberService.Service.Run | internal/prober/service.go:173-202 | as `Runner.Run`, publishing on the service's alert bus |
| ProberService.Singleton.NewProbeService | internal/prober/service.go:34-57 | the first call builds the service and starts one runner per stored record, each the decoded probe under one key of an enumeration of the bucket, or none when the load fails or a record does not decode; every later call returns the same instance |
| ModelProbe.ProberRoundTrip | internal/model/probe.go:5-11 | the conversions lose only the status and the ID |
| ServiceValidator.Error | internal/service/validator.go:15-17 | renders exactly as the `prober` validator error with the same field and message |
| ServiceValidator.NameInvalid | internal/service/validator.go:21-29 | fails iff the name is empty, with field `Name` |
| ServiceValidator.UrlInvalid | internal/service/validator.go:31-53 | an empty URL gives `URL is required`; otherwise fails iff the URL does not parse, with `URL is malformed` |
| ServiceValidator.DelayInvalid | internal/service/validator.go:55-63 | the unsigned delay fails iff it is 0 |
| ServiceValidator.RunValidators | internal/service/validator.go:65-72 | nil iff every validator passes; otherwise the first failing validator's error |
| ServiceValidator.ValidationAgrees | internal/service/probe.go:65 | the older validator chain gives the same verdict, field and message as the `prober` chain on the same probe |
| ServiceValidator.NameOnlyAgrees | internal/service/probe.go:147-148 | name-only validation agrees with the `prober` registry's |
| ServiceProbe.Read | internal/service/probe.go:91-100 | NotFound iff readable and absent; a store error iff a lookup fails; a readable, present record gives `Ok` with its decoded name, URL and delay, no channel and the zero ID |
| ServiceProbe.LatestStatus | internal/service/probe.go:176-199 | after at least one check, the status is UP iff the latest check was a 200 response, and DOWN otherwise |
| ServiceProbe.ProbeService.Create | internal/service/probe.go:64-87 | returns the `prober` registry's `CreateError` for the same probe, with the same state changes on error and success |
| ServiceProbe.ProbeService.ReadAll | internal/service/probe.go:103-105 | one `model` probe per stored record, or an error iff some read fails |
| ServiceProbe.ProbeService.CheckUpdate | internal/service/probe.go:110-128 | answers the `prober` registry's `UpdateChecks` on the current bucket, without changing anything |
| ServiceProbe.ProbeService.Update | internal/service/probe.go:109-142 | returns the `prober` registry's `UpdateError`, with the same check-before-mutation and non-atomic delete-then-insert effects |
| ServiceProbe.ProbeService.Delete | internal/service/probe.go:146-162 | returns the `prober` registry's `DeleteError`, signalling only the deleted name's channel |
| ServiceProbe.ProbeService.RunAllProbes | internal/service/probe.go:164-173 | a load failure is wrapped as `fail initial probes loading` and starts nothing; otherwise, for an enumeration `keys` of the bucket, the runners grow by the probes decoded from the records under `keys`, in that order, each with a fresh empty channel registered in load order, and under its own name when records sit under their names |
| ServiceProbe.ProbeService.Run | internal/service/probe.go:176-199 | a stop value ends the run at once; otherwise the run ends holding the latest classification, with no alert bus to publish on |
| ServiceProbe.Singleton.NewProbeService | internal/service/probe.go:38-60 | the first call starts one runner per stored record, each the decoded probe under one key of an enumeration of the bucket, or none when the load fails or a record does not decode; repeated calls return the same instance |
| PersistenceCache.NewProbeEntity | internal/persistence/probe.go:17-24 | the record keeps name, URL and delay |
| PersistenceCache.ToProbe | internal/persistence/probe.go:103-109 | the probe has no stop channel and a zero ID |
| PersistenceCache.EntityRoundTrip | internal/persistence/probe.go:17-109 | the mappers keep name, URL and delay only |
| PersistenceCache.PersistenceClient.ExistProbeByName | internal/persistence/probe.go:62-65 | true iff the cache, not the bucket, holds the name |
| PersistenceCache.PersistenceClient.GetProbe | internal/persistence/probe.go:68-71 | exactly the probe cached under the name, which carries that name and a stop channel; nothing iff the name is not cached |
| PersistenceCache.PersistenceClient.InsertProbe | internal/persistence/probe.go:27-43 | stores the record and caches the probe with a fresh empty channel under its name; a failed transaction or an empty name, which bolt's `Put` refuses, gives the wrapped insert error and changes neither |
| PersistenceCache.PersistenceClient.DeleteProbeByName | internal/persistence/probe.go:46-59 | removes the key and the cache entry, signalling that probe's channel once and no other; a failure changes nothing |
| PersistenceCache.PersistenceClient.GetAllProbe | internal/persistence/probe.go:74-80 | as many probes as cached names, every cached probe and nothing else, one per key in iteration order |
| PersistenceCache.PersistenceClient.ReadAllStoredProbes | internal/persistence/probe.go:83-101 | one probe per stored record, or an error iff the transaction fails or some record does not decode |
| BoltDB.Wrap | internal/persistence/boltdb.go:49 | `errors.Wrap` of nil is nil; of an error, that error under the context |
| BoltDB.Get | internal/persistence/boltdb.go:64-75 | a missing key or an empty value gives a zero entity and no error; an undecodable value or failed transaction a zero entity and a wrapped error; otherwise the stored entity |
| BoltDB.InsertThenGet | internal/persistence/boltdb.go:40-75 | `Get(e.Name)` after inserting `e` yields `e`; the empty name, which `Insert` refuses, is covered only as a map fact |
| BoltDB.DeleteThenGet | internal/persistence/boltdb.go:53-75 | `Get(name)` after deleting `name` yields the zero entity |
| BoltDB.VisitAsWritten | internal/persistence/boltdb.go:84-92 | a decoded record is kept; a decode failure is reported only if the enclosing error is already non-nil |
| BoltDB.GetAllSwallowsUndecodable | internal/persistence/boltdb.go:88 | with the enclosing error still nil, an undecodable record yields neither entity nor error |
| BoltDB.VisitStrict | internal/persistence/boltdb.go:84-92 | a decode failure is reported with the decode error |
| BoltDB.BoltDBClient.Insert | internal/persistence/boltdb.go:40-50 | puts the entity under its name, replacing any previous value; a failed transaction, then an empty name refused by bolt's `Put`, gives the wrapped insertion error and changes nothing |
| BoltDB.BoltDBClient.Delete | internal/persistence/boltdb.go:53-59 | removes only the key `name`; every other record is untouched |
| BoltDB.BoltDBClient.GetAll | internal/persistence/boltdb.go:79-95 | one entity per decodable record; undecodable records are skipped; an error iff the transaction fails; an empty bucket gives no entities |
| BoltDB.BoltDBClient.GetAllStrict | internal/persistence/boltdb.go:77-95 | one entity per record, or an error iff the transaction fails or some record does not decode |
| AlerterService.Filter | internal/alerter/service.go:60-68 | the result holds exactly the non-nil alerters |
| AlerterService.FilterAppend | internal/alerter/service.go:60-68 | filtering a concatenation concatenates the filtered parts, so the order is kept |
| AlerterService.FilterLift | internal/alerter/service.go:60-68 | a list with no nil is returned whole |
| AlerterService.FilterIdempotent | internal/alerter/service.go:60-68 | filtering the result again changes nothing |
| AlerterService.LastFailure | internal/alerter/service.go:48-56 | nil iff every closer closes cleanly; otherwise the error of the last failing closer, no closer after it failing |
| AlerterService.Closers | internal/alerter/service.go:49-50 | exactly the alerters that implement `io.Closer` |
| AlerterService.ClosersAppend | internal/alerter/service.go:48-56 | one more alerter is appended to the closed ones iff it is a closer, so closers are closed in list order |
| AlerterService.Service.Close | internal/alerter/service.go:46-58 | closes every closer in order, going on after a failure; nil iff all closed cleanly, otherwise the last failure followed by a newline |
| AlerterService.Singleton.NewService | internal/alerter/service.go:24-36 | a nil bus gives `ErrAlertBusNotReady`; the first accepted call builds the filtered service, and later calls return it whatever bus they pass |
| AlerterConfig.Validate | internal/alerter/config.go:33-41 | an empty channel id fails first whatever the token; then an empty token fails; both set passes |
| AlerterConfig.NewDiscordConfiguration | internal/alerter/config.go:25-31 | always returns the configuration of the given values, paired with its validation result |
| AlerterConfig.DefaultIsRefused | internal/alerter/config.go:20-36 | the default configuration is refused for its missing channel |

## Left out

- HTTP checks. `client.Get`, response bodies and logging are not modelled. A check is given as a `Net.Outcome`: a transport error or a status code.
- Concurrency and time. Goroutines and `time.Sleep` are not modelled. Registry calls are sequential. A started runner is only recorded in `runners`; `Run` is modelled on its own over a finite list of outcomes.
- Blocking sends. The alert bus is an unbounded log, where Go's unbuffered send blocks until an alerter receives. A stop channel counts its values, where Go's one-slot channel would block a second send.
- ProberRunner.Runner.Run: a stop value is seen only if it is present when the run starts, since nothing runs beside it. The loop ends when the outcomes run out, where Go loops forever. The same holds for `ProberService.Service.Run` and `ServiceProbe.ProbeService.Run`.
- JSON. Encoding and decoding are abstract: a value is a record's encoding, the empty value, or undecodable bytes, and encoding round-trips by construction.
- ProberValidator.UrlInvalid: `url.ParseRequestURI` and `url.Parse` are replaced by `Net.Parse`, which accepts only `scheme://host[/path]`. `Net.Parse` splits the text after `://` at its first `/` and checks only the scheme and that the host is non-empty. It therefore accepts some URLs that Go rejects and `urlInvalid` reports malformed: a host with a space (`http://a b/`), a non-numeric port (`http://h:abc/`), and, under `url.ParseRequestURI`, a `#` that lands in the host (`http://h#f`). User info stays in the host, and a query or fragment after the first `/` stays in the path, where Go separates them. `ServiceValidator.UrlInvalid` has the same limitation.
- Bolt. Opening the database and creating buckets (`internal/persistence/client.go:42-62`) are not modelled. A client starts over the bucket found on disk, and a failed transaction is a `fault` flag. Of the errors bolt itself raises, only `ErrKeyRequired`, which `Put` returns for the empty key, is modelled (`Storage.KeyRequired`).
- ProberService.Singleton.NewProbeService: a failure of `NewPersistenceClient` is not modelled, since opening cannot fail here. The `runAllProbes` error is dropped, as the code checks the wrong variable (lines 38 and 48). `ServiceProbe.Singleton.NewProbeService` is the same.
- The older registry passes `model.Probe` values to the persistence client of `entity.go`, which takes `prober.Probe`. The model converts with `ModelProbe.ToProber`, which drops the ID.
- The older `run` writes `probe.Status`, but `model.Probe` has no status field. `ServiceProbe.ProbeService.Run` returns the status instead.
- `upStatus` and `downStatus` of `runner.go` are defined outside the modelled files. They are taken as `UP` and `DOWN`, the literals of `internal/prober/service.go`.
- The `Entity` type of `boltdb.go` is not part of this model. It is taken as the `{Name, URL, Delay}` record.
- The texts of `ErrPersisterInsertion`, `ErrPersisterDeletion` and `ErrPersisterGet` are defined outside the modelled files. Their names serve as the wrap contexts.
- AlerterService.Service.Close: the error is its message only. The `%w` wrapping that `errors.Is` would follow is not modelled.
- `service.Run` and `DiscordAlerter.Alert` of the alerter package are not modelled: they start goroutines that post to Discord. `NewDiscordAlerter` is the `discord` argument of `NewService`.
- AlerterService.Singleton.NewService: a nil `*DiscordAlerter` is modelled as a nil alerter and filtered out. In Go, the typed nil inside the interface survives `a != nil`.
- Persistence.PersistenceClient.GetAllProbes: the bucket's iteration order is whatever the model picks (`keys`), not bolt's byte order. The same holds for the other loops over a bucket or a map.
- PersistenceCache.PersistenceClient.InsertProbe: the Go client caches the caller's pointer (`internal/persistence/probe.go:40-41`), so later writes through that pointer show in the cache. The model caches a copy of the probe value and does not capture this aliasing.
- ServiceProbe.ProbeService.RunAllProbes: the channel of each loaded probe is stated to be registered under its name only for buckets whose records sit under their own names. Otherwise a later probe of the same name replaces it, as `Persistence.RegisterLookup` states.

## Findings

| source | as written | input that shows it | evidently intended | confidence | as-written member | corrected member |
|---|---|---|---|---|---|---|
| internal/persistence/boltdb.go:88 | the `ForEach` callback wraps the decode failure onto the enclosing `err`, which is still nil, so it returns nil and `GetAll` skips the record without an error | a bucket holding one undecodable value: `GetAll` returns no entities and a nil error | report the decode error, as the doc comment at lines 77-78 promises an error on any technical failure | high; not executed | BoltDB.BoltDBClient.GetAll, BoltDB.GetAllSwallowsUndecodable | BoltDB.BoltDBClient.GetAllStrict |
