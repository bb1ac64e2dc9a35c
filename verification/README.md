# proxymatic core, modelled in Dafny

proxymatic discovers services from the Marathon scheduler and keeps one pen
load-balancer process running per `(port, protocol)` pair. This project
models three parts of it and proves properties about them:

- **Marathon discovery** (`Marathon.dfy`). The constructor strips the
  trailing `/` characters from every scheduler URL. `_parse` turns the
  decoded `/v2/tasks` document into a map from `"<servicePort>/tcp"` to a
  Service holding its healthy endpoints. It applies the health gate, keeps
  only the first copy of a repeated service port within a task, and names a
  Service after its reversed app id. A missing exposed port or an
  unresolvable host skips only that `(task, port)`.
  - `ParseTasks` is the specification of the whole parse.
  - `MarathonDiscovery.Parse` and `AddServicePorts` are the nested loops
    of the source, proved equal to it.
  - Lemmas characterise the result declaratively: which keys exist, which
    Servers sit under each key, what each Service is named, and which
    tasks are omitted.
- **Pen reconciler** (`Pen.dfy`). `PenBackend` is a class holding the state
  map from `Key(port, protocol)` to `Record(pidfile, servers)` and a log of
  effects: configuration writes, SIGHUPs, kills and spawns.
  - `Ensure` (`_ensure`) keeps a current record, or writes the
    configuration and then either reloads or kills and respawns.
  - `Update` runs `Ensure` over the snapshot, kills the processes of keys
    that disappeared, replaces the state and returns the snapshot.
  - Each method is proved against a specification function: `EnsureRecord`
    and `EnsureEffects`, then `ConvergeState` and `ConvergeEffects`, then
    `Kills`. Lemmas on these state the key set, the recorded Servers,
    idempotence, kill-once and the start command.
- **Option parsers** (`Options.dfy`). `parsebool` yields true, false, or an
  error carrying the exit status 1. `parselist` splits on commas and drops
  the empty pieces.
- `Pipeline.dfy` connects the two: a parsed snapshot has distinct keys, so
  feeding it to the reconciler twice is quiet the second time.
- Supporting modules:
  - `Text.dfy` holds Python 2's ASCII string operations: `split`, `join`,
    `str()` of an integer, `lower`, `strip` and `rstrip`.
  - `Services.dfy` holds the Server and Service values.
  - `Wrappers.dfy` holds `Option` and `Result`.

Given functions stand in for the outside world:

- `fetch` is the app-version request, keyed by its path. It returns the
  number of declared health checks, or `None` when the request fails.
- `resolve` is `socket.gethostbyname`.
- `alive` is the liveness probe on a pidfile.
- `hangup` is the result of sending SIGHUP to a pidfile.
- `render` is the Mako template rendering.
- `order` is the iteration order of `services.values()`.

Behaviour of the code worth noting:

- A failed app-version lookup (`src/discovery/marathon.py:101`) lies
  outside the `try` block, so it aborts the whole parse rather than
  skipping one task (`ParseOkIff`, `ParseErrPersists`).
- A record is kept only when its Servers are unchanged AND its pidfile is
  alive (`src/backend/pen.py:36`). An unchanged endpoint set alone does not
  suppress the write.
- A freshly constructed backend has an empty state. Its first `update`
  sends no SIGHUP: for each key it writes the configuration and spawns
  (`EnsureReconverges` with no prior record).
- A record holds only the pidfile and the Servers. The control file path is
  derived from the key and not stored.
- The map keys are the strings `"<port>/tcp"`, not `(port, protocol)`
  pairs.
- `update` has no per-key serialisation or locking.

## Model

| member | source | states |
|---|---|---|
| Options.ParseBool | src/main.py:16-26 | Ok(true) exactly when the lower-cased, stripped text is `true` or `1`. Ok(false) exactly when it is `false` or `0`. Any other text is an error with exit status 1. |
| Options.ParseBoolIgnoresCaseAndPadding | src/main.py:19 | Text padded with whitespace and in any letter case parses like its lower-case core. |
| Options.ParseBoolFlag | src/main.py:19-23 | The Python literals `True` and `False` used as defaults parse back to themselves. |
| Options.ParseList | src/main.py:35-36 | Every piece is non-empty and comma-free. The pieces concatenated give the input with its commas removed. |
| Options.ParseListJoin | src/main.py:36 | Joining non-empty, comma-free items with `,` and parsing the result gives the items back in order. |
| Options.ParseListSegments | src/main.py:36 | For a join of any comma-free segments, empty ones included, the result is exactly the non-empty segments in order. |
| Options.ParseListExample | src/main.py:36 | `a,,b,` parses to `a`, `b`. |
| Text.JoinSplit | src/main.py:36 | Joining the pieces of `split` with the separator rebuilds the text. |
| Text.SplitJoin | src/main.py:36 | `split` of a join of separator-free items gives the items back. |
| Text.RStripSpec | src/discovery/marathon.py:22 | `rstrip(c)` returns a prefix that does not end in `c`. Everything it removed is `c`. |
| Text.IntToStringInjective | src/backend/pen.py:40 | `str()` of an integer is injective. |
| Text.ParseIntRoundTrip | src/backend/pen.py:47-55 | The decimal text `str()` gives for an integer reads back as that integer. |
| Marathon.StripUrls | src/discovery/marathon.py:22 | One URL per input URL. Each is the input without its trailing `/` characters, so none ends in `/`. |
| Marathon.MarathonDiscovery.constructor | src/discovery/marathon.py:20-27 | Stores the stripped URLs, the callback and the interval. Sets the socket path `/tmp/marathon.sock` and priority 10. |
| Marathon.ProtocolIsLower | src/discovery/marathon.py:108-109 | The fixed protocol `tcp` is unchanged by `.lower()`, so a key is `"<servicePort>/tcp"`. |
| Marathon.ServiceNameNoSlash | src/discovery/marathon.py:137 | A Service name never contains `/`. |
| Marathon.ServiceNameExample | src/discovery/marathon.py:137 | App id `/group/sub/app` gives the name `app.sub.group`. |
| Marathon.DeclaredChecks | src/discovery/marathon.py:10-13 | A task without an app id makes the version lookup fail with `MissingAppId`. Success implies an app id. |
| Marathon.ParseOkIff | src/discovery/marathon.py:99-101 | The parse succeeds exactly when the version lookup succeeds for every task. |
| Marathon.ParseErrPersists | src/discovery/marathon.py:99-101 | Once a prefix of the tasks fails its version lookup, the whole parse fails with that error. |
| Marathon.ParseKeys | src/discovery/marathon.py:105-139 | A key is in the result exactly when some task has a port at its first occurrence in that task, the task passes the health gate, an exposed port exists at that index, the host resolves, and the port's key is that key. |
| Marathon.ParseServers | src/discovery/marathon.py:128-139 | A key's Servers are exactly `(resolved host ip, exposed port at the same index)` of the ports yielding that key. |
| Marathon.ParseServerSet | src/discovery/marathon.py:128-139 | As `ParseServers`, for any key, with no Servers under an absent key. |
| Marathon.ParseNames | src/discovery/marathon.py:136-139 | A Service is named after the app id of the first task yielding its key. Later tasks only add Servers. |
| Marathon.ParseWellFormed | src/discovery/marathon.py:107-139 | Every key is `"<port>/tcp"` of its Service's port. Every Service has protocol `tcp`, the `marathon:<urls>` source and at least one Server. |
| Marathon.ParseUniquePorts | src/discovery/marathon.py:107-139 | No two Services of a result share a `(port, protocol)` pair. |
| Marathon.ParseOmitsUnhealthy | src/discovery/marathon.py:118-126 | A task that fails the health gate leaves the result as if it were not in the list. This covers any failed or missing `alive`, and fewer results than declared checks. |
| Marathon.UncheckedTaskServes | src/discovery/marathon.py:118-139 | A task with zero declared checks and zero results passes the gate. Each first-occurrence port with an exposed port and a resolving host puts its Server under its key. |
| Marathon.AddPortsGateFails | src/discovery/marathon.py:118-126 | The port loop of a task failing the gate leaves the map unchanged. |
| Marathon.AddPortsKeys | src/discovery/marathon.py:107-139 | After one task's port loop, a key is present exactly when it was before or some contributing port of the task yields it. |
| Marathon.AddPortsServers | src/discovery/marathon.py:128-139 | After one task's port loop, a key's Servers are its earlier Servers plus those of the task's contributing ports for that key. |
| Marathon.AddPortsNames | src/discovery/marathon.py:136-138 | One task's port loop keeps existing names. A Service it creates is named after the task's app id. |
| Marathon.AddServicePorts | src/discovery/marathon.py:103-142 | The in-place port loop, with its set of seen ports and its skip branches, computes `AddPorts` over all of the task's service ports. |
| Marathon.MarathonDiscovery.Parse | src/discovery/marathon.py:83-144 | The in-place task loop returns `ParseTasks` over the tasks, with the source label built from the stored URLs. |
| Pen.FileNameInjective | src/backend/pen.py:40 | Different keys get different `pen-<port>-<protocol>` file names. |
| Pen.PathsDistinct | src/backend/pen.py:40-43 | Different keys never share a config file, a pidfile or a control file. |
| Pen.StartCommandReadBack | src/backend/pen.py:44-55 | Read back, the start command gives the user, max clients, max servers, and the key's config, pid and control files. It has `-U` exactly for `udp` and the port last. |
| Pen.EnsureKeepsCurrent | src/backend/pen.py:36-37 | A prior record with the same Servers and a live pidfile is returned unchanged, with no effect. |
| Pen.EnsureReconverges | src/backend/pen.py:40-77 | Otherwise the record is `(/tmp/pen-<port>-<protocol>.pid, servers)` and the config is written first. Without a prior record there is no signal: write, then spawn. With one, SIGHUP is tried before anything else. If it succeeds there is no spawn. If it fails, the prior process is killed, then exactly one spawn of the start command comes last. |
| Pen.PenBackend.Ensure | src/backend/pen.py:31-79 | `_ensure` returns `EnsureRecord` and appends exactly `EnsureEffects` to the log. |
| Pen.ConvergeKeys | src/backend/pen.py:17-21 | The new state's keys are exactly the services' `(port, protocol)` keys. |
| Pen.ConvergeValid | src/backend/pen.py:17-21 | If every prior record's pidfile derives from its key, so does every new record's. |
| Pen.ConvergeServers | src/backend/pen.py:17-21 | With distinct keys, each service's new record holds exactly that service's Servers. |
| Pen.ConvergeQuiet | src/backend/pen.py:17-21 | Against a state where every service's record is current, the loop has no effect and keeps every record. |
| Pen.SecondUpdateQuiet | src/backend/pen.py:13-29 | After one update (which may have respawned dead processes), if every process it recorded is alive at the time of a second update with the same services, the second keeps the state and has no effect. |
| Pen.KillsOnce | src/backend/pen.py:24-26 | The cleanup loop kills each dropped key's pidfile exactly once. A retained key's pidfile is not killed. |
| Pen.EnumeratesEmpty | src/backend/pen.py:24-26 | The cleanup loop visits no key exactly when no key was dropped. |
| Pen.ValuesInOrderLists | src/backend/pen.py:17 | Iterating `services.values()` in an order that lists each key once visits exactly the snapshot's Services, one entry per key. |
| Pen.PenBackend.constructor | src/backend/pen.py:6-11 | Stores the settings and starts with an empty state. |
| Pen.PenBackend.EnsureAll | src/backend/pen.py:17-21 | The first loop of `update` builds `ConvergeState` and appends `ConvergeEffects`. |
| Pen.PenBackend.KillDropped | src/backend/pen.py:24-26 | The second loop appends one kill per key of the old state missing from the new one, in some enumeration of those keys. |
| Pen.PenBackend.Update | src/backend/pen.py:13-29 | Returns its services unchanged. The state becomes `ConvergeState`. The log grows by `ConvergeEffects` and then the kills of the dropped keys. Pidfiles stay derived from keys. |
| Pipeline.SnapshotKeysUnique | src/backend/pen.py:17-21 | The Services of a parsed Marathon snapshot, in any iteration order, have distinct pen keys. |
| Pipeline.RepeatedSnapshotQuiet | src/discovery/marathon.py:80 | Feeding the same parsed snapshot to the pen backend twice keeps the state and has no effect the second time, when the processes the first update recorded (including any it respawned) are alive at the second. |

## Left out

- Threads, HTTP and the retry loops are not modelled. This covers `start`, `_refresh`, the callback server, `register` and `run` (`src/discovery/marathon.py:29-55, 73-81`). They are I/O and loops that run forever.
- `_connect` (`src/discovery/marathon.py:57-71`) is not modelled. It is URL parsing, DNS and a call into the backend.
- `unixrequest`, `json.loads` and `lru_cache` are not modelled. The app-version lookup is the given function `fetch`, and a cache hit returns what the request would.
- The decoded JSON is modelled as typed records. Values of the wrong JSON type (a non-list `ports`, a non-integer port) are not represented.
- `Marathon.SourceLabel`: renders Python's `repr` of the URL list only for URLs made of printable ASCII characters other than `'` and `\`. Python 2's `repr` of a `str` also escapes `\t`, `\n`, `\r` and every other byte below 0x20 or from 0x7f up (as `\xNN`), and chooses other quotes for a URL containing `'`; those escapes are not modelled.
- Logging is not modelled; it has no effect on the results.
- Template rendering is not modelled (`render` is a parameter). The real file write, `kill`, `alive` and `os.spawnlp` are effect-log entries or given functions. The blocking of `P_WAIT` and real processes are outside the model.
- The `source` argument of `update` is not modelled because `update` never reads it.
- `Service._add` is modelled as adding a Server to a set, so a Service's Servers form a set. `proxymatic.services` is not part of this model.
- `Pen.PenBackend.KillDropped`: Python's iteration order of `self._state.items()` is not fixed. The contract says the kills follow some enumeration of the dropped keys, each exactly once, not which one.
- `Marathon.ServiceKey`: drops the `.lower()` of the fixed protocol, which `ProtocolIsLower` shows changes nothing.
- `Marathon.AddPort`: states the per-port step as one condition (`Contributes`). `AddServicePorts` keeps the source's order of checks (seen port, health gate, exposed port and host, resolution) and is proved equal to it.
- `parseint` and the rest of `src/main.py` (option parsing, backend wiring, the sleep loop) are not modelled.
- `Pen.PenBackend.Update`: assumes rendering the template and writing the configuration file succeed (`src/backend/pen.py:62-65` have no `try`). When they raise, the source abandons `update` midway. The remaining services are not reconciled, the cleanup loop does not run, and `self._state` keeps the old map even though earlier keys may already have been respawned. The model's `Update` always completes.
- The constructor's `backend` argument and `_marathonService` (`src/discovery/marathon.py:21, 26`) are not modelled. They serve only `_connect` and `_refresh`.
- `marathon.py` uses `traceback` (`src/discovery/marathon.py:142`) and `pen.py` uses `signal` (`src/backend/pen.py:68`) without importing them; they can only come from `proxymatic.util`, which is not part of this model. The model assumes the `except` handler completes and that SIGHUP can be sent.
- Concurrency is not modelled. The source has no locks and no per-key serialisation.
