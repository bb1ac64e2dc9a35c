/**
 * Discovery of services from the Marathon scheduler's task list
 * (`src/discovery/marathon.py`): URL normalisation in the constructor and the
 * parser that turns the decoded `/v2/tasks` document into a map from
 * `"<servicePort>/tcp"` to a Service with its healthy endpoints.
 *
 * The scheduler request for an app version's declared health checks (`fetch`,
 * keyed by request path) and host name resolution (`resolve`) are given
 * functions; `None` means the request or the lookup failed.
 */
module Marathon {
  import opened Wrappers
  import opened Text
  import opened Services

  /** One entry of a task's `healthCheckResults`; `alive` is absent when Marathon omits it. */
  datatype HealthResult = HealthResult(alive: Option<bool>)

  /** One entry of the decoded `tasks` list; a missing list field is the empty list. */
  datatype Task = Task(
    appId: Option<string>,
    version: Option<string>,
    host: Option<string>,
    ports: seq<int>,
    servicePorts: seq<int>,
    healthCheckResults: seq<HealthResult>)

  /** Why a whole parse fails: the version lookup for some task raised. */
  datatype ParseError =
    | MissingAppId                     // `None.strip('/')` raises
    | AppVersionUnavailable(path: string)

  /** The protocol every Marathon service port is published under. */
  const Protocol := "tcp"

  /** The local socket through which the scheduler is reached. */
  const SocketPath := "/tmp/marathon.sock"

  // ---------------------------------------------------------------- pure parts

  /** A health result fails unless it says `alive` is true; a missing flag counts as failed. */
  predicate Failed(check: HealthResult) {
    check.alive != Some(true)
  }

  /** `any(failed(check) for check in results)`. */
  predicate AnyFailed(results: seq<HealthResult>) {
    exists i :: 0 <= i < |results| && Failed(results[i])
  }

  /**
   * The health gate: no reported result failed, and at least as many results
   * were reported as the app version declares checks.
   */
  predicate PassesGate(results: seq<HealthResult>, declared: nat) {
    !AnyFailed(results) && |results| >= declared
  }

  /**
   * The services-map key of a service port: `'%s/%s' % (port, protocol.lower())`
   * with the protocol fixed to `tcp`, which lower-casing leaves as it is
   * (`ProtocolIsLower`).
   */
  function ServiceKey(port: int): string {
    IntToString(port) + "/" + Protocol
  }

  /** The fixed protocol is already lower case, so the key needs no lower-casing step. */
  lemma ProtocolIsLower()
    ensures Lower(Protocol) == Protocol
  {
    assert Lower(Protocol)[0] == 't';
    assert Lower(Protocol)[1] == 'c';
    assert Lower(Protocol)[2] == 'p';
  }

  /** The name of a service: the non-empty `/` segments of the app id, reversed, joined by `.`. */
  function ServiceName(appId: string): string {
    Join(Reverse(NonEmpty(Split(appId, '/'))), '.')
  }

  /** No segment of a name built by `ServiceName` carries a `/`. */
  lemma {:induction false} JoinNoSep(xs: seq<string>, sep: char, c: char)
    requires c != sep
    requires forall i :: 0 <= i < |xs| ==> c !in xs[i]
    ensures c !in Join(xs, sep)
    decreases |xs|
  {
    if |xs| > 1 {
      JoinNoSep(xs[1..], sep, c);
    }
  }

  /** A service name never contains `/`: the app id's path separators are all replaced. */
  lemma ServiceNameNoSlash(appId: string)
    ensures '/' !in ServiceName(appId)
  {
    var pieces := Split(appId, '/');
    var segments := Reverse(NonEmpty(pieces));
    SplitNoSep(appId, '/');
    NonEmptySpec(pieces);
    ReverseIndex(NonEmpty(pieces));
    forall i | 0 <= i < |segments| ensures '/' !in segments[i] {
      var k := |segments| - 1 - i;
      assert segments[i] == NonEmpty(pieces)[k];
      assert segments[i] in pieces;
    }
    JoinNoSep(segments, '.', '/');
  }

  /** The app id `/group/sub/app` names the service `app.sub.group`. */
  lemma ServiceNameExample()
    ensures ServiceName("/group/sub/app") == "app.sub.group"
  {
    var parts := ["", "group", "sub", "app"];
    ExampleSegments();
    SplitJoin(parts, '/');
    assert NonEmpty(parts) == ["group", "sub", "app"] by {
      NonEmptyKeeps(["group", "sub", "app"]);
      assert parts[1..] == ["group", "sub", "app"];
    }
    assert Reverse(["group", "sub", "app"]) == ["app", "sub", "group"];
    ExampleName();
  }

  lemma ExampleSegments()
    ensures Join(["", "group", "sub", "app"], '/') == "/group/sub/app"
  {
    assert Join(["app"], '/') == "app";
    assert Join(["sub", "app"], '/') == "sub/app";
    assert Join(["group", "sub", "app"], '/') == "group/sub/app";
  }

  lemma ExampleName()
    ensures Join(["app", "sub", "group"], '.') == "app.sub.group"
  {
    assert Join(["group"], '.') == "group";
    assert Join(["sub", "group"], '.') == "sub.group";
  }

  /** The request path of `_getAppVersion`: the app id stripped of `/`, then the version (`None` when absent). */
  function VersionPath(appId: string, version: Option<string>): string {
    "/v2/apps/" + StripChar(appId, '/') + "/versions/" + (match version case Some(v) => v case None => "None")
  }

  /**
   * The number of health checks the task's app version declares, or the error
   * the lookup raises: a missing app id, or a failed request.
   */
  function DeclaredChecks(fetch: string -> Option<nat>, t: Task): (r: Result<nat, ParseError>)
    ensures r.Ok? ==> t.appId.Some?
    ensures t.appId.None? ==> r == Err(MissingAppId)
  {
    match t.appId
    case None => Err(MissingAppId)
    case Some(id) =>
      match fetch(VersionPath(id, t.version))
      case Some(n) => Ok(n)
      case None => Err(AppVersionUnavailable(VersionPath(id, t.version)))
  }

  /** Python's `repr` of a list of strings, for strings of printable ASCII characters other than `'` and `\`. */
  function ReprItems(urls: seq<string>): string
    decreases |urls|
  {
    if urls == [] then ""
    else if |urls| == 1 then "'" + urls[0] + "'"
    else "'" + urls[0] + "', " + ReprItems(urls[1..])
  }

  /** The source label given to every Service this discovery creates: `'marathon:%s' % urls`. */
  function SourceLabel(urls: seq<string>): string {
    "marathon:[" + ReprItems(urls) + "]"
  }

  /** The URL list comprehension of the constructor: every URL without its trailing `/` characters. */
  function StripUrls(urls: seq<string>): (r: seq<string>)
    ensures |r| == |urls|
    ensures forall i :: 0 <= i < |r| ==> r[i] == [] || r[i][|r[i]| - 1] != '/'
    ensures forall i :: 0 <= i < |r| ==> |r[i]| <= |urls[i]| && r[i] == urls[i][..|r[i]|]
    ensures forall i, k :: 0 <= i < |r| && |r[i]| <= k < |urls[i]| ==> urls[i][k] == '/'
  {
    forall i | 0 <= i < |urls| {
      RStripSpec(urls[i], '/');
    }
    seq(|urls|, i requires 0 <= i < |urls| => RStrip(urls[i], '/'))
  }

  // ------------------------------------------------- specification of _parse

  /**
   * One iteration of the service-port loop for port index `j` of task `t`:
   * skip a port already seen in this task, skip a task that fails the health
   * gate, skip the port when the exposed port or the host is missing or the
   * host does not resolve (the caught exception), otherwise add the Server,
   * creating the Service on first sight of its key.
   */
  function AddPort(
    acc: map<string, Service>, source: string, t: Task, declared: nat,
    resolve: string -> Option<string>, j: nat): map<string, Service>
    requires j < |t.servicePorts| && t.appId.Some?
  {
    if Contributes(t, declared, resolve, j) then
      var key := ServiceKey(t.servicePorts[j]);
      var service := if key in acc then acc[key] else Service(ServiceName(t.appId.value), source, t.servicePorts[j], Protocol, {});
      acc[key := service.(servers := service.servers + {ServerAt(t, resolve, j)})]
    else acc
  }

  /** The first `n` iterations of the service-port loop of task `t`. */
  function AddPorts(
    acc: map<string, Service>, source: string, t: Task, declared: nat,
    resolve: string -> Option<string>, n: nat): map<string, Service>
    requires n <= |t.servicePorts| && t.appId.Some?
    decreases n
  {
    if n == 0 then acc else AddPort(AddPorts(acc, source, t, declared, resolve, n - 1), source, t, declared, resolve, n - 1)
  }

  /** One iteration of the task loop: look up the app version's declared checks, then run the service-port loop. */
  function ParseTask(
    acc: map<string, Service>, source: string, t: Task, fetch: string -> Option<nat>,
    resolve: string -> Option<string>): Result<map<string, Service>, ParseError>
  {
    match DeclaredChecks(fetch, t)
    case Err(e) => Err(e)
    case Ok(declared) => Ok(AddPorts(acc, source, t, declared, resolve, |t.servicePorts|))
  }

  /** `_parse` over a list of tasks: tasks in order, the first failing version lookup aborting the whole parse. */
  function ParseTasks(
    source: string, tasks: seq<Task>, fetch: string -> Option<nat>,
    resolve: string -> Option<string>): Result<map<string, Service>, ParseError>
    decreases |tasks|
  {
    if tasks == [] then Ok(map[])
    else
      match ParseTasks(source, tasks[..|tasks| - 1], fetch, resolve)
      case Err(e) => Err(e)
      case Ok(acc) => ParseTask(acc, source, tasks[|tasks| - 1], fetch, resolve)
  }

  /** A successful parse of a non-empty list is the parse of its front followed by its last task's ports. */
  lemma ParseStep(
    source: string, tasks: seq<Task>, fetch: string -> Option<nat>, resolve: string -> Option<string>)
    requires tasks != [] && ParseTasks(source, tasks, fetch, resolve).Ok?
    ensures ParseTasks(source, tasks[..|tasks| - 1], fetch, resolve).Ok?
    ensures DeclaredChecks(fetch, tasks[|tasks| - 1]).Ok?
    ensures ParseTasks(source, tasks, fetch, resolve).value ==
      AddPorts(ParseTasks(source, tasks[..|tasks| - 1], fetch, resolve).value, source, tasks[|tasks| - 1],
               DeclaredChecks(fetch, tasks[|tasks| - 1]).value, resolve, |tasks[|tasks| - 1].servicePorts|)
  {
  }

  // ------------------------------------------------------ declarative view

  /**
   * Port index `j` of task `t` yields a Server: it is the first occurrence of
   * its service port in the task, the task passes the health gate, the task
   * exposes a port at that index, and its host resolves.
   */
  predicate Contributes(t: Task, declared: nat, resolve: string -> Option<string>, j: int) {
    && 0 <= j < |t.servicePorts|
    && j < |t.ports|
    && t.servicePorts[j] !in t.servicePorts[..j]
    && PassesGate(t.healthCheckResults, declared)
    && t.host.Some?
    && resolve(t.host.value).Some?
  }

  /** Port index `j` of task `t` yields a Server under key `k`. */
  ghost predicate AddsKey(t: Task, declared: nat, resolve: string -> Option<string>, j: int, k: string) {
    Contributes(t, declared, resolve, j) && ServiceKey(t.servicePorts[j]) == k
  }

  /** Port index `j` of task `t` yields Server `s` under key `k`. */
  ghost predicate AddsServer(t: Task, declared: nat, resolve: string -> Option<string>, j: int, k: string, s: Server) {
    AddsKey(t, declared, resolve, j, k) && s == ServerAt(t, resolve, j)
  }

  /** The Server port index `j` of task `t` yields. */
  function ServerAt(t: Task, resolve: string -> Option<string>, j: int): Server
    requires 0 <= j < |t.ports| && t.host.Some? && resolve(t.host.value).Some?
  {
    Server(resolve(t.host.value).value, t.ports[j])
  }

  /** Every key is `"<port>/tcp"` of its Service's port, every Service is `tcp`, from `source`, with a Server. */
  ghost predicate WellFormed(m: map<string, Service>, source: string) {
    forall k :: k in m ==>
      && k == ServiceKey(m[k].port)
      && m[k].protocol == Protocol
      && m[k].source == source
      && m[k].servers != {}
  }

  /** The service-port loop of one task keeps the map well formed. */
  lemma {:induction false} AddPortsWellFormed(
    acc: map<string, Service>, source: string, t: Task, declared: nat,
    resolve: string -> Option<string>, n: nat)
    requires n <= |t.servicePorts| && t.appId.Some?
    requires WellFormed(acc, source)
    ensures WellFormed(AddPorts(acc, source, t, declared, resolve, n), source)
    decreases n
  {
    if n > 0 {
      AddPortsWellFormed(acc, source, t, declared, resolve, n - 1);
    }
  }

  /**
   * Every key of a parsed map is `"<servicePort>/tcp"` for its Service's
   * port, every Service is `tcp` and labelled with the discovery's source,
   * and every Service has at least one Server.
   */
  lemma {:induction false} ParseWellFormed(
    source: string, tasks: seq<Task>, fetch: string -> Option<nat>, resolve: string -> Option<string>)
    requires ParseTasks(source, tasks, fetch, resolve).Ok?
    ensures WellFormed(ParseTasks(source, tasks, fetch, resolve).value, source)
    decreases |tasks|
  {
    if tasks != [] {
      var t := tasks[|tasks| - 1];
      ParseWellFormed(source, tasks[..|tasks| - 1], fetch, resolve);
      var acc := ParseTasks(source, tasks[..|tasks| - 1], fetch, resolve).value;
      AddPortsWellFormed(acc, source, t, DeclaredChecks(fetch, t).value, resolve, |t.servicePorts|);
    }
  }

  /** Two keys of a parsed map never claim the same `(port, protocol)` pair. */
  lemma ParseUniquePorts(
    source: string, tasks: seq<Task>, fetch: string -> Option<nat>, resolve: string -> Option<string>)
    requires ParseTasks(source, tasks, fetch, resolve).Ok?
    ensures var m := ParseTasks(source, tasks, fetch, resolve).value;
      forall k1, k2 :: k1 in m && k2 in m && k1 != k2 ==>
        (m[k1].port, m[k1].protocol) != (m[k2].port, m[k2].protocol)
  {
    ParseWellFormed(source, tasks, fetch, resolve);
  }

  /** One iteration of the service-port loop keeps the names of existing Services and names a new one after the app id. */
  lemma AddPortNames(
    prev: map<string, Service>, source: string, t: Task, declared: nat,
    resolve: string -> Option<string>, j: nat)
    requires j < |t.servicePorts| && t.appId.Some?
    ensures var m := AddPort(prev, source, t, declared, resolve, j);
      && (forall k :: k in prev ==> k in m && m[k].name == prev[k].name)
      && (forall k :: k in m && k !in prev ==> m[k].name == ServiceName(t.appId.value))
  {
  }

  /** The key port index `j` of task `t` yields, if any. */
  function PortKeys(t: Task, declared: nat, resolve: string -> Option<string>, j: nat): set<string>
    requires j < |t.servicePorts|
  {
    if Contributes(t, declared, resolve, j) then {ServiceKey(t.servicePorts[j])} else {}
  }

  /** The keys the first `n` ports of task `t` yield. */
  ghost function KeysAdded(t: Task, declared: nat, resolve: string -> Option<string>, n: nat): set<string>
    requires n <= |t.servicePorts|
    decreases n
  {
    if n == 0 then {} else KeysAdded(t, declared, resolve, n - 1) + PortKeys(t, declared, resolve, n - 1)
  }

  /** A key is among those the first `n` ports yield exactly when one of those ports yields it. */
  lemma {:induction false} KeysAddedIff(t: Task, declared: nat, resolve: string -> Option<string>, n: nat, k: string)
    requires n <= |t.servicePorts|
    ensures k in KeysAdded(t, declared, resolve, n) <==> exists j :: 0 <= j < n && AddsKey(t, declared, resolve, j, k)
    decreases n
  {
    if n > 0 {
      KeysAddedIff(t, declared, resolve, n - 1, k);
      var before := KeysAdded(t, declared, resolve, n - 1);
      assert k in KeysAdded(t, declared, resolve, n) <==> k in before || AddsKey(t, declared, resolve, n - 1, k);
      if exists j :: 0 <= j < n && AddsKey(t, declared, resolve, j, k) {
        var j :| 0 <= j < n && AddsKey(t, declared, resolve, j, k);
        if j < n - 1 {
          assert 0 <= j < n - 1 && AddsKey(t, declared, resolve, j, k);
        }
      }
      if k in before {
        var j :| 0 <= j < n - 1 && AddsKey(t, declared, resolve, j, k);
        assert 0 <= j < n && AddsKey(t, declared, resolve, j, k);
      }
    }
  }

  /** The service-port loop of one task adds exactly the keys its ports yield. */
  lemma {:induction false} AddPortsKeySet(
    acc: map<string, Service>, source: string, t: Task, declared: nat,
    resolve: string -> Option<string>, n: nat)
    requires n <= |t.servicePorts| && t.appId.Some?
    ensures AddPorts(acc, source, t, declared, resolve, n).Keys == acc.Keys + KeysAdded(t, declared, resolve, n)
    decreases n
  {
    if n > 0 {
      AddPortsKeySet(acc, source, t, declared, resolve, n - 1);
      var prev := AddPorts(acc, source, t, declared, resolve, n - 1);
      assert AddPorts(acc, source, t, declared, resolve, n) == AddPort(prev, source, t, declared, resolve, n - 1);
      AddPortKeySet(prev, source, t, declared, resolve, n - 1);
    }
  }

  /** One iteration of the service-port loop adds the port's key when the port yields a Server, and nothing otherwise. */
  lemma AddPortKeySet(
    prev: map<string, Service>, source: string, t: Task, declared: nat,
    resolve: string -> Option<string>, j: nat)
    requires j < |t.servicePorts| && t.appId.Some?
    ensures AddPort(prev, source, t, declared, resolve, j).Keys == prev.Keys + PortKeys(t, declared, resolve, j)
  {
  }

  /** The keys the service-port loop of one task adds are those of its contributing ports. */
  lemma AddPortsKeys(
    acc: map<string, Service>, source: string, t: Task, declared: nat,
    resolve: string -> Option<string>, n: nat, k: string)
    requires n <= |t.servicePorts| && t.appId.Some?
    ensures k in AddPorts(acc, source, t, declared, resolve, n) <==>
      k in acc || exists j :: 0 <= j < n && AddsKey(t, declared, resolve, j, k)
  {
    AddPortsKeySet(acc, source, t, declared, resolve, n);
    KeysAddedIff(t, declared, resolve, n, k);
  }

  /** The Servers under key `k` of a map, none when the key is absent. */
  function ServersUnder(m: map<string, Service>, k: string): set<Server> {
    if k in m then m[k].servers else {}
  }

  /** The Server port index `j` of task `t` yields under key `k`, if any. */
  ghost function PortServers(t: Task, declared: nat, resolve: string -> Option<string>, j: nat, k: string): set<Server>
    requires j < |t.servicePorts|
  {
    if AddsKey(t, declared, resolve, j, k) then {ServerAt(t, resolve, j)} else {}
  }

  /** The Servers the first `n` ports of task `t` yield under key `k`. */
  ghost function ServersAdded(t: Task, declared: nat, resolve: string -> Option<string>, n: nat, k: string): set<Server>
    requires n <= |t.servicePorts|
    decreases n
  {
    if n == 0 then {} else ServersAdded(t, declared, resolve, n - 1, k) + PortServers(t, declared, resolve, n - 1, k)
  }

  /** A Server is among those the first `n` ports yield under `k` exactly when one of those ports yields it there. */
  lemma {:induction false} ServersAddedIff(
    t: Task, declared: nat, resolve: string -> Option<string>, n: nat, k: string, s: Server)
    requires n <= |t.servicePorts|
    ensures s in ServersAdded(t, declared, resolve, n, k) <==>
      exists j :: 0 <= j < n && AddsServer(t, declared, resolve, j, k, s)
    decreases n
  {
    if n > 0 {
      ServersAddedIff(t, declared, resolve, n - 1, k, s);
      var before := ServersAdded(t, declared, resolve, n - 1, k);
      assert s in ServersAdded(t, declared, resolve, n, k) <==> s in before || AddsServer(t, declared, resolve, n - 1, k, s);
      if exists j :: 0 <= j < n && AddsServer(t, declared, resolve, j, k, s) {
        var j :| 0 <= j < n && AddsServer(t, declared, resolve, j, k, s);
        if j < n - 1 {
          assert 0 <= j < n - 1 && AddsServer(t, declared, resolve, j, k, s);
        }
      }
      if s in before {
        var j :| 0 <= j < n - 1 && AddsServer(t, declared, resolve, j, k, s);
        assert 0 <= j < n && AddsServer(t, declared, resolve, j, k, s);
      }
    }
  }

  /** One iteration of the service-port loop adds the port's Server under its key when the port yields it, and nothing otherwise. */
  lemma AddPortServerSet(
    prev: map<string, Service>, source: string, t: Task, declared: nat,
    resolve: string -> Option<string>, j: nat, k: string)
    requires j < |t.servicePorts| && t.appId.Some?
    ensures ServersUnder(AddPort(prev, source, t, declared, resolve, j), k) ==
      ServersUnder(prev, k) + PortServers(t, declared, resolve, j, k)
  {
  }

  /** The service-port loop of one task adds under each key exactly the Servers its ports yield there. */
  lemma {:induction false} AddPortsServerSet(
    acc: map<string, Service>, source: string, t: Task, declared: nat,
    resolve: string -> Option<string>, n: nat, k: string)
    requires n <= |t.servicePorts| && t.appId.Some?
    ensures ServersUnder(AddPorts(acc, source, t, declared, resolve, n), k) ==
      ServersUnder(acc, k) + ServersAdded(t, declared, resolve, n, k)
    decreases n
  {
    if n > 0 {
      AddPortsServerSet(acc, source, t, declared, resolve, n - 1, k);
      var prev := AddPorts(acc, source, t, declared, resolve, n - 1);
      AddPortServerSet(prev, source, t, declared, resolve, n - 1, k);
      var before, added := ServersAdded(t, declared, resolve, n - 1, k), PortServers(t, declared, resolve, n - 1, k);
      assert ServersUnder(acc, k) + before + added == ServersUnder(acc, k) + (before + added);
    }
  }

  /**
   * The Servers the service-port loop of one task adds under a key are those
   * of its contributing ports with that key; existing Servers stay.
   */
  lemma AddPortsServers(
    acc: map<string, Service>, source: string, t: Task, declared: nat,
    resolve: string -> Option<string>, n: nat, k: string, s: Server)
    requires n <= |t.servicePorts| && t.appId.Some?
    requires k in AddPorts(acc, source, t, declared, resolve, n)
    ensures s in AddPorts(acc, source, t, declared, resolve, n)[k].servers <==>
      (k in acc && s in acc[k].servers) ||
      exists j :: 0 <= j < n && AddsServer(t, declared, resolve, j, k, s)
  {
    AddPortsServerSet(acc, source, t, declared, resolve, n, k);
    ServersAddedIff(t, declared, resolve, n, k, s);
  }

  /** Services that existed keep their name; a Service the loop creates is named after the task's app id. */
  lemma {:induction false} AddPortsNames(
    acc: map<string, Service>, source: string, t: Task, declared: nat,
    resolve: string -> Option<string>, n: nat)
    requires n <= |t.servicePorts| && t.appId.Some?
    ensures var m := AddPorts(acc, source, t, declared, resolve, n);
      && (forall k :: k in acc ==> k in m && m[k].name == acc[k].name)
      && (forall k :: k in m && k !in acc ==> m[k].name == ServiceName(t.appId.value))
    decreases n
  {
    if n > 0 {
      AddPortsNames(acc, source, t, declared, resolve, n - 1);
      var prev := AddPorts(acc, source, t, declared, resolve, n - 1);
      AddPortNames(prev, source, t, declared, resolve, n - 1);
    }
  }

  // ------------------------------------------------------ whole task list

  /** Port `j` of task `i` yields a Server under key `k`. */
  ghost predicate YieldsKey(
    tasks: seq<Task>, fetch: string -> Option<nat>, resolve: string -> Option<string>, i: int, j: int, k: string)
  {
    && 0 <= i < |tasks|
    && DeclaredChecks(fetch, tasks[i]).Ok?
    && AddsKey(tasks[i], DeclaredChecks(fetch, tasks[i]).value, resolve, j, k)
  }

  /** Port `j` of task `i` yields Server `s` under key `k`. */
  ghost predicate YieldsServer(
    tasks: seq<Task>, fetch: string -> Option<nat>, resolve: string -> Option<string>, i: int, j: int, k: string, s: Server)
  {
    YieldsKey(tasks, fetch, resolve, i, j, k) && s == ServerAt(tasks[i], resolve, j)
  }

  /** A parse succeeds exactly when the version lookup succeeds for every task. */
  lemma {:induction false} ParseOkIff(
    source: string, tasks: seq<Task>, fetch: string -> Option<nat>, resolve: string -> Option<string>)
    ensures ParseTasks(source, tasks, fetch, resolve).Ok? <==>
      forall i :: 0 <= i < |tasks| ==> DeclaredChecks(fetch, tasks[i]).Ok?
    decreases |tasks|
  {
    if tasks != [] {
      var front := tasks[..|tasks| - 1];
      ParseOkIff(source, front, fetch, resolve);
      assert forall i :: 0 <= i < |front| ==> front[i] == tasks[i];
    }
  }

  /** Once a parse of a prefix has failed, the parse of the whole list fails the same way. */
  lemma {:induction false} ParseErrPersists(
    source: string, tasks: seq<Task>, n: nat, fetch: string -> Option<nat>, resolve: string -> Option<string>)
    requires n <= |tasks|
    requires ParseTasks(source, tasks[..n], fetch, resolve).Err?
    ensures ParseTasks(source, tasks, fetch, resolve) == ParseTasks(source, tasks[..n], fetch, resolve)
    decreases |tasks| - n
  {
    if n < |tasks| {
      assert tasks[..|tasks| - 1][..n] == tasks[..n];
      ParseErrPersists(source, tasks[..|tasks| - 1], n, fetch, resolve);
    } else {
      assert tasks[..n] == tasks;
    }
  }

  /** Keys of a prefix's parse are read the same way in the whole list. */
  lemma PrefixYields(
    tasks: seq<Task>, fetch: string -> Option<nat>, resolve: string -> Option<string>, i: int, j: int, k: string, s: Server)
    requires |tasks| > 0 && 0 <= i < |tasks| - 1
    ensures YieldsKey(tasks[..|tasks| - 1], fetch, resolve, i, j, k) == YieldsKey(tasks, fetch, resolve, i, j, k)
    ensures YieldsServer(tasks[..|tasks| - 1], fetch, resolve, i, j, k, s) == YieldsServer(tasks, fetch, resolve, i, j, k, s)
  {
    assert tasks[..|tasks| - 1][i] == tasks[i];
  }

  /**
   * A key is in the parsed map exactly when some port of some task yields a
   * Server under it: the port is the first copy of its service port in its
   * task, the task passes the health gate, it exposes a port at that index
   * and its host resolves.
   */
  lemma {:induction false} ParseKeys(
    source: string, tasks: seq<Task>, fetch: string -> Option<nat>, resolve: string -> Option<string>, k: string)
    requires ParseTasks(source, tasks, fetch, resolve).Ok?
    ensures k in ParseTasks(source, tasks, fetch, resolve).value <==>
      exists i, j :: YieldsKey(tasks, fetch, resolve, i, j, k)
    decreases |tasks|
  {
    if tasks != [] {
      var n := |tasks|;
      var front, t := tasks[..n - 1], tasks[n - 1];
      ParseStep(source, tasks, fetch, resolve);
      var prev := ParseTasks(source, front, fetch, resolve).value;
      var d := DeclaredChecks(fetch, t).value;
      ParseKeys(source, front, fetch, resolve, k);
      AddPortsKeys(prev, source, t, d, resolve, |t.servicePorts|, k);
      ParseKeysStep(tasks, front, t, d, fetch, resolve, k);
    }
  }

  /** A key is yielded by the list exactly when it is yielded by its front or by the ports of its last task. */
  lemma ParseKeysStep(
    tasks: seq<Task>, front: seq<Task>, t: Task, d: nat,
    fetch: string -> Option<nat>, resolve: string -> Option<string>, k: string)
    requires tasks != [] && front == tasks[..|tasks| - 1] && t == tasks[|tasks| - 1]
    requires DeclaredChecks(fetch, t) == Ok(d)
    ensures (exists i, j :: YieldsKey(tasks, fetch, resolve, i, j, k)) <==>
      (exists i, j :: YieldsKey(front, fetch, resolve, i, j, k)) ||
      (exists j :: 0 <= j < |t.servicePorts| && AddsKey(t, d, resolve, j, k))
  {
    var n := |tasks|;
    if exists i, j :: YieldsKey(tasks, fetch, resolve, i, j, k) {
      var i, j :| YieldsKey(tasks, fetch, resolve, i, j, k);
      if i < n - 1 {
        PrefixYields(tasks, fetch, resolve, i, j, k, Server("", 0));
      } else {
        assert AddsKey(t, d, resolve, j, k);
      }
    }
    if exists i, j :: YieldsKey(front, fetch, resolve, i, j, k) {
      var i, j :| YieldsKey(front, fetch, resolve, i, j, k);
      PrefixYields(tasks, fetch, resolve, i, j, k, Server("", 0));
    }
    if exists j :: 0 <= j < |t.servicePorts| && AddsKey(t, d, resolve, j, k) {
      var j :| 0 <= j < |t.servicePorts| && AddsKey(t, d, resolve, j, k);
      assert YieldsKey(tasks, fetch, resolve, n - 1, j, k);
    }
  }

  /**
   * The Servers under a key of the parsed map are exactly the Servers the
   * ports of the tasks yield under it: the resolved host address paired with
   * the exposed port at the service port's index.
   */
  lemma ParseServers(
    source: string, tasks: seq<Task>, fetch: string -> Option<nat>, resolve: string -> Option<string>,
    k: string, s: Server)
    requires ParseTasks(source, tasks, fetch, resolve).Ok?
    requires k in ParseTasks(source, tasks, fetch, resolve).value
    ensures s in ParseTasks(source, tasks, fetch, resolve).value[k].servers <==>
      exists i, j :: YieldsServer(tasks, fetch, resolve, i, j, k, s)
  {
    ParseServerSet(source, tasks, fetch, resolve, k, s);
  }

  /** The Servers under any key of the parsed map, none for an absent key, are those the tasks' ports yield there. */
  lemma {:induction false} ParseServerSet(
    source: string, tasks: seq<Task>, fetch: string -> Option<nat>, resolve: string -> Option<string>,
    k: string, s: Server)
    requires ParseTasks(source, tasks, fetch, resolve).Ok?
    ensures s in ServersUnder(ParseTasks(source, tasks, fetch, resolve).value, k) <==>
      exists i, j :: YieldsServer(tasks, fetch, resolve, i, j, k, s)
    decreases |tasks|
  {
    if tasks != [] {
      var n := |tasks|;
      var front, t := tasks[..n - 1], tasks[n - 1];
      ParseStep(source, tasks, fetch, resolve);
      var prev := ParseTasks(source, front, fetch, resolve).value;
      var d := DeclaredChecks(fetch, t).value;
      AddPortsServerSet(prev, source, t, d, resolve, |t.servicePorts|, k);
      ServersAddedIff(t, d, resolve, |t.servicePorts|, k, s);
      ParseServerSet(source, front, fetch, resolve, k, s);
      ParseServersStep(tasks, front, t, d, fetch, resolve, k, s);
    }
  }

  /** A Server is yielded under a key by the list exactly when it is yielded by its front or by the ports of its last task. */
  lemma ParseServersStep(
    tasks: seq<Task>, front: seq<Task>, t: Task, d: nat,
    fetch: string -> Option<nat>, resolve: string -> Option<string>, k: string, s: Server)
    requires tasks != [] && front == tasks[..|tasks| - 1] && t == tasks[|tasks| - 1]
    requires DeclaredChecks(fetch, t) == Ok(d)
    ensures (exists i, j :: YieldsServer(tasks, fetch, resolve, i, j, k, s)) <==>
      (exists i, j :: YieldsServer(front, fetch, resolve, i, j, k, s)) ||
      (exists j :: 0 <= j < |t.servicePorts| && AddsServer(t, d, resolve, j, k, s))
  {
    var n := |tasks|;
    if exists i, j :: YieldsServer(tasks, fetch, resolve, i, j, k, s) {
      var i, j :| YieldsServer(tasks, fetch, resolve, i, j, k, s);
      if i < n - 1 {
        PrefixYields(tasks, fetch, resolve, i, j, k, s);
      } else {
        assert AddsServer(t, d, resolve, j, k, s);
      }
    }
    if exists i, j :: YieldsServer(front, fetch, resolve, i, j, k, s) {
      var i, j :| YieldsServer(front, fetch, resolve, i, j, k, s);
      PrefixYields(tasks, fetch, resolve, i, j, k, s);
    }
    if exists j :: 0 <= j < |t.servicePorts| && AddsServer(t, d, resolve, j, k, s) {
      var j :| 0 <= j < |t.servicePorts| && AddsServer(t, d, resolve, j, k, s);
      assert YieldsServer(tasks, fetch, resolve, n - 1, j, k, s);
    }
  }

  /**
   * The Service under a key is named after the app id of the first task that
   * yields a Server under that key; later tasks only add Servers.
   */
  lemma {:induction false} ParseNames(
    source: string, tasks: seq<Task>, fetch: string -> Option<nat>, resolve: string -> Option<string>,
    i: int, j: int, k: string)
    requires ParseTasks(source, tasks, fetch, resolve).Ok?
    requires YieldsKey(tasks, fetch, resolve, i, j, k)
    requires forall i2, j2 :: 0 <= i2 < i ==> !YieldsKey(tasks, fetch, resolve, i2, j2, k)
    ensures k in ParseTasks(source, tasks, fetch, resolve).value
    ensures ParseTasks(source, tasks, fetch, resolve).value[k].name == ServiceName(tasks[i].appId.value)
    decreases |tasks|
  {
    var n := |tasks|;
    var front, t := tasks[..n - 1], tasks[n - 1];
    ParseStep(source, tasks, fetch, resolve);
    var prev := ParseTasks(source, front, fetch, resolve).value;
    var d := DeclaredChecks(fetch, t).value;
    AddPortsNames(prev, source, t, d, resolve, |t.servicePorts|);
    AddPortsKeys(prev, source, t, d, resolve, |t.servicePorts|, k);
    if i < n - 1 {
      PrefixYields(tasks, fetch, resolve, i, j, k, Server("", 0));
      forall i2, j2 | 0 <= i2 < i ensures !YieldsKey(front, fetch, resolve, i2, j2, k) {
        PrefixYields(tasks, fetch, resolve, i2, j2, k, Server("", 0));
      }
      ParseNames(source, front, fetch, resolve, i, j, k);
    } else {
      assert AddsKey(t, d, resolve, j, k);
      ParseKeys(source, front, fetch, resolve, k);
      if k in prev {
        var i2, j2 :| YieldsKey(front, fetch, resolve, i2, j2, k);
        PrefixYields(tasks, fetch, resolve, i2, j2, k, Server("", 0));
        assert false;
      }
    }
  }

  /**
   * A task whose app version declares no health checks and which reports no
   * results passes the gate: the first occurrence of each service port with
   * an exposed port and a resolving host puts its Server under its key.
   */
  lemma UncheckedTaskServes(
    source: string, tasks: seq<Task>, fetch: string -> Option<nat>, resolve: string -> Option<string>,
    i: int, j: int)
    requires ParseTasks(source, tasks, fetch, resolve).Ok?
    requires 0 <= i < |tasks| && DeclaredChecks(fetch, tasks[i]) == Ok(0) && tasks[i].healthCheckResults == []
    requires 0 <= j < |tasks[i].servicePorts| && j < |tasks[i].ports|
    requires tasks[i].servicePorts[j] !in tasks[i].servicePorts[..j]
    requires tasks[i].host.Some? && resolve(tasks[i].host.value).Some?
    ensures var m := ParseTasks(source, tasks, fetch, resolve).value;
      var k := ServiceKey(tasks[i].servicePorts[j]);
      k in m && ServerAt(tasks[i], resolve, j) in m[k].servers
  {
    var k := ServiceKey(tasks[i].servicePorts[j]);
    var s := ServerAt(tasks[i], resolve, j);
    assert YieldsServer(tasks, fetch, resolve, i, j, k, s);
    ParseKeys(source, tasks, fetch, resolve, k);
    ParseServers(source, tasks, fetch, resolve, k, s);
  }

  /** The service-port loop of a task that fails the health gate changes nothing. */
  lemma {:induction false} AddPortsGateFails(
    acc: map<string, Service>, source: string, t: Task, declared: nat,
    resolve: string -> Option<string>, n: nat)
    requires n <= |t.servicePorts| && t.appId.Some?
    requires !PassesGate(t.healthCheckResults, declared)
    ensures AddPorts(acc, source, t, declared, resolve, n) == acc
    decreases n
  {
    if n > 0 {
      AddPortsGateFails(acc, source, t, declared, resolve, n - 1);
    }
  }

  /**
   * A task whose version lookup succeeds but which fails the health gate is
   * omitted: parsing the list without it gives the same result.
   */
  lemma {:induction false} ParseOmitsUnhealthy(
    source: string, xs: seq<Task>, t: Task, ys: seq<Task>,
    fetch: string -> Option<nat>, resolve: string -> Option<string>)
    requires DeclaredChecks(fetch, t).Ok?
    requires !PassesGate(t.healthCheckResults, DeclaredChecks(fetch, t).value)
    ensures ParseTasks(source, xs + [t] + ys, fetch, resolve) == ParseTasks(source, xs + ys, fetch, resolve)
    decreases |ys|
  {
    if ys == [] {
      assert xs + [t] + ys == xs + [t] && xs + ys == xs;
      ParseSnocUnhealthy(source, xs, t, fetch, resolve);
    } else {
      var ys', y := ys[..|ys| - 1], ys[|ys| - 1];
      ParseOmitsUnhealthy(source, xs, t, ys', fetch, resolve);
      assert xs + [t] + ys == (xs + [t] + ys') + [y];
      assert xs + ys == (xs + ys') + [y];
      ParseSnoc(source, xs + [t] + ys', xs + ys', y, fetch, resolve);
    }
  }

  /** A task whose version lookup succeeds but which fails the health gate leaves the parse as it was. */
  lemma ParseSnocUnhealthy(
    source: string, xs: seq<Task>, t: Task, fetch: string -> Option<nat>, resolve: string -> Option<string>)
    requires DeclaredChecks(fetch, t).Ok?
    requires !PassesGate(t.healthCheckResults, DeclaredChecks(fetch, t).value)
    ensures ParseTasks(source, xs + [t], fetch, resolve) == ParseTasks(source, xs, fetch, resolve)
  {
    assert (xs + [t])[..|xs|] == xs;
    match ParseTasks(source, xs, fetch, resolve)
    case Err(_) =>
    case Ok(acc) =>
      AddPortsGateFails(acc, source, t, DeclaredChecks(fetch, t).value, resolve, |t.servicePorts|);
  }

  /** Lists that parse alike still parse alike once the same task is appended to both. */
  lemma ParseSnoc(
    source: string, a: seq<Task>, b: seq<Task>, x: Task, fetch: string -> Option<nat>, resolve: string -> Option<string>)
    requires ParseTasks(source, a, fetch, resolve) == ParseTasks(source, b, fetch, resolve)
    ensures ParseTasks(source, a + [x], fetch, resolve) == ParseTasks(source, b + [x], fetch, resolve)
  {
    assert (a + [x])[..|a|] == a && (b + [x])[..|b|] == b;
  }

  /**
   * The service-port loop of `_parse` for one task: grows the set of seen
   * service ports and adds each contributing port's Server to the map in place.
   */
  method AddServicePorts(
    services0: map<string, Service>, source: string, task: Task, declared: nat, resolve: string -> Option<string>)
    returns (services: map<string, Service>)
    requires task.appId.Some?
    ensures services == AddPorts(services0, source, task, declared, resolve, |task.servicePorts|)
  {
    services := services0;
    var exposedPorts, servicePorts := task.ports, task.servicePorts;
    var seenServicePorts: set<int> := {};
    for portIndex := 0 to |servicePorts|
      invariant forall p :: p in seenServicePorts <==> p in servicePorts[..portIndex]
      invariant services == AddPorts(services0, source, task, declared, resolve, portIndex)
    {
      var servicePort := servicePorts[portIndex];
      var protocol := Protocol;
      ghost var step := AddPort(services, source, task, declared, resolve, portIndex);
      assert AddPorts(services0, source, task, declared, resolve, portIndex + 1) == step;
      assert servicePorts[..portIndex + 1] == servicePorts[..portIndex] + [servicePort];
      if servicePort in seenServicePorts {
        assert step == services;
        continue;
      }
      seenServicePorts := seenServicePorts + {servicePort};
      var healthResults := task.healthCheckResults;
      if AnyFailed(healthResults) {
        assert step == services;
        continue;
      }
      if |healthResults| < declared {
        assert step == services;
        continue;
      }
      // The `try` block: a missing exposed port or host, or a failed resolution, skips this port only.
      if portIndex >= |exposedPorts| || task.host.None? {
        assert step == services;
        continue;
      }
      var ipaddr := resolve(task.host.value);
      if ipaddr.None? {
        assert step == services;
        continue;
      }
      var server := Server(ipaddr.value, exposedPorts[portIndex]);
      var key := ServiceKey(servicePort);
      if key !in services {
        var name := ServiceName(task.appId.value);
        services := services[key := Service(name, source, servicePort, protocol, {})];
      }
      services := services[key := services[key].(servers := services[key].servers + {server})];
    }
  }

  // ------------------------------------------------------- the discovery

  /** A Marathon discovery source: the scheduler URLs, the callback URL and the polling interval. */
  class MarathonDiscovery {
    const urls: seq<string>
    const callback: Option<string>
    const interval: int
    const socketPath: string
    const priority: int

    /** Stores the URLs without their trailing `/` characters. */
    constructor (urls: seq<string>, callback: Option<string>, interval: int)
      ensures this.urls == StripUrls(urls)
      ensures forall i :: 0 <= i < |this.urls| ==> this.urls[i] == [] || this.urls[i][|this.urls[i]| - 1] != '/'
      ensures this.callback == callback && this.interval == interval
      ensures socketPath == SocketPath && priority == 10
    {
      this.urls := StripUrls(urls);
      this.callback := callback;
      this.interval := interval;
      this.socketPath := SocketPath;
      this.priority := 10;
    }

    /**
     * `_parse`: walks the tasks in order and, within each task, its service
     * ports, filling the services map in place. The result is the one
     * `ParseTasks` describes.
     */
    method Parse(tasks: seq<Task>, fetch: string -> Option<nat>, resolve: string -> Option<string>)
      returns (r: Result<map<string, Service>, ParseError>)
      ensures r == ParseTasks(SourceLabel(urls), tasks, fetch, resolve)
    {
      var source := SourceLabel(urls);
      var services: map<string, Service> := map[];
      for i := 0 to |tasks|
        invariant ParseTasks(source, tasks[..i], fetch, resolve) == Ok(services)
      {
        var task := tasks[i];
        assert tasks[..i + 1][..i] == tasks[..i] && tasks[..i + 1][i] == task;
        var taskConfig := DeclaredChecks(fetch, task);
        if taskConfig.Err? {
          ParseErrPersists(source, tasks, i + 1, fetch, resolve);
          return Err(taskConfig.error);
        }
        var declared := taskConfig.value;
        services := AddServicePorts(services, source, task, declared, resolve);
        assert tasks[..i + 1][..i] == tasks[..i];
      }
      assert tasks[..|tasks|] == tasks;
      return Ok(services);
    }
  }
}
