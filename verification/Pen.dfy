/**
 * The Pen backend (`src/backend/pen.py`): a reconciler that keeps one pen
 * load-balancer process per `(port, protocol)` key in step with the latest
 * snapshot of services.
 *
 * Processes are not modelled. Whether a pidfile names a live process
 * (`alive`) and whether SIGHUP to it succeeds (`hangup`) are given
 * functions; rendering the configuration template is a given function
 * (`render`); and every file write, signal and spawn is appended to an
 * effect log, so that what an update does can be stated.
 */
module Pen {
  import opened Wrappers
  import opened Text
  import opened Services

  /** The key of a managed process: `(service.port, service.protocol)`. */
  datatype Key = Key(port: int, protocol: string)

  /** The backend's record of one managed process: its pidfile and the Servers it was configured with. */
  datatype Record = Record(pidfile: string, servers: set<Server>)

  /** What reconciling does to the outside world, in order. */
  datatype Effect =
    | WriteConfig(path: string, text: string)  // open(cfgfile, 'w').write(config)
    | Hangup(pidfile: string)                  // kill(pidfile, SIGHUP)
    | Kill(pidfile: string)                    // kill(pidfile)
    | Spawn(argv: seq<string>)                 // os.spawnlp(P_WAIT, *cmd)

  /** The constructor arguments: template path, the `-S` and `-c` limits, and the user to run as. */
  datatype Settings = Settings(cfgTemplate: string, maxServers: int, maxClients: int, user: string)

  function KeyOf(s: Service): Key {
    Key(s.port, s.protocol)
  }

  /** `'pen-%s-%s' % (port, protocol)`. */
  function FileName(k: Key): string {
    "pen-" + IntToString(k.port) + "-" + k.protocol
  }

  function CfgFile(k: Key): string { "/tmp/" + FileName(k) + ".cfg" }
  function PidFile(k: Key): string { "/tmp/" + FileName(k) + ".pid" }
  function CtlFile(k: Key): string { "/tmp/" + FileName(k) + ".ctl" }

  /** Distinct keys get distinct file names. */
  lemma FileNameInjective(k1: Key, k2: Key)
    requires FileName(k1) == FileName(k2)
    ensures k1 == k2
  {
    var f1, f2 := FileName(k1), FileName(k2);
    assert f1[4..] == IntToString(k1.port) + "-" + k1.protocol;
    assert f2[4..] == IntToString(k2.port) + "-" + k2.protocol;
    IntDashInjective(k1.port, k1.protocol, k2.port, k2.protocol);
  }

  /** Text wrapped between the same prefix and suffix is recovered from the whole. */
  lemma {:induction false} Unwrap(a: string, x: string, y: string, b: string)
    requires a + x + b == a + y + b
    ensures x == y
  {
    var s, t := a + x + b, a + y + b;
    assert |x| == |y|;
    assert x == s[|a|..|a| + |x|];
    assert y == t[|a|..|a| + |y|];
  }

  /** Two different keys never share a configuration file, a pidfile or a control file. */
  lemma PathsDistinct(k1: Key, k2: Key)
    requires k1 != k2
    ensures CfgFile(k1) != CfgFile(k2) && PidFile(k1) != PidFile(k2) && CtlFile(k1) != CtlFile(k2)
  {
    if CfgFile(k1) == CfgFile(k2) {
      Unwrap("/tmp/", FileName(k1), FileName(k2), ".cfg");
      FileNameInjective(k1, k2);
    }
    if PidFile(k1) == PidFile(k2) {
      Unwrap("/tmp/", FileName(k1), FileName(k2), ".pid");
      FileNameInjective(k1, k2);
    }
    if CtlFile(k1) == CtlFile(k2) {
      Unwrap("/tmp/", FileName(k1), FileName(k2), ".ctl");
      FileNameInjective(k1, k2);
    }
  }

  /** The argument vector `_ensure` spawns pen with (the program name, then `argv[0]`, then the options). */
  function StartCommand(cfg: Settings, k: Key): seq<string> {
    ["pen", "pen",
     "-u", cfg.user,
     "-c", IntToString(cfg.maxClients),
     "-S", IntToString(cfg.maxServers),
     "-F", CfgFile(k),
     "-p", PidFile(k),
     "-C", CtlFile(k)]
    + (if k.protocol == "udp" then ["-U"] else [])
    + [IntToString(k.port)]
  }

  /** What pen reads from its command line. */
  datatype Invocation = Invocation(
    user: string, maxClients: int, maxServers: int,
    cfgFile: string, pidFile: string, ctlFile: string, udp: bool, port: int)

  /**
   * How pen reads an argument vector of the shape `_ensure` builds: the
   * options in their fixed places, an optional `-U`, and the listening port
   * last.
   */
  function ReadCommand(argv: seq<string>): Option<Invocation> {
    if !(|argv| == 15 || (|argv| == 16 && argv[14] == "-U")) then None
    else if argv[..3] != ["pen", "pen", "-u"] || argv[4] != "-c" || argv[6] != "-S"
         || argv[8] != "-F" || argv[10] != "-p" || argv[12] != "-C" then None
    else
      match (ParseInt(argv[5]), ParseInt(argv[7]), ParseInt(argv[|argv| - 1]))
      case (Some(clients), Some(servers), Some(port)) =>
        Some(Invocation(argv[3], clients, servers, argv[9], argv[11], argv[13], |argv| == 16, port))
      case _ => None
  }

  /** Where each argument of the start command sits. */
  lemma StartCommandShape(cfg: Settings, k: Key)
    ensures var argv := StartCommand(cfg, k);
      && |argv| == (if k.protocol == "udp" then 16 else 15)
      && (k.protocol == "udp" ==> argv[14] == "-U")
      && argv[..3] == ["pen", "pen", "-u"] && argv[3] == cfg.user
      && argv[4] == "-c" && argv[5] == IntToString(cfg.maxClients)
      && argv[6] == "-S" && argv[7] == IntToString(cfg.maxServers)
      && argv[8] == "-F" && argv[9] == CfgFile(k)
      && argv[10] == "-p" && argv[11] == PidFile(k)
      && argv[12] == "-C" && argv[13] == CtlFile(k)
      && argv[|argv| - 1] == IntToString(k.port)
  {
  }

  /**
   * The start command carries `-u user`, `-c maxclients`, `-S maxservers`,
   * `-F cfgfile`, `-p pidfile` and `-C ctlfile` for the key's files, `-U`
   * exactly for `udp`, and the port as its last argument.
   */
  lemma StartCommandReadBack(cfg: Settings, k: Key)
    ensures ReadCommand(StartCommand(cfg, k)) ==
      Some(Invocation(cfg.user, cfg.maxClients, cfg.maxServers, CfgFile(k), PidFile(k), CtlFile(k), k.protocol == "udp", k.port))
  {
    StartCommandShape(cfg, k);
    ParseIntRoundTrip(cfg.maxClients);
    ParseIntRoundTrip(cfg.maxServers);
    ParseIntRoundTrip(k.port);
  }

  // ---------------------------------------------------------------- _ensure

  /** The pen configuration text rendered from the template file for a service and the `-S` limit. */
  type Render = (string, Service, int) -> string

  /** The prior record is kept: it serves exactly the service's Servers and its process is alive. */
  predicate Current(prev: Option<Record>, s: Service, alive: string -> bool) {
    prev.Some? && prev.value.servers == s.servers && alive(prev.value.pidfile)
  }

  /** The record `_ensure` returns: the prior one when it is current, otherwise the key's pidfile with the service's Servers. */
  function EnsureRecord(s: Service, prev: Option<Record>, alive: string -> bool): Record {
    if Current(prev, s, alive) then prev.value else Record(PidFile(KeyOf(s)), s.servers)
  }

  /**
   * What `_ensure` does: nothing for a current record; otherwise write the
   * configuration, try SIGHUP on the prior process, and when there is none or
   * the signal fails, kill the prior process (if any) and spawn a new one.
   */
  function EnsureEffects(
    cfg: Settings, render: Render, s: Service, prev: Option<Record>,
    alive: string -> bool, hangup: string -> bool): seq<Effect>
  {
    if Current(prev, s, alive) then []
    else
      var k := KeyOf(s);
      var write := [WriteConfig(CfgFile(k), render(cfg.cfgTemplate, s, cfg.maxServers))];
      var spawn := [Spawn(StartCommand(cfg, k))];
      match prev
      case None => write + spawn
      case Some(p) => write + [Hangup(p.pidfile)] + (if hangup(p.pidfile) then [] else [Kill(p.pidfile)] + spawn)
  }

  /** The number of spawns in an effect log. */
  function Spawns(effects: seq<Effect>): nat
    decreases |effects|
  {
    if effects == [] then 0 else (if effects[0].Spawn? then 1 else 0) + Spawns(effects[1..])
  }

  /** A current record is returned as it is, with no write, no signal and no spawn. */
  lemma EnsureKeepsCurrent(
    cfg: Settings, render: Render, s: Service, prev: Option<Record>, alive: string -> bool, hangup: string -> bool)
    requires Current(prev, s, alive)
    ensures EnsureRecord(s, prev, alive) == prev.value
    ensures EnsureEffects(cfg, render, s, prev, alive, hangup) == []
  {
  }

  /**
   * Otherwise the new record has the key's pidfile and the service's Servers;
   * the configuration is written to the key's file first; without a prior
   * record no signal is sent; with one, SIGHUP is tried first; a successful SIGHUP
   * to a prior process means no spawn; failing that, the prior process (if
   * any) is killed and exactly one spawn, of the start command, comes last.
   */
  lemma EnsureReconverges(
    cfg: Settings, render: Render, s: Service, prev: Option<Record>, alive: string -> bool, hangup: string -> bool)
    requires !Current(prev, s, alive)
    ensures EnsureRecord(s, prev, alive) == Record(PidFile(KeyOf(s)), s.servers)
    ensures var e := EnsureEffects(cfg, render, s, prev, alive, hangup);
      var w := WriteConfig(CfgFile(KeyOf(s)), render(cfg.cfgTemplate, s, cfg.maxServers));
      var sp := Spawn(StartCommand(cfg, KeyOf(s)));
      && (prev.None? ==> e == [w, sp])
      && (prev.Some? && hangup(prev.value.pidfile) ==> e == [w, Hangup(prev.value.pidfile)])
      && (prev.Some? && !hangup(prev.value.pidfile) ==>
            e == [w, Hangup(prev.value.pidfile), Kill(prev.value.pidfile), sp])
    ensures var e := EnsureEffects(cfg, render, s, prev, alive, hangup);
      && |e| >= 2
      && e[0] == WriteConfig(CfgFile(KeyOf(s)), render(cfg.cfgTemplate, s, cfg.maxServers))
      && (prev.Some? && hangup(prev.value.pidfile) ==>
            e == e[..1] + [Hangup(prev.value.pidfile)] && Spawns(e) == 0)
      && (!(prev.Some? && hangup(prev.value.pidfile)) ==>
            && Spawns(e) == 1
            && e[|e| - 1] == Spawn(StartCommand(cfg, KeyOf(s)))
            && (prev.Some? ==> e[|e| - 2] == Kill(prev.value.pidfile)))
  {
    var e := EnsureEffects(cfg, render, s, prev, alive, hangup);
    if prev.Some? && hangup(prev.value.pidfile) {
      assert e == [e[0], Hangup(prev.value.pidfile)];
      assert Spawns(e[1..][1..]) == 0;
      assert Spawns(e[1..]) == 0;
    } else if prev.Some? {
      assert e[1..][1..][1..][1..] == [];
      assert Spawns(e[1..][1..][1..]) == 1;
      assert Spawns(e[1..][1..]) == 1;
      assert Spawns(e[1..]) == 1;
    } else {
      assert e[1..][1..] == [];
      assert Spawns(e[1..]) == 1;
    }
  }

  // ------------------------------------------------------------------ update

  /** The pen-side state: one record per key. */
  type State = map<Key, Record>

  /** Every record's pidfile is the one derived from its key. */
  ghost predicate ValidState(st: State) {
    forall k :: k in st ==> st[k].pidfile == PidFile(k)
  }

  /** No two services of the list share a `(port, protocol)` key. */
  ghost predicate UniqueKeys(services: seq<Service>) {
    forall i, j :: 0 <= i < j < |services| ==> KeyOf(services[i]) != KeyOf(services[j])
  }

  /** The record a key had before the update, if any. */
  function Prior(prior: State, k: Key): Option<Record> {
    if k in prior then Some(prior[k]) else None
  }

  /**
   * The new state the first loop of `update` builds over the services in
   * iteration order: each service's key gets the record `_ensure` returns for
   * it, given the record the key had before the update.
   */
  function ConvergeState(services: seq<Service>, prior: State, alive: string -> bool): State
    decreases |services|
  {
    if services == [] then map[]
    else
      var s := services[|services| - 1];
      ConvergeState(services[..|services| - 1], prior, alive)[KeyOf(s) := EnsureRecord(s, Prior(prior, KeyOf(s)), alive)]
  }

  /** The effects of the first loop of `update`: those of `_ensure` for each service in turn. */
  function ConvergeEffects(
    cfg: Settings, render: Render, services: seq<Service>, prior: State,
    alive: string -> bool, hangup: string -> bool): seq<Effect>
    decreases |services|
  {
    if services == [] then []
    else
      var s := services[|services| - 1];
      ConvergeEffects(cfg, render, services[..|services| - 1], prior, alive, hangup)
        + EnsureEffects(cfg, render, s, Prior(prior, KeyOf(s)), alive, hangup)
  }

  /** Appending to a log in two steps appends the concatenation. */
  lemma AppendAssoc<T>(a: seq<T>, b: seq<T>, c: seq<T>)
    ensures a + b + c == a + (b + c)
  {
  }

  /** One more service in the iteration order adds its own record and its own effects. */
  lemma ConvergeSnoc(
    cfg: Settings, render: Render, services: seq<Service>, i: nat, prior: State,
    alive: string -> bool, hangup: string -> bool)
    requires i < |services|
    ensures ConvergeState(services[..i + 1], prior, alive) ==
      ConvergeState(services[..i], prior, alive)[KeyOf(services[i]) := EnsureRecord(services[i], Prior(prior, KeyOf(services[i])), alive)]
    ensures ConvergeEffects(cfg, render, services[..i + 1], prior, alive, hangup) ==
      ConvergeEffects(cfg, render, services[..i], prior, alive, hangup)
      + EnsureEffects(cfg, render, services[i], Prior(prior, KeyOf(services[i])), alive, hangup)
  {
    assert services[..i + 1][..i] == services[..i];
  }

  /** The key set after an update is exactly the set of the services' `(port, protocol)` keys. */
  lemma {:induction false} ConvergeKeys(services: seq<Service>, prior: State, alive: string -> bool)
    ensures ConvergeState(services, prior, alive).Keys == set i | 0 <= i < |services| :: KeyOf(services[i])
    decreases |services|
  {
    if services != [] {
      var front, last := services[..|services| - 1], services[|services| - 1];
      ConvergeKeys(front, prior, alive);
      var before := set i | 0 <= i < |front| :: KeyOf(front[i]);
      var after := set i | 0 <= i < |services| :: KeyOf(services[i]);
      forall x | x in after
        ensures x in before + {KeyOf(last)}
      {
        var i :| 0 <= i < |services| && x == KeyOf(services[i]);
        if i < |front| {
          assert front[i] == services[i];
        }
      }
      forall x | x in before + {KeyOf(last)}
        ensures x in after
      {
        if x in before {
          var i :| 0 <= i < |front| && x == KeyOf(front[i]);
          assert services[i] == front[i];
        }
      }
    }
  }

  /** Every record after an update has the pidfile derived from its key, given that every prior record had. */
  lemma {:induction false} ConvergeValid(services: seq<Service>, prior: State, alive: string -> bool)
    requires ValidState(prior)
    ensures ValidState(ConvergeState(services, prior, alive))
    decreases |services|
  {
    if services != [] {
      ConvergeValid(services[..|services| - 1], prior, alive);
    }
  }

  /** With distinct keys, each service's record after an update holds exactly that service's Servers. */
  lemma {:induction false} ConvergeServers(services: seq<Service>, prior: State, alive: string -> bool)
    requires UniqueKeys(services)
    ensures var st := ConvergeState(services, prior, alive);
      forall i :: 0 <= i < |services| ==> KeyOf(services[i]) in st && st[KeyOf(services[i])].servers == services[i].servers
    decreases |services|
  {
    if services != [] {
      var front := services[..|services| - 1];
      ConvergeServers(front, prior, alive);
      assert forall i :: 0 <= i < |front| ==> front[i] == services[i];
    }
  }

  /**
   * Reconciling against a state in which every service's record is current
   * has no effect and keeps each key's record.
   */
  lemma {:induction false} ConvergeQuiet(
    cfg: Settings, render: Render, services: seq<Service>, st: State, alive: string -> bool, hangup: string -> bool)
    requires forall i :: 0 <= i < |services| ==>
      KeyOf(services[i]) in st && Current(Some(st[KeyOf(services[i])]), services[i], alive)
    ensures ConvergeEffects(cfg, render, services, st, alive, hangup) == []
    ensures var next := ConvergeState(services, st, alive);
      forall k :: k in next ==> k in st && next[k] == st[k]
    decreases |services|
  {
    if services != [] {
      var front := services[..|services| - 1];
      assert forall i :: 0 <= i < |front| ==> front[i] == services[i];
      ConvergeQuiet(cfg, render, front, st, alive, hangup);
    }
  }

  /**
   * Idempotence: after one update with services of distinct keys (which may
   * have respawned processes found dead), while every process it recorded is
   * alive, a second update with the same services keeps the state, drops no
   * key, and performs no write, signal or spawn.
   */
  lemma SecondUpdateQuiet(
    cfg: Settings, render: Render, services: seq<Service>, prior: State,
    alive1: string -> bool, alive2: string -> bool, hangup: string -> bool)
    requires UniqueKeys(services)
    requires var st := ConvergeState(services, prior, alive1);
      forall k :: k in st ==> alive2(st[k].pidfile)
    ensures var st := ConvergeState(services, prior, alive1);
      && ConvergeState(services, st, alive2) == st
      && ConvergeEffects(cfg, render, services, st, alive2, hangup) == []
  {
    var st := ConvergeState(services, prior, alive1);
    ConvergeServers(services, prior, alive1);
    ConvergeQuiet(cfg, render, services, st, alive2, hangup);
    ConvergeKeys(services, prior, alive1);
    ConvergeKeys(services, st, alive2);
    var again := ConvergeState(services, st, alive2);
    assert again.Keys == st.Keys;
  }

  /** `xs` lists every element of `s` exactly once. */
  ghost predicate Enumerates<T>(xs: seq<T>, s: set<T>) {
    && (forall i, j :: 0 <= i < j < |xs| ==> xs[i] != xs[j])
    && (forall i :: 0 <= i < |xs| ==> xs[i] in s)
    && (forall x :: x in s ==> x in xs)
  }

  /** A list that enumerates a set is empty exactly when the set is: an update that drops no key kills nothing. */
  lemma EnumeratesEmpty<T>(xs: seq<T>, s: set<T>)
    requires Enumerates(xs, s)
    ensures xs == [] <==> s == {}
  {
    if xs != [] {
      assert xs[0] in s;
    }
  }

  /** The services of the snapshot in the dictionary's iteration order. */
  function ValuesInOrder(services: map<string, Service>, order: seq<string>): seq<Service>
    requires forall i :: 0 <= i < |order| ==> order[i] in services
  {
    seq(|order|, i requires 0 <= i < |order| => services[order[i]])
  }

  /** A list of distinct elements of a set that covers it is as long as the set is large. */
  lemma {:induction false} EnumeratesCard<T>(xs: seq<T>, s: set<T>)
    requires Enumerates(xs, s)
    ensures |xs| == |s|
    decreases |xs|
  {
    if xs == [] {
      EnumeratesEmpty(xs, s);
    } else {
      var front, x := xs[..|xs| - 1], xs[|xs| - 1];
      assert x in s;
      forall y | y in s - {x} ensures y in front {
        var i :| 0 <= i < |xs| && xs[i] == y;
        assert i != |xs| - 1;
        assert front[i] == y;
      }
      assert Enumerates(front, s - {x});
      EnumeratesCard(front, s - {x});
    }
  }

  /**
   * Iterating the snapshot's values in an order that enumerates its keys
   * visits every Service of the snapshot and nothing else, one entry per key.
   */
  lemma ValuesInOrderLists(services: map<string, Service>, order: seq<string>)
    requires Enumerates(order, services.Keys)
    ensures |ValuesInOrder(services, order)| == |services.Keys|
    ensures forall s :: s in ValuesInOrder(services, order) <==> s in services.Values
  {
    EnumeratesCard(order, services.Keys);
    var r := ValuesInOrder(services, order);
    forall s | s in services.Values ensures s in r {
      var k :| k in services && services[k] == s;
      var i :| 0 <= i < |order| && order[i] == k;
      assert r[i] == s;
    }
  }

  /** The kills of the second loop of `update`, for the dropped keys in the order it visits them. */
  function Kills(st: State, dropped: seq<Key>): seq<Effect>
    requires forall i :: 0 <= i < |dropped| ==> dropped[i] in st
    decreases |dropped|
  {
    if dropped == [] then []
    else Kills(st, dropped[..|dropped| - 1]) + [Kill(st[dropped[|dropped| - 1]].pidfile)]
  }

  /** Dropping one more key appends its kill. */
  lemma KillsSnoc(st: State, dropped: seq<Key>, k: Key)
    requires forall i :: 0 <= i < |dropped| ==> dropped[i] in st
    requires k in st
    ensures Kills(st, dropped + [k]) == Kills(st, dropped) + [Kill(st[k].pidfile)]
  {
    assert (dropped + [k])[..|dropped|] == dropped;
  }

  /**
   * In the cleanup loop, the pidfile of every dropped key is killed exactly
   * once, and the pidfile of a key that stays is not killed at all.
   */
  lemma {:induction false} KillsOnce(st: State, dropped: seq<Key>, k: Key)
    requires ValidState(st) && k in st
    requires forall i :: 0 <= i < |dropped| ==> dropped[i] in st
    requires forall i, j :: 0 <= i < j < |dropped| ==> dropped[i] != dropped[j]
    ensures multiset(Kills(st, dropped))[Kill(PidFile(k))] == if k in dropped then 1 else 0
    decreases |dropped|
  {
    if dropped != [] {
      var front, last := dropped[..|dropped| - 1], dropped[|dropped| - 1];
      KillsOnce(st, front, k);
      assert k in dropped <==> k in front || k == last;
      if k != last {
        PathsDistinct(k, last);
      } else {
        assert k !in front;
      }
    }
  }

  // ------------------------------------------------------------ the backend

  /** A pen backend: its settings, its per-key records, and the log of what it has done. */
  class PenBackend {
    const cfgTemplate: string
    const maxServers: int
    const maxClients: int
    const user: string
    var state: State
    var effects: seq<Effect>

    function Config(): Settings {
      Settings(cfgTemplate, maxServers, maxClients, user)
    }

    ghost predicate Valid()
      reads this
    {
      ValidState(state)
    }

    constructor (cfgTemplate: string, maxServers: int, maxClients: int, user: string)
      ensures Config() == Settings(cfgTemplate, maxServers, maxClients, user)
      ensures Valid() && state == map[] && effects == []
    {
      this.cfgTemplate := cfgTemplate;
      this.maxServers := maxServers;
      this.maxClients := maxClients;
      this.user := user;
      this.state := map[];
      this.effects := [];
    }

    /** `_ensure`: keeps, reloads or respawns the pen process for one service. */
    method Ensure(
      service: Service, prev: Option<Record>, alive: string -> bool, hangup: string -> bool, render: Render)
      returns (next: Record)
      modifies this`effects
      ensures next == EnsureRecord(service, prev, alive)
      ensures effects == old(effects) + EnsureEffects(Config(), render, service, prev, alive, hangup)
    {
      if prev.Some? && prev.value.servers == service.servers && alive(prev.value.pidfile) {
        return prev.value;
      }
      var filename := "pen-" + IntToString(service.port) + "-" + service.protocol;
      var cfgfile := "/tmp/" + filename + ".cfg";
      var pidfile := "/tmp/" + filename + ".pid";
      var ctlfile := "/tmp/" + filename + ".ctl";
      var cmd := [
        "pen", "pen",
        "-u", user,
        "-c", IntToString(maxClients),
        "-S", IntToString(maxServers),
        "-F", cfgfile,
        "-p", pidfile,
        "-C", ctlfile];
      if service.protocol == "udp" {
        cmd := cmd + ["-U"];
      }
      cmd := cmd + [IntToString(service.port)];
      assert cfgfile == CfgFile(KeyOf(service)) && pidfile == PidFile(KeyOf(service));
      assert cmd == StartCommand(Config(), KeyOf(service));
      next := Record(pidfile, service.servers);

      var config := render(cfgTemplate, service, maxServers);
      effects := effects + [WriteConfig(cfgfile, config)];

      var reloaded := false;
      if prev.Some? {
        effects := effects + [Hangup(prev.value.pidfile)];
        reloaded := hangup(prev.value.pidfile);
      }
      if !reloaded {
        if prev.Some? {
          effects := effects + [Kill(prev.value.pidfile)];
        }
        effects := effects + [Spawn(cmd)];
      }
    }

    /** The first loop of `update`: ensures every service, collecting the records for the new state. */
    method EnsureAll(values: seq<Service>, alive: string -> bool, hangup: string -> bool, render: Render)
      returns (next: State)
      modifies this`effects
      ensures next == ConvergeState(values, state, alive)
      ensures effects == old(effects) + ConvergeEffects(Config(), render, values, state, alive, hangup)
    {
      next := map[];
      for i := 0 to |values|
        invariant next == ConvergeState(values[..i], state, alive)
        invariant effects == old(effects) + ConvergeEffects(Config(), render, values[..i], state, alive, hangup)
      {
        var service := values[i];
        var key := KeyOf(service);
        ghost var done := ConvergeEffects(Config(), render, values[..i], state, alive, hangup);
        var rec := Ensure(service, Prior(state, key), alive, hangup, render);
        next := next[key := rec];
        ConvergeSnoc(Config(), render, values, i, state, alive, hangup);
        AppendAssoc(old(effects), done, EnsureEffects(Config(), render, service, Prior(state, key), alive, hangup));
      }
      assert values[..|values|] == values;
    }

    /** The second loop of `update`: kills the process of every recorded key that is not in `next`. */
    method KillDropped(next: State)
      modifies this`effects
      ensures exists dropped ::
        (Enumerates(dropped, state.Keys - next.Keys) && effects == old(effects) + Kills(state, dropped))
    {
      ghost var dropped: seq<Key> := [];
      var remaining := state.Keys;
      while remaining != {}
        invariant remaining <= state.Keys
        invariant Enumerates(dropped, (state.Keys - remaining) - next.Keys)
        invariant effects == old(effects) + Kills(state, dropped)
        decreases |remaining|
      {
        var key :| key in remaining;
        if key !in next {
          KillsSnoc(state, dropped, key);
          AppendAssoc(old(effects), Kills(state, dropped), [Kill(state[key].pidfile)]);
          effects := effects + [Kill(state[key].pidfile)];
          dropped := dropped + [key];
        }
        remaining := remaining - {key};
      }
      assert (state.Keys - remaining) - next.Keys == state.Keys - next.Keys;
    }

    /**
     * `update`: reconciles every service of the snapshot (in `order`, the
     * dictionary's iteration order), kills the processes of keys that
     * disappeared, replaces the state and returns the snapshot.
     */
    method Update(
      services: map<string, Service>, order: seq<string>,
      alive: string -> bool, hangup: string -> bool, render: Render)
      returns (r: map<string, Service>)
      requires Valid()
      requires Enumerates(order, services.Keys)
      modifies this`state, this`effects
      ensures Valid()
      ensures r == services
      ensures state == ConvergeState(ValuesInOrder(services, order), old(state), alive)
      ensures exists dropped ::
        (Enumerates(dropped, old(state).Keys - state.Keys)
         && effects == old(effects)
              + ConvergeEffects(Config(), render, ValuesInOrder(services, order), old(state), alive, hangup)
              + Kills(old(state), dropped))
    {
      var values := ValuesInOrder(services, order);
      var next := EnsureAll(values, alive, hangup, render);
      ConvergeValid(values, state, alive);
      KillDropped(next);
      state := next;
      return services;
    }
  }
}
