/**
  The Docker side of one deployment: which compose command form is available,
  whether Docker can be used without elevated privilege, whether any service the
  compose file declares is running, and the rebuild/restart policy that
  `manage_docker_deploy` applies to a directory.
 */
module Docker {
  import opened Effects

  /** What `docker-compose.yml` in a directory yields. */
  datatype ComposeFile =
    | Absent                        // no such file
    | Unreadable                    // reading it, taking `config["services"]` or iterating that raises
    | Services(names: seq<string>)  // what iterating `config["services"]` yields (a mapping's keys)

  // ---------------------------------------------------------------------------
  // Environment probes

  /** The compose command prefix: `docker-compose` when that binary is on PATH,
      else the `docker compose` plugin form, else None (the source raises). */
  function WhichDockerCompose(env: Env): (r: Option<seq<string>>)
    ensures r.Some? <==> "docker-compose" in env.onPath || "docker" in env.onPath
    ensures r.Some? ==> |r.value| > 0 && r.value[0] in env.onPath
    ensures "docker-compose" in env.onPath ==> r == Some(["docker-compose"])
    ensures r.Some? && "docker-compose" !in env.onPath ==> r.value == ["docker", "compose"]
  {
    if "docker-compose" in env.onPath then Some(["docker-compose"])
    else if "docker" in env.onPath then Some(["docker", "compose"])
    else None
  }

  /** `docker` is on PATH. Then the compose lookup always finds a tool; without
      it, only a standalone `docker-compose` can be found. */
  function SystemHasDocker(env: Env): (r: bool)
    ensures r ==> WhichDockerCompose(env).Some?
    ensures !r ==> WhichDockerCompose(env) != Some(["docker", "compose"])
  {
    "docker" in env.onPath
  }

  const PermissionDenied: string := "permission denied"

  /** `needle` occurs in `hay` starting at index `i`. */
  ghost predicate OccursAt(hay: string, needle: string, i: int) {
    0 <= i && i + |needle| <= |hay| && hay[i..i + |needle|] == needle
  }

  /** Python's substring test `needle in hay`. */
  function Contains(hay: string, needle: string): bool
    decreases |hay|
  {
    if |hay| < |needle| then false
    else hay[..|needle|] == needle || Contains(hay[1..], needle)
  }

  lemma {:induction false} ContainsIff(hay: string, needle: string)
    ensures Contains(hay, needle) <==> exists i :: OccursAt(hay, needle, i)
    decreases |hay|
  {
    if |hay| >= |needle| {
      if hay[..|needle|] == needle {
        assert OccursAt(hay, needle, 0);
        return;
      }
      ContainsIff(hay[1..], needle);
      if Contains(hay[1..], needle) {
        var i :| OccursAt(hay[1..], needle, i);
        assert hay[i + 1..i + 1 + |needle|] == hay[1..][i..i + |needle|];
        assert OccursAt(hay, needle, i + 1);
      } else {
        forall i | 0 < i && i + |needle| <= |hay|
          ensures OccursAt(hay, needle, i) ==> OccursAt(hay[1..], needle, i - 1)
        {
          assert hay[1..][i - 1..i - 1 + |needle|] == hay[i..i + |needle|];
        }
      }
    }
  }

  /** `docker ps` ran and its standard error does not contain "permission denied";
      a subprocess that cannot be started counts as not executable. */
  predicate CanExecuteDockerCompose(env: Env) {
    match env.ps
    case PsRaised => false
    case PsRan(stderr) => !Contains(stderr, PermissionDenied)
  }

  /** Docker is usable exactly when `docker ps` could be run and "permission
      denied" occurs nowhere in what it wrote to standard error. */
  lemma CanExecuteIff(env: Env)
    ensures CanExecuteDockerCompose(env) <==> env.ps.PsRan? && !exists i :: OccursAt(env.ps.stderr, PermissionDenied, i)
  {
    if env.ps.PsRan? {
      ContainsIff(env.ps.stderr, PermissionDenied);
    }
  }

  /** A `docker-compose.yml` file exists; whether it can be read or parsed is
      not looked at here. */
  function HasDockerSpec(spec: ComposeFile): (r: bool)
    ensures r <==> spec.Unreadable? || spec.Services?
  {
    !spec.Absent?
  }

  // ---------------------------------------------------------------------------
  // Which declared services are running

  /** Lists the running containers and compares each name with `name` for
      exact equality. None: listing the containers raised. */
  method ServiceIsRunning(daemon: Daemon, name: string) returns (r: Option<bool>)
    ensures r.None? <==> daemon.Unreachable?
    ensures daemon.Listing? ==> r == Some(name in daemon.names)
  {
    if daemon.Unreachable? {
      return None;
    }
    var containers := daemon.names;
    var i := 0;
    while i < |containers|
      invariant 0 <= i <= |containers|
      invariant name !in containers[..i]
    {
      if containers[i] == name {
        return Some(true);
      }
      assert containers[..i + 1] == containers[..i] + [containers[i]];
      i := i + 1;
    }
    assert containers[..i] == containers;
    return Some(false);
  }

  /** The outcome of scanning the declared services: Some(b) where b says whether
      some declared service name is exactly the name of a running container, or
      None when a listing was needed and raised. */
  function ScanOutcome(daemon: Daemon, services: seq<string>): Option<bool> {
    if |services| == 0 then Some(false)
    else match daemon
      case Unreachable => None
      case Listing(names) => Some(exists i :: 0 <= i < |services| && services[i] in names)
  }

  /** The loop of `manage_docker_deploy` that sets `any_services_running`;
      `queried` counts the calls of `service_is_running`: the scan stops at the
      first declared service that is running. */
  method AnyServicesRunning(daemon: Daemon, services: seq<string>) returns (r: Option<bool>, queried: nat)
    ensures r == ScanOutcome(daemon, services)
    ensures queried <= |services|
    ensures daemon.Listing? ==> forall j :: 0 <= j < queried - 1 ==> services[j] !in daemon.names
    ensures r == Some(true) ==> 0 < queried && daemon.Listing? && services[queried - 1] in daemon.names
    ensures r == Some(false) ==> queried == |services|
    ensures r.None? ==> queried == 1
  {
    var anyServicesRunning := false;
    queried := 0;
    while queried < |services|
      invariant queried <= |services|
      invariant 0 < queried ==> daemon.Listing?
      invariant daemon.Listing? ==> forall j :: 0 <= j < queried ==> services[j] !in daemon.names
    {
      var running := ServiceIsRunning(daemon, services[queried]);
      queried := queried + 1;
      if running.None? {
        return None, queried;
      }
      if running.value {
        anyServicesRunning := true;
        break;
      }
    }
    r := Some(anyServicesRunning);
  }

  // ---------------------------------------------------------------------------
  // The deployment policy

  datatype Decision = Decision(rebuild: bool, restart: bool)

  /** The rebuild/restart table for a stack that is deployed (some service is
      running, or `deploy_all` is set): with nothing running everything is
      rebuilt and restarted; a running stack is rebuilt when the checkout moved
      or a rebuild is forced, and restarted when the checkout moved or a restart
      is forced. */
  function Decide(didUpdate: bool, forceRestart: bool, forceRebuild: bool, anyRunning: bool): Decision {
    if !anyRunning then Decision(true, true)
    else Decision(didUpdate || forceRebuild, didUpdate || forceRestart)
  }

  /** The compose commands that carry out a decision in `dir`. */
  function Execute(dir: Path, tool: seq<string>, d: Decision): seq<Action> {
    (if d.rebuild then [Build(dir, tool)] else [])
    + (if d.restart then [Down(dir, tool), Up(dir, tool)] else [])
  }

  /** Everything `manage_docker_deploy` does in `dir` up to its return or the
      exception it raises. */
  function DeployTrace(env: Env, dir: Path, didUpdate: bool, forceRestart: bool, forceRebuild: bool,
                       deployAll: bool, spec: ComposeFile): seq<Action>
  {
    if !SystemHasDocker(env) then [Skip(dir, NoDocker)]
    else if !HasDockerSpec(spec) then [Skip(dir, NoSpec)]
    else if !CanExecuteDockerCompose(env) then [Skip(dir, NeedsSudo)]
    else if !env.client || spec.Unreadable? then []
    else match ScanOutcome(env.daemon, spec.names)
      case None => []
      case Some(anyRunning) =>
        if !anyRunning && !deployAll then [Skip(dir, NothingRunning)]
        else Execute(dir, WhichDockerCompose(env).value, Decide(didUpdate, forceRestart, forceRebuild, anyRunning))
  }

  /** `manage_docker_deploy` raises: the prerequisites pass but the Docker
      client cannot be created, the compose file cannot be read, or the
      container listing fails. */
  predicate DeployRaises(env: Env, spec: ComposeFile) {
    && Prerequisites(env, spec)
    && (!env.client || spec.Unreadable? || ScanOutcome(env.daemon, spec.names).None?)
  }

  /** The prerequisites `manage_docker_deploy` checks before any compose command. */
  predicate Prerequisites(env: Env, spec: ComposeFile) {
    SystemHasDocker(env) && HasDockerSpec(spec) && CanExecuteDockerCompose(env)
  }

  method ManageDockerDeploy(h: Host, dir: Path, didUpdate: bool, forceRestart: bool, forceRebuild: bool,
                            deployAll: bool, spec: ComposeFile) returns (raised: bool)
    modifies h
    ensures raised == DeployRaises(h.env, spec)
    ensures h.trace == old(h.trace) + DeployTrace(h.env, dir, didUpdate, forceRestart, forceRebuild, deployAll, spec)
  {
    if !SystemHasDocker(h.env) {
      h.Emit(Skip(dir, NoDocker));
      return false;
    }
    if !HasDockerSpec(spec) {
      h.Emit(Skip(dir, NoSpec));
      return false;
    }
    if !CanExecuteDockerCompose(h.env) {
      h.Emit(Skip(dir, NeedsSudo));
      return false;
    }
    if !h.env.client {
      return true;
    }
    if spec.Unreadable? {
      return true;
    }
    var scan, _ := AnyServicesRunning(h.env.daemon, spec.names);
    if scan.None? {
      return true;
    }
    var anyServicesRunning := scan.value;
    if !anyServicesRunning && !deployAll {
      h.Emit(Skip(dir, NothingRunning));
      return false;
    }
    var rebuild, restart := forceRebuild, forceRestart;
    if !anyServicesRunning && deployAll {
      rebuild, restart := true, true;
    }
    var tool := WhichDockerCompose(h.env).value;
    if didUpdate || rebuild {
      h.Emit(Build(dir, tool));
    }
    if didUpdate || restart {
      h.Emit(Down(dir, tool));
      h.Emit(Up(dir, tool));
    }
    return false;
  }

  // ---------------------------------------------------------------------------
  // Properties of the policy

  /** Docker presence, then the compose file, then executability are checked in
      that order; the first that fails ends the deployment with no compose command. */
  lemma PrerequisiteGate(env: Env, dir: Path, didUpdate: bool, forceRestart: bool, forceRebuild: bool,
                         deployAll: bool, spec: ComposeFile)
    ensures !SystemHasDocker(env) ==>
      DeployTrace(env, dir, didUpdate, forceRestart, forceRebuild, deployAll, spec) == [Skip(dir, NoDocker)]
    ensures SystemHasDocker(env) && !HasDockerSpec(spec) ==>
      DeployTrace(env, dir, didUpdate, forceRestart, forceRebuild, deployAll, spec) == [Skip(dir, NoSpec)]
    ensures SystemHasDocker(env) && HasDockerSpec(spec) && !CanExecuteDockerCompose(env) ==>
      DeployTrace(env, dir, didUpdate, forceRestart, forceRebuild, deployAll, spec) == [Skip(dir, NeedsSudo)]
    ensures !Prerequisites(env, spec) ==>
      !DeployRaises(env, spec) && NoCompose(DeployTrace(env, dir, didUpdate, forceRestart, forceRebuild, deployAll, spec))
  {
  }

  /** Once the prerequisites pass, the Docker client is created before anything
      else: when that fails the deployment raises, with no compose command, even
      when the compose file declares no service. */
  lemma ClientFailureRaises(env: Env, dir: Path, didUpdate: bool, forceRestart: bool, forceRebuild: bool,
                            deployAll: bool, spec: ComposeFile)
    requires Prerequisites(env, spec) && !env.client
    ensures DeployRaises(env, spec)
    ensures DeployTrace(env, dir, didUpdate, forceRestart, forceRebuild, deployAll, spec) == []
  {
  }

  /** With the client created and a compose file declaring no service, nothing
      is queried and nothing is running: the stack is deployed only under
      `deploy_all`. */
  lemma NoServicesDeclared(env: Env, dir: Path, didUpdate: bool, forceRestart: bool, forceRebuild: bool, deployAll: bool)
    requires Prerequisites(env, Services([])) && env.client
    ensures !DeployRaises(env, Services([]))
    ensures var t := DeployTrace(env, dir, didUpdate, forceRestart, forceRebuild, deployAll, Services([]));
      var tool := WhichDockerCompose(env).value;
      t == if deployAll then [Build(dir, tool), Down(dir, tool), Up(dir, tool)] else [Skip(dir, NothingRunning)]
  {
  }

  /** A stack with nothing running is left untouched unless `deploy_all` is set,
      whatever `did_update` and the force flags say. */
  lemma NothingRunningIsLeftAlone(env: Env, dir: Path, didUpdate: bool, forceRestart: bool, forceRebuild: bool,
                                  spec: ComposeFile)
    requires Prerequisites(env, spec) && env.client && spec.Services?
    requires ScanOutcome(env.daemon, spec.names) == Some(false)
    ensures DeployTrace(env, dir, didUpdate, forceRestart, forceRebuild, false, spec) == [Skip(dir, NothingRunning)]
    ensures NoCompose(DeployTrace(env, dir, didUpdate, forceRestart, forceRebuild, false, spec))
  {
  }

  /** With nothing running and `deploy_all` set, the stack is built, stopped and
      started, in that order. */
  lemma DeployAllStartsEverything(env: Env, dir: Path, didUpdate: bool, forceRestart: bool, forceRebuild: bool,
                                  spec: ComposeFile)
    requires Prerequisites(env, spec) && env.client && spec.Services?
    requires ScanOutcome(env.daemon, spec.names) == Some(false)
    ensures var tool := WhichDockerCompose(env).value;
      DeployTrace(env, dir, didUpdate, forceRestart, forceRebuild, true, spec)
        == [Build(dir, tool), Down(dir, tool), Up(dir, tool)]
  {
  }

  /** A running stack is rebuilt exactly when the checkout moved or a rebuild is
      forced, and restarted (down, then up) exactly when the checkout moved or a
      restart is forced; the two force flags are independent. */
  lemma RunningStackPolicy(env: Env, dir: Path, didUpdate: bool, forceRestart: bool, forceRebuild: bool,
                           deployAll: bool, spec: ComposeFile)
    requires Prerequisites(env, spec) && env.client && spec.Services?
    requires ScanOutcome(env.daemon, spec.names) == Some(true)
    ensures var tool := WhichDockerCompose(env).value;
      var t := DeployTrace(env, dir, didUpdate, forceRestart, forceRebuild, deployAll, spec);
      && (Build(dir, tool) in t <==> didUpdate || forceRebuild)
      && (Down(dir, tool) in t <==> didUpdate || forceRestart)
      && (Up(dir, tool) in t <==> didUpdate || forceRestart)
      && (forceRebuild && !didUpdate && !forceRestart ==> t == [Build(dir, tool)])
      && (!forceRebuild && !didUpdate && !forceRestart ==> t == [])
  {
  }

  /** Every deployment issues at most one build, first, and a down is always
      followed at once by an up, and an up always preceded at once by a down.
      The build's exit status is not consulted: the restart does not depend on it. */
  lemma DownImmediatelyBeforeUp(env: Env, dir: Path, didUpdate: bool, forceRestart: bool, forceRebuild: bool,
                                deployAll: bool, spec: ComposeFile)
    ensures var t := DeployTrace(env, dir, didUpdate, forceRestart, forceRebuild, deployAll, spec);
      && (forall i :: 0 <= i < |t| && t[i].Down? ==> i + 1 < |t| && t[i + 1].Up?)
      && (forall i :: 0 <= i < |t| && t[i].Up? ==> 0 < i && t[i - 1].Down?)
      && (forall i :: 0 <= i < |t| && t[i].Build? ==> i == 0)
      && |t| <= 3
  {
  }

  /** Only a running container whose name is exactly the declared service name
      counts: `proj-web-1` running does not make service `web` running. */
  lemma ExactNameMatch()
    ensures ScanOutcome(Listing(["proj-web-1", "proj-api-1"]), ["web"]) == Some(false)
    ensures ScanOutcome(Listing(["proj-web-1", "web"]), ["db", "web"]) == Some(true)
  {
    assert ScanOutcome(Listing(["proj-web-1", "web"]), ["db", "web"]) == Some(true) by {
      var names := ["proj-web-1", "web"];
      var services := ["db", "web"];
      assert services[1] in names;
    }
  }

  /** A deployment only acts on its own directory: compose commands and skip notes. */
  lemma DeployStaysInDirectory(env: Env, dir: Path, didUpdate: bool, forceRestart: bool, forceRebuild: bool,
                               deployAll: bool, spec: ComposeFile)
    ensures var t := DeployTrace(env, dir, didUpdate, forceRestart, forceRebuild, deployAll, spec);
      forall i :: 0 <= i < |t| ==> (t[i].IsCompose() || t[i].Skip?) && t[i].dir == dir
  {
  }
}
