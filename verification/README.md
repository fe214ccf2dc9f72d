# git-docker-deploy, modelled in Dafny

git-docker-deploy walks a directory. For every Git checkout it finds, it:

- reports the commits the remote branch has and the checkout lacks, and pulls
  them unless pulling is suppressed;
- then redeploys the directory's Docker Compose stack, following a policy:
  - a stack with no service running is left alone unless `deploy_all` is set;
  - a running stack is rebuilt after a pull or when a rebuild is forced;
  - a running stack is stopped and started again after a pull or when a
    restart is forced.

Before the walk, a global check exits with status 1 when Docker is missing,
`docker ps` cannot be run, or Docker needs elevated privilege, unless
deployment is skipped. An exception inside
one repository's pipeline is logged and the walk goes on. Listing a directory
is not guarded: when `os.listdir` raises, the exception ends the whole run.

The repository also keeps `main.py`, the single-file script the package grew
out of. Its policy differs:
- it always builds after a pull and always runs `up -d`;
- it never stops a stack;
- it returns instead of exiting;
- it walks into every directory.

The model records what a run does as a trace of actions (`Effects.Action`),
kept in the `trace` field of a `Host` object. Each imperative procedure of the
source is a method that appends to the trace. Each method is proved to append
exactly what a specification function of the inputs says. The properties of
the policy are lemmas about those functions.

The world the source asks about is an input:
- which executables are on `PATH`;
- what `docker ps` wrote to standard error;
- the names of the running containers;
- the services of each `docker-compose.yml`;
- for each checkout: the dirty flag, the pending commits, and where (if
  anywhere) a Git call raises;
- the directory tree, as `Integration.Entry`, where each directory's
  `Integration.Listing` is either its entries or the listing raising.

Files:
- `effects.dfy`: actions, environment, `Host`.
- `docker.dfy`: `lib/docker.py`.
- `git.dfy`: `lib/git.py`.
- `integration.dfy`: `lib/integration.py`.
- `legacy.dfy`: the script's own `process_dir` and `update_git_and_docker` from `main.py`. The script's `update_git`, `which_docker_compose`, `system_has_docker`, `can_execute_docker_compose`, `has_docker_spec` and `is_valid_repo` behave exactly like the package's, so `Legacy` reuses the `Git` and `Docker` members for them.

`service_is_running` compares each running container's name with the service
name for exact equality, so a container named `proj-web-1` does not make
service `web` running (`Docker.ExactNameMatch`).

## Model

| member | source | states |
|---|---|---|
| Docker.WhichDockerCompose | lib/docker.py:9-23 | a tool is found iff `docker-compose` or `docker` is on PATH; `docker-compose` wins whenever present; otherwise `docker compose`; the first word is always an executable on PATH |
| Docker.SystemHasDocker | lib/docker.py:28-29 | with `docker` on PATH the compose tool lookup finds a tool; without it the lookup never falls back to `docker compose` |
| Docker.ContainsIff | lib/docker.py:40 | the substring test is true iff the needle occurs at some index of the haystack |
| Docker.CanExecuteIff | lib/docker.py:32-48 | Docker is usable iff `docker ps` could be started and "permission denied" occurs nowhere in its standard error |
| Docker.HasDockerSpec | lib/docker.py:51-52 | a compose file is found iff one exists, readable or not |
| Docker.ServiceIsRunning | lib/docker.py:55-62 | None iff the listing raises; otherwise true iff some running container's name equals the service name exactly |
| Docker.AnyServicesRunning | lib/docker.py:100-106 | the result is true iff some declared service is running; the scan stops at the first running service, and a failed listing ends it after one query |
| Docker.ManageDockerDeploy | lib/docker.py:76-138 | raises exactly when the prerequisites pass and creating the Docker client, reading the compose file or listing the containers fails; appends exactly the deployment trace |
| Docker.PrerequisiteGate | lib/docker.py:83-93 | Docker presence, then the compose file, then executability; the first failure is the only action and no compose command follows |
| Docker.ClientFailureRaises | lib/docker.py:98 | once the prerequisites pass, a failing `docker.from_env()` raises before any compose command, whatever the compose file declares |
| Docker.NoServicesDeclared | lib/docker.py:98-116 | with a working client and no declared service, nothing counts as running: the skip note alone, or build, down, up with `deploy_all` |
| Docker.NothingRunningIsLeftAlone | lib/docker.py:108-110 | with a working client, nothing running and no `deploy_all`, the trace is the skip note alone, whatever `did_update` and the force flags are |
| Docker.DeployAllStartsEverything | lib/docker.py:112-136 | with a working client, nothing running and `deploy_all`, the trace is exactly build, down, up |
| Docker.RunningStackPolicy | lib/docker.py:118-138 | on a running stack: build iff `did_update` or `force_rebuild`; down and up iff `did_update` or `force_restart`; `force_rebuild` alone gives a build only |
| Docker.DownImmediatelyBeforeUp | lib/docker.py:118-136 | a down is always directly followed by an up and an up directly preceded by a down; a build can only come first; at most three commands |
| Docker.ExactNameMatch | lib/docker.py:59 | a container named `proj-web-1` does not make service `web` running; a container named `web` does |
| Docker.DeployStaysInDirectory | lib/docker.py:76-138 | every action of a deployment is a compose command or a skip note for that directory |
| Git.IsValidRepo | lib/git.py:53-57 | false for a non-directory, false when opening the repository raises, true otherwise |
| Git.TrimStartSpec | lib/git.py:27 | stripping the front drops exactly a whitespace prefix and keeps a suffix not starting with whitespace |
| Git.TrimEndSpec | lib/git.py:27 | stripping the end drops exactly a whitespace suffix and keeps a prefix not ending with whitespace |
| Git.StripSpec | lib/git.py:27 | `strip()` keeps a contiguous middle part with no whitespace at either end and only whitespace around it |
| Git.FirstLineSpec | lib/git.py:41 | `split("\n")[0]` is the prefix up to the first line feed and holds no line feed |
| Git.SummaryIsFirstLine | lib/git.py:41 | a commit summary contains no newline, is a prefix of the stripped message, equals it when that is one line, and does not start with whitespace |
| Git.ReportsAt | lib/git.py:40-42 | one incoming-commit line per pending commit, the i-th line for the i-th commit |
| Git.UpdateGit | lib/git.py:24-50 | returns what the update decision says and appends the dirty note, the commit lines and the pull as the trace function says |
| Git.PullPolicy | lib/git.py:44-50 | true is returned iff pulling is not suppressed, commits are pending and no Git call raises; the pull happens iff true is returned |
| Git.SkipPullChangesNothing | lib/git.py:44-50 | with `skip_pull` there is never a pull and the result is false (or an exception) even with commits pending |
| Git.EveryPendingCommitReported | lib/git.py:40-42 | after the dirty note, every pending commit's summary is reported, in list order, pull or no pull |
| Git.DirtyOnlyReported | lib/git.py:32-33 | the dirty flag changes neither the result nor whether a pull happens; it is reported iff the checkout is dirty |
| Git.UpdateGitStaysInDirectory | lib/git.py:24-50 | the update only reports and pulls in its own directory |
| Integration.ProcessDir | lib/integration.py:7-29 | appends the update's trace, then (unless deployment is skipped) the deployment's, and an error note for the directory when either raises |
| Integration.DeployAfterUpdate | lib/integration.py:24-29 | the deployment half of the pipeline with its exception caught |
| Integration.UpdateGitAndDocker | lib/integration.py:32-67 | exits exactly when the global check fails; reports whether the run ended (an exit, or a directory that cannot be listed); appends exactly the walk's trace |
| Integration.WalkProcessesVisited | lib/integration.py:48-67 | once the global check passes, the walk is the pipelines of the reachable repositories in walk order, each run with the options the walk started with, up to the first directory that cannot be listed, whose exception ends the trace |
| Integration.VisitedBelow | lib/integration.py:49-67 | every processed repository lies below the walked directory; without `recurse`, only immediate entries are processed |
| Integration.PreconditionFailureExits | lib/integration.py:37-45 | with deployment on and Docker missing or unusable, the whole trace is exit status 1 |
| Integration.SkipDeployIgnoresDocker | lib/integration.py:37 | with `skip_deploy`, the walk is the same in every Docker environment and issues no compose command and no exit |
| Integration.ProcessStaysInDirectory | lib/integration.py:7-29 | a pipeline acts only on its own directory and never ends the run; when Git raises it ends with the error note and issues no compose command |
| Integration.EntriesAppend | lib/integration.py:48-67 | the loop over two runs of entries is the loop over the first, then over the second unless the first ended the run |
| Integration.EntriesStopAt | lib/integration.py:48-67 | once the loop's effects have ended the run, the later entries add nothing |
| Integration.ProcessAllEnded | lib/integration.py:7-29 | a run of repository pipelines never ends the run; it ends exactly when the last step is a directory that cannot be listed |
| Integration.FailureIsolated | lib/integration.py:48-67 | a failure inside a repository's pipeline is caught there: that repository's effects sit between those of the entries before and after it, and the later entries are processed as if it had succeeded |
| Integration.UnlistableDirectoryEndsRun | lib/integration.py:48-67 | a directory reached with `recurse` whose listing raises ends the whole run: its exception is the last action and no later entry is looked at |
| Integration.RepositoryNotEntered | lib/integration.py:53-56 | a valid repository is processed and never walked into |
| Integration.FileIsNeverRepository | lib/git.py:53-57 | a plain file is never taken for a repository |
| Integration.NonRepositoryEntry | lib/integration.py:57-67 | another directory is walked into, with the same options, iff `recurse` holds; anything else contributes nothing |
| Integration.DeployReceivesDidUpdate | lib/integration.py:16-26 | unless deployment is skipped, a successful update is followed by the deployment for `did_update` = "the pull happened" |
| Integration.CleanPipeline | lib/integration.py:16-26 | when neither the update nor the deployment raises, the pipeline is the update's trace followed by the deployment's, with no error note |
| Integration.RebuildExactlyAfterPull | lib/integration.py:16-26 | on a running stack without forced rebuild, a pipeline builds iff it pulled, whether or not Git raises |
| Integration.EndToEndScenario | lib/integration.py:32-67 | a worked two-level tree: the exact trace of a recursive walk with deployment skipped |
| Legacy.LegacyProcessDir | main.py:140-176 | appends the update's trace, then (unless deployment is skipped) the script's deployment, or an error note when the update raises |
| Legacy.LegacyDeploy | main.py:147-174 | appends the first failing prerequisite's skip note, or a build when the checkout moved followed by `up -d` |
| Legacy.LegacyUpdateGitAndDocker | main.py:179-209 | appends exactly the script's walk trace; reports whether a directory that cannot be listed ended the run |
| Legacy.LegacyBuildOnlyOnUpdate | main.py:160-174 | with the prerequisites met, a build happens iff `did_update`, `up -d` always ends the deployment, no down ever happens, and the running containers are never consulted |
| Legacy.LegacyRebuildExactlyAfterPull | main.py:143-165 | with deployment on and the prerequisites met, a pipeline builds iff it pulled, whether or not Git raises |
| Legacy.LegacyPrerequisiteGate | main.py:147-158 | with deployment on and Docker missing, the compose file missing or Docker unusable, the pipeline issues no compose command, and after a successful update it ends with the skip note of the first failing check |
| Legacy.LegacyFailureContained | main.py:141-176 | a pipeline acts only on its own directory; when Git raises it ends with the error note and issues no compose command |
| Legacy.LegacyNeverDownNorExit | main.py:179-209 | no down and no exit anywhere in the script's walk, at any depth (an unlistable directory still ends the run with its exception) |
| Legacy.LegacyVisitsAll | main.py:191-209 | once the global check passes, every repository reachable through non-repository directories is processed, as with `recurse` on, up to the first directory that cannot be listed |
| Legacy.LegacyGateFailureReturns | main.py:180-188 | a failed global check yields only the skip note for the walked directory, naming the first check that failed, without listing it; once the check passes, an unlistable directory yields only its exception |

## Left out

- The real Git, Docker SDK, YAML, `os.listdir`, `shutil.which` and `subprocess` calls are inputs or recorded actions. Fetching and commit ancestry (`get_remote_commits`) are not modelled: the pending list is given.
- The checkout's change from a pull is represented by the `Pull` action alone. No mutable checkout object is modelled.
- The environment is constant during one run. A PATH or daemon change between two probes is not modelled.
- Log and print text, emoji and log levels are left out. Only the dirty note, one summary line per incoming commit, skip reasons and error notes are kept as actions. The "local commit" line and the "up to date" line are not kept.
- The exit status of `build`, `down` and `up` is not read by the source and is not modelled. A compose subprocess that cannot be started is not modelled either: the tool name comes from PATH.
- Whether `docker.from_env()` succeeds is one flag of the environment (`Effects.Env.client`). The source fetches each container again by id before comparing names; the model compares the listed names directly.
- A compose file whose `services` key is missing, or holds a value that cannot be iterated (null, a number), is `Unreadable`. Any other value is `Services` of what iterating it yields: a mapping's keys, a list's items, a string's characters. Items are modelled as strings; an item that is not a string (a nested mapping in a list, say) matches no container name, and such items are not represented.
- Filesystem enumeration order is the order of the entry sequence.
- The directory tree is a value in which every path names its own entry. A symbolic-link cycle can be written out as a finite tree unrolled to the depth at which `os.path.isdir` stops following links, but the model does not capture that the copies are one checkout: a repository reached under several paths is pulled at the first and, in the source, finds no pending commits at the later ones, while the model takes each copy's state as given. The `os.path.isdir` and `os.path.join` calls are folded into the entry kind and the path as a sequence of names.
- `lib/args.py`, `lib/logger.py`, `lib/__init__.py`, `__main__.py` and the script's argument parsing are not part of this model. They only parse options, set up logging and wire the entry point.
- The script's `--recurse` option is parsed and never read, so `Legacy.LegacyOptions` has no such field.
