/**
  The single-file script that preceded the packaged tool. It shares the Git
  update, the PATH probes and the `docker ps` check with the package, but its
  deployment always brings the stack up (building first after a pull) without
  looking at what is running, it never stops a stack, a failed global Docker
  check returns instead of exiting, and it walks into every non-repository
  directory whether or not recursion was asked for.
 */
module Legacy {
  import opened Effects
  import opened Docker
  import opened Git
  import opened Integration

  /** The options the script passes down (`--recurse` is parsed but never read). */
  datatype LegacyOptions = LegacyOptions(skipDeploy: bool, skipPull: bool)

  // ---------------------------------------------------------------------------
  // process_dir

  /** The script's deployment of `dir`: the same three prerequisite checks as
      the package, then a build when the checkout was pulled, then `up -d`. */
  function LegacyDeployTrace(env: Env, dir: Path, didUpdate: bool, spec: ComposeFile): seq<Action> {
    if !SystemHasDocker(env) then [Skip(dir, NoDocker)]
    else if !HasDockerSpec(spec) then [Skip(dir, NoSpec)]
    else if !CanExecuteDockerCompose(env) then [Skip(dir, NeedsSudo)]
    else
      var tool := WhichDockerCompose(env).value;
      (if didUpdate then [Build(dir, tool)] else []) + [Up(dir, tool)]
  }

  /** What follows `update_git`, given what it returned (None: it raised). */
  function LegacyAfterUpdate(env: Env, dir: Path, didUpdate: Option<bool>, spec: ComposeFile, opts: LegacyOptions): seq<Action> {
    match didUpdate
    case None => [Error(dir)]
    case Some(did) => if opts.skipDeploy then [] else LegacyDeployTrace(env, dir, did, spec)
  }

  function LegacyProcessTrace(env: Env, dir: Path, c: Checkout, spec: ComposeFile, opts: LegacyOptions): seq<Action> {
    UpdateGitTrace(dir, c, opts.skipPull) + LegacyAfterUpdate(env, dir, UpdateGitResult(c, opts.skipPull), spec, opts)
  }

  method LegacyProcessDir(h: Host, dir: Path, c: Checkout, spec: ComposeFile, opts: LegacyOptions)
    modifies h
    ensures h.trace == old(h.trace) + LegacyProcessTrace(h.env, dir, c, spec, opts)
  {
    ghost var t0 := h.trace;
    var didUpdate := UpdateGit(h, dir, c, opts.skipPull);
    ghost var git := UpdateGitTrace(dir, c, opts.skipPull);
    if didUpdate.None? {
      h.Emit(Error(dir));
    } else if !opts.skipDeploy {
      LegacyDeploy(h, dir, didUpdate.value, spec);
    }
    AppendAssoc(t0, git, LegacyAfterUpdate(h.env, dir, didUpdate, spec, opts));
  }

  /** The deployment half of the script's `process_dir`. */
  method LegacyDeploy(h: Host, dir: Path, didUpdate: bool, spec: ComposeFile)
    modifies h
    ensures h.trace == old(h.trace) + LegacyDeployTrace(h.env, dir, didUpdate, spec)
  {
    if !SystemHasDocker(h.env) {
      h.Emit(Skip(dir, NoDocker));
      return;
    }
    if !HasDockerSpec(spec) {
      h.Emit(Skip(dir, NoSpec));
      return;
    }
    if !CanExecuteDockerCompose(h.env) {
      h.Emit(Skip(dir, NeedsSudo));
      return;
    }
    var tool := WhichDockerCompose(h.env).value;
    if didUpdate {
      h.Emit(Build(dir, tool));
    }
    h.Emit(Up(dir, tool));
  }

  // ---------------------------------------------------------------------------
  // update_git_and_docker

  /** The global check of the script: None when it passes, else the reason it
      gives up on `dir`. */
  function LegacyGate(env: Env, opts: LegacyOptions): Option<SkipReason> {
    if opts.skipDeploy then None
    else if !SystemHasDocker(env) then Some(NoDocker)
    else if !CanExecuteDockerCompose(env) then Some(NeedsSudo)
    else None
  }

  /** The script's walk of `dir`, whose listing is `listing`. As in the
      package, an exception from listing a directory is not caught and ends
      the run. */
  function LegacyWalk(env: Env, opts: LegacyOptions, dir: Path, listing: Listing): seq<Action>
    decreases listing, 1
  {
    match LegacyGate(env, opts)
    case Some(reason) => [Skip(dir, reason)]
    case None =>
      match listing
      case ListFails => [Crash(dir)]
      case Listed(es) => LegacyEntries(env, opts, dir, es)
  }

  function LegacyEntries(env: Env, opts: LegacyOptions, dir: Path, es: seq<Entry>): seq<Action>
    decreases es, 0
  {
    if es == [] then []
    else
      var before := LegacyEntries(env, opts, dir, es[..|es| - 1]);
      if Ended(before) then before else before + LegacyEntryTrace(env, opts, dir, es[|es| - 1])
  }

  function LegacyEntryTrace(env: Env, opts: LegacyOptions, dir: Path, e: Entry): seq<Action>
    decreases e
  {
    var path := dir + [e.name];
    if IsRepoEntry(e) then LegacyProcessTrace(env, path, e.repo.value, e.spec, opts)
    else if e.Dir? then LegacyWalk(env, opts, path, e.children)
    else []
  }

  method LegacyUpdateGitAndDocker(h: Host, dir: Path, listing: Listing, opts: LegacyOptions) returns (ended: bool)
    modifies h
    decreases listing
    ensures ended <==> Ended(LegacyWalk(h.env, opts, dir, listing))
    ensures h.trace == old(h.trace) + LegacyWalk(h.env, opts, dir, listing)
  {
    if !opts.skipDeploy {
      if !SystemHasDocker(h.env) {
        h.Emit(Skip(dir, NoDocker));
        return false;
      }
      if !CanExecuteDockerCompose(h.env) {
        h.Emit(Skip(dir, NeedsSudo));
        return false;
      }
    }
    if listing.ListFails? {
      h.Emit(Crash(dir));
      return true;
    }
    var es := listing.entries;
    for i := 0 to |es|
      invariant h.trace == old(h.trace) + LegacyEntries(h.env, opts, dir, es[..i])
      invariant !Ended(LegacyEntries(h.env, opts, dir, es[..i]))
    {
      var item := es[i];
      var itemPath := dir + [item.name];
      ghost var before := LegacyEntries(h.env, opts, dir, es[..i]);
      LegacyEntriesStep(h.env, opts, dir, es, i);
      if IsValidRepo(item.Dir?, OpenedRepo(item)) {
        LegacyProcessDir(h, itemPath, item.repo.value, item.spec, opts);
        LegacyFailureContained(h.env, itemPath, item.repo.value, item.spec, opts);
        LocalNotEnded(LegacyProcessTrace(h.env, itemPath, item.repo.value, item.spec, opts), itemPath);
      } else if item.Dir? {
        var sub := LegacyUpdateGitAndDocker(h, itemPath, item.children, opts);
        if sub {
          LegacyEntriesStopAt(h.env, opts, dir, es, i + 1);
          AppendAssoc(old(h.trace), before, LegacyEntryTrace(h.env, opts, dir, item));
          return true;
        }
      }
      AppendAssoc(old(h.trace), before, LegacyEntryTrace(h.env, opts, dir, item));
    }
    assert es[..|es|] == es;
    return false;
  }

  /** One more entry, when the run has not ended: its effects follow, and they
      end the run exactly when the entry's own effects do. */
  lemma LegacyEntriesStep(env: Env, opts: LegacyOptions, dir: Path, es: seq<Entry>, i: nat)
    requires i < |es| && !Ended(LegacyEntries(env, opts, dir, es[..i]))
    ensures LegacyEntries(env, opts, dir, es[..i + 1])
      == LegacyEntries(env, opts, dir, es[..i]) + LegacyEntryTrace(env, opts, dir, es[i])
    ensures Ended(LegacyEntries(env, opts, dir, es[..i + 1])) <==> Ended(LegacyEntryTrace(env, opts, dir, es[i]))
  {
    var p := es[..i + 1];
    assert p[..|p| - 1] == es[..i];
    assert p[|p| - 1] == es[i];
    EndedAppend(LegacyEntries(env, opts, dir, es[..i]), LegacyEntryTrace(env, opts, dir, es[i]));
  }

  /** The loop over `a + b` runs over `a`, then, unless that ended the run, over `b`. */
  lemma {:induction false} LegacyEntriesAppend(env: Env, opts: LegacyOptions, dir: Path, a: seq<Entry>, b: seq<Entry>)
    ensures LegacyEntries(env, opts, dir, a + b)
      == if Ended(LegacyEntries(env, opts, dir, a)) then LegacyEntries(env, opts, dir, a)
         else LegacyEntries(env, opts, dir, a) + LegacyEntries(env, opts, dir, b)
    decreases |b|
  {
    if b == [] {
      assert a + b == a;
    } else {
      var init, last := b[..|b| - 1], b[|b| - 1];
      assert (a + b)[..|a + b| - 1] == a + init;
      assert (a + b)[|a + b| - 1] == last;
      LegacyEntriesAppend(env, opts, dir, a, init);
      var ea, ei := LegacyEntries(env, opts, dir, a), LegacyEntries(env, opts, dir, init);
      if !Ended(ea) {
        EndedAppend(ea, ei);
        AppendAssoc(ea, ei, LegacyEntryTrace(env, opts, dir, last));
      }
    }
  }

  /** Once the loop's effects have ended the run, no later entry is looked at. */
  lemma LegacyEntriesStopAt(env: Env, opts: LegacyOptions, dir: Path, es: seq<Entry>, k: nat)
    requires k <= |es| && Ended(LegacyEntries(env, opts, dir, es[..k]))
    ensures LegacyEntries(env, opts, dir, es) == LegacyEntries(env, opts, dir, es[..k])
  {
    assert es == es[..k] + es[k..];
    LegacyEntriesAppend(env, opts, dir, es[..k], es[k..]);
  }

  // ---------------------------------------------------------------------------
  // Properties of the script

  /** Once the prerequisites pass, the script builds exactly when the checkout
      was pulled and always brings the stack up; it never stops it, and what is
      running is never consulted. */
  lemma LegacyBuildOnlyOnUpdate(env: Env, dir: Path, didUpdate: bool, spec: ComposeFile, daemon: Daemon)
    requires Prerequisites(env, spec)
    ensures var tool := WhichDockerCompose(env).value;
      var t := LegacyDeployTrace(env, dir, didUpdate, spec);
      && (Build(dir, tool) in t <==> didUpdate)
      && t[|t| - 1] == Up(dir, tool)
      && (forall i :: 0 <= i < |t| ==> !t[i].Down?)
      && t == LegacyDeployTrace(env.(daemon := daemon), dir, didUpdate, spec)
  {
  }

  /** In a whole pipeline of the script with deployment on and the
      prerequisites met, a build happens exactly when a pull did (when Git
      raises, neither happens). */
  lemma LegacyRebuildExactlyAfterPull(env: Env, dir: Path, c: Checkout, spec: ComposeFile, opts: LegacyOptions)
    requires !opts.skipDeploy
    requires Prerequisites(env, spec)
    ensures var t := LegacyProcessTrace(env, dir, c, spec, opts);
      Build(dir, WhichDockerCompose(env).value) in t <==> Pull(dir) in t
  {
    var tool := WhichDockerCompose(env).value;
    var git := UpdateGitTrace(dir, c, opts.skipPull);
    PullPolicy(dir, c, opts.skipPull);
    GitNeverBuilds(dir, c, opts.skipPull, tool);
    if UpdateGitResult(c, opts.skipPull).Some? {
      var deploy := LegacyDeployTrace(env, dir, UpdateGitResult(c, opts.skipPull).value, spec);
      assert LegacyProcessTrace(env, dir, c, spec, opts) == git + deploy;
      assert Pull(dir) !in deploy;
    }
  }

  /** With deployment on, a failing prerequisite keeps the script's pipeline free
      of compose commands; after a successful update the pipeline ends with the
      skip note of the first check that failed: Docker, then the compose file,
      then executability. */
  lemma LegacyPrerequisiteGate(env: Env, dir: Path, c: Checkout, spec: ComposeFile, opts: LegacyOptions)
    requires !opts.skipDeploy && !Prerequisites(env, spec)
    ensures var t := LegacyProcessTrace(env, dir, c, spec, opts);
      var reason := if !SystemHasDocker(env) then NoDocker else if !HasDockerSpec(spec) then NoSpec else NeedsSudo;
      && NoCompose(t)
      && (UpdateGitResult(c, opts.skipPull).Some? ==> t[|t| - 1] == Skip(dir, reason))
  {
    var git := UpdateGitTrace(dir, c, opts.skipPull);
    var rest := LegacyAfterUpdate(env, dir, UpdateGitResult(c, opts.skipPull), spec, opts);
    GitWithoutCompose(dir, c, opts.skipPull);
    NoComposeAppend(git, rest);
  }

  /** An exception in the script's pipeline is caught for its directory: the
      pipeline ends with the error and issues no compose command, and like every
      pipeline it only acts on its own directory. */
  lemma LegacyFailureContained(env: Env, dir: Path, c: Checkout, spec: ComposeFile, opts: LegacyOptions)
    ensures var t := LegacyProcessTrace(env, dir, c, spec, opts);
      && Local(t, dir)
      && (UpdateGitResult(c, opts.skipPull).None? ==> NoCompose(t) && t[|t| - 1] == Error(dir))
  {
    var git := UpdateGitTrace(dir, c, opts.skipPull);
    var rest := LegacyAfterUpdate(env, dir, UpdateGitResult(c, opts.skipPull), spec, opts);
    UpdateGitStaysInDirectory(dir, c, opts.skipPull);
    assert Local(git, dir) && NoCompose(git);
    assert Local(rest, dir);
    LocalAppend(git, rest, dir);
    if UpdateGitResult(c, opts.skipPull).None? {
      NoComposeAppend(git, rest);
    }
  }

  /** Neither a stop of a stack nor an exit of the process ever happens. */
  predicate NoDownNoExit(t: seq<Action>) {
    forall i :: 0 <= i < |t| ==> !t[i].Down? && !t[i].Exit?
  }

  lemma NoDownNoExitAppend(a: seq<Action>, b: seq<Action>)
    requires NoDownNoExit(a) && NoDownNoExit(b)
    ensures NoDownNoExit(a + b)
  {
  }

  lemma LegacyProcessNoDownNoExit(env: Env, dir: Path, c: Checkout, spec: ComposeFile, opts: LegacyOptions)
    ensures NoDownNoExit(LegacyProcessTrace(env, dir, c, spec, opts))
  {
    UpdateGitStaysInDirectory(dir, c, opts.skipPull);
    NoDownNoExitAppend(UpdateGitTrace(dir, c, opts.skipPull), LegacyAfterUpdate(env, dir, UpdateGitResult(c, opts.skipPull), spec, opts));
  }

  /** The script never stops a stack and never exits, at any depth of the walk:
      a failed global check only returns from the directory being walked. (An
      unlistable directory still ends the run with an uncaught exception.) */
  lemma {:induction false} LegacyNeverDownNorExit(env: Env, opts: LegacyOptions, dir: Path, listing: Listing)
    ensures NoDownNoExit(LegacyWalk(env, opts, dir, listing))
    decreases listing, 1
  {
    if LegacyGate(env, opts).None? && listing.Listed? {
      LegacyEntriesNoDownNoExit(env, opts, dir, listing.entries);
    }
  }

  lemma {:induction false} LegacyEntriesNoDownNoExit(env: Env, opts: LegacyOptions, dir: Path, es: seq<Entry>)
    ensures NoDownNoExit(LegacyEntries(env, opts, dir, es))
    decreases es, 0
  {
    if es != [] {
      var init, last := es[..|es| - 1], es[|es| - 1];
      LegacyEntriesNoDownNoExit(env, opts, dir, init);
      LegacyEntryNoDownNoExit(env, opts, dir, last);
      NoDownNoExitAppend(LegacyEntries(env, opts, dir, init), LegacyEntryTrace(env, opts, dir, last));
    }
  }

  lemma {:induction false} LegacyEntryNoDownNoExit(env: Env, opts: LegacyOptions, dir: Path, e: Entry)
    ensures NoDownNoExit(LegacyEntryTrace(env, opts, dir, e))
    decreases e
  {
    if IsRepoEntry(e) {
      LegacyProcessNoDownNoExit(env, dir + [e.name], e.repo.value, e.spec, opts);
    } else if e.Dir? {
      LegacyNeverDownNorExit(env, opts, dir + [e.name], e.children);
    }
  }

  /** The script's pipelines of the given repositories, one after the other; an
      unlistable directory contributes the exception that ends the run. */
  function LegacyProcessAll(env: Env, opts: LegacyOptions, steps: seq<Step>): seq<Action> {
    if steps == [] then []
    else
      var s := steps[|steps| - 1];
      LegacyProcessAll(env, opts, steps[..|steps| - 1])
        + match s
          case Site(path, checkout, spec) => LegacyProcessTrace(env, path, checkout, spec, opts)
          case Unlistable(path) => [Crash(path)]
  }

  lemma {:induction false} LegacyProcessAllAppend(env: Env, opts: LegacyOptions, a: seq<Step>, b: seq<Step>)
    ensures LegacyProcessAll(env, opts, a + b) == LegacyProcessAll(env, opts, a) + LegacyProcessAll(env, opts, b)
    decreases |b|
  {
    if b != [] {
      assert (a + b)[..|a + b| - 1] == a + b[..|b| - 1];
      LegacyProcessAllAppend(env, opts, a, b[..|b| - 1]);
    } else {
      assert a + b == a;
    }
  }

  /** The script's pipelines never end the run; only an unlistable directory at
      the end does. */
  lemma {:induction false} LegacyProcessAllEnded(env: Env, opts: LegacyOptions, v: seq<Step>)
    requires StopsAtEnd(v)
    ensures Ended(LegacyProcessAll(env, opts, v)) <==> Stopped(v)
    decreases |v|
  {
    if v != [] {
      var init, s := v[..|v| - 1], v[|v| - 1];
      assert StopsAtEnd(init);
      LegacyProcessAllEnded(env, opts, init);
      if s.Site? {
        var t := LegacyProcessTrace(env, s.path, s.checkout, s.spec, opts);
        LegacyFailureContained(env, s.path, s.checkout, s.spec, opts);
        LocalNotEnded(t, s.path);
        EndedAppend(LegacyProcessAll(env, opts, init), t);
        assert !Stopped(init) by {
          if init != [] {
            assert init[|init| - 1] == v[|v| - 2];
          }
        }
      }
    }
  }

  /** Once its global check passes, the script processes every repository it
      can reach through non-repository directories, at any depth, as if
      recursion had been requested, up to the first directory that cannot be
      listed. */
  lemma {:induction false} LegacyVisitsAll(env: Env, opts: LegacyOptions, dir: Path, listing: Listing)
    requires LegacyGate(env, opts).None?
    ensures LegacyWalk(env, opts, dir, listing) == LegacyProcessAll(env, opts, VisitedListing(dir, listing, true))
    decreases listing, 1
  {
    if listing.Listed? {
      LegacyEntriesVisitAll(env, opts, dir, listing.entries);
    } else {
      assert [Unlistable(dir)][..0] == [];
    }
  }

  lemma {:induction false} LegacyEntriesVisitAll(env: Env, opts: LegacyOptions, dir: Path, es: seq<Entry>)
    requires LegacyGate(env, opts).None?
    ensures LegacyEntries(env, opts, dir, es) == LegacyProcessAll(env, opts, Visited(dir, es, true))
    decreases es, 0
  {
    if es != [] {
      var init, last := es[..|es| - 1], es[|es| - 1];
      var v := Visited(dir, init, true);
      LegacyEntriesVisitAll(env, opts, dir, init);
      VisitedShape(dir, init, true);
      LegacyProcessAllEnded(env, opts, v);
      if !Stopped(v) {
        LegacyEntryVisitsAll(env, opts, dir, last);
        LegacyProcessAllAppend(env, opts, v, VisitedIn(dir, last, true));
      }
    }
  }

  lemma {:induction false} LegacyEntryVisitsAll(env: Env, opts: LegacyOptions, dir: Path, e: Entry)
    requires LegacyGate(env, opts).None?
    ensures LegacyEntryTrace(env, opts, dir, e) == LegacyProcessAll(env, opts, VisitedIn(dir, e, true))
    decreases e
  {
    if IsRepoEntry(e) {
      var s := Site(dir + [e.name], e.repo.value, e.spec);
      assert [s][..0] == [];
    } else if e.Dir? {
      LegacyVisitsAll(env, opts, dir + [e.name], e.children);
    }
  }

  /** A failed global check gives up on the walked directory alone: nothing in
      it is looked at, not even its listing, and the reason is the first check
      that failed. Once the check passes, an unlistable directory ends the run. */
  lemma LegacyGateFailureReturns(env: Env, opts: LegacyOptions, dir: Path, listing: Listing)
    ensures !opts.skipDeploy && !SystemHasDocker(env) ==> LegacyWalk(env, opts, dir, listing) == [Skip(dir, NoDocker)]
    ensures !opts.skipDeploy && SystemHasDocker(env) && !CanExecuteDockerCompose(env)
      ==> LegacyWalk(env, opts, dir, listing) == [Skip(dir, NeedsSudo)]
    ensures LegacyGate(env, opts).None? <==> opts.skipDeploy || (SystemHasDocker(env) && CanExecuteDockerCompose(env))
    ensures LegacyGate(env, opts).None? ==> LegacyWalk(env, opts, dir, ListFails) == [Crash(dir)]
  {
  }
}
