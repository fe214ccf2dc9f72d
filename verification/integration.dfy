/**
  The tree walk of the packaged tool: a global Docker check (fatal when
  deployment is on), then every entry of a directory in turn: a valid
  repository is updated and redeployed inside its own failure boundary, any
  other directory is walked into when recursion is on, anything else is passed over.
 */
module Integration {
  import opened Effects
  import opened Docker
  import opened Git

  /** The command-line options that reach the walk (`--verbose` is dropped first). */
  datatype Options = Options(skipDeploy: bool, skipPull: bool, recurse: bool,
                             deployAll: bool, forceRebuild: bool, forceRestart: bool)

  /** One entry of a directory listing. For a directory, `repo` is what opening
      it as a Git repository yields (None: that raises), `spec` is its
      `docker-compose.yml` and `children` is what listing it yields. */
  datatype Entry =
    | File(name: string)
    | Dir(name: string, repo: Option<Checkout>, spec: ComposeFile, children: Listing)

  /** The outcome of `os.listdir` on a directory: it raises, or it yields the entries. */
  datatype Listing = ListFails | Listed(entries: seq<Entry>)

  function OpenedRepo(e: Entry): Option<Checkout> {
    if e.Dir? then e.repo else None
  }

  predicate IsRepoEntry(e: Entry) {
    IsValidRepo(e.Dir?, OpenedRepo(e))
  }

  // ---------------------------------------------------------------------------
  // process_dir

  /** One repository's pipeline: update, then (unless deployment is skipped)
      deploy with the update's outcome; an exception anywhere is logged as an
      error for that directory and ends its pipeline. */
  function ProcessTrace(env: Env, dir: Path, c: Checkout, spec: ComposeFile, opts: Options): seq<Action> {
    UpdateGitTrace(dir, c, opts.skipPull) + AfterUpdate(env, dir, UpdateGitResult(c, opts.skipPull), spec, opts)
  }

  /** What follows `update_git`, given what it returned (None: it raised). */
  function AfterUpdate(env: Env, dir: Path, didUpdate: Option<bool>, spec: ComposeFile, opts: Options): seq<Action> {
    match didUpdate
    case None => [Error(dir)]
    case Some(did) => DeployPart(env, dir, did, spec, opts)
  }

  /** What follows a successful update: nothing when deployment is skipped,
      otherwise the deployment and, if it raised, the error for `dir`. */
  function DeployPart(env: Env, dir: Path, didUpdate: bool, spec: ComposeFile, opts: Options): seq<Action> {
    if opts.skipDeploy then []
    else DeployTrace(env, dir, didUpdate, opts.forceRestart, opts.forceRebuild, opts.deployAll, spec)
           + (if DeployRaises(env, spec) then [Error(dir)] else [])
  }

  method ProcessDir(h: Host, dir: Path, c: Checkout, spec: ComposeFile, opts: Options)
    modifies h
    ensures h.trace == old(h.trace) + ProcessTrace(h.env, dir, c, spec, opts)
  {
    ghost var t0 := h.trace;
    var didUpdate := UpdateGit(h, dir, c, opts.skipPull);
    ghost var git := UpdateGitTrace(dir, c, opts.skipPull);
    if didUpdate.None? {
      h.Emit(Error(dir));
    } else {
      DeployAfterUpdate(h, dir, didUpdate.value, spec, opts);
    }
    AppendAssoc(t0, git, AfterUpdate(h.env, dir, didUpdate, spec, opts));
  }

  /** The part of `process_dir` after a successful update, with the deployment's
      exception caught and logged. */
  method DeployAfterUpdate(h: Host, dir: Path, didUpdate: bool, spec: ComposeFile, opts: Options)
    modifies h
    ensures h.trace == old(h.trace) + DeployPart(h.env, dir, didUpdate, spec, opts)
  {
    if !opts.skipDeploy {
      var raised := ManageDockerDeploy(h, dir, didUpdate, opts.forceRestart, opts.forceRebuild, opts.deployAll, spec);
      if raised {
        h.Emit(Error(dir));
      }
    }
  }

  // ---------------------------------------------------------------------------
  // update_git_and_docker

  /** The global check passes: deployment is skipped, or Docker is on PATH and
      usable without elevated privilege. */
  predicate Gate(env: Env, opts: Options) {
    opts.skipDeploy || (SystemHasDocker(env) && CanExecuteDockerCompose(env))
  }

  /** The effects of one call of the walk on directory `dir`, whose listing is
      `listing`. Listing the directory is not guarded: when it raises, the
      exception escapes every enclosing call and ends the run. */
  function Walk(env: Env, opts: Options, dir: Path, listing: Listing): seq<Action>
    decreases listing, 1
  {
    if !Gate(env, opts) then [Exit(1)]
    else match listing
      case ListFails => [Crash(dir)]
      case Listed(es) => Entries(env, opts, dir, es)
  }

  /** The effects of the loop over the entries `es`, in order, up to the entry
      whose effects end the run. */
  function Entries(env: Env, opts: Options, dir: Path, es: seq<Entry>): seq<Action>
    decreases es, 0
  {
    if es == [] then []
    else
      var before := Entries(env, opts, dir, es[..|es| - 1]);
      if Ended(before) then before else before + EntryTrace(env, opts, dir, es[|es| - 1])
  }

  /** The effects of the loop body for one entry. */
  function EntryTrace(env: Env, opts: Options, dir: Path, e: Entry): seq<Action>
    decreases e
  {
    var path := dir + [e.name];
    if IsRepoEntry(e) then ProcessTrace(env, path, e.repo.value, e.spec, opts)
    else if e.Dir? && opts.recurse then Walk(env, opts, path, e.children)
    else []
  }

  method UpdateGitAndDocker(h: Host, dir: Path, listing: Listing, opts: Options) returns (ended: bool)
    modifies h
    decreases listing
    ensures ended <==> Ended(Walk(h.env, opts, dir, listing))
    ensures h.trace == old(h.trace) + Walk(h.env, opts, dir, listing)
  {
    if !opts.skipDeploy {
      if !SystemHasDocker(h.env) {
        h.Emit(Exit(1));
        return true;
      }
      if !CanExecuteDockerCompose(h.env) {
        h.Emit(Exit(1));
        return true;
      }
    }
    if listing.ListFails? {
      h.Emit(Crash(dir));
      return true;
    }
    var es := listing.entries;
    for i := 0 to |es|
      invariant h.trace == old(h.trace) + Entries(h.env, opts, dir, es[..i])
      invariant !Ended(Entries(h.env, opts, dir, es[..i]))
    {
      var item := es[i];
      var itemPath := dir + [item.name];
      ghost var before := Entries(h.env, opts, dir, es[..i]);
      EntriesStep(h.env, opts, dir, es, i);
      if IsValidRepo(item.Dir?, OpenedRepo(item)) {
        ProcessDir(h, itemPath, item.repo.value, item.spec, opts);
        ProcessStaysInDirectory(h.env, itemPath, item.repo.value, item.spec, opts);
      } else if item.Dir? && opts.recurse {
        var sub := UpdateGitAndDocker(h, itemPath, item.children, opts);
        if sub {
          EntriesStopAt(h.env, opts, dir, es, i + 1);
          AppendAssoc(old(h.trace), before, EntryTrace(h.env, opts, dir, item));
          return true;
        }
      }
      AppendAssoc(old(h.trace), before, EntryTrace(h.env, opts, dir, item));
    }
    assert es[..|es|] == es;
    return false;
  }

  // ---------------------------------------------------------------------------
  // Which repositories a walk processes

  /** One step of a walk: a repository it reaches, with what it finds there, or
      a directory whose listing raises. */
  datatype Step =
    | Site(path: Path, checkout: Checkout, spec: ComposeFile)
    | Unlistable(path: Path)

  /** The steps end with a directory whose listing raised. */
  predicate Stopped(v: seq<Step>) {
    v != [] && v[|v| - 1].Unlistable?
  }

  /** Only the last step, if any, can be an unlistable directory. */
  predicate StopsAtEnd(v: seq<Step>) {
    forall i :: 0 <= i < |v| - 1 ==> v[i].Site?
  }

  /** The steps of a walk of `dir` with the given listing, in walk order: valid
      repositories among the entries, and, when `recurse` holds, the steps of
      any other directory; the first directory that cannot be listed ends them.
      Nothing below a repository is reached. */
  function VisitedListing(dir: Path, listing: Listing, recurse: bool): seq<Step>
    decreases listing, 1
  {
    match listing
    case ListFails => [Unlistable(dir)]
    case Listed(es) => Visited(dir, es, recurse)
  }

  function Visited(dir: Path, es: seq<Entry>, recurse: bool): seq<Step>
    decreases es, 0
  {
    if es == [] then []
    else
      var before := Visited(dir, es[..|es| - 1], recurse);
      if Stopped(before) then before else before + VisitedIn(dir, es[|es| - 1], recurse)
  }

  function VisitedIn(dir: Path, e: Entry, recurse: bool): seq<Step>
    decreases e
  {
    if IsRepoEntry(e) then [Site(dir + [e.name], e.repo.value, e.spec)]
    else if e.Dir? && recurse then VisitedListing(dir + [e.name], e.children, recurse)
    else []
  }

  /** The pipelines of the given repositories, one after the other, with the same
      options; an unlistable directory contributes the exception that ends the run. */
  function ProcessAll(env: Env, opts: Options, steps: seq<Step>): seq<Action> {
    if steps == [] then []
    else
      var s := steps[|steps| - 1];
      ProcessAll(env, opts, steps[..|steps| - 1])
        + match s
          case Site(path, checkout, spec) => ProcessTrace(env, path, checkout, spec, opts)
          case Unlistable(path) => [Crash(path)]
  }

  lemma {:induction false} ProcessAllAppend(env: Env, opts: Options, a: seq<Step>, b: seq<Step>)
    ensures ProcessAll(env, opts, a + b) == ProcessAll(env, opts, a) + ProcessAll(env, opts, b)
    decreases |b|
  {
    if b != [] {
      assert (a + b)[..|a + b| - 1] == a + b[..|b| - 1];
      ProcessAllAppend(env, opts, a, b[..|b| - 1]);
    } else {
      assert a + b == a;
    }
  }

  /** The pipelines of repositories never end the run; only an unlistable
      directory at the end does. */
  lemma {:induction false} ProcessAllEnded(env: Env, opts: Options, v: seq<Step>)
    requires StopsAtEnd(v)
    ensures Ended(ProcessAll(env, opts, v)) <==> Stopped(v)
    decreases |v|
  {
    if v != [] {
      var init, s := v[..|v| - 1], v[|v| - 1];
      assert StopsAtEnd(init);
      ProcessAllEnded(env, opts, init);
      if s.Site? {
        ProcessStaysInDirectory(env, s.path, s.checkout, s.spec, opts);
        EndedAppend(ProcessAll(env, opts, init), ProcessTrace(env, s.path, s.checkout, s.spec, opts));
        assert !Stopped(init) by {
          if init != [] {
            assert init[|init| - 1] == v[|v| - 2];
          }
        }
      }
    }
  }

  lemma {:induction false} VisitedListingShape(dir: Path, listing: Listing, recurse: bool)
    ensures StopsAtEnd(VisitedListing(dir, listing, recurse))
    decreases listing, 1
  {
    if listing.Listed? {
      VisitedShape(dir, listing.entries, recurse);
    }
  }

  lemma {:induction false} VisitedShape(dir: Path, es: seq<Entry>, recurse: bool)
    ensures StopsAtEnd(Visited(dir, es, recurse))
    decreases es, 0
  {
    if es != [] {
      var before := Visited(dir, es[..|es| - 1], recurse);
      VisitedShape(dir, es[..|es| - 1], recurse);
      VisitedInShape(dir, es[|es| - 1], recurse);
      if !Stopped(before) {
        var after: seq<Step> := VisitedIn(dir, es[|es| - 1], recurse);
        forall i | 0 <= i < |before + after| - 1
          ensures (before + after)[i].Site?
        {
          if i >= |before| {
            assert (before + after)[i] == after[i - |before|];
          }
        }
      }
    }
  }

  lemma {:induction false} VisitedInShape(dir: Path, e: Entry, recurse: bool)
    ensures StopsAtEnd(VisitedIn(dir, e, recurse))
    decreases e
  {
    if !IsRepoEntry(e) && e.Dir? && recurse {
      VisitedListingShape(dir + [e.name], e.children, recurse);
    }
  }

  /** Once the global check passes, the walk is exactly the pipelines of the
      visited repositories, in walk order, every one with the options the walk
      was started with, at any depth, up to the first directory that cannot be
      listed. */
  lemma {:induction false} WalkProcessesVisited(env: Env, opts: Options, dir: Path, listing: Listing)
    requires Gate(env, opts)
    ensures Walk(env, opts, dir, listing) == ProcessAll(env, opts, VisitedListing(dir, listing, opts.recurse))
    decreases listing, 1
  {
    if listing.Listed? {
      EntriesProcessVisited(env, opts, dir, listing.entries);
    } else {
      assert [Unlistable(dir)][..0] == [];
    }
  }

  lemma {:induction false} EntriesProcessVisited(env: Env, opts: Options, dir: Path, es: seq<Entry>)
    requires Gate(env, opts)
    ensures Entries(env, opts, dir, es) == ProcessAll(env, opts, Visited(dir, es, opts.recurse))
    decreases es, 0
  {
    if es != [] {
      var init, last := es[..|es| - 1], es[|es| - 1];
      var v := Visited(dir, init, opts.recurse);
      EntriesProcessVisited(env, opts, dir, init);
      VisitedShape(dir, init, opts.recurse);
      ProcessAllEnded(env, opts, v);
      if !Stopped(v) {
        EntryProcessesVisited(env, opts, dir, last);
        ProcessAllAppend(env, opts, v, VisitedIn(dir, last, opts.recurse));
      }
    }
  }

  lemma {:induction false} EntryProcessesVisited(env: Env, opts: Options, dir: Path, e: Entry)
    requires Gate(env, opts)
    ensures EntryTrace(env, opts, dir, e) == ProcessAll(env, opts, VisitedIn(dir, e, opts.recurse))
    decreases e
  {
    if IsRepoEntry(e) {
      var s := Site(dir + [e.name], e.repo.value, e.spec);
      assert [s][..0] == [];
    } else if e.Dir? && opts.recurse {
      WalkProcessesVisited(env, opts, dir + [e.name], e.children);
    }
  }

  /** Every step of a walk lies strictly below the walked directory; without
      `recurse` every step is a repository among its immediate entries. */
  lemma {:induction false} VisitedBelow(dir: Path, es: seq<Entry>, recurse: bool)
    ensures forall s :: s in Visited(dir, es, recurse) ==> |s.path| > |dir| && s.path[..|dir|] == dir
    ensures !recurse ==> forall s :: s in Visited(dir, es, recurse) ==> s.Site? && |s.path| == |dir| + 1
    decreases es, 0
  {
    if es != [] {
      VisitedBelow(dir, es[..|es| - 1], recurse);
      VisitedInBelow(dir, es[|es| - 1], recurse);
    }
  }

  lemma {:induction false} VisitedInBelow(dir: Path, e: Entry, recurse: bool)
    ensures forall s :: s in VisitedIn(dir, e, recurse) ==> |s.path| > |dir| && s.path[..|dir|] == dir
    ensures !recurse ==> forall s :: s in VisitedIn(dir, e, recurse) ==> s.Site? && |s.path| == |dir| + 1
    decreases e
  {
    if !IsRepoEntry(e) && e.Dir? && recurse {
      var sub := dir + [e.name];
      if e.children.Listed? {
        VisitedBelow(sub, e.children.entries, recurse);
      }
      forall s | s in VisitedIn(dir, e, recurse)
        ensures |s.path| > |dir| && s.path[..|dir|] == dir
      {
        assert s.path[..|sub|] == sub;
        assert s.path[..|dir|] == sub[..|dir|];
      }
    }
  }

  // ---------------------------------------------------------------------------
  // Properties of the walk

  /** With deployment on, a missing or unusable Docker ends the run with status 1
      before any entry is looked at. */
  lemma PreconditionFailureExits(env: Env, opts: Options, dir: Path, listing: Listing)
    requires !opts.skipDeploy && !(SystemHasDocker(env) && CanExecuteDockerCompose(env))
    ensures Walk(env, opts, dir, listing) == [Exit(1)]
  {
  }

  /** With `skip_deploy`, Docker is never consulted: the walk is the same in
      every environment, and it issues no compose command and no exit. */
  lemma SkipDeployIgnoresDocker(env: Env, env': Env, opts: Options, dir: Path, listing: Listing)
    requires opts.skipDeploy
    ensures Walk(env, opts, dir, listing) == Walk(env', opts, dir, listing)
    ensures NoCompose(Walk(env, opts, dir, listing))
    ensures Exit(1) !in Walk(env, opts, dir, listing)
  {
    var steps := VisitedListing(dir, listing, opts.recurse);
    WalkProcessesVisited(env, opts, dir, listing);
    WalkProcessesVisited(env', opts, dir, listing);
    ProcessAllSkipDeploy(env, env', opts, steps);
  }

  lemma {:induction false} ProcessAllSkipDeploy(env: Env, env': Env, opts: Options, steps: seq<Step>)
    requires opts.skipDeploy
    ensures ProcessAll(env, opts, steps) == ProcessAll(env', opts, steps)
    ensures NoCompose(ProcessAll(env, opts, steps))
    ensures Exit(1) !in ProcessAll(env, opts, steps)
  {
    if steps != [] {
      var s := steps[|steps| - 1];
      ProcessAllSkipDeploy(env, env', opts, steps[..|steps| - 1]);
      if s.Site? {
        ProcessStaysInDirectory(env, s.path, s.checkout, s.spec, opts);
      }
    }
  }

  /** Every action of `t` is about directory `dir`, and none ends the run. */
  predicate Local(t: seq<Action>, dir: Path) {
    forall i :: 0 <= i < |t| ==> !t[i].EndsRun() && t[i].dir == dir
  }

  lemma LocalNotEnded(t: seq<Action>, dir: Path)
    requires Local(t, dir)
    ensures !Ended(t)
  {
    if t != [] {
      assert !t[|t| - 1].EndsRun();
    }
  }

  lemma ComposeOrSkipIsLocal(t: seq<Action>, dir: Path)
    requires forall i :: 0 <= i < |t| ==> (t[i].IsCompose() || t[i].Skip?) && t[i].dir == dir
    ensures Local(t, dir)
  {
  }

  lemma LocalAppend(a: seq<Action>, b: seq<Action>, dir: Path)
    requires Local(a, dir) && Local(b, dir)
    ensures Local(a + b, dir)
  {
  }

  lemma NoComposeAppend(a: seq<Action>, b: seq<Action>)
    requires NoCompose(a) && NoCompose(b)
    ensures NoCompose(a + b)
  {
  }

  /** A repository's pipeline only acts on that repository's directory, and it
      never ends the run; when Git raises, the pipeline ends with the error for
      that directory and no compose command. */
  lemma ProcessStaysInDirectory(env: Env, dir: Path, c: Checkout, spec: ComposeFile, opts: Options)
    ensures var t := ProcessTrace(env, dir, c, spec, opts);
      && Local(t, dir)
      && !Ended(t)
      && (opts.skipDeploy ==> NoCompose(t))
      && (UpdateGitResult(c, opts.skipPull).None? ==> NoCompose(t) && t[|t| - 1] == Error(dir))
  {
    ProcessLocal(env, dir, c, spec, opts);
    ProcessWithoutCompose(env, dir, c, spec, opts);
  }

  lemma ProcessLocal(env: Env, dir: Path, c: Checkout, spec: ComposeFile, opts: Options)
    ensures Local(ProcessTrace(env, dir, c, spec, opts), dir)
    ensures !Ended(ProcessTrace(env, dir, c, spec, opts))
  {
    var git := UpdateGitTrace(dir, c, opts.skipPull);
    var rest := AfterUpdate(env, dir, UpdateGitResult(c, opts.skipPull), spec, opts);
    UpdateGitStaysInDirectory(dir, c, opts.skipPull);
    assert Local(git, dir);
    AfterUpdateStaysInDirectory(env, dir, UpdateGitResult(c, opts.skipPull), spec, opts);
    LocalAppend(git, rest, dir);
    LocalNotEnded(git + rest, dir);
  }

  lemma ProcessWithoutCompose(env: Env, dir: Path, c: Checkout, spec: ComposeFile, opts: Options)
    ensures var t := ProcessTrace(env, dir, c, spec, opts);
      && (opts.skipDeploy ==> NoCompose(t))
      && (UpdateGitResult(c, opts.skipPull).None? ==> NoCompose(t) && t[|t| - 1] == Error(dir))
  {
    var git := UpdateGitTrace(dir, c, opts.skipPull);
    var rest := AfterUpdate(env, dir, UpdateGitResult(c, opts.skipPull), spec, opts);
    GitWithoutCompose(dir, c, opts.skipPull);
    AfterUpdateStaysInDirectory(env, dir, UpdateGitResult(c, opts.skipPull), spec, opts);
    if rest == [Error(dir)] || rest == [] {
      NoComposeAppend(git, rest);
    }
  }

  lemma GitWithoutCompose(dir: Path, c: Checkout, skipPull: bool)
    ensures NoCompose(UpdateGitTrace(dir, c, skipPull))
  {
    UpdateGitStaysInDirectory(dir, c, skipPull);
  }

  lemma AfterUpdateStaysInDirectory(env: Env, dir: Path, didUpdate: Option<bool>, spec: ComposeFile, opts: Options)
    ensures var t := AfterUpdate(env, dir, didUpdate, spec, opts);
      && Local(t, dir)
      && (didUpdate.None? ==> t == [Error(dir)])
      && (didUpdate.Some? && opts.skipDeploy ==> t == [])
  {
    if didUpdate.Some? && !opts.skipDeploy {
      var deploy := DeployTrace(env, dir, didUpdate.value, opts.forceRestart, opts.forceRebuild, opts.deployAll, spec);
      var err := if DeployRaises(env, spec) then [Error(dir)] else [];
      DeployStaysInDirectory(env, dir, didUpdate.value, opts.forceRestart, opts.forceRebuild, opts.deployAll, spec);
      ComposeOrSkipIsLocal(deploy, dir);
      LocalAppend(deploy, err, dir);
    }
  }

  /** The loop over `a + b` runs over `a`, then, unless that ended the run, over `b`. */
  lemma {:induction false} EntriesAppend(env: Env, opts: Options, dir: Path, a: seq<Entry>, b: seq<Entry>)
    ensures Entries(env, opts, dir, a + b)
      == if Ended(Entries(env, opts, dir, a)) then Entries(env, opts, dir, a)
         else Entries(env, opts, dir, a) + Entries(env, opts, dir, b)
    decreases |b|
  {
    if b == [] {
      assert a + b == a;
    } else {
      var init, last := b[..|b| - 1], b[|b| - 1];
      assert (a + b)[..|a + b| - 1] == a + init;
      assert (a + b)[|a + b| - 1] == last;
      EntriesAppend(env, opts, dir, a, init);
      var ea, ei := Entries(env, opts, dir, a), Entries(env, opts, dir, init);
      if !Ended(ea) {
        EndedAppend(ea, ei);
        AppendAssoc(ea, ei, EntryTrace(env, opts, dir, last));
      }
    }
  }

  /** One more entry, when the run has not ended: its effects follow, and they
      end the run exactly when the entry's own effects do. */
  lemma EntriesStep(env: Env, opts: Options, dir: Path, es: seq<Entry>, i: nat)
    requires i < |es| && !Ended(Entries(env, opts, dir, es[..i]))
    ensures Entries(env, opts, dir, es[..i + 1]) == Entries(env, opts, dir, es[..i]) + EntryTrace(env, opts, dir, es[i])
    ensures Ended(Entries(env, opts, dir, es[..i + 1])) <==> Ended(EntryTrace(env, opts, dir, es[i]))
  {
    var p := es[..i + 1];
    assert p[..|p| - 1] == es[..i];
    assert p[|p| - 1] == es[i];
    EndedAppend(Entries(env, opts, dir, es[..i]), EntryTrace(env, opts, dir, es[i]));
  }

  /** Once the loop's effects have ended the run, no later entry is looked at. */
  lemma EntriesStopAt(env: Env, opts: Options, dir: Path, es: seq<Entry>, k: nat)
    requires k <= |es| && Ended(Entries(env, opts, dir, es[..k]))
    ensures Entries(env, opts, dir, es) == Entries(env, opts, dir, es[..k])
  {
    assert es == es[..k] + es[k..];
    EntriesAppend(env, opts, dir, es[..k], es[k..]);
  }

  /** A failure inside a repository's pipeline is caught for that repository:
      its effects sit between those of the entries before and after it, and
      the entries after it are processed as if it had succeeded. */
  lemma FailureIsolated(env: Env, opts: Options, dir: Path, es: seq<Entry>, i: nat)
    requires i < |es| && IsRepoEntry(es[i])
    requires !Ended(Entries(env, opts, dir, es[..i]))
    ensures Entries(env, opts, dir, es)
      == Entries(env, opts, dir, es[..i]) + EntryTrace(env, opts, dir, es[i]) + Entries(env, opts, dir, es[i + 1..])
  {
    ProcessLocal(env, dir + [es[i].name], es[i].repo.value, es[i].spec, opts);
    EntriesStep(env, opts, dir, es, i);
    assert es == es[..i + 1] + es[i + 1..];
    EntriesAppend(env, opts, dir, es[..i + 1], es[i + 1..]);
  }

  /** A directory that cannot be listed, reached with `recurse`, ends the whole
      run: the exception escapes the loop, and no later entry is looked at. */
  lemma UnlistableDirectoryEndsRun(env: Env, opts: Options, dir: Path, es: seq<Entry>, i: nat)
    requires Gate(env, opts) && opts.recurse
    requires i < |es| && !IsRepoEntry(es[i]) && es[i].Dir? && es[i].children.ListFails?
    requires !Ended(Entries(env, opts, dir, es[..i]))
    ensures Entries(env, opts, dir, es) == Entries(env, opts, dir, es[..i]) + [Crash(dir + [es[i].name])]
    ensures Ended(Entries(env, opts, dir, es))
  {
    EntriesStep(env, opts, dir, es, i);
    EntriesStopAt(env, opts, dir, es, i + 1);
  }

  /** A valid repository is processed and never walked into: what lies inside
      it does not matter. */
  lemma RepositoryNotEntered(env: Env, opts: Options, dir: Path, e: Entry, inside: Listing)
    requires IsRepoEntry(e)
    ensures EntryTrace(env, opts, dir, e) == ProcessTrace(env, dir + [e.name], e.repo.value, e.spec, opts)
    ensures EntryTrace(env, opts, dir, e) == EntryTrace(env, opts, dir, e.(children := inside))
  {
  }

  /** An entry that is not a valid repository is walked into exactly when it is
      a directory and `recurse` holds, with the same options; anything else
      contributes nothing. */
  lemma NonRepositoryEntry(env: Env, opts: Options, dir: Path, e: Entry)
    requires !IsRepoEntry(e)
    ensures e.Dir? && opts.recurse ==> EntryTrace(env, opts, dir, e) == Walk(env, opts, dir + [e.name], e.children)
    ensures !e.Dir? || !opts.recurse ==> EntryTrace(env, opts, dir, e) == []
  {
  }

  /** A plain file is never taken for a repository, whatever else is known about it. */
  lemma FileIsNeverRepository(e: Entry)
    ensures e.File? ==> !IsRepoEntry(e)
  {
  }

  /** Deployment is invoked with the update's outcome: unless deployment is
      skipped, after a successful update the pipeline continues with the
      deployment effects for `did_update` equal to "the pull happened". */
  lemma DeployReceivesDidUpdate(env: Env, dir: Path, c: Checkout, spec: ComposeFile, opts: Options)
    requires !opts.skipDeploy && UpdateGitResult(c, opts.skipPull).Some?
    ensures var git := UpdateGitTrace(dir, c, opts.skipPull);
      var deploy := DeployTrace(env, dir, Pull(dir) in git, opts.forceRestart, opts.forceRebuild, opts.deployAll, spec);
      ProcessTrace(env, dir, c, spec, opts)
        == git + deploy + (if DeployRaises(env, spec) then [Error(dir)] else [])
  {
    PullPolicy(dir, c, opts.skipPull);
  }

  /** On a running stack with no forced rebuild, the images are rebuilt exactly
      when the checkout was pulled. */
  lemma RebuildExactlyAfterPull(env: Env, dir: Path, c: Checkout, spec: ComposeFile, opts: Options)
    requires !opts.skipDeploy && !opts.forceRebuild
    requires Prerequisites(env, spec) && env.client && spec.Services?
    requires ScanOutcome(env.daemon, spec.names) == Some(true)
    ensures var t := ProcessTrace(env, dir, c, spec, opts);
      Build(dir, WhichDockerCompose(env).value) in t <==> Pull(dir) in t
  {
    var tool := WhichDockerCompose(env).value;
    PullPolicy(dir, c, opts.skipPull);
    GitNeverBuilds(dir, c, opts.skipPull, tool);
    if UpdateGitResult(c, opts.skipPull).Some? {
      var did := UpdateGitResult(c, opts.skipPull).value;
      RunningStackPolicy(env, dir, did, opts.forceRestart, opts.forceRebuild, opts.deployAll, spec);
      CleanPipeline(env, dir, c, spec, opts);
      DeployNeverPulls(env, dir, did, opts.forceRestart, opts.forceRebuild, opts.deployAll, spec);
    }
  }

  /** A pipeline whose update and deployment both succeed is the update's trace
      followed by the deployment's. */
  lemma CleanPipeline(env: Env, dir: Path, c: Checkout, spec: ComposeFile, opts: Options)
    requires !opts.skipDeploy && UpdateGitResult(c, opts.skipPull).Some? && !DeployRaises(env, spec)
    ensures ProcessTrace(env, dir, c, spec, opts)
      == UpdateGitTrace(dir, c, opts.skipPull)
         + DeployTrace(env, dir, UpdateGitResult(c, opts.skipPull).value, opts.forceRestart, opts.forceRebuild, opts.deployAll, spec)
  {
    var deploy := DeployTrace(env, dir, UpdateGitResult(c, opts.skipPull).value, opts.forceRestart, opts.forceRebuild, opts.deployAll, spec);
    assert deploy + [] == deploy;
  }

  lemma GitNeverBuilds(dir: Path, c: Checkout, skipPull: bool, tool: seq<string>)
    ensures Build(dir, tool) !in UpdateGitTrace(dir, c, skipPull)
  {
    UpdateGitStaysInDirectory(dir, c, skipPull);
  }

  lemma DeployNeverPulls(env: Env, dir: Path, didUpdate: bool, forceRestart: bool, forceRebuild: bool,
                         deployAll: bool, spec: ComposeFile)
    ensures Pull(dir) !in DeployTrace(env, dir, didUpdate, forceRestart, forceRebuild, deployAll, spec)
  {
    DeployStaysInDirectory(env, dir, didUpdate, forceRestart, forceRebuild, deployAll, spec);
  }

  /** A worked tree: `repoA` (clean, one pending commit) and `plainDir/repoB`
      (dirty, nothing pending), walked with `recurse` and `skip_deploy`. */
  const RepoA := Dir("repoA", Some(Checkout(false, [Commit("Fix\nDetails")], NoFault)), Absent, Listed([]))
  const RepoB := Dir("repoB", Some(Checkout(true, [], NoFault)), Absent, Listed([]))
  const PlainDir := Dir("plainDir", None, Absent, Listed([RepoB]))
  const ScenarioOpts := Options(true, false, true, false, false, false)

  /** repoA is reported and pulled, repoB is reached through the plain directory
      and only reported dirty, and no container action happens. */
  lemma EndToEndScenario(env: Env)
    ensures Walk(env, ScenarioOpts, ["top"], Listed([RepoA, PlainDir]))
      == [Incoming(["top", "repoA"], "Fix"), Pull(["top", "repoA"]), Dirty(["top", "plainDir", "repoB"])]
  {
    ScenarioRepoA(env);
    ScenarioPlainDir(env);
    var es := [RepoA, PlainDir];
    assert es[..1] == [RepoA] && es[..1][..0] == [];
    assert Entries(env, ScenarioOpts, ["top"], es[..1]) == EntryTrace(env, ScenarioOpts, ["top"], RepoA);
    assert Entries(env, ScenarioOpts, ["top"], es)
      == Entries(env, ScenarioOpts, ["top"], es[..1]) + EntryTrace(env, ScenarioOpts, ["top"], PlainDir);
  }

  lemma ScenarioRepoA(env: Env)
    ensures EntryTrace(env, ScenarioOpts, ["top"], RepoA) == [Incoming(["top", "repoA"], "Fix"), Pull(["top", "repoA"])]
  {
    var c, path := RepoA.repo.value, ["top", "repoA"];
    assert ["top"] + [RepoA.name] == path;
    assert Strip("Fix\nDetails") == "Fix\nDetails";
    assert Summary("Fix\nDetails") == "Fix";
    assert c.pending[..0] == [];
    assert Reports(path, c.pending) == [Incoming(path, "Fix")];
    assert UpdateGitTrace(path, c, false) == [Incoming(path, "Fix"), Pull(path)];
  }

  lemma ScenarioPlainDir(env: Env)
    ensures EntryTrace(env, ScenarioOpts, ["top"], PlainDir) == [Dirty(["top", "plainDir", "repoB"])]
  {
    var sub, path := ["top", "plainDir"], ["top", "plainDir", "repoB"];
    assert ["top"] + [PlainDir.name] == sub;
    assert sub + [RepoB.name] == path;
    assert [RepoB][..0] == [];
    assert !IsRepoEntry(PlainDir);
    assert EntryTrace(env, ScenarioOpts, sub, RepoB) == [Dirty(path)];
    assert Entries(env, ScenarioOpts, sub, [RepoB]) == [Dirty(path)];
    assert EntryTrace(env, ScenarioOpts, ["top"], PlainDir) == Walk(env, ScenarioOpts, sub, Listed([RepoB]));
  }
}
