/**
  The observable world of one run of the deployer: the host it runs on (which
  executables are on PATH, what `docker ps` says, which containers the Docker
  daemon lists) and the ordered record of every effect the run has on it.
 */
module Effects {

  datatype Option<T> = None | Some(value: T)

  /** A filesystem location as its components: `os.path.join(d, item)` is `d + [item]`. */
  type Path = seq<string>

  /** What the Docker daemon answers when its running containers are listed. */
  datatype Daemon =
    | Unreachable                  // the SDK call raises (daemon down, socket missing)
    | Listing(names: seq<string>)  // the names of the running containers

  /** The outcome of running `docker ps` as a subprocess. */
  datatype PsResult =
    | PsRaised                     // the subprocess could not be started
    | PsRan(stderr: string)        // it ran; what it wrote to standard error

  /** The environment consulted by every probe; it does not change during a run.
      `client` says whether creating the Docker SDK client (`docker.from_env()`)
      succeeds; `daemon` is what listing the containers through it gives. */
  datatype Env = Env(onPath: set<string>, ps: PsResult, client: bool, daemon: Daemon)

  /** Why a deployment step returned early without issuing a compose command. */
  datatype SkipReason = NoDocker | NoSpec | NeedsSudo | NothingRunning

  /** One effect of the run, in the order it happens. `tool` is the compose
      command prefix (`["docker-compose"]` or `["docker", "compose"]`). */
  datatype Action =
    | Dirty(dir: Path)                       // "repo is dirty" report
    | Incoming(dir: Path, summary: string)   // one line per pending commit
    | Pull(dir: Path)                        // fast-forward pull of the checkout
    | Build(dir: Path, tool: seq<string>)    // `<tool> build` in dir
    | Down(dir: Path, tool: seq<string>)     // `<tool> down` in dir
    | Up(dir: Path, tool: seq<string>)       // `<tool> up -d` in dir
    | Skip(dir: Path, reason: SkipReason)    // early return, stack left alone
    | Error(dir: Path)                       // exception caught for dir
    | Exit(status: int)                      // process exit
    | Crash(dir: Path)                       // listing dir raised and nothing caught it
  {
    /** A command run through docker compose. */
    predicate IsCompose() {
      Build? || Down? || Up?
    }

    /** The run ends here: an explicit exit, or an exception that escapes to the top. */
    predicate EndsRun() {
      Exit? || Crash?
    }
  }

  /** No compose command occurs in the trace `t`. */
  predicate NoCompose(t: seq<Action>) {
    forall i :: 0 <= i < |t| ==> !t[i].IsCompose()
  }

  /** The trace ends the run: its last action is an exit or an escaped exception. */
  predicate Ended(t: seq<Action>) {
    t != [] && t[|t| - 1].EndsRun()
  }

  /** Concatenation of traces is associative. */
  lemma AppendAssoc(a: seq<Action>, b: seq<Action>, c: seq<Action>)
    ensures a + b + c == a + (b + c)
  {
  }

  /** Appending to a trace leaves its end to what was appended, unless that is empty. */
  lemma EndedAppend(a: seq<Action>, b: seq<Action>)
    ensures Ended(a + b) <==> Ended(b) || (b == [] && Ended(a))
  {
    if b == [] {
      assert a + b == a;
    } else {
      assert (a + b)[|a + b| - 1] == b[|b| - 1];
    }
  }

  /** The machine a run happens on, and the effects recorded so far. */
  class Host {
    const env: Env
    var trace: seq<Action>

    constructor (env: Env)
      ensures this.env == env && trace == []
    {
      this.env := env;
      trace := [];
    }

    method Emit(a: Action)
      modifies this
      ensures trace == old(trace) + [a]
    {
      trace := trace + [a];
    }
  }
}
