/**
  The Git side of one directory: reporting the commits the remote branch has
  and the checkout lacks, and fast-forwarding the checkout when asked to.
  Fetching and commit ancestry are not modelled: the pending list (the commits
  of `local..remote`, in the order the repository lists them) is an input.
 */
module Git {
  import opened Effects

  datatype Commit = Commit(message: string)

  /** Where, if anywhere, the Git calls for a checkout raise. */
  datatype Fault =
    | NoFault
    | HeadFault    // reading HEAD's commit or the active branch raises
    | FetchFault   // fetching, or looking up the remote ref of the active branch, raises
    | PullFault    // the pull itself raises

  /** What a checkout looks like to the updater. */
  datatype Checkout = Checkout(dirty: bool, pending: seq<Commit>, fault: Fault)

  /** `os.path.isdir(d) and Repo(d).git_dir`, with any exception read as false;
      `repo` is None when `Repo(d)` raises. */
  function IsValidRepo(isDir: bool, repo: Option<Checkout>): (r: bool)
    ensures !isDir ==> !r
    ensures repo.None? ==> !r
    ensures isDir && repo.Some? ==> r
  {
    isDir && repo.Some?
  }

  // ---------------------------------------------------------------------------
  // Commit summaries

  /** Python's `str.isspace` for one character. */
  predicate IsSpace(c: char) {
    || c == ' '
    || ('\t' <= c <= '\r')
    || ('\U{1C}' <= c <= '\U{1F}')
    || c == '\U{85}' || c == '\U{A0}' || c == '\U{1680}'
    || ('\U{2000}' <= c <= '\U{200A}')
    || c == '\U{2028}' || c == '\U{2029}' || c == '\U{202F}' || c == '\U{205F}' || c == '\U{3000}'
  }

  ghost predicate AllSpace(s: string) {
    forall i :: 0 <= i < |s| ==> IsSpace(s[i])
  }

  /** Drops leading whitespace. */
  function TrimStart(s: string): string {
    if s != [] && IsSpace(s[0]) then TrimStart(s[1..]) else s
  }

  /** Drops trailing whitespace. */
  function TrimEnd(s: string): string {
    if s != [] && IsSpace(s[|s| - 1]) then TrimEnd(s[..|s| - 1]) else s
  }

  /** Python's `str.strip()`. */
  function Strip(s: string): string {
    TrimEnd(TrimStart(s))
  }

  /** `s.split("\n")[0]`: everything before the first line feed. */
  function FirstLine(s: string): string {
    if s == [] || s[0] == '\n' then [] else [s[0]] + FirstLine(s[1..])
  }

  /** The one-line summary reported for a commit: `message.strip().split("\n")[0]`. */
  function Summary(message: string): string {
    FirstLine(Strip(message))
  }

  /** TrimStart removes exactly the whitespace prefix: what it drops is all
      whitespace and what it keeps is a suffix that does not start with whitespace. */
  lemma {:induction false} TrimStartSpec(s: string)
    ensures var r := TrimStart(s);
      && |r| <= |s| && r == s[|s| - |r|..]
      && AllSpace(s[..|s| - |r|])
      && (r == [] || !IsSpace(r[0]))
  {
    if s != [] && IsSpace(s[0]) {
      TrimStartSpec(s[1..]);
      var r := TrimStart(s);
      assert s[..|s| - |r|] == [s[0]] + s[1..][..|s| - 1 - |r|];
    }
  }

  /** TrimEnd removes exactly the whitespace suffix. */
  lemma {:induction false} TrimEndSpec(s: string)
    ensures var r := TrimEnd(s);
      && |r| <= |s| && r == s[..|r|]
      && AllSpace(s[|r|..])
      && (r == [] || !IsSpace(r[|r| - 1]))
  {
    if s != [] && IsSpace(s[|s| - 1]) {
      TrimEndSpec(s[..|s| - 1]);
      var r := TrimEnd(s);
      assert s[|r|..] == s[..|s| - 1][|r|..] + [s[|s| - 1]];
    }
  }

  /** `r` is `s` with the whitespace-only prefix `s[..k]` and a whitespace-only suffix removed. */
  ghost predicate StrippedAt(s: string, r: string, k: int) {
    0 <= k && k + |r| <= |s| && r == s[k..k + |r|] && AllSpace(s[..k]) && AllSpace(s[k + |r|..])
  }

  /** Strip keeps a contiguous middle part of the text, drops only whitespace
      around it, and leaves no whitespace at either end. */
  lemma StripSpec(s: string)
    ensures var r := Strip(s);
      && (r == [] || (!IsSpace(r[0]) && !IsSpace(r[|r| - 1])))
      && exists k :: StrippedAt(s, r, k)
  {
    var t := TrimStart(s);
    var r := TrimEnd(t);
    TrimStartSpec(s);
    TrimEndSpec(t);
    var k := |s| - |t|;
    assert s[k..k + |r|] == t[..|r|];
    assert s[k + |r|..] == t[|r|..];
    assert StrippedAt(s, r, k);
  }

  /** FirstLine keeps the text up to, not including, the first line feed. */
  lemma {:induction false} FirstLineSpec(s: string)
    ensures var r := FirstLine(s);
      && |r| <= |s| && r == s[..|r|]
      && '\n' !in r
      && (|r| < |s| ==> s[|r|] == '\n')
  {
    if s != [] && s[0] != '\n' {
      FirstLineSpec(s[1..]);
    }
  }

  /** A summary is one line of the stripped message, it does not start with
      whitespace, and it is the whole stripped message when that is a single line. */
  lemma SummaryIsFirstLine(message: string)
    ensures '\n' !in Summary(message)
    ensures Summary(message) <= Strip(message)
    ensures '\n' !in Strip(message) ==> Summary(message) == Strip(message)
    ensures Summary(message) == [] || !IsSpace(Summary(message)[0])
  {
    StripSpec(message);
    FirstLineSpec(Strip(message));
  }

  // ---------------------------------------------------------------------------
  // update_git

  /** One incoming-commit line per commit, in list order. */
  function Reports(dir: Path, commits: seq<Commit>): seq<Action> {
    if commits == [] then []
    else Reports(dir, commits[..|commits| - 1]) + [Incoming(dir, Summary(commits[|commits| - 1].message))]
  }

  lemma {:induction false} ReportsAt(dir: Path, commits: seq<Commit>)
    ensures |Reports(dir, commits)| == |commits|
    ensures forall i :: 0 <= i < |commits| ==> Reports(dir, commits)[i] == Incoming(dir, Summary(commits[i].message))
  {
    if commits != [] {
      ReportsAt(dir, commits[..|commits| - 1]);
    }
  }

  /** The pull is attempted: it is not suppressed and the remote is ahead. */
  predicate PullAttempted(c: Checkout, skipPull: bool) {
    !skipPull && |c.pending| > 0
  }

  /** What `update_git` returns: Some(true) when it pulled, Some(false) when it
      did not, None when it raised. */
  function UpdateGitResult(c: Checkout, skipPull: bool): Option<bool> {
    if c.fault == HeadFault || c.fault == FetchFault then None
    else if !PullAttempted(c, skipPull) then Some(false)
    else if c.fault == PullFault then None
    else Some(true)
  }

  /** What `update_git` does to the world before it returns or raises. */
  function UpdateGitTrace(dir: Path, c: Checkout, skipPull: bool): seq<Action> {
    if c.fault == HeadFault then []
    else
      (if c.dirty then [Dirty(dir)] else [])
      + (if c.fault == FetchFault then []
         else Reports(dir, c.pending)
              + (if PullAttempted(c, skipPull) && c.fault != PullFault then [Pull(dir)] else []))
  }

  method UpdateGit(h: Host, dir: Path, c: Checkout, skipPull: bool) returns (r: Option<bool>)
    modifies h
    ensures r == UpdateGitResult(c, skipPull)
    ensures h.trace == old(h.trace) + UpdateGitTrace(dir, c, skipPull)
  {
    if c.fault == HeadFault {
      return None;
    }
    if c.dirty {
      h.Emit(Dirty(dir));
    }
    if c.fault == FetchFault {
      return None;
    }
    var remoteCommits := c.pending;
    ghost var afterNote := h.trace;
    for i := 0 to |remoteCommits|
      invariant h.trace == afterNote + Reports(dir, remoteCommits[..i])
    {
      h.Emit(Incoming(dir, Summary(remoteCommits[i].message)));
      assert remoteCommits[..i + 1][..i] == remoteCommits[..i];
      assert Reports(dir, remoteCommits[..i + 1])
        == Reports(dir, remoteCommits[..i]) + [Incoming(dir, Summary(remoteCommits[i].message))];
    }
    assert remoteCommits[..|remoteCommits|] == remoteCommits;
    ghost var dirtyNote := if c.dirty then [Dirty(dir)] else [];
    ghost var pull := if PullAttempted(c, skipPull) && c.fault != PullFault then [Pull(dir)] else [];
    AppendAssoc(old(h.trace), dirtyNote, Reports(dir, remoteCommits) + pull);
    AppendAssoc(afterNote, Reports(dir, remoteCommits), pull);
    assert pull == [] ==> Reports(dir, remoteCommits) + pull == Reports(dir, remoteCommits);
    if !skipPull && |remoteCommits| > 0 {
      if c.fault == PullFault {
        return None;
      }
      h.Emit(Pull(dir));
      return Some(true);
    }
    return Some(false);
  }

  // ---------------------------------------------------------------------------
  // Properties of update_git

  /** The pull happens, and `update_git` returns true, exactly when pulling is
      not suppressed, commits are pending and no Git call raises. */
  lemma PullPolicy(dir: Path, c: Checkout, skipPull: bool)
    ensures UpdateGitResult(c, skipPull) == Some(true) <==> !skipPull && |c.pending| > 0 && c.fault == NoFault
    ensures Pull(dir) in UpdateGitTrace(dir, c, skipPull) <==> UpdateGitResult(c, skipPull) == Some(true)
  {
    ReportsAt(dir, c.pending);
    var t := UpdateGitTrace(dir, c, skipPull);
    if Pull(dir) in t && c.fault != HeadFault && c.fault != FetchFault {
      var i :| 0 <= i < |t| && t[i] == Pull(dir);
      var d := if c.dirty then 1 else 0;
      assert i >= d + |c.pending|;
    }
  }

  /** With `skip_pull` the checkout is never pulled and `update_git` never
      reports a change, even with commits pending; the outcome only records
      whether a Git call raised. */
  lemma SkipPullChangesNothing(dir: Path, c: Checkout)
    ensures Pull(dir) !in UpdateGitTrace(dir, c, true)
    ensures UpdateGitResult(c, true) == (if c.fault == HeadFault || c.fault == FetchFault then None else Some(false))
  {
    PullPolicy(dir, c, true);
  }

  /** Once the remote has been read, every pending commit is reported, one
      summary line per commit in list order, whether or not a pull follows. */
  lemma EveryPendingCommitReported(dir: Path, c: Checkout, skipPull: bool)
    requires c.fault != HeadFault && c.fault != FetchFault
    ensures var t := UpdateGitTrace(dir, c, skipPull);
      var d := if c.dirty then 1 else 0;
      && d + |c.pending| <= |t|
      && forall i :: 0 <= i < |c.pending| ==> t[d + i] == Incoming(dir, Summary(c.pending[i].message))
  {
    UpdateGitTraceLength(dir, c, skipPull);
    forall i | 0 <= i < |c.pending|
      ensures UpdateGitTrace(dir, c, skipPull)[(if c.dirty then 1 else 0) + i]
        == Incoming(dir, Summary(c.pending[i].message))
    {
      PendingCommitReportedAt(dir, c, skipPull, i);
    }
  }

  lemma UpdateGitTraceLength(dir: Path, c: Checkout, skipPull: bool)
    requires c.fault != HeadFault && c.fault != FetchFault
    ensures (if c.dirty then 1 else 0) + |c.pending| <= |UpdateGitTrace(dir, c, skipPull)|
  {
    ReportsAt(dir, c.pending);
    UpdateGitTraceParts(dir, c, skipPull);
  }

  lemma PendingCommitReportedAt(dir: Path, c: Checkout, skipPull: bool, i: nat)
    requires c.fault != HeadFault && c.fault != FetchFault && i < |c.pending|
    ensures (if c.dirty then 1 else 0) + |c.pending| <= |UpdateGitTrace(dir, c, skipPull)|
    ensures UpdateGitTrace(dir, c, skipPull)[(if c.dirty then 1 else 0) + i]
      == Incoming(dir, Summary(c.pending[i].message))
  {
    var reports := Reports(dir, c.pending);
    var pre := if c.dirty then [Dirty(dir)] else [];
    var rest := reports + if PullAttempted(c, skipPull) && c.fault != PullFault then [Pull(dir)] else [];
    ReportsAt(dir, c.pending);
    UpdateGitTraceParts(dir, c, skipPull);
    assert rest[i] == reports[i];
    assert (pre + rest)[|pre| + i] == rest[i];
  }

  /** Once the remote has been read, the trace is the dirty note, the reports
      and the pull, in that order. */
  lemma UpdateGitTraceParts(dir: Path, c: Checkout, skipPull: bool)
    requires c.fault != HeadFault && c.fault != FetchFault
    ensures UpdateGitTrace(dir, c, skipPull)
      == (if c.dirty then [Dirty(dir)] else [])
         + (Reports(dir, c.pending) + if PullAttempted(c, skipPull) && c.fault != PullFault then [Pull(dir)] else [])
  {
  }

  /** The dirty flag is reported and nothing more: it changes neither the result
      nor whether the pull happens. */
  lemma DirtyOnlyReported(dir: Path, c: Checkout, skipPull: bool, dirty: bool)
    ensures UpdateGitResult(c.(dirty := dirty), skipPull) == UpdateGitResult(c, skipPull)
    ensures Pull(dir) in UpdateGitTrace(dir, c.(dirty := dirty), skipPull) <==> Pull(dir) in UpdateGitTrace(dir, c, skipPull)
    ensures c.fault != HeadFault ==> (Dirty(dir) in UpdateGitTrace(dir, c, skipPull) <==> c.dirty)
  {
    PullPolicy(dir, c, skipPull);
    PullPolicy(dir, c.(dirty := dirty), skipPull);
    if c.fault != HeadFault {
      DirtyNoteIff(dir, c, skipPull);
    }
  }

  /** Once HEAD could be read, the dirty note appears exactly for a dirty checkout. */
  lemma DirtyNoteIff(dir: Path, c: Checkout, skipPull: bool)
    requires c.fault != HeadFault
    ensures Dirty(dir) in UpdateGitTrace(dir, c, skipPull) <==> c.dirty
  {
    var t := UpdateGitTrace(dir, c, skipPull);
    if c.dirty {
      assert t[0] == Dirty(dir);
    } else if c.fault != FetchFault {
      ReportsAt(dir, c.pending);
      var reports := Reports(dir, c.pending);
      var post := if PullAttempted(c, skipPull) && c.fault != PullFault then [Pull(dir)] else [];
      assert t == reports + post;
      forall i | 0 <= i < |t|
        ensures t[i] != Dirty(dir)
      {
        if i < |reports| {
          assert t[i] == reports[i];
        } else {
          assert t[i] == post[i - |reports|];
        }
      }
    }
  }

  /** `update_git` only acts on its own directory and issues no compose command. */
  lemma UpdateGitStaysInDirectory(dir: Path, c: Checkout, skipPull: bool)
    ensures var t := UpdateGitTrace(dir, c, skipPull);
      forall i :: 0 <= i < |t| ==> (t[i].Dirty? || t[i].Incoming? || t[i].Pull?) && t[i].dir == dir
  {
    ReportsAt(dir, c.pending);
  }
}
