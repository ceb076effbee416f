/** The per-repository update procedure `git_pull_with_resolve`
    (update_comfyui.py:49-103) as a pure function.

    Every answer the procedure gets from the outside world (whether `.git`
    exists, what `git stash list` prints, and the exit status of each git
    command whose status it inspects) is an input, bundled in an `Oracle`.
    The outputs are the git commands issued, in order; the issue strings
    appended, in order; and the narration lines printed in verbose mode. */
module GitSync {
  import opened Text

  /** The git commands the procedure can issue. */
  datatype Cmd =
    | StashList          // list shelved changes
    | StashApply         // re-apply the most recent shelved change
    | DiffQuietHead      // ask whether the working tree differs from HEAD
    | ResetHardHead      // discard local modifications
    | StashPush          // shelve local modifications
    | PullRebase         // fetch and replay local commits on upstream
    | FetchAll           // fetch every remote
    | ResetHardUpstream  // reset to origin/<current branch>
    | RebaseTheirs       // rebase favouring incoming changes
    | RebaseAbort        // abandon the rebase in progress

  /** The shell text of each command as the script passes it to the shell. */
  function CommandLine(c: Cmd): string {
    match c
    case StashList => "git stash list"
    case StashApply => "git stash apply"
    case DiffQuietHead => "git diff --quiet HEAD"
    case ResetHardHead => "git reset --hard HEAD"
    case StashPush => "git stash"
    case PullRebase => "git pull --rebase"
    case FetchAll => "git fetch --all"
    case ResetHardUpstream => "git reset --hard origin/$(git rev-parse --abbrev-ref HEAD)"
    case RebaseTheirs => "git rebase --strategy-option=theirs"
    case RebaseAbort => "git rebase --abort"
  }

  /** Different commands have different shell texts: the length and the
      first letter after `git ` tell any two apart. */
  lemma CommandLineInjective(a: Cmd, b: Cmd)
    ensures CommandLine(a) == CommandLine(b) ==> a == b
  {
    var s, t := CommandLine(a), CommandLine(b);
    if s == t {
      assert |s| == |t| && s[4] == t[4];
    }
  }

  /** The step of the procedure a command belongs to: stash recovery (0),
      settling local changes (1), or pulling and resolving (2). */
  function Stage(c: Cmd): nat {
    match c
    case StashList | StashApply => 0
    case DiffQuietHead | ResetHardHead | StashPush => 1
    case _ => 2
  }

  /** The command-line flags: `-v` and `-f`. */
  datatype Policy = Policy(verbose: bool, force: bool)

  /** What the repository directory answers. A process exit status is any
      integer; the script treats every non-zero status as failure. */
  datatype Oracle = Oracle(
    hasGitDir: bool,
    stashListOutput: string,
    stashApplyStatus: int,
    diffStatus: int,
    pullStatus: int,
    theirsStatus: int)

  predicate Fails(status: int) {
    status != 0
  }

  /** The narration lines printed in verbose mode (their colours and exact
      wording are not modelled). */
  datatype Note =
    | Skipping
    | StashesFound
    | DiscardingChanges
    | StashingChanges
    | ConflictsDetected
    | ForceRebasing
    | FavoringIncoming
    | UpdateSuccessful

  /** An entry of the issue list. The script stores the rendered text
      (`IssueText`); keeping the kind and directory apart costs nothing,
      because the rendering is injective (`IssueTextInjective`). */
  datatype Issue =
    | StashApplyFailed(dir: string)
    | UnresolvedConflict(dir: string)

  /** The exact issue strings of lines 66 and 97. */
  function IssueText(i: Issue): string {
    match i
    case StashApplyFailed(d) => "Failed to apply stashed changes in " + d
    case UnresolvedConflict(d) => "Unable to resolve conflicts in " + d + ". Manual intervention required."
  }

  /** Different issues render to different strings: each string names the
      kind of problem and the directory unambiguously. */
  lemma IssueTextInjective(a: Issue, b: Issue)
    ensures IssueText(a) == IssueText(b) ==> a == b
  {
    var ps, pc := "Failed to apply stashed changes in ", "Unable to resolve conflicts in ";
    if IssueText(a) == IssueText(b) {
      assert IssueText(a)[0] == IssueText(b)[0];
      match a
      case StashApplyFailed(d) =>
        var e := b.dir;
        assert d == IssueText(a)[|ps|..] == IssueText(b)[|ps|..] == e;
      case UnresolvedConflict(d) =>
        var e := b.dir;
        assert |d| == |e|;
        assert d == IssueText(a)[|pc|..|pc| + |d|] == IssueText(b)[|pc|..|pc| + |e|] == e;
    }
  }

  datatype Outcome = Outcome(cmds: seq<Cmd>, issues: seq<Issue>, notes: seq<Note>)

  function Say(p: Policy, n: Note): seq<Note> {
    if p.verbose then [n] else []
  }

  /** Lines 59-66: list the stashes; if the listing is not blank, re-apply
      the latest one, and report (but survive) a failed re-application. */
  function RecoverStash(dir: string, p: Policy, o: Oracle): (r: Outcome)
    ensures |r.cmds| >= 1 && r.cmds[0] == StashList
    ensures StashApply in r.cmds <==> HasContent(o.stashListOutput)
    ensures r.issues == [] || r.issues == [StashApplyFailed(dir)]
    ensures r.issues != [] <==> HasContent(o.stashListOutput) && Fails(o.stashApplyStatus)
  {
    if !HasContent(o.stashListOutput) then
      Outcome([StashList], [], [])
    else
      Outcome([StashList, StashApply],
              if Fails(o.stashApplyStatus) then [StashApplyFailed(dir)] else [],
              Say(p, StashesFound))
  }

  /** Lines 68-78: when the tree differs from HEAD, discard the changes
      under `force` and shelve them otherwise; nothing is ever reported. */
  function SettleLocalChanges(p: Policy, o: Oracle): (r: Outcome)
    ensures |r.cmds| >= 1 && r.cmds[0] == DiffQuietHead
    ensures ResetHardHead in r.cmds <==> Fails(o.diffStatus) && p.force
    ensures StashPush in r.cmds <==> Fails(o.diffStatus) && !p.force
    ensures r.issues == []
  {
    if !Fails(o.diffStatus) then
      Outcome([DiffQuietHead], [], [])
    else if p.force then
      Outcome([DiffQuietHead, ResetHardHead], [], Say(p, DiscardingChanges))
    else
      Outcome([DiffQuietHead, StashPush], [], Say(p, StashingChanges))
  }

  /** Lines 80-98: pull with rebase; on failure either force the branch to
      its upstream or retry favouring incoming changes, aborting and
      reporting when that retry fails too. */
  function PullAndResolve(dir: string, p: Policy, o: Oracle): (r: Outcome)
    ensures |r.cmds| >= 1 && r.cmds[0] == PullRebase
    ensures FetchAll in r.cmds <==> Fails(o.pullStatus) && p.force
    ensures ResetHardUpstream in r.cmds <==> Fails(o.pullStatus) && p.force
    ensures RebaseTheirs in r.cmds <==> Fails(o.pullStatus) && !p.force
    ensures RebaseAbort in r.cmds <==> r.issues == [UnresolvedConflict(dir)]
    ensures r.issues == [] || r.issues == [UnresolvedConflict(dir)]
    ensures r.issues != [] <==> Fails(o.pullStatus) && !p.force && Fails(o.theirsStatus)
  {
    if !Fails(o.pullStatus) then
      Outcome([PullRebase], [], [])
    else if p.force then
      Outcome([PullRebase, FetchAll, ResetHardUpstream], [],
              Say(p, ConflictsDetected) + Say(p, ForceRebasing))
    else if !Fails(o.theirsStatus) then
      Outcome([PullRebase, RebaseTheirs], [],
              Say(p, ConflictsDetected) + Say(p, FavoringIncoming))
    else
      Outcome([PullRebase, RebaseTheirs, RebaseAbort], [UnresolvedConflict(dir)],
              Say(p, ConflictsDetected) + Say(p, FavoringIncoming))
  }

  /** Each step issues only commands of its own stage. */
  lemma StepStages(dir: string, p: Policy, o: Oracle)
    ensures forall c :: c in RecoverStash(dir, p, o).cmds ==> Stage(c) == 0
    ensures forall c :: c in SettleLocalChanges(p, o).cmds ==> Stage(c) == 1
    ensures forall c :: c in PullAndResolve(dir, p, o).cmds ==> Stage(c) == 2
  {
  }

  /** `git_pull_with_resolve(dir, verbose, force)`: skip a directory without
      `.git`; otherwise recover stashes, settle local changes, then pull and
      resolve, narrating success in verbose mode when nothing was reported. */
  function Sync(dir: string, p: Policy, o: Oracle): (r: Outcome)
    ensures !o.hasGitDir ==> r.cmds == [] && r.issues == []
    ensures |r.issues| <= 2
  {
    if !o.hasGitDir then
      Outcome([], [], Say(p, Skipping))
    else
      var stash, local, pull := RecoverStash(dir, p, o), SettleLocalChanges(p, o), PullAndResolve(dir, p, o);
      var issues := stash.issues + (local.issues + pull.issues);
      Outcome(stash.cmds + (local.cmds + pull.cmds), issues,
              stash.notes + (local.notes + pull.notes)
              + if p.verbose && issues == [] then [UpdateSuccessful] else [])
  }
}
