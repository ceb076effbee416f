/** What `git_pull_with_resolve` (update_comfyui.py:49-103) promises, stated
    over every combination of flags and environment answers. */
module GitSyncProperties {
  import opened Text
  import opened GitSync

  /** Lines 59-66, 69 and 81: a non-blank stash listing leads to `git stash
      apply`; a failed re-application is reported under its own text, and the
      procedure still goes on to the dirty check and the pull. */
  lemma StashRecovery(dir: string, p: Policy, o: Oracle)
    requires o.hasGitDir
    ensures var r := Sync(dir, p, o);
      && |r.cmds| >= 3 && r.cmds[0] == StashList
      && (StashApply in r.cmds <==> HasContent(o.stashListOutput))
      && (StashApplyFailed(dir) in r.issues <==> HasContent(o.stashListOutput) && Fails(o.stashApplyStatus))
      && DiffQuietHead in r.cmds
      && PullRebase in r.cmds
  {
    var s, l, u := RecoverStash(dir, p, o), SettleLocalChanges(p, o), PullAndResolve(dir, p, o);
    SyncParts(dir, p, o);
    StepStages(dir, p, o);
    StageMember(StashApply, s.cmds, l.cmds, u.cmds);
    StageMember(DiffQuietHead, s.cmds, l.cmds, u.cmds);
    StageMember(PullRebase, s.cmds, l.cmds, u.cmds);
    assert StashApplyFailed(dir) !in u.issues;
  }

  /** Lines 59-78: the stash is re-applied before local changes are looked
      at, so even under `force` with a dirty tree a failed re-application is
      reported. */
  lemma ForceKeepsStashIssue(dir: string, p: Policy, o: Oracle)
    requires o.hasGitDir && p.force && Fails(o.diffStatus)
    requires HasContent(o.stashListOutput) && Fails(o.stashApplyStatus)
    ensures ResetHardHead in Sync(dir, p, o).cmds
    ensures StashApplyFailed(dir) in Sync(dir, p, o).issues
  {
    StashRecovery(dir, p, o);
    LocalChanges(dir, p, o);
  }

  /** Lines 59-98: the commands run in the order of the three steps, stash
      recovery, then local changes, then the pull. */
  lemma CommandsInStageOrder(dir: string, p: Policy, o: Oracle)
    ensures var t := Sync(dir, p, o).cmds;
      forall i, j :: 0 <= i < j < |t| ==> Stage(t[i]) <= Stage(t[j])
  {
    if o.hasGitDir {
      SyncParts(dir, p, o);
      StepStages(dir, p, o);
      StagesConcatenate(RecoverStash(dir, p, o).cmds, SettleLocalChanges(p, o).cmds, PullAndResolve(dir, p, o).cmds);
    }
  }

  /** Stage-0 commands, then stage-1, then stage-2 are in stage order. */
  lemma StagesConcatenate(s: seq<Cmd>, l: seq<Cmd>, u: seq<Cmd>)
    requires forall c :: c in s ==> Stage(c) == 0
    requires forall c :: c in l ==> Stage(c) == 1
    requires forall c :: c in u ==> Stage(c) == 2
    ensures var t := s + (l + u);
      forall i, j :: 0 <= i < j < |t| ==> Stage(t[i]) <= Stage(t[j])
  {
    var t := s + (l + u);
    forall i | 0 <= i < |t|
      ensures Stage(t[i]) == if i < |s| then 0 else if i < |s| + |l| then 1 else 2
    {
      if i < |s| {
        assert t[i] == s[i];
      } else if i < |s| + |l| {
        assert t[i] == l[i - |s|];
      } else {
        assert t[i] == u[i - |s| - |l|];
      }
    }
  }

  /** Lines 68-78: a dirty tree is reset under `force` and shelved otherwise,
      never both; a clean tree gets neither; the outcome of the dirty check
      never changes the issue list. */
  lemma LocalChanges(dir: string, p: Policy, o: Oracle)
    requires o.hasGitDir
    ensures var r := Sync(dir, p, o);
      && (ResetHardHead in r.cmds <==> Fails(o.diffStatus) && p.force)
      && (StashPush in r.cmds <==> Fails(o.diffStatus) && !p.force)
    ensures Sync(dir, p, o).issues == Sync(dir, p, o.(diffStatus := 0)).issues
  {
    var s, l, u := RecoverStash(dir, p, o), SettleLocalChanges(p, o), PullAndResolve(dir, p, o);
    SyncParts(dir, p, o);
    SyncParts(dir, p, o.(diffStatus := 0));
    StepStages(dir, p, o);
    StageMember(ResetHardHead, s.cmds, l.cmds, u.cmds);
    StageMember(StashPush, s.cmds, l.cmds, u.cmds);
  }

  /** Lines 81-82: after a successful pull nothing else is issued, and the
      only possible issue is the failed stash re-application. */
  lemma PullSucceeds(dir: string, p: Policy, o: Oracle)
    requires o.hasGitDir && !Fails(o.pullStatus)
    ensures var r := Sync(dir, p, o);
      && r.cmds[|r.cmds| - 1] == PullRebase
      && FetchAll !in r.cmds && ResetHardUpstream !in r.cmds
      && RebaseTheirs !in r.cmds && RebaseAbort !in r.cmds
      && r.issues == if HasContent(o.stashListOutput) && Fails(o.stashApplyStatus)
                     then [StashApplyFailed(dir)] else []
  {
    var s, l, u := RecoverStash(dir, p, o), SettleLocalChanges(p, o), PullAndResolve(dir, p, o);
    SyncParts(dir, p, o);
    StepStages(dir, p, o);
    LastOfConcat(s.cmds, l.cmds, u.cmds);
    StageMember(FetchAll, s.cmds, l.cmds, u.cmds);
    StageMember(ResetHardUpstream, s.cmds, l.cmds, u.cmds);
    StageMember(RebaseTheirs, s.cmds, l.cmds, u.cmds);
    StageMember(RebaseAbort, s.cmds, l.cmds, u.cmds);
  }

  /** Lines 86-90: under `force` a failed pull ends with `git fetch --all`
      and the reset to the upstream branch. */
  lemma ForcedPullFailure(dir: string, p: Policy, o: Oracle)
    requires p.force && o.hasGitDir && Fails(o.pullStatus)
    ensures var r := Sync(dir, p, o);
      |r.cmds| >= 3 && r.cmds[|r.cmds| - 3..] == [PullRebase, FetchAll, ResetHardUpstream]
  {
    var s, l, u := RecoverStash(dir, p, o), SettleLocalChanges(p, o), PullAndResolve(dir, p, o);
    SyncParts(dir, p, o);
    SuffixOfConcat(s.cmds, l.cmds, u.cmds);
  }

  /** Lines 86-98: under `force` no favour-incoming rebase is attempted,
      none is aborted, and no conflict is ever reported, whatever the
      repository answers. */
  lemma ForceNeverConflicts(dir: string, p: Policy, o: Oracle)
    requires p.force
    ensures var r := Sync(dir, p, o);
      && UnresolvedConflict(dir) !in r.issues
      && RebaseTheirs !in r.cmds && RebaseAbort !in r.cmds
  {
    if o.hasGitDir {
      var s, l, u := RecoverStash(dir, p, o), SettleLocalChanges(p, o), PullAndResolve(dir, p, o);
      SyncParts(dir, p, o);
      StepStages(dir, p, o);
      StageMember(RebaseTheirs, s.cmds, l.cmds, u.cmds);
      StageMember(RebaseAbort, s.cmds, l.cmds, u.cmds);
    }
  }

  /** Lines 91-93: without `force` a failed pull is retried favouring
      incoming changes, and the branch is never forced to its upstream. */
  lemma ConservativePullFailure(dir: string, p: Policy, o: Oracle)
    requires o.hasGitDir && Fails(o.pullStatus) && !p.force
    ensures var r := Sync(dir, p, o);
      && RebaseTheirs in r.cmds
      && FetchAll !in r.cmds && ResetHardUpstream !in r.cmds
  {
    var s, l, u := RecoverStash(dir, p, o), SettleLocalChanges(p, o), PullAndResolve(dir, p, o);
    SyncParts(dir, p, o);
    StepStages(dir, p, o);
    StageMember(RebaseTheirs, s.cmds, l.cmds, u.cmds);
    StageMember(FetchAll, s.cmds, l.cmds, u.cmds);
    StageMember(ResetHardUpstream, s.cmds, l.cmds, u.cmds);
  }

  /** Lines 94-98: after a failed pull without `force`, the rebase is
      aborted exactly when the favour-incoming retry fails, and the abort is
      then the last command; otherwise the retry is. */
  lemma ConservativeAbort(dir: string, p: Policy, o: Oracle)
    requires o.hasGitDir && Fails(o.pullStatus) && !p.force
    ensures var r := Sync(dir, p, o);
      && (RebaseAbort in r.cmds <==> Fails(o.theirsStatus))
      && r.cmds[|r.cmds| - 1] == (if Fails(o.theirsStatus) then RebaseAbort else RebaseTheirs)
  {
    var s, l, u := RecoverStash(dir, p, o), SettleLocalChanges(p, o), PullAndResolve(dir, p, o);
    SyncParts(dir, p, o);
    StepStages(dir, p, o);
    LastOfConcat(s.cmds, l.cmds, u.cmds);
    StageMember(RebaseAbort, s.cmds, l.cmds, u.cmds);
  }

  /** Lines 95-98: after a failed pull without `force`, exactly one conflict
      issue is recorded when the favour-incoming retry fails, and none when
      it succeeds. */
  lemma ConservativePullIssue(dir: string, p: Policy, o: Oracle)
    requires o.hasGitDir && Fails(o.pullStatus) && !p.force
    ensures var r := Sync(dir, p, o);
      multiset(r.issues)[UnresolvedConflict(dir)] == (if Fails(o.theirsStatus) then 1 else 0)
  {
    SyncParts(dir, p, o);
    assert StashApplyFailed(dir) != UnresolvedConflict(dir);
  }

  /** Lines 91-98: the rebase is aborted exactly when a conflict is
      reported, so the issue list is a faithful record of aborted rebases. */
  lemma AbortIffConflict(dir: string, p: Policy, o: Oracle)
    ensures var r := Sync(dir, p, o);
      RebaseAbort in r.cmds <==> UnresolvedConflict(dir) in r.issues
  {
    if o.hasGitDir {
      var s, l, u := RecoverStash(dir, p, o), SettleLocalChanges(p, o), PullAndResolve(dir, p, o);
      SyncParts(dir, p, o);
      StepStages(dir, p, o);
      StageMember(RebaseAbort, s.cmds, l.cmds, u.cmds);
      assert UnresolvedConflict(dir) !in s.issues;
    }
  }

  /** With a `.git` directory the commands are those of the three steps in
      order, and so are the issues (settling local changes reports none). */
  lemma SyncParts(dir: string, p: Policy, o: Oracle)
    requires o.hasGitDir
    ensures var r, s, l, u := Sync(dir, p, o), RecoverStash(dir, p, o), SettleLocalChanges(p, o), PullAndResolve(dir, p, o);
      && r.cmds == s.cmds + (l.cmds + u.cmds)
      && r.issues == s.issues + u.issues
  {
  }

  /** Where a command occurs among the three steps' commands in order is
      decided by its stage. */
  lemma StageMember(x: Cmd, s: seq<Cmd>, l: seq<Cmd>, u: seq<Cmd>)
    requires forall c :: c in s ==> Stage(c) == 0
    requires forall c :: c in l ==> Stage(c) == 1
    requires forall c :: c in u ==> Stage(c) == 2
    ensures x in s + (l + u) <==> if Stage(x) == 0 then x in s else if Stage(x) == 1 then x in l else x in u
  {
  }

  /** Three sequences concatenated end with the last element of the third. */
  lemma LastOfConcat<T>(s: seq<T>, l: seq<T>, u: seq<T>)
    requires u != []
    ensures var t := s + (l + u); t[|t| - 1] == u[|u| - 1]
  {
  }

  /** Three sequences concatenated end with the third. */
  lemma SuffixOfConcat<T>(s: seq<T>, l: seq<T>, u: seq<T>)
    ensures var t := s + (l + u); |u| <= |t| && t[|t| - |u|..] == u
  {
    var t := s + (l + u);
    assert t == (s + l) + u;
  }

  /** Lines 51-103: the issue list is exactly the stash issue (when stash
      re-application failed) followed by the conflict issue (when the
      favour-incoming retry failed): at most two, stash issue first. */
  lemma IssueList(dir: string, p: Policy, o: Oracle)
    ensures var r := Sync(dir, p, o);
      var stashFailed := o.hasGitDir && HasContent(o.stashListOutput) && Fails(o.stashApplyStatus);
      var unresolved := o.hasGitDir && Fails(o.pullStatus) && !p.force && Fails(o.theirsStatus);
      r.issues == (if stashFailed then [StashApplyFailed(dir)] else [])
                  + (if unresolved then [UnresolvedConflict(dir)] else [])
  {
  }

  /** Lines 51-103: `verbose` only decides what is narrated; the commands and
      the issues are the same either way, and a quiet run narrates nothing. */
  lemma VerboseOnlyNarrates(dir: string, force: bool, o: Oracle)
    ensures Sync(dir, Policy(true, force), o).cmds == Sync(dir, Policy(false, force), o).cmds
    ensures Sync(dir, Policy(true, force), o).issues == Sync(dir, Policy(false, force), o).issues
    ensures Sync(dir, Policy(false, force), o).notes == []
  {
  }

  /** Lines 100-101: success is narrated exactly for a verbose run over a
      repository that recorded no issue. */
  lemma SuccessNarration(dir: string, p: Policy, o: Oracle)
    ensures var r := Sync(dir, p, o);
      UpdateSuccessful in r.notes <==> p.verbose && o.hasGitDir && r.issues == []
  {
    if o.hasGitDir {
      var s, l, u := RecoverStash(dir, p, o), SettleLocalChanges(p, o), PullAndResolve(dir, p, o);
      SyncParts(dir, p, o);
      var steps := s.notes + (l.notes + u.notes);
      assert UpdateSuccessful !in s.notes && UpdateSuccessful !in l.notes && UpdateSuccessful !in u.notes;
      assert Sync(dir, p, o).notes == steps + if p.verbose && Sync(dir, p, o).issues == [] then [UpdateSuccessful] else [];
    }
  }

  /** A checkout with a blank stash listing, a clean tree and a pull that
      succeeds gets exactly the stash listing, the dirty check and the pull,
      and reports no issue. */
  lemma CleanCheckout(dir: string, p: Policy, o: Oracle)
    requires o.hasGitDir && Blank(o.stashListOutput)
    requires !Fails(o.diffStatus) && !Fails(o.pullStatus)
    ensures Sync(dir, p, o).cmds == [StashList, DiffQuietHead, PullRebase]
    ensures Sync(dir, p, o).issues == []
  {
    HasContentIffNotBlank(o.stashListOutput);
  }

  // The command traces the procedure can produce, as a recogniser that reads
  // a trace left to right:
  //   StashList [StashApply] DiffQuietHead [settle] PullRebase tail
  // where `settle` is ResetHardHead under force and StashPush otherwise, and
  // `tail` is FetchAll ResetHardUpstream under force and RebaseTheirs
  // [RebaseAbort] otherwise. The empty trace is the skipped directory.

  predicate IsTrace(force: bool, t: seq<Cmd>) {
    t == [] || (t[0] == StashList && AfterStashList(force, t[1..]))
  }

  predicate AfterStashList(force: bool, t: seq<Cmd>) {
    if t != [] && t[0] == StashApply then AtDiff(force, t[1..]) else AtDiff(force, t)
  }

  predicate AtDiff(force: bool, t: seq<Cmd>) {
    t != [] && t[0] == DiffQuietHead && AfterDiff(force, t[1..])
  }

  predicate AfterDiff(force: bool, t: seq<Cmd>) {
    var settle := if force then ResetHardHead else StashPush;
    if t != [] && t[0] == settle then AtPull(force, t[1..]) else AtPull(force, t)
  }

  predicate AtPull(force: bool, t: seq<Cmd>) {
    t != [] && t[0] == PullRebase && PullTail(force, t[1..])
  }

  predicate PullTail(force: bool, t: seq<Cmd>) {
    if force then t == [] || t == [FetchAll, ResetHardUpstream]
    else t == [] || t == [RebaseTheirs] || t == [RebaseTheirs, RebaseAbort]
  }

  /** Every command trace of the procedure follows the grammar above. */
  lemma TracesAreWellFormed(dir: string, p: Policy, o: Oracle)
    ensures IsTrace(p.force, Sync(dir, p, o).cmds)
  {
    if o.hasGitDir {
      var s, l, u := RecoverStash(dir, p, o).cmds, SettleLocalChanges(p, o).cmds, PullAndResolve(dir, p, o).cmds;
      PullStageIsWellFormed(dir, p, o);
      SettleStageIsWellFormed(p, o, u);
      StashStageIsWellFormed(dir, p, o, l + u);
      assert Sync(dir, p, o).cmds == s + (l + u);
    }
  }

  lemma PullStageIsWellFormed(dir: string, p: Policy, o: Oracle)
    ensures AtPull(p.force, PullAndResolve(dir, p, o).cmds)
  {
    var u := PullAndResolve(dir, p, o).cmds;
    assert PullTail(p.force, u[1..]);
  }

  lemma SettleStageIsWellFormed(p: Policy, o: Oracle, rest: seq<Cmd>)
    requires AtPull(p.force, rest)
    ensures AtDiff(p.force, SettleLocalChanges(p, o).cmds + rest)
  {
    var l := SettleLocalChanges(p, o).cmds;
    var t := l + rest;
    assert t[0] == DiffQuietHead;
    if |l| == 2 {
      assert t[1..][1..] == rest;
    } else {
      assert t[1..] == rest;
    }
  }

  lemma StashStageIsWellFormed(dir: string, p: Policy, o: Oracle, rest: seq<Cmd>)
    requires AtDiff(p.force, rest)
    ensures IsTrace(p.force, RecoverStash(dir, p, o).cmds + rest)
  {
    var s := RecoverStash(dir, p, o).cmds;
    var t := s + rest;
    assert t[0] == StashList;
    if |s| == 2 {
      assert t[1..][1..] == rest;
    } else {
      assert t[1..] == rest;
    }
  }

  /** The commands after `git stash list` and the optional `git stash apply`. */
  function AfterStash(t: seq<Cmd>): seq<Cmd>
    requires t != []
  {
    t[if StashApplied(t) then 2 else 1..]
  }

  predicate StashApplied(t: seq<Cmd>) {
    |t| > 1 && t[1] == StashApply
  }

  /** The commands after `git diff --quiet HEAD` and the optional settling command. */
  function AfterSettle(force: bool, m: seq<Cmd>): seq<Cmd>
    requires m != []
  {
    m[if Settled(force, m) then 2 else 1..]
  }

  predicate Settled(force: bool, m: seq<Cmd>) {
    |m| > 1 && m[1] == (if force then ResetHardHead else StashPush)
  }

  /** A stash listing that is blank exactly when nothing is to be re-applied. */
  function StashListing(applied: bool): (s: string)
    ensures HasContent(s) <==> applied
  {
    if applied then
      var s := "stash@{0}: WIP on main";
      assert s[0] == 's';
      s
    else ""
  }

  function Status(fails: bool): (s: int)
    ensures Fails(s) <==> fails
  {
    if fails then 1 else 0
  }

  /** An oracle under which the procedure produces the trace `t`, read off
      `t` by following the grammar: each optional command present in `t`
      becomes a non-blank stash listing or a failing exit status. */
  function WitnessOracle(force: bool, t: seq<Cmd>): Oracle
    requires IsTrace(force, t)
  {
    if t == [] then Oracle(false, "", 0, 0, 0, 0)
    else
      var m := AfterStash(t);
      var u := AfterSettle(force, m);
      Oracle(
        hasGitDir := true,
        stashListOutput := StashListing(StashApplied(t)),
        stashApplyStatus := 0,
        diffStatus := Status(Settled(force, m)),
        pullStatus := Status(|u| > 1),
        theirsStatus := Status(|u| > 2 && u[2] == RebaseAbort))
  }

  /** Conversely, every trace the grammar admits is produced by the
      procedure under some environment: the grammar is exact. */
  lemma WellFormedTracesOccur(dir: string, p: Policy, t: seq<Cmd>)
    requires IsTrace(p.force, t)
    ensures Sync(dir, p, WitnessOracle(p.force, t)).cmds == t
  {
    var o := WitnessOracle(p.force, t);
    if t != [] {
      var m := AfterStash(t);
      assert AtDiff(p.force, m);
      var u := AfterSettle(p.force, m);
      assert AtPull(p.force, u);
      PullStageOccurs(dir, p, o, u);
      SettleStageOccurs(p, o, m);
      StashStageOccurs(dir, p, o, t);
      SyncParts(dir, p, o);
    }
  }

  lemma PullStageOccurs(dir: string, p: Policy, o: Oracle, u: seq<Cmd>)
    requires AtPull(p.force, u)
    requires Fails(o.pullStatus) <==> |u| > 1
    requires Fails(o.theirsStatus) <==> |u| > 2 && u[2] == RebaseAbort
    ensures PullAndResolve(dir, p, o).cmds == u
  {
    assert PullTail(p.force, u[1..]);
    assert u == [PullRebase] + u[1..];
  }

  lemma SettleStageOccurs(p: Policy, o: Oracle, m: seq<Cmd>)
    requires AtDiff(p.force, m)
    requires Fails(o.diffStatus) <==> Settled(p.force, m)
    ensures m == SettleLocalChanges(p, o).cmds + AfterSettle(p.force, m)
  {
  }

  lemma StashStageOccurs(dir: string, p: Policy, o: Oracle, t: seq<Cmd>)
    requires t != [] && t[0] == StashList
    requires HasContent(o.stashListOutput) <==> StashApplied(t)
    ensures t == RecoverStash(dir, p, o).cmds + AfterStash(t)
  {
  }
}
