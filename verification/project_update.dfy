/** `update_project(project_dir, verbose, force)` (update_comfyui.py:105-135):
    sync the `comfyui` checkout of a project, then every plugin directory
    under `comfyui/custom_nodes` in listing order, concatenating the issues.

    The file system is an input: whether the two directories exist, the
    listing of `custom_nodes`, and for each checkout what git answers. */
module ProjectUpdate {
  import opened Text
  import opened GitSync

  const MainAppDir := "comfyui"
  const CustomNodesDir := "custom_nodes"
  const CacheDir := "__pycache__"

  /** One name returned by `os.listdir(custom_nodes_dir)`: whether it is a
      directory, and what git answers inside it. */
  datatype Entry = Entry(name: string, isDir: bool, repo: Oracle)

  /** A project directory as the procedure sees it. */
  datatype Project = Project(
    path: string,
    hasMainApp: bool,        // os.path.isdir(<path>/comfyui)
    mainRepo: Oracle,        // what git answers in <path>/comfyui
    hasCustomNodes: bool,    // os.path.isdir(<path>/comfyui/custom_nodes)
    listing: seq<Entry>)     // os.listdir(<path>/comfyui/custom_nodes)

  /** What syncing one checkout reports: its directory and git's answers in,
      its issue list out. */
  type Syncer = (string, Oracle) -> seq<Issue>

  /** `git_pull_with_resolve` under the given flags. */
  function SyncWith(p: Policy): Syncer {
    (dir: string, o: Oracle) => Sync(dir, p, o).issues
  }

  /** The directories synced, in order, and the concatenated issues. */
  datatype Report = Report(synced: seq<string>, issues: seq<Issue>)

  /** Line 126: only directories other than the bytecode cache are synced. */
  predicate Qualifies(e: Entry) {
    e.isDir && e.name != CacheDir
  }

  /** Line 113: the main checkout `<path>/comfyui`, whose last component is
      `comfyui`. */
  function MainAppPath(proj: Project): (r: string)
    ensures |proj.path| <= |r| && r[..|proj.path|] == proj.path
    ensures Basename(r) == MainAppDir
  {
    assert NoSlash(MainAppDir) by {
      assert forall i :: 0 <= i < |MainAppDir| ==> MainAppDir[i] in "comfyui";
    }
    BasenameOfJoin(proj.path, MainAppDir);
    Join(proj.path, MainAppDir)
  }

  /** Line 120: the plugin directory `<path>/comfyui/custom_nodes`, which
      lies under the main checkout. */
  function CustomNodesPath(proj: Project): (r: string)
    ensures var main := MainAppPath(proj);
      |main| <= |r| && r[..|main|] == main && r[..|proj.path|] == proj.path
  {
    Join(MainAppPath(proj), CustomNodesDir)
  }

  /** Lines 124-129, as the loop runs: the report over the first entries,
      extended by the last one when it qualifies. */
  function NodesReport(nodesDir: string, listing: seq<Entry>, sync: Syncer): (r: Report)
    ensures |r.synced| <= |listing|
    decreases |listing|
  {
    if listing == [] then Report([], [])
    else
      var prev := NodesReport(nodesDir, listing[..|listing| - 1], sync);
      var e := listing[|listing| - 1];
      if Qualifies(e) then
        var path := Join(nodesDir, e.name);
        Report(prev.synced + [path], prev.issues + sync(path, e.repo))
      else prev
  }

  /** One more entry of the listing extends the report as the loop body does. */
  lemma NodesReportStep(nodesDir: string, listing: seq<Entry>, i: int, sync: Syncer)
    requires 0 <= i < |listing|
    ensures var prev, e := NodesReport(nodesDir, listing[..i], sync), listing[i];
      NodesReport(nodesDir, listing[..i + 1], sync)
      == if Qualifies(e) then Report(prev.synced + [Join(nodesDir, e.name)],
                                     prev.issues + sync(Join(nodesDir, e.name), e.repo))
         else prev
  {
    assert listing[..i + 1][..i] == listing[..i];
  }

  /** Lines 105-135: nothing happens without a `comfyui` directory; otherwise
      the main checkout is synced first, then the plugins. */
  function UpdateProject(proj: Project, p: Policy): (r: Report)
    ensures !proj.hasMainApp ==> r == Report([], [])
    ensures proj.hasMainApp ==> |r.synced| >= 1 && r.synced[0] == MainAppPath(proj)
    ensures proj.hasMainApp ==>
              var main := Sync(MainAppPath(proj), p, proj.mainRepo).issues;
              |main| <= |r.issues| && r.issues[..|main|] == main
    ensures proj.hasMainApp && !proj.hasCustomNodes ==> |r.synced| == 1
  {
    if !proj.hasMainApp then Report([], [])
    else
      var mainDir := MainAppPath(proj);
      var main := Sync(mainDir, p, proj.mainRepo).issues;
      var nodes := if proj.hasCustomNodes then NodesReport(CustomNodesPath(proj), proj.listing, SyncWith(p))
                   else Report([], []);
      Report([mainDir] + nodes.synced, main + nodes.issues)
  }

  /** Lines 124-129 as written: a `for` loop over the listing that
      extends the two lists, computing exactly `NodesReport`. */
  method RunNodes(nodesDir: string, listing: seq<Entry>, sync: Syncer)
    returns (synced: seq<string>, issues: seq<Issue>)
    ensures Report(synced, issues) == NodesReport(nodesDir, listing, sync)
  {
    synced, issues := [], [];
    var i := 0;
    while i < |listing|
      invariant 0 <= i <= |listing|
      invariant Report(synced, issues) == NodesReport(nodesDir, listing[..i], sync)
    {
      var e := listing[i];
      NodesReportStep(nodesDir, listing, i, sync);
      if e.isDir && e.name != CacheDir {
        var path := Join(nodesDir, e.name);
        synced := synced + [path];
        issues := issues + sync(path, e.repo);
      }
      i := i + 1;
    }
    assert listing[..|listing|] == listing;
  }

  /** Lines 105-135 as written: sync the main checkout, then run the loop
      over the plugins when their directory exists; computes exactly
      `UpdateProject`. */
  method RunUpdateProject(proj: Project, p: Policy) returns (synced: seq<string>, issues: seq<Issue>)
    ensures Report(synced, issues) == UpdateProject(proj, p)
  {
    synced, issues := [], [];
    if proj.hasMainApp {
      var mainDir := MainAppPath(proj);
      synced, issues := [mainDir], Sync(mainDir, p, proj.mainRepo).issues;
      if proj.hasCustomNodes {
        var nodeDirs, nodeIssues := RunNodes(CustomNodesPath(proj), proj.listing, SyncWith(p));
        synced, issues := synced + nodeDirs, issues + nodeIssues;
      }
    }
  }

  // An independent description of the same result: filter the listing,
  // then sync each surviving entry and concatenate.

  function Filter(listing: seq<Entry>): seq<Entry> {
    if listing == [] then []
    else (if Qualifies(listing[0]) then [listing[0]] else []) + Filter(listing[1..])
  }

  function Paths(nodesDir: string, entries: seq<Entry>): seq<string> {
    if entries == [] then [] else [Join(nodesDir, entries[0].name)] + Paths(nodesDir, entries[1..])
  }

  function AllIssues(nodesDir: string, entries: seq<Entry>, sync: Syncer): seq<Issue> {
    if entries == [] then []
    else sync(Join(nodesDir, entries[0].name), entries[0].repo) + AllIssues(nodesDir, entries[1..], sync)
  }

  lemma {:induction false} FilterSnoc(listing: seq<Entry>, e: Entry)
    ensures Filter(listing + [e]) == Filter(listing) + (if Qualifies(e) then [e] else [])
    decreases |listing|
  {
    var last: seq<Entry> := if Qualifies(e) then [e] else [];
    if listing == [] {
      assert listing + [e] == [e];
      assert Filter([e]) == last + Filter([]);
    } else {
      var t := listing + [e];
      var head: seq<Entry> := if Qualifies(listing[0]) then [listing[0]] else [];
      assert t[0] == listing[0] && t[1..] == listing[1..] + [e];
      FilterSnoc(listing[1..], e);
      assert Filter(t) == head + (Filter(listing[1..]) + last);
      assert Filter(listing) == head + Filter(listing[1..]);
      assert head + (Filter(listing[1..]) + last) == (head + Filter(listing[1..])) + last;
    }
  }

  lemma {:induction false} PathsSnoc(nodesDir: string, entries: seq<Entry>, e: Entry)
    ensures Paths(nodesDir, entries + [e]) == Paths(nodesDir, entries) + [Join(nodesDir, e.name)]
    decreases |entries|
  {
    if entries == [] {
      assert [] + [e] == [e];
    } else {
      assert (entries + [e])[1..] == entries[1..] + [e];
      PathsSnoc(nodesDir, entries[1..], e);
    }
  }

  lemma {:induction false} AllIssuesSnoc(nodesDir: string, entries: seq<Entry>, e: Entry, sync: Syncer)
    ensures AllIssues(nodesDir, entries + [e], sync)
         == AllIssues(nodesDir, entries, sync) + sync(Join(nodesDir, e.name), e.repo)
    decreases |entries|
  {
    if entries == [] {
      assert [] + [e] == [e];
    } else {
      assert (entries + [e])[1..] == entries[1..] + [e];
      AllIssuesSnoc(nodesDir, entries[1..], e, sync);
    }
  }

  /** The plugins synced are exactly the qualifying entries in listing
      order, and their issues are each one's issues concatenated in that
      order: non-directories and `__pycache__` are skipped, nothing else. */
  lemma {:induction false} NodesReportIsFilterThenSync(nodesDir: string, listing: seq<Entry>, sync: Syncer)
    ensures NodesReport(nodesDir, listing, sync).synced == Paths(nodesDir, Filter(listing))
    ensures NodesReport(nodesDir, listing, sync).issues == AllIssues(nodesDir, Filter(listing), sync)
    decreases |listing|
  {
    if listing != [] {
      var n := |listing| - 1;
      var init, e := listing[..n], listing[n];
      assert listing[..n + 1] == listing;
      assert init + [e] == listing;
      NodesReportStep(nodesDir, listing, n, sync);
      NodesReportIsFilterThenSync(nodesDir, init, sync);
      FilterSnoc(init, e);
      if Qualifies(e) {
        PathsSnoc(nodesDir, Filter(init), e);
        AllIssuesSnoc(nodesDir, Filter(init), e, sync);
      } else {
        assert Filter(init) + [] == Filter(init);
        assert Filter(listing) == Filter(init);
      }
    }
  }

  /** Lines 112-135 in one statement: the main checkout's issues, followed
      by the issues of each qualifying plugin in listing order, when the
      respective directories exist. */
  lemma ProjectIssues(proj: Project, p: Policy)
    ensures UpdateProject(proj, p).issues ==
      if !proj.hasMainApp then []
      else Sync(MainAppPath(proj), p, proj.mainRepo).issues
           + (if proj.hasCustomNodes then AllIssues(CustomNodesPath(proj), Filter(proj.listing), SyncWith(p)) else [])
  {
    NodesReportIsFilterThenSync(CustomNodesPath(proj), proj.listing, SyncWith(p));
  }

  /** Each checkout contributes at most two issues. */
  lemma {:induction false} NodesIssueBound(nodesDir: string, listing: seq<Entry>, p: Policy)
    ensures var r := NodesReport(nodesDir, listing, SyncWith(p));
      |r.issues| <= 2 * |r.synced|
    decreases |listing|
  {
    if listing != [] {
      var e := listing[|listing| - 1];
      NodesIssueBound(nodesDir, listing[..|listing| - 1], p);
      var bound := Sync(Join(nodesDir, e.name), p, e.repo);
    }
  }

  /** A project reports at most two issues per synced checkout. */
  lemma ProjectIssueBound(proj: Project, p: Policy)
    ensures |UpdateProject(proj, p).issues| <= 2 * |UpdateProject(proj, p).synced|
  {
    NodesIssueBound(CustomNodesPath(proj), proj.listing, p);
    var bound := Sync(MainAppPath(proj), p, proj.mainRepo);
  }

  /** Every synced plugin path names its listing entry: with plain names,
      the basename of each synced path is a qualifying entry's name. */
  lemma {:induction false} SyncedPathsNameEntries(nodesDir: string, entries: seq<Entry>)
    requires forall i :: 0 <= i < |entries| ==> NoSlash(entries[i].name)
    ensures |Paths(nodesDir, entries)| == |entries|
    ensures forall i :: 0 <= i < |entries| ==> Basename(Paths(nodesDir, entries)[i]) == entries[i].name
    decreases |entries|
  {
    if entries != [] {
      var rest := entries[1..];
      assert forall i :: 0 <= i < |rest| ==> NoSlash(rest[i].name) by {
        forall i | 0 <= i < |rest| ensures NoSlash(rest[i].name) {
          assert rest[i] == entries[i + 1];
        }
      }
      SyncedPathsNameEntries(nodesDir, rest);
      BasenameOfJoin(nodesDir, entries[0].name);
      var tail := Paths(nodesDir, rest);
      var ps := Paths(nodesDir, entries);
      assert ps == [Join(nodesDir, entries[0].name)] + tail;
      forall i | 0 <= i < |entries|
        ensures Basename(ps[i]) == entries[i].name
      {
        if i > 0 {
          assert ps[i] == tail[i - 1];
          assert entries[i] == rest[i - 1];
        }
      }
    }
  }

  /** Every synced plugin path lies under the plugin directory: with plain
      names, each path starts with the directory it was joined onto. */
  lemma {:induction false} SyncedPathsUnderNodesDir(nodesDir: string, entries: seq<Entry>)
    requires forall i :: 0 <= i < |entries| ==> NoSlash(entries[i].name)
    ensures |Paths(nodesDir, entries)| == |entries|
    ensures forall i :: 0 <= i < |entries| ==>
      |nodesDir| <= |Paths(nodesDir, entries)[i]| && Paths(nodesDir, entries)[i][..|nodesDir|] == nodesDir
    decreases |entries|
  {
    if entries != [] {
      var rest := entries[1..];
      assert forall i :: 0 <= i < |rest| ==> NoSlash(rest[i].name) by {
        forall i | 0 <= i < |rest| ensures NoSlash(rest[i].name) {
          assert rest[i] == entries[i + 1];
        }
      }
      SyncedPathsUnderNodesDir(nodesDir, rest);
      var name := entries[0].name;
      assert !(|name| > 0 && name[0] == '/');
      var tail := Paths(nodesDir, rest);
      var ps := Paths(nodesDir, entries);
      assert ps == [Join(nodesDir, name)] + tail;
      forall i | 0 <= i < |entries|
        ensures |nodesDir| <= |ps[i]| && ps[i][..|nodesDir|] == nodesDir
      {
        if i > 0 {
          assert ps[i] == tail[i - 1];
        }
      }
    }
  }

  /** No synced plugin is a non-directory or the bytecode cache. */
  lemma {:induction false} FilterKeepsQualifying(listing: seq<Entry>)
    ensures |Filter(listing)| <= |listing|
    ensures forall i :: 0 <= i < |Filter(listing)| ==> Qualifies(Filter(listing)[i])
    ensures forall e :: e in listing && Qualifies(e) ==> e in Filter(listing)
    decreases |listing|
  {
    if listing != [] {
      FilterKeepsQualifying(listing[1..]);
      var rest := Filter(listing[1..]);
      var f := Filter(listing);
      forall i | 0 <= i < |f| ensures Qualifies(f[i]) {
        if Qualifies(listing[0]) && i > 0 {
          assert f[i] == rest[i - 1];
        } else if !Qualifies(listing[0]) {
          assert f == rest;
        }
      }
      forall e | e in listing && Qualifies(e) ensures e in f {
        if e != listing[0] {
          assert e in listing[1..];
        }
      }
    }
  }
}
