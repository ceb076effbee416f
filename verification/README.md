# ComfyUI launcher updater, modelled in Dafny

`update_comfyui.py` batch-updates ComfyUI projects. For each project it
brings the main checkout (`comfyui/`) and every plugin checkout under
`comfyui/custom_nodes/` up to date with git, then collects human-readable
issues. This project models the three pieces that carry its logic:

- **`git_pull_with_resolve`** (module `GitSync`) is the per-repository
  decision tree: recover a stash, settle local changes, pull with rebase,
  and on failure either force the branch to its upstream or retry in
  favour of incoming changes and abort. It is a pure function `Sync` from
  the flags (`Policy`) and the environment's answers (`Oracle`: does `.git`
  exist, what `git stash list` prints, and the exit status of each git
  command the script inspects) to an `Outcome`. The outcome holds the git
  commands issued in order (`Cmd`), the issues appended in order (`Issue`,
  rendered to the exact strings by `IssueText`), and the narration events
  printed in verbose mode (`Note`).
- **`update_progress`** (module `Progress`) computes the percentage and the
  number of filled cells of a 50-cell bar using Python's `int()` of a
  quotient. The model writes this as division truncated toward zero,
  `TruncDiv`. It also builds the whole line written to stdout.
- **`update_project`** (module `ProjectUpdate`) is a fold over a directory
  listing. It syncs the main checkout, then each listed entry that is a
  directory and is not `__pycache__`, and concatenates their issues. It is
  given both as a function (`UpdateProject`, `NodesReport`) and as the loop
  the script runs (`RunUpdateProject`, `RunNodes`). An independent
  filter-then-sync description (`Filter`, `Paths`, `AllIssues`) is proved
  equal to the fold.

Module `Text` models the Python string and path behaviour the script relies
on:

- `str.strip` together with the full `str.isspace` character set;
- the padding of `f"{s:<40}"` and `f"{n:3d}"`;
- `str(int)`;
- `" " * n` for negative `n`;
- `os.path.join` and `os.path.basename` as they behave on POSIX systems
  (`posixpath`).

Module `GitSyncProperties` holds the properties of `Sync`. Among them is an
exact grammar of the command traces (`IsTrace`), proved both sound
(`TracesAreWellFormed`) and complete (`WellFormedTracesOccur`).

Two consequences of the order of the code are worth stating, because a
reader of the flags might expect otherwise:

- Under `force` with a dirty tree, a failed stash re-application is still
  reported. Lines 59-66 re-apply the stash before line 68 looks at local
  changes, whatever `force` is, and line 66 records the issue when the
  re-application fails. `GitSyncProperties.ForceKeepsStashIssue` states this.
- A forced pull failure records no conflict issue, but the stash issue can
  still be present. `ForceNeverConflicts` and `IssueList` state this.

## Model

| member | source | states |
|---|---|---|
| Text.IsSpace | update_comfyui.py:61 | the characters `str.isspace` accepts, which `strip()` removes; no contract of its own, used by `TrimLeft` and `TrimRight` |
| Text.Strip | update_comfyui.py:61 | `stdout.strip()`; no contract of its own, characterised by `TrimLeft`, `TrimRight` and `StripEmptyIffBlank` |
| Text.HasContent | update_comfyui.py:61 | the truth value of `stdout.strip()`; no contract of its own, shown equal to it by `StripEmptyIffBlank` and to "not all whitespace" by `HasContentIffNotBlank` |
| Text.TrimLeft | update_comfyui.py:61 | `lstrip`: the result is a suffix of the input, everything removed is whitespace, and the result does not start with whitespace |
| Text.TrimRight | update_comfyui.py:61 | `rstrip`: the result is a prefix of the input, everything removed is whitespace, and the result does not end with whitespace |
| Text.StripEmptyIffBlank | update_comfyui.py:61 | `stdout.strip()` is empty exactly when the listing is all whitespace, so the truth test at line 61 is `HasContent` |
| Text.HasContentIffNotBlank | update_comfyui.py:61 | the listing has content exactly when some character is not whitespace |
| Text.Repeat | update_comfyui.py:39-40 | `c * n` has `n` copies of `c`, and is empty when `n <= 0` |
| Text.PadRight | update_comfyui.py:37 | `f"{folder:<40}"` keeps the folder name and appends spaces up to 40 characters, never truncating |
| Text.PadLeft | update_comfyui.py:41 | `f"{percent:3d}"` right-aligns in 3 characters: the text is kept at the end, preceded only by spaces |
| Text.NatToString | update_comfyui.py:41 | decimal digits of a natural number, at least one, with no leading zero |
| Text.ParseNatToString | update_comfyui.py:41 | reading the printed digits back gives the number |
| Text.NatToStringWidth | update_comfyui.py:41 | numbers below 10, 100 and 1000 print in 1, 2 and 3 digits |
| Text.IntToString | update_comfyui.py:41 | a negative number prints as '-' followed by the digits of its magnitude |
| Text.Join | update_comfyui.py:113 | `os.path.join` ends with its second argument; an absolute second argument replaces the first; otherwise the first argument is kept as a prefix, followed by one '/' exactly when it is non-empty and does not already end in '/' |
| Text.Basename | update_comfyui.py:106 | `os.path.basename` never contains '/' |
| Text.BasenameIsSuffix | update_comfyui.py:106 | the basename is a suffix of the path, preceded by '/' when shorter than it |
| Text.BasenameOfJoin | update_comfyui.py:125 | the basename of `os.path.join(dir, name)` is `name` for any slash-free name |
| Text.BasenameAppend | update_comfyui.py:125 | appending a slash-free name to a path ending in '/' makes that name the basename |
| GitSync.CommandLine | update_comfyui.py:60-98 | the shell text of each git command the procedure issues; its property is carried by `CommandLineInjective` |
| GitSync.CommandLineInjective | update_comfyui.py:60-98 | different commands have different shell texts, so the `Cmd` trace determines what the shell runs |
| GitSync.IssueText | update_comfyui.py:66-97 | the exact issue strings of lines 66 and 97; no contract of its own, its property is carried by `IssueTextInjective` |
| GitSync.RecoverStash | update_comfyui.py:59-66 | lists stashes first; issues `git stash apply` exactly when the listing is not blank; records the stash issue exactly when that apply fails |
| GitSync.SettleLocalChanges | update_comfyui.py:68-78 | the dirty check comes first; a dirty tree is reset under `force` and stashed otherwise; nothing is reported |
| GitSync.PullAndResolve | update_comfyui.py:80-98 | pulls first; fetch and upstream reset happen exactly on a forced failure; the theirs-rebase exactly on an unforced failure; the abort exactly when the one conflict issue is recorded |
| GitSync.StepStages | update_comfyui.py:59-98 | each of the three steps issues only commands of its own step |
| GitSync.Sync | update_comfyui.py:49-103 | without `.git` nothing is issued or reported; at most two issues |
| GitSync.IssueTextInjective | update_comfyui.py:66-97 | the two issue texts determine the kind of issue and the directory |
| GitSyncProperties.StashRecovery | update_comfyui.py:59-81 | `git stash list` comes first; the apply happens iff the listing has content; the stash issue appears iff that apply fails; the dirty check and the pull still happen |
| GitSyncProperties.ForceKeepsStashIssue | update_comfyui.py:59-78 | under `force` with local changes, a failed stash re-application is still reported |
| GitSyncProperties.CommandsInStageOrder | update_comfyui.py:59-98 | every stash command precedes every local-change command, which precedes every pull command |
| GitSyncProperties.LocalChanges | update_comfyui.py:68-78 | the reset happens iff dirty under `force`, and `git stash` iff dirty without it; the dirty check never changes the issues |
| GitSyncProperties.PullSucceeds | update_comfyui.py:81-82 | after a successful pull it is the last command: no fetch, reset, theirs-rebase or abort; the only possible issue is the stash issue |
| GitSyncProperties.ForcedPullFailure | update_comfyui.py:86-90 | a forced pull failure ends with pull, `git fetch --all`, reset to `origin/<branch>` |
| GitSyncProperties.ForceNeverConflicts | update_comfyui.py:86-98 | under `force` there is never a theirs-rebase, never an abort, never a conflict issue |
| GitSyncProperties.ConservativePullFailure | update_comfyui.py:91-94 | an unforced pull failure issues the theirs-rebase and never the fetch or the upstream reset |
| GitSyncProperties.ConservativeAbort | update_comfyui.py:94-98 | after an unforced pull failure the abort happens iff the retry fails, and is then the last command; otherwise the retry is last |
| GitSyncProperties.ConservativePullIssue | update_comfyui.py:95-97 | after an unforced pull failure the conflict issue occurs once if the retry fails and not at all otherwise |
| GitSyncProperties.AbortIffConflict | update_comfyui.py:96-98 | the rebase is aborted exactly when the conflict issue is recorded |
| GitSyncProperties.SyncParts | update_comfyui.py:59-98 | a repository's commands are the three steps' commands in order; its issues are the stash issues, then the conflict issues |
| GitSyncProperties.IssueList | update_comfyui.py:51-103 | the issue list is exactly [stash issue if the apply failed] + [conflict issue if the retry failed]: at most two, stash first |
| GitSyncProperties.VerboseOnlyNarrates | update_comfyui.py:51-103 | `verbose` changes neither the commands nor the issues, and a quiet run narrates nothing |
| GitSyncProperties.SuccessNarration | update_comfyui.py:100-101 | success is narrated iff the run is verbose, the directory is a repository, and no issue was recorded |
| GitSyncProperties.CleanCheckout | update_comfyui.py:59-82 | a clean, stash-free checkout whose pull succeeds gets only the list, diff and pull commands, and no issue |
| GitSyncProperties.TracesAreWellFormed | update_comfyui.py:49-103 | every command trace follows the grammar `StashList [StashApply] DiffQuietHead [settle] PullRebase tail` |
| GitSyncProperties.WellFormedTracesOccur | update_comfyui.py:49-103 | every trace the grammar admits is produced under some environment, so the grammar is exact |
| Progress.Percent | update_comfyui.py:33 | `int(current * 100 / total)`; no contract of its own, bounded by `ProgressBounds` and related to `Completed` by `CompletedIsHalfPercent` |
| Progress.Completed | update_comfyui.py:34 | `int(50 * current / total)`; no contract of its own, bounded by `ProgressBounds` and shown monotone by `CompletedMonotonic` |
| Progress.BarCells | update_comfyui.py:38-40 | the text between the brackets; no contract of its own, characterised by `BarShape` |
| Progress.PercentField | update_comfyui.py:41 | `f"{percent:3d}"`; no contract of its own, characterised by `PercentFieldReadsBack` |
| Progress.ProgressLine | update_comfyui.py:36-41 | everything written to stdout; no contract of its own, laid out by `LineLayout` |
| Progress.TruncDiv | update_comfyui.py:33-34 | `int(a / b)` truncates toward zero: the magnitude is the floor of the magnitudes' quotient, and the sign is the product of the signs |
| Progress.ProgressBounds | update_comfyui.py:31-34 | for `0 <= current <= total`: percent in 0..100 and filled cells in 0..50; 0 gives 0 and 0; `current == total` gives 100 and 50 |
| Progress.CompletedMonotonic | update_comfyui.py:34 | the bar never shrinks as `current` grows |
| Progress.CompletedIsHalfPercent | update_comfyui.py:33-34 | the filled cells are the printed percentage halved, rounded down |
| Progress.BarShape | update_comfyui.py:38-40 | cell `i` of the bar is '=' when `i < completed` and a space otherwise: exactly 50 cells up to `total`, all '=' and at least 50 beyond it |
| Progress.PercentFieldReadsBack | update_comfyui.py:41 | in range, the percentage field is 3 characters and reads back as the percentage |
| Progress.LineLayout | update_comfyui.py:36-41 | the line is '\r', "Updating: ", the folder padded with spaces to 40, '[', the 50 bar cells, ']', ' ', the 3-character percentage, '%', with nothing in between |
| ProjectUpdate.MainAppPath | update_comfyui.py:113 | the main checkout's path starts with the project path and its basename is `comfyui` |
| ProjectUpdate.CustomNodesPath | update_comfyui.py:120 | the plugin directory's path starts with the main checkout's path, and so with the project path |
| ProjectUpdate.Qualifies | update_comfyui.py:126 | a listed entry is synced when it is a directory not named `__pycache__`; no contract of its own, used by `FilterKeepsQualifying` and `NodesReportIsFilterThenSync` |
| ProjectUpdate.NodesReport | update_comfyui.py:124-129 | the plugins synced are never more than the entries listed |
| ProjectUpdate.UpdateProject | update_comfyui.py:105-135 | nothing without `comfyui`; otherwise the main checkout is synced first and its issues lead the list; without `custom_nodes` only it is synced |
| ProjectUpdate.RunNodes | update_comfyui.py:124-129 | the plugin loop computes exactly `NodesReport` |
| ProjectUpdate.RunUpdateProject | update_comfyui.py:105-135 | the procedure as written computes exactly `UpdateProject` |
| ProjectUpdate.NodesReportIsFilterThenSync | update_comfyui.py:124-129 | the synced plugins are the qualifying entries in listing order, and their issues are each one's issues concatenated in that order |
| ProjectUpdate.ProjectIssues | update_comfyui.py:112-135 | a project's issues are the main checkout's, then each qualifying plugin's in listing order, when the directories exist |
| ProjectUpdate.FilterKeepsQualifying | update_comfyui.py:126 | only directories other than `__pycache__` are kept, and every such entry is kept |
| ProjectUpdate.SyncedPathsNameEntries | update_comfyui.py:125 | each synced plugin path has the listed entry's name as its basename |
| ProjectUpdate.SyncedPathsUnderNodesDir | update_comfyui.py:125 | each synced plugin path starts with the plugin directory it was joined onto |
| ProjectUpdate.NodesIssueBound | update_comfyui.py:124-129 | the plugins contribute at most two issues each |
| ProjectUpdate.ProjectIssueBound | update_comfyui.py:105-135 | a project reports at most two issues per synced checkout |

## Left out

- `run_git_command` and `subprocess.Popen` (lines 44-47) are not modelled. Each command's exit status and output is an `Oracle` field instead.
- The effect of the git commands on the repository is not modelled; this is git's own behaviour. The claim that the working tree is never left mid-rebase depends on it and is not stated. `AbortIffConflict` states only that the abort command is issued whenever the conflict issue is recorded.
- `os.chdir` (line 50) is not modelled. Neither is `os.path.exists`, `os.path.isdir` or `os.listdir`: their answers are inputs, and the listing order is whatever the input gives.
- Printing is modelled only as `Note` events, not as text. This covers the colours, the narration wording and the `sys.stdout` writes and flush. The narration of `update_project` (lines 109-110, 115-116, 122-123, 127-128, 131-133) is not modelled.
- `show_help`, `main` and argparse (lines 15-29, 137-167) are not modelled. This covers the check for the current directory, the listing of projects and the summary printing.
- Progress.TruncDiv: the script divides in floating point before truncating. The model divides exactly, which agrees with the script while `current * 100` and `50 * current` stay below 2^53.
- Progress.Percent requires `total != 0`: the script raises `ZeroDivisionError` for `total == 0`, and the exception is not modelled.
- Strings are sequences of Dafny `char`, which are Unicode scalar values. Python strings may also hold lone surrogates. On POSIX, `os.listdir` (line 124) returns undecodable file-name bytes as the lone surrogates U+DC80..U+DCFF, so such plugin names cannot be represented. `f"{folder:<40}"` pads by characters, as Python does by code points; display width is not modelled.
- Windows path handling is not modelled. Line 145 normalises the current directory with `replace("\\", "/")`, so the script expects to run on Windows too. There `os.path.join` and `os.path.basename` are `ntpath`, with the `\` separator and drive letters, which changes the paths in the issue strings. `Join` and `Basename` model `posixpath` only.
