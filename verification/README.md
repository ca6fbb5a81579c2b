# openaloha sidecar: the sync-and-react engine in Dafny

This project models the core of the openaloha sidecar. The sidecar keeps a
workspace directory in step with a git repository and runs shell commands
when files change. The core has these parts:

- **Command runner** (`RunHandler`). It runs a list of commands one after
  another in the workspace. It skips blank commands and stops at the first
  command that fails.
- **Rule matcher and callbacks** (`Sidecar`, from `main.go`). The matcher
  groups the changed files by suffix. It then picks the commands of the
  first refresh rule whose condition holds: `""` always holds, and
  `*.<ext>` holds when some file has suffix `<ext>`. The init and refresh
  callbacks that `main.go` builds are datatypes with an `Invoke` method.
- **Handler registry** (`Factory`). This is a class over a name-to-handler
  map. `Register` overwrites any earlier entry, and `New` fails for an
  unknown name.
- **Git handler** (`GitHandler`). `Init` clones, then calls the init
  callback. `Refresh` polls. Each tick pulls and turns the tree diff into a
  list of changed paths. When that list is not empty, the tick hands the
  changed files that still open to the refresh callback.
- **Facade** (`Facade`). It resolves the handler, then runs `Init`, then
  `Refresh`, and returns the first error.

Everything outside the core is modelled as an oracle in `Host.World`. That
covers the git remote (the clone outcome and, for each poll tick, what its
pull reports), duration parsing, and the state of the workspace. A state of
the workspace (`Host.Checkout`) says which paths open and how each shell
command ends in it. The world gives the state a successful clone leaves and
the state each tick's pull leaves, so a file added at one tick and deleted at
the next opens only at the first, and a command that fails at one tick can
succeed at a later one. The `Host.Host` object holds the current state, which
the clone and every pull replace. It records, in order, every clone, pull and
command execution, and every entry into a callback. Each method's
postcondition states the whole log it leaves, as a function of the inputs
and the oracles. The lemmas then prove the behaviour the source promises
about those functions.

Where the documented design and the code disagree, the model follows the code:

- `Init` drops the init callback's error and returns nil once the clone
  has succeeded (`githandler.go:32-34`). The documented design propagates
  that error.
- Changed paths are collected change by change with no deduplication
  across changes (`githandler.go:239-250`). The documented design calls the
  change set deduplicated.
- The refresh callback sees each opened file under its full path
  `workspace + "/" + path` (`githandler.go:69`). The suffix is taken from
  that full path (`main.go:141`), so a `.` in the workspace or a directory
  name counts too. `Sidecar.PathSuffix` states exactly what the suffix is
  then.

## Model

| member | source | states |
|---|---|---|
| `RunHandler.CmdRunHandler.Run` | openaloha-sidecar/run/run_handler/cmd_run_handler.go:14-42 | the log gains exactly one execution, in the handler's workspace, for each command of `RunSpec(cmds).executed`; the result is `RunSpec(cmds).err` |
| `RunHandler.RunEmpty` | openaloha-sidecar/run/run_handler/cmd_run_handler.go:17-19 | an empty command list executes nothing and returns no error |
| `RunHandler.RunOutcomeShape` | openaloha-sidecar/run/run_handler/cmd_run_handler.go:21-40 | blank commands are never executed; a successful run executed only commands that succeeded; a failed run ends with the failing command, returns the error that names it, and every earlier executed command succeeded |
| `RunHandler.RunStopsAtFirstFailure` | openaloha-sidecar/run/run_handler/cmd_run_handler.go:21-39 | if command k is the first non-blank command that fails, the executed commands are exactly the non-blank commands up to and including k, and the error names command k and carries its cause |
| `RunHandler.RunAllSucceed` | openaloha-sidecar/run/run_handler/cmd_run_handler.go:21-42 | if no non-blank command fails, every non-blank command is executed in order and the run returns no error |
| `RunHandler.RunFailsIff` | openaloha-sidecar/run/run_handler/cmd_run_handler.go:21-42 | a run fails if and only if some non-blank command fails |
| `RunHandler.ExecEventsOnlyExec` | openaloha-sidecar/run/run_handler/cmd_run_handler.go:31-35 | the i-th effect of a run is the execution of the i-th executed command in the given working directory, and nothing else |
| `Sidecar.LastIndexOf` | openaloha-sidecar/main.go:183 | the result is -1 if and only if the character is absent; otherwise it is an index holding the character with no occurrence after it |
| `Sidecar.FileSuffix` | openaloha-sidecar/main.go:181-187 | the suffix never contains `.`; it is `""` when the name has no `.`; otherwise it is exactly the text after the last `.` |
| `Sidecar.PathSuffix` | openaloha-sidecar/main.go:141-143 | for a full path `dir + "/" + base`: the suffix is that of `base` when `base` has a `.`; when only `dir` has a `.`, it is the suffix of `dir` followed by `"/" + base`; with no `.` anywhere it is `""` |
| `Sidecar.Buckets` | openaloha-sidecar/main.go:139-145 | every bucket that exists holds at least one file |
| `Sidecar.BucketIsFilter` | openaloha-sidecar/main.go:139-145 | the bucket of suffix e holds exactly the files whose suffix is e, in input order; when there is no bucket for e, no file has suffix e |
| `Sidecar.BucketSizesSum` | openaloha-sidecar/main.go:139-145 | the bucket sizes add up to the number of files |
| `Sidecar.ConditionMatches` | openaloha-sidecar/main.go:159-178 | `""` matches any buckets, even those of zero files; a non-empty condition without the `*.` prefix never matches; a matching `*.` condition names a non-empty bucket |
| `Sidecar.ExtensionConditionIff` | openaloha-sidecar/main.go:165-174 | condition `"*." + e` matches if and only if at least one file has suffix e |
| `Sidecar.SelectRule` | openaloha-sidecar/main.go:147-154 | a rule is selected if and only if some rule's condition holds; otherwise the error is "no match refresh config" |
| `Sidecar.SelectRuleFirstMatch` | openaloha-sidecar/main.go:147-151 | when rule k holds and no earlier rule does, the result is rule k's commands whatever the later rules are (first match wins) |
| `Sidecar.MatchRefreshCmd` | openaloha-sidecar/main.go:137-155 | bucketing the files in place and then scanning the rules gives exactly `SelectRule` of the buckets of the files |
| `Sidecar.InitFunc.Invoke` | openaloha-sidecar/main.go:105-114 | the init callback records its entry, then has exactly the effects and the error of running the configured init commands |
| `Sidecar.RefreshFunc.Invoke` | openaloha-sidecar/main.go:117-133 | the refresh callback records its entry with the files it was given, then has exactly the effects and the error of matching and running |
| `Sidecar.RefreshNoMatchRunsNothing` | openaloha-sidecar/main.go:122-125 | when no rule holds, the refresh callback executes no command and returns the no-match error |
| `Sidecar.RefreshRunsFirstMatch` | openaloha-sidecar/main.go:122-131 | when rule k is the first that holds, the refresh callback's effects and error are exactly those of running rule k's commands |
| `Factory.Registry.constructor` | openaloha-sidecar/sync/factory/factory.go:11 | the registry starts empty |
| `Factory.Registry.Register` | openaloha-sidecar/sync/factory/factory.go:14-18 | afterwards `New(name)` gives the new handler (last registration wins), and `New(m)` is unchanged for every other name m |
| `Factory.Registry.New` | openaloha-sidecar/sync/factory/factory.go:20-27 | succeeds if and only if the name is registered, with the registered handler; otherwise fails with the not-found error for that name; reads the registry and changes nothing |
| `GitHandler.ChangePathsKinds` | openaloha-sidecar/internal/sync/handler/githandler.go:242-249 | a modification (same name on both sides) contributes its name once; a rename contributes the old name, then the new one; an addition contributes only the new name; a deletion contributes only the old name |
| `GitHandler.ChangedPathsAppend` | openaloha-sidecar/internal/sync/handler/githandler.go:239-250 | the paths of a concatenation of changes are the concatenation of their paths; there is no deduplication across changes |
| `GitHandler.ChangedPathsShape` | openaloha-sidecar/internal/sync/handler/githandler.go:239-250 | every collected path is non-empty, and there are at most two per change |
| `GitHandler.PulledFilesShape` | openaloha-sidecar/internal/sync/handler/githandler.go:182-209 | "already up to date", or an unchanged HEAD whatever the tree diff would give, yields an empty list; any other pull error is returned; every returned path is non-empty |
| `GitHandler.OpenedIff` | openaloha-sidecar/internal/sync/handler/githandler.go:66-75 | a file is handed to the callback if and only if its name is `workspace + "/" + p` for a changed path p and that path opens |
| `GitHandler.InitCloneFails` | openaloha-sidecar/internal/sync/handler/githandler.go:27-29 | when the clone fails, `Init` returns that error after the clone attempt alone, and the init callback is never entered |
| `GitHandler.InitCallsBackOnce` | openaloha-sidecar/internal/sync/handler/githandler.go:31-34 | when the clone succeeds, the init callback is entered exactly once, right after the clone, and `Init` returns no error whatever the callback returned |
| `GitHandler.TickCounts` | openaloha-sidecar/internal/sync/handler/githandler.go:50-80 | a tick attempts exactly one pull; it enters the refresh callback exactly once, with the opened files, when the pull yields a non-empty path list, and never otherwise |
| `GitHandler.TicksCounts` | openaloha-sidecar/internal/sync/handler/githandler.go:48-82 | over any run of ticks there is one pull attempt per tick, whatever the pulls and callbacks return; the callback is entered once per tick with changes, in tick order, with the files that open in the workspace that tick's pull left |
| `GitHandler.AddedThenDeleted` | openaloha-sidecar/internal/sync/handler/githandler.go:50-78 | a file added by one tick's pull and deleted by the next is handed to the callback at the first tick only; at the second tick the callback is entered with no files |
| `GitHandler.GitSyncHandler.Init` | openaloha-sidecar/internal/sync/handler/githandler.go:25-35 | the log gains the clone, then (if it succeeded) the init callback's effects in the cloned workspace; the workspace becomes the cloned one only when the clone succeeds; the error is the clone's |
| `GitHandler.GitSyncHandler.Refresh` | openaloha-sidecar/internal/sync/handler/githandler.go:38-85 | an interval that does not parse is returned before any tick; a parsed interval that is not positive ends the run before any tick with the `NewTicker` panic; otherwise the log gains the effects of every tick in order, each in the workspace its own pull left, and the workspace is the one the last tick left |
| `GitHandler.GitSyncHandler.RefreshTick` | openaloha-sidecar/internal/sync/handler/githandler.go:50-80 | the log gains the pull and the workspace becomes the one that tick leaves; then, only when the pull yields a non-empty list, the log gains the refresh callback's effects for the files that open in that workspace, in path order |
| `GitHandler.GitSyncHandler.PullWithFiles` | openaloha-sidecar/internal/sync/handler/githandler.go:161-202 | the log gains one pull, the workspace becomes the one that tick leaves, and the result is what that pull's outcome maps to |
| `GitHandler.GitSyncHandler.GetUpdatedFiles` | openaloha-sidecar/internal/sync/handler/githandler.go:205-253 | equal commits give an empty list without consulting the diff; a diff error is returned; otherwise the paths of the changes, change by change |
| `Facade.GetSyncHandler` | openaloha-sidecar/sync/facade.go:39-45 | succeeds if and only if the sync type is registered; otherwise returns the registry's not-found error |
| `Facade.SyncFacade.Sync` | openaloha-sidecar/sync/facade.go:17-35 | an unknown type fails with no effect at all; an `Init` error is returned with no `Refresh` effect; otherwise the log is `Init`'s effects then `Refresh`'s, both run with the configured workspace and sync settings, and `Refresh`'s error is returned unchanged; no error if and only if the type is registered, the clone succeeds and the interval parses to a positive duration |

## Left out

- go-git (`PlainClone`, `PlainOpen`, `Worktree`, `Pull`, `Head`, `CommitObject`, `Tree`, `DiffTree`) is a foreign library. The model uses oracles instead: a clone outcome, and one pull outcome per tick. A pull is up to date, fails, or gives the old and new HEAD together with the outcome of diffing their trees. Errors from opening the repository or reading HEAD count as pull failures.
- `GitSyncHandler.GitClone` is not a separate member: `Init` calls the clone oracle directly.
- `GitSyncHandler.GitPull` only prints what `GitPullWithFiles` computes; it is not modelled.
- `os.Open` is a predicate on paths. The deferred `file.Close()` calls are left out, including the ones on files that failed to open.
- `exec.Command("sh", "-c", …)` and its stdout/stderr wiring are left out. Each command ends as an oracle function of its text says. Go's `strings.TrimSpace(cmd) == ""` is modelled as "every character is white space in the sense of `unicode.IsSpace`". Invalid UTF-8 is not modelled.
- `time.ParseDuration` is an oracle from the interval string to a duration in nanoseconds or an error. The ticker's timing is left out; only the order of the ticks is kept.
- GitHandler.GitSyncHandler.Refresh: the Go loop never ends. The model runs the ticks the oracle lists and then returns no error, so "never returns" is weakened to "returns only after every modelled tick".
- GitHandler.GitSyncHandler.Refresh: `time.NewTicker` panics on a duration that is not positive, which ends the process. The model ends the run there too, before any tick, but reports it as the error `NonPositiveInterval` (with Go's panic text), and `Sync` returns it.
- A command's outcome depends only on its text and the workspace state of the current tick. Effects of one command on a later command within the same callback are not modelled.
- A failed clone leaves the workspace state as it was; what a partial clone leaves on disk is not modelled.
- `sync.RWMutex` in the registry exists only for concurrency, which is not modelled.
- The registry is a package-level variable filled by the git handler's `init()`. The model passes a `Registry` object to `Sync` explicitly, and the self-registration is left out.
- The `SyncHandler` interface has one implementation, `GitSyncHandler`. The registry holds that type, so there is no interface dispatch.
- `parseConfig` (flags and JSON), `initWorkspace`, `startSync`, `main` and all printing are left out. The configuration records are plain datatypes in `Config`.
- Error wrapping with `%w` keeps only the cause's text, in `RunCmdFailed` and `Foreign`.
