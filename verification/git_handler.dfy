/**
 * The git sync handler: clones the repository and runs the init callback,
 * then polls. Each poll tick pulls, turns the diff between the old and the
 * new HEAD into a list of changed paths and, when that list is not empty,
 * hands the changed files that still open to the refresh callback.
 */
module GitHandler {
  import opened Errors
  import opened Config
  import opened Host
  import opened RunHandler
  import opened Sidecar

  /** The paths one tree change contributes: the old name, then the new name when it differs. */
  function ChangePaths(c: Change): seq<string> {
    (if c.fromName != "" then [c.fromName] else [])
    + (if c.toName != "" && c.toName != c.fromName then [c.toName] else [])
  }

  /** The paths a list of tree changes contributes, change by change. */
  function ChangedPaths(changes: seq<Change>): seq<string> {
    if changes == [] then [] else ChangePaths(changes[0]) + ChangedPaths(changes[1..])
  }

  /**
   * A modification contributes its name once, a rename both names, an
   * addition the new name and a deletion the old name.
   */
  lemma ChangePathsKinds(c: Change)
    ensures c.fromName != "" && c.toName == c.fromName ==> ChangePaths(c) == [c.fromName]
    ensures c.fromName != "" && c.toName != "" && c.toName != c.fromName ==> ChangePaths(c) == [c.fromName, c.toName]
    ensures c.fromName == "" ==> ChangePaths(c) == (if c.toName != "" then [c.toName] else [])
    ensures c.fromName != "" && c.toName == "" ==> ChangePaths(c) == [c.fromName]
  {
  }

  /** Changes are handled one after another, with no deduplication across changes. */
  lemma {:induction false} ChangedPathsAppend(a: seq<Change>, b: seq<Change>)
    ensures ChangedPaths(a + b) == ChangedPaths(a) + ChangedPaths(b)
  {
    if a != [] {
      assert (a + b)[0] == a[0] && (a + b)[1..] == a[1..] + b;
      ChangedPathsAppend(a[1..], b);
    } else {
      assert a + b == b;
    }
  }

  /** Every changed path is non-empty, and there are at most two per change. */
  lemma {:induction false} ChangedPathsShape(changes: seq<Change>)
    ensures |ChangedPaths(changes)| <= 2 * |changes|
    ensures forall i :: 0 <= i < |ChangedPaths(changes)| ==> ChangedPaths(changes)[i] != ""
  {
    if changes != [] {
      ChangedPathsShape(changes[1..]);
    }
  }

  /** `getUpdatedFiles`: nothing when the heads are equal, otherwise the paths of the tree diff. */
  function DiffPaths(oldHead: Hash, newHead: Hash, diff: Result<seq<Change>>): Result<seq<string>> {
    if oldHead == newHead then Success([])
    else match diff
      case Failure(e) => Failure(e)
      case Success(changes) => Success(ChangedPaths(changes))
  }

  /** `GitPullWithFiles`: "already up to date" is an empty list; any other pull error is returned. */
  function PulledFiles(p: PullOutcome): Result<seq<string>> {
    match p
    case AlreadyUpToDate => Success([])
    case PullFailed(cause) => Failure(Foreign(cause))
    case Pulled(oldHead, newHead, diff) => DiffPaths(oldHead, newHead, diff)
  }

  /** The pulled paths are all non-empty; an unchanged HEAD yields none, whatever the tree diff would say. */
  lemma PulledFilesShape(p: PullOutcome)
    ensures PulledFiles(p).Success? ==> forall i :: 0 <= i < |PulledFiles(p).value| ==> PulledFiles(p).value[i] != ""
    ensures p.AlreadyUpToDate? || (p.Pulled? && p.oldHead == p.newHead) ==> PulledFiles(p) == Success([])
    ensures p.PullFailed? ==> PulledFiles(p) == Failure(Foreign(p.cause))
  {
    if p.Pulled? && p.oldHead != p.newHead && p.diff.Success? {
      ChangedPathsShape(p.diff.value);
    }
  }

  /** The files handed to the refresh callback: the paths that open under the workspace, in order. */
  function Opened(workspace: string, paths: seq<string>, opens: string -> bool): (r: seq<File>)
    ensures |r| <= |paths|
  {
    if paths == [] then []
    else
      var fullPath := workspace + "/" + paths[|paths| - 1];
      Opened(workspace, paths[..|paths| - 1], opens) + (if opens(fullPath) then [File(fullPath)] else [])
  }

  /** A file is handed over exactly when it is the full path of a changed path that opens. */
  lemma {:induction false} OpenedIff(workspace: string, paths: seq<string>, opens: string -> bool, f: File)
    ensures f in Opened(workspace, paths, opens)
        <==> exists i :: 0 <= i < |paths| && f.name == workspace + "/" + paths[i] && opens(f.name)
  {
    if paths != [] {
      var init := paths[..|paths| - 1];
      OpenedIff(workspace, init, opens, f);
      if exists i :: 0 <= i < |paths| && f.name == workspace + "/" + paths[i] && opens(f.name) {
        var i :| 0 <= i < |paths| && f.name == workspace + "/" + paths[i] && opens(f.name);
        if i < |paths| - 1 { assert init[i] == paths[i]; }
      }
      if f in Opened(workspace, init, opens) {
        var i :| 0 <= i < |init| && f.name == workspace + "/" + init[i] && opens(f.name);
        assert paths[i] == init[i];
      }
    }
  }

  lemma OpenedStep(workspace: string, paths: seq<string>, opens: string -> bool, i: nat)
    requires i < |paths|
    ensures var fullPath := workspace + "/" + paths[i];
      Opened(workspace, paths[..i + 1], opens)
        == Opened(workspace, paths[..i], opens) + (if opens(fullPath) then [File(fullPath)] else [])
  {
    assert paths[..i + 1][..i] == paths[..i];
  }

  /** The effects of one poll tick, in the workspace its pull leaves. */
  function TickEffect(workspace: string, branch: string, refreshFunc: RefreshFunc, t: Tick): seq<Event> {
    [Pull(workspace, branch)]
    + match PulledFiles(t.pull)
      case Failure(_) => []
      case Success(paths) =>
        if paths == [] then []
        else refreshFunc.Effect(Opened(workspace, paths, t.after.opens), t.after.execErr).events
  }

  /** The effects of the poll ticks `ticks`, tick after tick. */
  function TicksEffect(workspace: string, branch: string, refreshFunc: RefreshFunc, ticks: seq<Tick>): seq<Event> {
    if ticks == [] then []
    else TickEffect(workspace, branch, refreshFunc, ticks[0]) + TicksEffect(workspace, branch, refreshFunc, ticks[1..])
  }

  /** Running the ticks from `tick` on after `log`: tick `tick` first, then the rest. */
  lemma TicksStep(log: seq<Event>, workspace: string, branch: string, refreshFunc: RefreshFunc, ticks: seq<Tick>, tick: nat)
    requires tick < |ticks|
    ensures log + TicksEffect(workspace, branch, refreshFunc, ticks[tick..])
         == (log + TickEffect(workspace, branch, refreshFunc, ticks[tick])) + TicksEffect(workspace, branch, refreshFunc, ticks[tick + 1..])
  {
    assert ticks[tick..][0] == ticks[tick] && ticks[tick..][1..] == ticks[tick + 1..];
  }

  /** A tick whose pull yields paths: the pull, then the refresh callback on the files that open. */
  lemma TickWithPaths(log: seq<Event>, workspace: string, branch: string, refreshFunc: RefreshFunc, t: Tick, paths: seq<string>)
    requires PulledFiles(t.pull) == Success(paths) && paths != []
    ensures (log + [Pull(workspace, branch)]) + refreshFunc.Effect(Opened(workspace, paths, t.after.opens), t.after.execErr).events
         == log + TickEffect(workspace, branch, refreshFunc, t)
  {
  }

  /** The workspace after the ticks `ticks`, starting from `start`. */
  function CheckoutAfter(start: Checkout, ticks: seq<Tick>): Checkout {
    if ticks == [] then start else ticks[|ticks| - 1].after
  }

  /** `Init`: clone, then the init callback; the callback's error is dropped. */
  function InitEffect(workspace: string, syncConfig: SyncConfig, initFunc: InitFunc, w: World): Outcome {
    var clone := Clone(workspace, syncConfig.git.url, syncConfig.git.branch);
    match w.cloneErr
    case Some(cause) => Outcome([clone], Some(Foreign(cause)))
    case None => Outcome([clone] + initFunc.Effect(w.cloned.execErr).events, None)
  }

  /**
   * `Refresh`: a duration that does not parse is returned before any tick; a
   * duration that is not positive makes `time.NewTicker` panic before any
   * tick; otherwise every tick runs.
   */
  function RefreshEffect(workspace: string, syncConfig: SyncConfig, refreshFunc: RefreshFunc, w: World): Outcome {
    match w.parseDuration(syncConfig.git.syncInterval)
    case Invalid(cause) => Outcome([], Some(Foreign(cause)))
    case Duration(nanos) =>
      if nanos <= 0 then Outcome([], Some(NonPositiveInterval))
      else Outcome(TicksEffect(workspace, syncConfig.git.branch, refreshFunc, w.ticks), None)
  }

  /** If the clone fails, `Init` returns its error and never invokes the init callback. */
  lemma InitCloneFails(workspace: string, syncConfig: SyncConfig, initFunc: InitFunc, w: World)
    requires w.cloneErr.Some?
    ensures InitEffect(workspace, syncConfig, initFunc, w)
         == Outcome([Clone(workspace, syncConfig.git.url, syncConfig.git.branch)], Some(Foreign(w.cloneErr.value)))
    ensures InitFuncCalled !in InitEffect(workspace, syncConfig, initFunc, w).events
  {
  }

  /**
   * If the clone succeeds, `Init` invokes the init callback exactly once, after
   * the clone, and succeeds whatever the callback returns.
   */
  lemma InitCallsBackOnce(workspace: string, syncConfig: SyncConfig, initFunc: InitFunc, w: World)
    requires w.cloneErr.None?
    ensures var o := InitEffect(workspace, syncConfig, initFunc, w);
      && o.err == None
      && |o.events| >= 2
      && o.events[0] == Clone(workspace, syncConfig.git.url, syncConfig.git.branch)
      && o.events[1] == InitFuncCalled
      && multiset(o.events)[InitFuncCalled] == 1
  {
    var run := RunSpec(initFunc.config.run.init.cmds, w.cloned.execErr);
    var execs := ExecEvents(initFunc.handler.workspace, run.executed);
    ExecEventsOnlyExec(initFunc.handler.workspace, run.executed);
    assert InitFuncCalled !in execs;
    var o := InitEffect(workspace, syncConfig, initFunc, w);
    assert o.events == [Clone(workspace, syncConfig.git.url, syncConfig.git.branch)] + [InitFuncCalled] + execs;
  }

  /** The files handed to each refresh callback recorded in `events`, in order. */
  function CallbackArgs(events: seq<Event>): seq<seq<File>> {
    if events == [] then []
    else (if events[0].RefreshFuncCalled? then [events[0].files] else []) + CallbackArgs(events[1..])
  }

  /** The number of pulls recorded in `events`. */
  function PullCount(events: seq<Event>): nat {
    if events == [] then 0
    else (if events[0].Pull? then 1 else 0) + PullCount(events[1..])
  }

  lemma {:induction false} CountsAppend(a: seq<Event>, b: seq<Event>)
    ensures CallbackArgs(a + b) == CallbackArgs(a) + CallbackArgs(b)
    ensures PullCount(a + b) == PullCount(a) + PullCount(b)
  {
    if a == [] {
      assert a + b == b;
    } else {
      assert (a + b)[0] == a[0] && (a + b)[1..] == a[1..] + b;
      CountsAppend(a[1..], b);
    }
  }

  lemma {:induction false} CountsOfExecs(events: seq<Event>)
    requires forall i :: 0 <= i < |events| ==> events[i].Exec?
    ensures CallbackArgs(events) == [] && PullCount(events) == 0
  {
    if events != [] {
      CountsOfExecs(events[1..]);
    }
  }

  /** The files a tick hands on to the callback, if it hands on any. */
  function ChangedFilesOf(workspace: string, t: Tick): seq<seq<File>> {
    match PulledFiles(t.pull)
    case Failure(_) => []
    case Success(paths) => if paths == [] then [] else [Opened(workspace, paths, t.after.opens)]
  }

  /**
   * One tick attempts one pull, and invokes the refresh callback once, with the
   * opened files, exactly when the pull yields a non-empty list of paths.
   */
  lemma TickCounts(workspace: string, branch: string, refreshFunc: RefreshFunc, t: Tick)
    ensures PullCount(TickEffect(workspace, branch, refreshFunc, t)) == 1
    ensures CallbackArgs(TickEffect(workspace, branch, refreshFunc, t)) == ChangedFilesOf(workspace, t)
  {
    var pull: seq<Event> := [Pull(workspace, branch)];
    assert PullCount(pull) == 1 && CallbackArgs(pull) == [] by {
      assert pull[1..] == [];
    }
    var opens, execErr := t.after.opens, t.after.execErr;
    match PulledFiles(t.pull)
    case Failure(_) =>
      assert TickEffect(workspace, branch, refreshFunc, t) == pull + [];
      CountsAppend(pull, []);
    case Success(paths) =>
      if paths == [] {
        assert TickEffect(workspace, branch, refreshFunc, t) == pull + [];
        CountsAppend(pull, []);
      } else {
        var files := Opened(workspace, paths, opens);
        var rest := refreshFunc.Effect(files, execErr).events;
        assert TickEffect(workspace, branch, refreshFunc, t) == pull + rest;
        CountsAppend(pull, rest);
        var head: seq<Event> := [RefreshFuncCalled(files)];
        assert CallbackArgs(head) == [files] && PullCount(head) == 0 by {
          assert head[1..] == [];
        }
        match SelectRule(Buckets(files), refreshFunc.config.run.refresh)
        case Failure(_) =>
          assert rest == head + [];
          CountsAppend(head, []);
        case Success(cmds) =>
          var execs := ExecEvents(refreshFunc.handler.workspace, RunSpec(cmds, execErr).executed);
          assert rest == head + execs;
          ExecEventsOnlyExec(refreshFunc.handler.workspace, RunSpec(cmds, execErr).executed);
          CountsOfExecs(execs);
          CountsAppend(head, execs);
      }
  }

  /** The callback argument lists over a run of ticks, tick after tick. */
  function ChangedFilesOver(workspace: string, ticks: seq<Tick>): seq<seq<File>> {
    if ticks == [] then [] else ChangedFilesOf(workspace, ticks[0]) + ChangedFilesOver(workspace, ticks[1..])
  }

  /**
   * The poll loop never stops early: over any run of ticks it pulls once per
   * tick, whatever the pulls and the callbacks return, and invokes the refresh
   * callback once per tick whose pull yields changed paths, in tick order.
   */
  lemma {:induction false} TicksCounts(workspace: string, branch: string, refreshFunc: RefreshFunc, ticks: seq<Tick>)
    ensures PullCount(TicksEffect(workspace, branch, refreshFunc, ticks)) == |ticks|
    ensures CallbackArgs(TicksEffect(workspace, branch, refreshFunc, ticks)) == ChangedFilesOver(workspace, ticks)
  {
    if ticks != [] {
      TickCounts(workspace, branch, refreshFunc, ticks[0]);
      TicksCounts(workspace, branch, refreshFunc, ticks[1..]);
      CountsAppend(TickEffect(workspace, branch, refreshFunc, ticks[0]), TicksEffect(workspace, branch, refreshFunc, ticks[1..]));
    }
  }

  /** A tick whose pull yields the single path `p` hands over that file exactly when it opens. */
  lemma SinglePathTick(workspace: string, t: Tick, p: string)
    requires PulledFiles(t.pull) == Success([p])
    ensures var path := workspace + "/" + p;
      ChangedFilesOf(workspace, t) == [if t.after.opens(path) then [File(path)] else []]
  {
    var paths := [p];
    var last: seq<File> := if t.after.opens(workspace + "/" + p) then [File(workspace + "/" + p)] else [];
    assert paths[..|paths| - 1] == [] && paths[|paths| - 1] == p;
    assert Opened(workspace, paths, t.after.opens) == [] + last;
    assert [] + last == last;
  }

  /**
   * Each tick sees the workspace its own pull left: a file added at one tick
   * and deleted at the next is handed over at the first tick only, though the
   * callback is entered at both, the second time with no files.
   */
  lemma AddedThenDeleted(workspace: string, branch: string, refreshFunc: RefreshFunc, added: Tick, deleted: Tick)
    requires added.pull.Pulled? && added.pull.oldHead != added.pull.newHead
    requires added.pull.diff == Success([Change("", "x.go")])
    requires deleted.pull.Pulled? && deleted.pull.oldHead != deleted.pull.newHead
    requires deleted.pull.diff == Success([Change("x.go", "")])
    requires added.after.opens(workspace + "/x.go") && !deleted.after.opens(workspace + "/x.go")
    ensures CallbackArgs(TicksEffect(workspace, branch, refreshFunc, [added, deleted])) == [[File(workspace + "/x.go")], []]
  {
    assert workspace + "/" + "x.go" == workspace + "/x.go";
    assert ChangedPaths([Change("", "x.go")]) == ["x.go"] == ChangedPaths([Change("x.go", "")]) by {
      assert [Change("", "x.go")][1..] == [] && [Change("x.go", "")][1..] == [];
    }
    assert PulledFiles(added.pull) == Success(["x.go"]) == PulledFiles(deleted.pull);
    SinglePathTick(workspace, added, "x.go");
    SinglePathTick(workspace, deleted, "x.go");
    var ticks := [added, deleted];
    assert ticks[1..] == [deleted] && [deleted][1..] == [];
    assert ChangedFilesOver(workspace, [deleted]) == ChangedFilesOf(workspace, deleted) + ChangedFilesOver(workspace, []);
    assert ChangedFilesOver(workspace, ticks) == ChangedFilesOf(workspace, added) + ChangedFilesOver(workspace, [deleted]);
    TicksCounts(workspace, branch, refreshFunc, ticks);
  }

  datatype GitSyncHandler = GitSyncHandler {

    method Init(workspace: string, syncConfig: SyncConfig, initFunc: InitFunc, host: Host) returns (err: Option<Error>)
      modifies host
      ensures host.log == old(host.log) + InitEffect(workspace, syncConfig, initFunc, host.world).events
      ensures host.checkout == if host.world.cloneErr.None? then host.world.cloned else old(host.checkout)
      ensures err == InitEffect(workspace, syncConfig, initFunc, host.world).err
    {
      var cloneErr := host.Clone(workspace, syncConfig.git.url, syncConfig.git.branch);
      if cloneErr.Some? {
        return Some(Foreign(cloneErr.value));
      }
      var _ := initFunc.Invoke(host);
      return None;
    }

    method Refresh(workspace: string, syncConfig: SyncConfig, refreshFunc: RefreshFunc, host: Host) returns (err: Option<Error>)
      modifies host
      ensures host.log == old(host.log) + RefreshEffect(workspace, syncConfig, refreshFunc, host.world).events
      ensures host.checkout == if err.None? then CheckoutAfter(old(host.checkout), host.world.ticks) else old(host.checkout)
      ensures err == RefreshEffect(workspace, syncConfig, refreshFunc, host.world).err
    {
      var duration := host.world.parseDuration(syncConfig.git.syncInterval);
      if duration.Invalid? {
        return Some(Foreign(duration.cause));
      }
      if duration.nanos <= 0 {
        return Some(NonPositiveInterval);
      }
      ghost var ticks := host.world.ticks;
      var branch := syncConfig.git.branch;
      assert ticks[0..] == ticks;
      for tick := 0 to |host.world.ticks|
        invariant host.log + TicksEffect(workspace, branch, refreshFunc, ticks[tick..])
               == old(host.log) + TicksEffect(workspace, branch, refreshFunc, ticks)
        invariant host.checkout == if tick == 0 then old(host.checkout) else ticks[tick - 1].after
      {
        TicksStep(host.log, workspace, branch, refreshFunc, ticks, tick);
        RefreshTick(workspace, branch, refreshFunc, tick, host);
      }
      assert ticks[|ticks|..] == [];
      return None;
    }

    /** The body of the poll loop for tick `tick`. */
    method RefreshTick(workspace: string, branch: string, refreshFunc: RefreshFunc, tick: nat, host: Host)
      requires tick < |host.world.ticks|
      modifies host
      ensures host.log == old(host.log) + TickEffect(workspace, branch, refreshFunc, host.world.ticks[tick])
      ensures host.checkout == host.world.ticks[tick].after
    {
      ghost var start := host.log;
      var updatedFiles := PullWithFiles(workspace, branch, tick, host);
      if updatedFiles.Failure? {
        return;
      }
      var paths := updatedFiles.value;
      if |paths| == 0 {
        return;
      }
      ghost var after := host.checkout;
      var files: seq<File> := [];
      for i := 0 to |paths|
        invariant files == Opened(workspace, paths[..i], after.opens)
        invariant host.log == start + [Pull(workspace, branch)]
        invariant host.checkout == after
      {
        OpenedStep(workspace, paths, after.opens, i);
        var file := host.Open(workspace + "/" + paths[i]);
        if file.Some? {
          files := files + [file.value];
        }
      }
      assert paths[..|paths|] == paths;
      var _ := refreshFunc.Invoke(files, host);
      TickWithPaths(start, workspace, branch, refreshFunc, host.world.ticks[tick], paths);
    }

    method PullWithFiles(workspace: string, branch: string, tick: nat, host: Host) returns (r: Result<seq<string>>)
      requires tick < |host.world.ticks|
      modifies host
      ensures host.log == old(host.log) + [Pull(workspace, branch)]
      ensures host.checkout == host.world.ticks[tick].after
      ensures r == PulledFiles(host.world.ticks[tick].pull)
    {
      var p := host.Pull(workspace, branch, tick);
      match p
      case AlreadyUpToDate =>
        return Success([]);
      case PullFailed(cause) =>
        return Failure(Foreign(cause));
      case Pulled(oldHead, newHead, diff) =>
        r := GetUpdatedFiles(oldHead, newHead, diff);
    }

    method GetUpdatedFiles(oldCommit: Hash, newCommit: Hash, diff: Result<seq<Change>>) returns (r: Result<seq<string>>)
      ensures r == DiffPaths(oldCommit, newCommit, diff)
    {
      if oldCommit == newCommit {
        return Success([]);
      }
      if diff.Failure? {
        return Failure(diff.error);
      }
      var changes := diff.value;
      var updatedFiles: seq<string> := [];
      for i := 0 to |changes|
        invariant updatedFiles == ChangedPaths(changes[..i])
      {
        var change := changes[i];
        assert changes[..i + 1] == changes[..i] + [change];
        ChangedPathsAppend(changes[..i], [change]);
        assert ChangedPaths([change]) == ChangePaths(change) + ChangedPaths([]);
        if change.fromName != "" {
          updatedFiles := updatedFiles + [change.fromName];
        }
        if change.toName != "" && change.toName != change.fromName {
          updatedFiles := updatedFiles + [change.toName];
        }
      }
      assert changes[..|changes|] == changes;
      return Success(updatedFiles);
    }
  }
}
