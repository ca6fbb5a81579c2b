/**
 * The command runner: runs a list of shell commands one after another in the
 * workspace, skips blank ones and stops at the first failure.
 */
module RunHandler {
  import opened Errors
  import opened Host

  /** White space as Go's `unicode.IsSpace` defines it. */
  predicate IsSpace(c: char) {
    c == '\t' || c == '\n' || c == '\U{000B}' || c == '\U{000C}' || c == '\r' || c == ' '
    || c == '\U{0085}' || c == '\U{00A0}' || c == '\U{1680}'
    || ('\U{2000}' <= c <= '\U{200A}')
    || c == '\U{2028}' || c == '\U{2029}' || c == '\U{202F}' || c == '\U{205F}' || c == '\U{3000}'
  }

  /** `strings.TrimSpace(cmd) == ""`: the command is white space only. */
  predicate IsBlank(cmd: string) {
    forall i :: 0 <= i < |cmd| ==> IsSpace(cmd[i])
  }

  /** The commands of `cmds` that are not blank, in order. */
  function NonBlank(cmds: seq<string>): (r: seq<string>)
    ensures |r| <= |cmds|
  {
    if cmds == [] then []
    else (if IsBlank(cmds[0]) then [] else [cmds[0]]) + NonBlank(cmds[1..])
  }

  /** The commands a run executes, in order, and the error it returns. */
  datatype RunOutcome = RunOutcome(executed: seq<string>, err: Option<Error>)

  /** What running `cmds` does when `execErr` says how each command ends. */
  function RunSpec(cmds: seq<string>, execErr: string -> Option<string>): RunOutcome
  {
    if cmds == [] then RunOutcome([], None)
    else if IsBlank(cmds[0]) then RunSpec(cmds[1..], execErr)
    else match execErr(cmds[0])
      case Some(cause) => RunOutcome([cmds[0]], Some(RunCmdFailed(cmds[0], cause)))
      case None =>
        var rest := RunSpec(cmds[1..], execErr);
        RunOutcome([cmds[0]] + rest.executed, rest.err)
  }

  /**
   * Blank commands are never executed; a successful run executed only
   * commands that succeeded; a failed run ends with the command that failed,
   * returns the error that names it, and every command before it succeeded.
   */
  lemma {:induction false} RunOutcomeShape(cmds: seq<string>, execErr: string -> Option<string>)
    ensures var o := RunSpec(cmds, execErr);
      && (forall i :: 0 <= i < |o.executed| ==> !IsBlank(o.executed[i]))
      && (o.err.None? ==> forall i :: 0 <= i < |o.executed| ==> execErr(o.executed[i]).None?)
      && (o.err.Some? ==>
            && o.executed != []
            && var last := o.executed[|o.executed| - 1];
            && execErr(last).Some?
            && o.err == Some(RunCmdFailed(last, execErr(last).value))
            && forall i :: 0 <= i < |o.executed| - 1 ==> execErr(o.executed[i]).None?)
  {
    if cmds != [] {
      RunOutcomeShape(cmds[1..], execErr);
    }
  }

  /** The effects of executing `cmds` in `dir`, in order. */
  function ExecEvents(dir: string, cmds: seq<string>): (r: seq<Event>)
    ensures |r| == |cmds|
  {
    if cmds == [] then [] else [Exec(dir, cmds[0])] + ExecEvents(dir, cmds[1..])
  }

  /** A run has no effect other than executing commands. */
  lemma {:induction false} ExecEventsOnlyExec(dir: string, cmds: seq<string>)
    ensures forall i :: 0 <= i < |ExecEvents(dir, cmds)| ==> ExecEvents(dir, cmds)[i] == Exec(dir, cmds[i])
  {
    if cmds != [] {
      ExecEventsOnlyExec(dir, cmds[1..]);
    }
  }

  /** An empty list succeeds and executes nothing. */
  lemma RunEmpty(execErr: string -> Option<string>)
    ensures RunSpec([], execErr) == RunOutcome([], None)
  {
  }

  /**
   * Fail-fast: when `cmds[k]` is the first non-blank command that fails, the
   * run executes exactly the non-blank commands up to and including it and
   * returns the error that names it.
   */
  lemma {:induction false} RunStopsAtFirstFailure(cmds: seq<string>, execErr: string -> Option<string>, k: nat)
    requires k < |cmds| && !IsBlank(cmds[k]) && execErr(cmds[k]).Some?
    requires forall j :: 0 <= j < k ==> IsBlank(cmds[j]) || execErr(cmds[j]).None?
    ensures RunSpec(cmds, execErr).executed == NonBlank(cmds[..k + 1])
    ensures RunSpec(cmds, execErr).err == Some(RunCmdFailed(cmds[k], execErr(cmds[k]).value))
  {
    if k == 0 {
      assert cmds[..1] == [cmds[0]];
      assert NonBlank(cmds[..1]) == [cmds[0]] + NonBlank([]);
    } else {
      RunStopsAtFirstFailure(cmds[1..], execErr, k - 1);
      assert cmds[1..][..k] == cmds[1..k + 1];
      assert cmds[..k + 1][1..] == cmds[1..k + 1];
    }
  }

  /** When no non-blank command fails, the run executes all of them and succeeds. */
  lemma {:induction false} RunAllSucceed(cmds: seq<string>, execErr: string -> Option<string>)
    requires forall j :: 0 <= j < |cmds| ==> IsBlank(cmds[j]) || execErr(cmds[j]).None?
    ensures RunSpec(cmds, execErr) == RunOutcome(NonBlank(cmds), None)
  {
    if cmds != [] {
      RunAllSucceed(cmds[1..], execErr);
    }
  }

  /** The run fails exactly when some non-blank command fails. */
  lemma {:induction false} RunFailsIff(cmds: seq<string>, execErr: string -> Option<string>)
    ensures RunSpec(cmds, execErr).err.Some?
        <==> exists j :: 0 <= j < |cmds| && !IsBlank(cmds[j]) && execErr(cmds[j]).Some?
  {
    if cmds != [] {
      RunFailsIff(cmds[1..], execErr);
      if exists j :: 0 <= j < |cmds[1..]| && !IsBlank(cmds[1..][j]) && execErr(cmds[1..][j]).Some? {
        var j :| 0 <= j < |cmds[1..]| && !IsBlank(cmds[1..][j]) && execErr(cmds[1..][j]).Some?;
        assert cmds[j + 1] == cmds[1..][j];
      }
      if exists j :: 0 <= j < |cmds| && !IsBlank(cmds[j]) && execErr(cmds[j]).Some? {
        var j :| 0 <= j < |cmds| && !IsBlank(cmds[j]) && execErr(cmds[j]).Some?;
        if j > 0 { assert cmds[1..][j - 1] == cmds[j]; }
      }
    }
  }

  /** The effects and the error of a run, seen from the commands still to go. */
  function RunEvents(dir: string, cmds: seq<string>, execErr: string -> Option<string>): seq<Event> {
    ExecEvents(dir, RunSpec(cmds, execErr).executed)
  }

  /** One step of a run: what command `i` adds to the effects of the commands after it. */
  lemma RunStep(dir: string, cmds: seq<string>, i: nat, execErr: string -> Option<string>)
    requires i < |cmds|
    ensures IsBlank(cmds[i]) ==>
      RunEvents(dir, cmds[i..], execErr) == RunEvents(dir, cmds[i + 1..], execErr)
      && RunSpec(cmds[i..], execErr).err == RunSpec(cmds[i + 1..], execErr).err
    ensures !IsBlank(cmds[i]) && execErr(cmds[i]).Some? ==>
      RunEvents(dir, cmds[i..], execErr) == [Exec(dir, cmds[i])]
      && RunSpec(cmds[i..], execErr).err == Some(RunCmdFailed(cmds[i], execErr(cmds[i]).value))
    ensures !IsBlank(cmds[i]) && execErr(cmds[i]).None? ==>
      RunEvents(dir, cmds[i..], execErr) == [Exec(dir, cmds[i])] + RunEvents(dir, cmds[i + 1..], execErr)
      && RunSpec(cmds[i..], execErr).err == RunSpec(cmds[i + 1..], execErr).err
  {
    assert cmds[i..][0] == cmds[i] && cmds[i..][1..] == cmds[i + 1..];
    if !IsBlank(cmds[i]) {
      ExecEventsCons(dir, cmds[i], RunSpec(cmds[i + 1..], execErr).executed);
      assert ExecEvents(dir, [cmds[i]]) == [Exec(dir, cmds[i])];
    }
  }

  lemma ExecEventsCons(dir: string, cmd: string, rest: seq<string>)
    ensures ExecEvents(dir, [cmd] + rest) == [Exec(dir, cmd)] + ExecEvents(dir, rest)
  {
    assert ([cmd] + rest)[1..] == rest;
  }

  /** `CmdRunHandler`: runs commands with the workspace as working directory. */
  datatype CmdRunHandler = CmdRunHandler(workspace: string) {

    method Run(cmds: seq<string>, host: Host) returns (err: Option<Error>)
      modifies host
      ensures host.checkout == old(host.checkout)
      ensures host.log == old(host.log) + RunEvents(workspace, cmds, host.checkout.execErr)
      ensures err == RunSpec(cmds, host.checkout.execErr).err
    {
      if |cmds| == 0 {
        return None;
      }
      assert cmds[0..] == cmds;
      ghost var execErr := host.checkout.execErr;
      for i := 0 to |cmds|
        invariant host.checkout == old(host.checkout)
        invariant host.log + RunEvents(workspace, cmds[i..], execErr) == old(host.log) + RunEvents(workspace, cmds, execErr)
        invariant RunSpec(cmds[i..], execErr).err == RunSpec(cmds, execErr).err
      {
        var cmd := cmds[i];
        RunStep(workspace, cmds, i, execErr);
        if IsBlank(cmd) {
          continue;
        }
        var e := host.Exec(workspace, cmd);
        if e.Some? {
          return Some(RunCmdFailed(cmd, e.value));
        }
      }
      assert cmds[|cmds|..] == [];
      err := None;
    }
  }
}
