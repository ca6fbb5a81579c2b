/**
 * The world outside the core: the git remote, the file system and the shell.
 * None of it is modelled; each is an oracle fixed in advance (`World`). The
 * `Host` object tracks which state of the workspace is checked out (the clone
 * and every pull replace it) and records, in order, every effect the core has
 * on the world and every callback the core invokes.
 */
module Host {
  import opened Errors

  type Hash = string

  /** One entry of a tree diff: the name before and after (empty when absent). */
  datatype Change = Change(fromName: string, toName: string)

  /** What one `git pull` of the workspace reports. */
  datatype PullOutcome =
    | AlreadyUpToDate
      // opening the repository, reading HEAD or pulling failed
    | PullFailed(cause: string)
      // HEAD before and after the pull, and the outcome of diffing their trees
    | Pulled(oldHead: Hash, newHead: Hash, diff: Result<seq<Change>>)

  /** A file the core has opened; `name` is the path it was opened with. */
  datatype File = File(name: string)

  /** One state of the workspace: which paths open, and how `sh -c cmd` ends in it. */
  datatype Checkout = Checkout(
    opens: string -> bool,
    execErr: string -> Option<string>
  )

  /** One poll tick: what its pull reports, and the workspace the pull leaves behind. */
  datatype Tick = Tick(pull: PullOutcome, after: Checkout)

  /** What `time.ParseDuration` makes of a string: nanoseconds, or an error. */
  datatype ParsedDuration = Duration(nanos: int) | Invalid(cause: string)

  datatype World = World(
    cloneErr: Option<string>,                // outcome of `git clone`
    cloned: Checkout,                        // the workspace a successful clone leaves
    ticks: seq<Tick>,                        // the poll ticks, in order
    parseDuration: string -> ParsedDuration  // outcome of parsing a duration
  )

  datatype Event =
    | Clone(workspace: string, url: string, branch: string)
    | Pull(workspace: string, branch: string)
    | Exec(dir: string, cmd: string)
    | InitFuncCalled
    | RefreshFuncCalled(files: seq<File>)

  /** The effects of one step of the core, in order, and the error it returns. */
  datatype Outcome = Outcome(events: seq<Event>, err: Option<Error>)

  class Host {
    const world: World
    var checkout: Checkout
    var log: seq<Event>

    /** A host whose workspace starts as `start`, before the core has done anything. */
    constructor (world: World, start: Checkout)
      ensures this.world == world && checkout == start && log == []
    {
      this.world := world;
      checkout := start;
      log := [];
    }

    /** `git clone` of `url` at `branch` into `workspace`. */
    method Clone(workspace: string, url: string, branch: string) returns (err: Option<string>)
      modifies this
      ensures log == old(log) + [Event.Clone(workspace, url, branch)]
      ensures checkout == if world.cloneErr.None? then world.cloned else old(checkout)
      ensures err == world.cloneErr
    {
      log := log + [Event.Clone(workspace, url, branch)];
      if world.cloneErr.None? {
        checkout := world.cloned;
      }
      err := world.cloneErr;
    }

    /** The pull of poll tick `tick`; the workspace becomes the one that tick leaves. */
    method Pull(workspace: string, branch: string, tick: nat) returns (p: PullOutcome)
      requires tick < |world.ticks|
      modifies this
      ensures log == old(log) + [Event.Pull(workspace, branch)]
      ensures checkout == world.ticks[tick].after
      ensures p == world.ticks[tick].pull
    {
      log := log + [Event.Pull(workspace, branch)];
      checkout := world.ticks[tick].after;
      p := world.ticks[tick].pull;
    }

    /** `sh -c cmd` run with working directory `dir`. */
    method Exec(dir: string, cmd: string) returns (err: Option<string>)
      modifies this
      ensures log == old(log) + [Event.Exec(dir, cmd)]
      ensures checkout == old(checkout)
      ensures err == checkout.execErr(cmd)
    {
      log := log + [Event.Exec(dir, cmd)];
      err := checkout.execErr(cmd);
    }

    /** Opening `path`: the file when it can be opened, nothing otherwise. */
    method Open(path: string) returns (f: Option<File>)
      ensures f == if checkout.opens(path) then Some(File(path)) else None
    {
      f := if checkout.opens(path) then Some(File(path)) else None;
    }

    /** Records that a callback was entered. */
    method Record(e: Event)
      requires e.InitFuncCalled? || e.RefreshFuncCalled?
      modifies this
      ensures log == old(log) + [e]
      ensures checkout == old(checkout)
    {
      log := log + [e];
    }
  }
}
