/**
 * The configuration records the core reads. They are produced once at
 * start-up and never changed; they carry no behaviour.
 */
module Config {

  datatype GitSyncConfig = GitSyncConfig(url: string, branch: string, syncInterval: string)

  datatype SyncConfig = SyncConfig(syncType: string, git: GitSyncConfig)

  /** One refresh rule: a condition (`""` or `*.<ext>`) and the commands to run. */
  datatype RefreshCmd = RefreshCmd(condition: string, cmds: seq<string>)

  datatype InitCmd = InitCmd(cmds: seq<string>)

  datatype RunConfig = RunConfig(init: InitCmd, refresh: seq<RefreshCmd>)

  datatype Config = Config(workspace: string, sync: SyncConfig, run: RunConfig)
}
