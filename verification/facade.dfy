/**
 * The sync facade: resolves the configured sync handler, runs its `Init`
 * and then its `Refresh`, and stops at the first error.
 */
module Facade {
  import opened Errors
  import opened Config
  import opened Host
  import opened Sidecar
  import opened Factory
  import opened GitHandler

  /** `getSyncHandler`: the handler registered under `syncType`, or the registry's error. */
  method GetSyncHandler(syncType: string, registry: Registry<GitSyncHandler>) returns (r: Result<GitSyncHandler>)
    ensures r.Success? <==> syncType in registry.providers
    ensures r.Failure? ==> r.error == SyncHandlerNotFound(syncType)
  {
    var syncHandler := registry.New(syncType);
    if syncHandler.Failure? {
      return Failure(syncHandler.error);
    }
    return Success(syncHandler.value);
  }

  datatype SyncFacade = SyncFacade(config: Config) {

    /**
     * `Sync`: resolve, then `Init`, then `Refresh`, each with the configured
     * workspace and sync settings, returning the first error.
     */
    method Sync(initFunc: InitFunc, refreshFunc: RefreshFunc, registry: Registry<GitSyncHandler>, host: Host)
      returns (err: Option<Error>)
      modifies host
      ensures var syncType := config.sync.syncType;
        var init := InitEffect(config.workspace, config.sync, initFunc, host.world);
        var refresh := RefreshEffect(config.workspace, config.sync, refreshFunc, host.world);
        && (syncType !in registry.providers ==>
              err == Some(SyncHandlerNotFound(syncType))
              && host.log == old(host.log) && host.checkout == old(host.checkout))
        && (syncType in registry.providers && init.err.Some? ==>
              err == init.err
              && host.log == old(host.log) + init.events && host.checkout == old(host.checkout))
        && (syncType in registry.providers && init.err.None? ==>
              err == refresh.err
              && host.log == old(host.log) + init.events + refresh.events
              && host.checkout == if refresh.err.None? then CheckoutAfter(host.world.cloned, host.world.ticks)
                                  else host.world.cloned)
      ensures err.None? <==>
        && config.sync.syncType in registry.providers
        && host.world.cloneErr.None?
        && host.world.parseDuration(config.sync.git.syncInterval).Duration?
        && host.world.parseDuration(config.sync.git.syncInterval).nanos > 0
    {
      var syncHandler := GetSyncHandler(config.sync.syncType, registry);
      if syncHandler.Failure? {
        return Some(syncHandler.error);
      }
      var initErr := syncHandler.value.Init(config.workspace, config.sync, initFunc, host);
      if initErr.Some? {
        return initErr;
      }
      err := syncHandler.value.Refresh(config.workspace, config.sync, refreshFunc, host);
      if err.Some? {
        return err;
      }
      return None;
    }
  }
}
