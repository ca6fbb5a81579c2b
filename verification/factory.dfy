/**
 * The registry of sync handlers: a table from handler name to handler.
 * Registering a name replaces whatever was registered under it before.
 */
module Factory {
  import opened Errors

  class Registry<H> {
    var providers: map<string, H>

    constructor ()
      ensures providers == map[]
    {
      providers := map[];
    }

    /** `Register`: stores `provider` under `name`, overwriting an earlier entry. */
    method Register(name: string, provider: H)
      modifies this
      ensures providers == old(providers)[name := provider]
      ensures New(name) == Success(provider)
      ensures forall m :: m != name ==> New(m) == old(New(m))
    {
      providers := providers[name := provider];
    }

    /** `New`: the handler registered under `name`, or the not-found error; it changes nothing. */
    function New(name: string): (r: Result<H>)
      reads this
      ensures r.Success? <==> name in providers
      ensures r.Success? ==> r.value == providers[name]
      ensures r.Failure? ==> r.error == SyncHandlerNotFound(name)
    {
      if name in providers then Success(providers[name]) else Failure(SyncHandlerNotFound(name))
    }
  }
}
