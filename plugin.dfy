/** The plugin object of lib/uploadPlugin.js: a registry of storage classes,
    a registry of named storage instances, and the list of handlers waiting
    for the transport to run, after which they are handed to the uploader's
    route table and no further handler is accepted. */
module Plugin {
  import opened Text
  import opened Storage
  import opened Handlers
  import Uploader

  /** An argument of `registerStorage` as the overloads tell them apart. */
  datatype StorageArgument =
    | StringValue(text: string)
    | Instance(instance: StorageInstance)
    | Object(config: Config)
    | Absent
  {
    /** A non-null object: a settings object or a storage instance. */
    predicate IsObject() {
      Object? || Instance?
    }

    /** The object handed to the storage class as its settings. */
    function AsConfig(): (r: Config)
      requires IsObject()
      ensures Object? ==> r == config
      ensures Instance? ==> r == InstanceAsConfig(instance)
    {
      if Object? then config else InstanceAsConfig(instance)
    }
  }

  /** What `addHandler` does. */
  datatype AddOutcome = Refused | Threw | Added(handler: UploadHandler)

  /** Whether the uploader keeps a handler: it must have a storage resolver
      and an upload processor. */
  predicate Ready(h: UploadHandler)
    reads h
  {
    h.storageFn.Some? && h.hasProcessor
  }

  /** The route-table entries the uploader adds for `hs`, in order. */
  function Registered(hs: seq<UploadHandler>): (r: seq<Uploader.HandlerPath>)
    reads hs
    ensures |r| <= |hs|
  {
    if hs == [] then []
    else
      var h := hs[|hs| - 1];
      Registered(hs[..|hs| - 1]) + (if Ready(h) then [Uploader.HandlerPath(h.path, h)] else [])
  }

  /** Only ready handlers are registered, each under its own path, and when
      every handler is ready all of them are, in order. */
  lemma {:induction false} RegisteredShape(hs: seq<UploadHandler>)
    ensures forall i | 0 <= i < |Registered(hs)| ::
      Registered(hs)[i].handler in hs && Ready(Registered(hs)[i].handler)
    ensures forall i | 0 <= i < |Registered(hs)| ::
      Registered(hs)[i].reqPath == Registered(hs)[i].handler.path
    ensures (forall i | 0 <= i < |hs| :: Ready(hs[i])) ==>
      Registered(hs) == seq(|hs|, i requires 0 <= i < |hs| reads hs => Uploader.HandlerPath(hs[i].path, hs[i]))
  {
    if hs != [] {
      var init := hs[..|hs| - 1];
      RegisteredShape(init);
      forall i | 0 <= i < |init| ensures init[i] in hs {
        assert init[i] == hs[i];
      }
    }
  }

  /** One more handler adds its entry exactly when it is ready. */
  lemma RegisteredStep(hs: seq<UploadHandler>, i: nat)
    requires i < |hs|
    ensures Registered(hs[..i + 1]) ==
      Registered(hs[..i]) + (if Ready(hs[i]) then [Uploader.HandlerPath(hs[i].path, hs[i])] else [])
  {
    assert hs[..i + 1][..i] == hs[..i];
  }

  /** The loop of the run listener: each pending handler is offered to the
      uploader in order, and the ready ones are appended to its table. */
  method OfferAll(uploader: Uploader.Uploader, pending: seq<UploadHandler>)
    modifies uploader
    ensures uploader.handlerPaths == old(uploader.handlerPaths) + Registered(pending)
  {
    var i := 0;
    while i < |pending|
      invariant 0 <= i <= |pending|
      invariant uploader.handlerPaths == old(uploader.handlerPaths) + Registered(pending[..i])
    {
      var h := pending[i];
      ghost var prefix := Registered(pending[..i]);
      ghost var entry := if Ready(h) then [Uploader.HandlerPath(h.path, h)] else [];
      RegisteredStep(pending, i);
      var _ := uploader.Add(h);
      assert uploader.handlerPaths == old(uploader.handlerPaths) + prefix + entry;
      i := i + 1;
    }
    assert pending[..i] == pending;
  }

  class UploadPlugin {
    var storageClasses: map<string, StorageClass>
    var storageInstances: map<string, StorageInstance>
    /** Handlers added before the transport runs. */
    var handlers: seq<UploadHandler>
    var started: bool
    /** Whether `init` attached the transport's run listener. */
    var runHookAttached: bool
    const uploader: Uploader.Uploader
    /** The `limits` option every new handler starts from. */
    const defaultLimits: map<string, LimitValue>

    /** Once started, no handler is pending, and only the run listener
        starts the plugin. */
    ghost predicate Valid()
      reads this
    {
      && (started ==> handlers == [])
      && (started ==> runHookAttached)
    }

    constructor (defaultLimits: map<string, LimitValue>)
      ensures Valid()
      ensures fresh(uploader) && uploader.handlerPaths == []
      ensures this.defaultLimits == defaultLimits
      ensures storageClasses == map[] && storageInstances == map[]
      ensures handlers == [] && !started && !runHookAttached
    {
      this.defaultLimits := defaultLimits;
      uploader := new Uploader.Uploader();
      storageClasses := map[];
      storageInstances := map[];
      handlers := [];
      started := false;
      runHookAttached := false;
    }

    /** `init()`: attach the listener for the transport's run event. */
    method Init()
      requires Valid()
      modifies this`runHookAttached
      ensures Valid()
      ensures runHookAttached
    {
      runHookAttached := true;
    }

    /** The transport's run event: every pending handler is offered to the
        uploader in order, the list is emptied and the plugin is started.
        Without `init` nobody listens and nothing happens. */
    method OnTransportRun()
      requires Valid()
      modifies this`handlers, this`started, uploader
      ensures Valid()
      ensures !old(runHookAttached) ==> unchanged(this) && unchanged(uploader)
      ensures old(runHookAttached) ==>
        uploader.handlerPaths == old(uploader.handlerPaths) + old(Registered(handlers))
      ensures old(runHookAttached) ==> handlers == [] && started
    {
      if !runHookAttached {
        return;
      }
      OfferAll(uploader, handlers);
      handlers := [];
      started := true;
    }

    /** `addHandler(name, uploadPath)`: refused once started; a missing or
        empty name or path throws; otherwise a new handler with the default
        limits is queued and returned. */
    method AddHandler(name: Option<string>, uploadPath: Option<string>) returns (r: AddOutcome)
      requires Valid()
      modifies this`handlers
      ensures Valid()
      ensures old(started) ==> r == Refused && handlers == old(handlers)
      ensures !old(started) && (name.None? || name.value == "" || uploadPath.None? || uploadPath.value == "") ==>
        r == Threw && handlers == old(handlers)
      ensures r.Added? <==> !old(started) && name.Some? && name.value != "" && uploadPath.Some? && uploadPath.value != ""
      ensures r.Added? ==> fresh(r.handler) && handlers == old(handlers) + [r.handler]
      ensures r.Added? ==> r.handler.name == name.value && r.handler.path == uploadPath.value
      ensures r.Added? ==> r.handler.Valid()
      ensures r.Added? ==> r.handler.limits == defaultLimits && r.handler.storageFn.None? && !r.handler.hasProcessor
      ensures r.Added? ==> r.handler.fieldName == "asset" && r.handler.mimeTypes == [] && r.handler.extensions == []
      ensures r.Added? ==> r.handler.uploadFn.None? && r.handler.stack == []
    {
      if started {
        return Refused;
      }
      if name.None? || name.value == "" || uploadPath.None? || uploadPath.value == "" {
        return Threw;
      }
      var h := new UploadHandler(name.value, uploadPath.value, defaultLimits);
      handlers := handlers + [h];
      return Added(h);
    }

    /** `registerStorageClass(type, cls)`: a type is registered once. */
    method RegisterStorageClass(storageType: string, cls: StorageClass) returns (ok: bool)
      modifies this`storageClasses
      ensures ok <==> storageType !in old(storageClasses)
      ensures ok ==> storageClasses == old(storageClasses)[storageType := cls]
      ensures !ok ==> storageClasses == old(storageClasses)
      ensures forall t | t in old(storageClasses) :: t in storageClasses && storageClasses[t] == old(storageClasses)[t]
    {
      if storageType in storageClasses {
        return false;
      }
      storageClasses := storageClasses[storageType := cls];
      return true;
    }

    /** `createStorage(type, config)`: an unnamed instance of a registered
        class, or nothing for an unknown type. */
    function CreateStorage(storageType: string, config: Config): (r: Option<StorageInstance>)
      reads this
      ensures r.None? <==> storageType !in storageClasses
      ensures r.Some? ==> r.value.cls == storageClasses[storageType]
      ensures r.Some? ==> r.value.config == config && r.value.name == UnnamedInstance
    {
      if storageType !in storageClasses then None
      else Some(Instantiate(storageClasses[storageType], config, ""))
    }

    /** `getStorage(name)`: the instance registered under `name`, if any. */
    function GetStorage(name: string): (r: Option<StorageInstance>)
      reads this
      ensures r.Some? <==> name in storageInstances
      ensures r.Some? ==> r.value == storageInstances[name]
    {
      if name in storageInstances then Some(storageInstances[name]) else None
    }

    /** `registerStorage` in its three forms: an instance under its own
        name; `(type, name, config)`; and `(type, config)`, named after the
        type, where the configuration is any non-null object, a storage
        instance included. A taken name, an unknown type or any other
        argument shape registers nothing. A registered name is never
        overwritten. */
    method RegisterStorage(first: StorageArgument, second: StorageArgument, config: Option<Config>) returns (ok: bool)
      modifies this`storageInstances
      ensures forall n | n in old(storageInstances) ::
        n in storageInstances && storageInstances[n] == old(storageInstances)[n]
      ensures !ok ==> storageInstances == old(storageInstances)
      ensures first.Instance? ==>
        (ok <==> first.instance.name !in old(storageInstances))
      ensures first.Instance? && ok ==>
        storageInstances == old(storageInstances)[first.instance.name := first.instance]
        && GetStorage(first.instance.name) == Some(first.instance)
      ensures first.StringValue? && second.StringValue? ==>
        (ok <==> second.text !in old(storageInstances) && first.text in storageClasses)
      ensures first.StringValue? && second.StringValue? && ok ==>
        storageInstances == old(storageInstances)[second.text :=
          Instantiate(storageClasses[first.text], if config.Some? then config.value else EmptySettings, second.text)]
      ensures first.StringValue? && second.IsObject() ==>
        (ok <==> first.text !in old(storageInstances) && first.text in storageClasses)
      ensures first.StringValue? && second.IsObject() && ok ==>
        storageInstances == old(storageInstances)[first.text :=
          Instantiate(storageClasses[first.text], second.AsConfig(), first.text)]
      ensures !first.Instance? && !(first.StringValue? && (second.StringValue? || second.IsObject())) ==> !ok
    {
      if first.Instance? {
        var name := first.instance.name;
        if name in storageInstances {
          return false;
        }
        storageInstances := storageInstances[name := first.instance];
        return true;
      }
      if first.StringValue? && second.StringValue? {
        var name := second.text;
        if name in storageInstances {
          return false;
        }
        if first.text !in storageClasses {
          return false;
        }
        var cfg := if config.Some? then config.value else EmptySettings;
        storageInstances := storageInstances[name := Instantiate(storageClasses[first.text], cfg, name)];
        return true;
      }
      if first.StringValue? && second.IsObject() {
        var name := first.text;
        if name in storageInstances {
          return false;
        }
        if first.text !in storageClasses {
          return false;
        }
        storageInstances := storageInstances[name := Instantiate(storageClasses[first.text], second.AsConfig(), name)];
        return true;
      }
      return false;
    }
  }
}
