/** Storage backends as the plugin sees them. A storage class is a factory;
    what it builds is recorded as the class, the instance name and the
    configuration it was given. Every such record is an `IStorage` instance
    (the "is a storage instance" test); `save`, `canRemove`, `remove` and
    `destroy` belong to the backends and are not part of this model. */
module Storage {

  /** What a storage class is handed as its settings: a plain settings object
      (opaque to the plugin), or a storage instance passed where the settings
      go. */
  datatype Config =
    | Settings(entries: map<string, string>)
    | InstanceAsConfig(instance: StorageInstance)

  /** The `{}` default of an omitted configuration. */
  const EmptySettings: Config := Settings(map[])

  /** A registered storage class, identified by the class itself. */
  datatype StorageClass = StorageClass(id: string)

  /** An object built by `new StorageClass(config, name)`. */
  datatype StorageInstance = StorageInstance(cls: StorageClass, name: string, config: Config)

  /** The name `IStorage`'s constructor gives an instance built without one. */
  const UnnamedInstance := "INTERFACE"

  /** `new cls(config, name)`; a missing name falls back to `UnnamedInstance`. */
  function Instantiate(cls: StorageClass, config: Config, name: string): (r: StorageInstance)
    ensures r.cls == cls && r.config == config
    ensures r.name != ""
    ensures name != "" ==> r.name == name
  {
    StorageInstance(cls, if name == "" then UnnamedInstance else name, config)
  }
}
