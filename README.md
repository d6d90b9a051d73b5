# Plugin registry, modelled in Dafny

This project models the plugin registry in `plugin.ts`. A host object (`HasPlugins`) holds an options object. That object's `plugins` field lists plugin specifications. Each one is either a plugin class (a factory) or a ready-made plugin object.

- **`constructPlugins`** turns each specification into a plugin object. It stores the object in the host's `plugins` table under the plugin's class name and sets the object's back-reference `of` to the host.
- **`initPlugins`** goes through the table's values in enumeration order. On every plugin whose hook (by default `init`) is a function other than the one on `Plugin.prototype`, it calls that hook. An exception thrown by a hook ends the walk.
- **`Plugin`**, the base class, gives every plugin its own options: the class's `defaultOptions()` overlaid with the options passed to its constructor.

Two files:

- `js_objects.dfy` (module `JsObjects`) covers the JavaScript object semantics the registry relies on:
  - `Object.assign` is modelled as a map overlay.
  - A string-keyed object used as a dictionary is a map plus the enumeration order of `Object.values`. A key's first insertion fixes its position, and an overwrite does not move it.
  - `PutAll` gives the dictionary after a sequence of writes. The lemmas about it prove four things:
    - the resulting key set;
    - that the last write wins;
    - that keys nobody writes are left alone;
    - the order of first insertions.
- `plugin.dfy` (module `Plugins`) has the classes `Plugin` and `HasPlugins`, with their fields updated in place.
  - `ConstructPlugins` and `InitPlugins` are loops proved against the specification functions `PutAll` and `InitWalk`.
  - A ghost `log` records every hook invocation.
  - The lemmas about `InitWalk` relate it to a reference definition, `Hooked`. That definition lists the plugins whose hook is overridden.

The reflection the source does is abstracted in the data:

- **Class name.** `PluginType.name` stands for both `plugin.name` of a factory and `Object.getPrototypeOf(plugin).constructor.name` of an instance.
- **Default options.** `PluginType.defaults` is what the class's `defaultOptions()` returns.
- **Hook test.** `PluginType.overrides` is the set of hook keys for which `func !== base && typeof func === 'function'` holds.
- **Throwing hooks.** `PluginType.throwing` is the set of hook keys whose function throws when called.

## Model

| member | source | states |
|---|---|---|
| JsObjects.Assign | plugin.ts:9 | `Object.assign`: the result has the fields of both objects; a field of the source overwrites the target's, and the target's other fields stay |
| JsObjects.EmptyDict | plugin.ts:5 | the initial table `{}` is a well-formed dictionary with no entries and no values |
| JsObjects.Dict.Put | plugin.ts:16-19 | `o[k] = v`: k now holds v and every other key keeps its value; a key already present keeps its position, and a new key goes to the end; the dictionary stays well formed |
| JsObjects.Dict.Values | plugin.ts:27 | `Object.values`: one value per key, listed in key enumeration order |
| JsObjects.ValuesEmpty | plugin.ts:27 | `Object.values` is empty exactly when the object has no fields |
| JsObjects.PutAll | plugin.ts:14-22 | a sequence of writes keeps a dictionary well formed |
| JsObjects.PutAllKeys | plugin.ts:14-22 | after a sequence of writes, the keys are exactly the old keys together with every key written |
| JsObjects.PutAllLastWins | plugin.ts:14-22 | a key written several times holds the value of its last write |
| JsObjects.PutAllUntouched | plugin.ts:14-22 | a key that no write names keeps its value, or stays absent |
| JsObjects.PutAllKeepsPositions | plugin.ts:14-22 | keys present before a sequence of writes keep their enumeration positions |
| JsObjects.PutAllOrder | plugin.ts:14-27 | after a sequence of writes, the enumeration order is the old keys followed by the written keys, each key at its first insertion |
| JsObjects.PutAllFirstInsertionOrder | plugin.ts:14-27 | two keys are enumerated in the order in which they were first inserted (in both directions) |
| Plugins.NameOf | plugin.ts:16-19 | a factory is registered under its own `name`; an instance under its class's name |
| Plugins.Names | plugin.ts:14-19 | the registration keys of the specification list, one per entry, in list order |
| Plugins.DefaultHostOptions | plugin.ts:36-40 | `new Options()` holds only the `plugins` field, and its list is empty |
| Plugins.HostOptionsMerge | plugin.ts:7-10 | after overlaying the supplied options, `plugins` is always present; it is the supplied list, or empty when none was given; every supplied field holds the very value supplied, and no other field appears |
| Plugins.Overridden | plugin.ts:28-30 | the hook test `func !== base && typeof func === 'function'`: it fails for every plugin of the base class, whose hook is the one on `Plugin.prototype` |
| Plugins.InitWalk | plugin.ts:27-31 | the `initPlugins` loop over a sequence of plugins: each plugin whose hook is overridden has it called and logged, and a call that throws ends the walk; the walk never makes more calls than there are plugins, and when the walk ends by a throw the culprit is the last plugin called, with an overridden hook that throws |
| Plugins.HookedMembers | plugin.ts:27-30 | a plugin is among those whose hook is called exactly when it is walked over and its hook is overridden |
| Plugins.HookedOnce | plugin.ts:27-30 | over distinct plugins, an overridden hook is counted exactly once and every other plugin's hook zero times |
| Plugins.HookedInOrder | plugin.ts:27-30 | over distinct plugins, an earlier plugin's hook is called before a later one's |
| Plugins.InitWalkCompletes | plugin.ts:27-31 | the walk completes exactly when no overridden hook throws, and then it has called precisely the overridden hooks, in walk order |
| Plugins.InitWalkThrows | plugin.ts:27-31 | when the first throwing overridden hook belongs to the k-th plugin, the walk ends with that exception, having called the overridden hooks up to and including it |
| Plugins.InitWalkStops | plugin.ts:27-31 | once a hook has thrown, the rest of the plugins have no effect on the walk |
| Plugins.BaseHooksSkipped | plugin.ts:29-30 | plugins of the base class never have a hook called: the no-op `init` on `Plugin.prototype` is skipped |
| Plugins.NamesOfResolved | plugin.ts:14-19 | plugins resolved class for class from the specification list sit under the specifications' registration keys |
| Plugins.PutAllKeyedByClass | plugin.ts:16-19 | storing plugins under their own class names keeps every key holding a plugin of the class with that name |
| Plugins.TableValuesDistinct | plugin.ts:27 | in a table keyed by class name, `Object.values` lists every stored plugin, and none twice |
| Plugins.InitInvokesOnce | plugin.ts:25-31 | on such a table, when no hook throws, `initPlugins` calls the hook exactly once on each stored plugin that overrides it and never on the others |
| Plugins.Plugin.constructor | plugin.ts:47-50 | a new plugin's options are the class's defaults overlaid with the supplied fields; its host reference is not set yet |
| Plugins.Plugin.DefaultOptions | plugin.ts:52-55 | `defaultOptions()` of the base class is an empty `PluginOptions` |
| Plugins.HasPlugins.constructor | plugin.ts:7-10 | the host's options are `Object.assign(new Options(), supplied)`; `plugins` is the supplied list, or empty; every other supplied field holds the very value supplied; the table starts empty |
| Plugins.HasPlugins.Register | plugin.ts:15-21 | one loop turn: a factory gives a new plugin with its class's defaults, and an instance is taken as it is; the plugin is stored under its registration key, and its `of` is this host |
| Plugins.HasPlugins.RegisteredLinked | plugin.ts:21 | after the registration writes, every written key holds a plugin whose `of` is this host, and no key appears that was neither there before nor written |
| Plugins.HasPlugins.ConstructPlugins | plugin.ts:12-23 | one plugin per specification, in order: an instance is the same object, and a factory's plugin has its class's defaults; every plugin has the specified class and refers to this host; the table is the old table after writing each plugin under its registration key, in order; the keys are the old ones together with the registration keys; an empty list changes nothing; options and the hook log are unchanged; starting from an empty table, every stored plugin refers to this host |
| Plugins.HasPlugins.InitPlugins | plugin.ts:25-32 | the hook log grows by exactly the calls `InitWalk` makes over a snapshot of the table's values, and the outcome (completed, or which plugin's hook threw) is the walk's; an empty table means no call and normal completion |

## Left out

- demo/demo.ts is not part of this model. It is a console-logging usage example with no registry logic of its own.
- JavaScript reflection is abstracted into the `PluginType` fields described above. This covers `typeof plugin === 'function'`, the `name` of a class and of a prototype constructor, and the lookup of a hook by key with its function-identity comparison. A class whose static `name` differs from the name of its instances' constructor is not modelled.
- Property keys are strings. Symbol and number keys passed to `initPlugins` are not modelled.
- The ordering quirk of `Object.values` is not modelled. It lists integer-like keys first, in ascending order; class names of that form (possible for a class expression under a computed key) are not modelled.
- What hooks do when called is not modelled: console output, or changes to the host or the table. A hook is an event in the ghost `log`. Whether it throws is fixed per class by `PluginType.throwing`.
- Side effects or exceptions in a subclass constructor during `new plugin()` are not modelled. A factory entry always yields a new plugin with no supplied options.
- Hooks defined as own properties of a plugin object, rather than on its class, are not modelled. `overrides` is a property of the class.
- The `plugins` field is modelled only as a list; `PartialOptions` requires a list when the field is present. The loop of plugin.ts:14 accepts any iterable, such as a `Set` or a generator of plugin classes, and those are not modelled. With `undefined`, or any other value that is not iterable, that loop throws before its first turn, which is not modelled either.
- Option containers are values, not shared objects. `Object.assign` at plugin.ts:9 copies a reference to the caller's `plugins` array. A caller that adds to that array before `constructPlugins` runs would have the loop of plugin.ts:14 see the new entry. The model's plugin list is the sequence held when the host was built, so it does not capture that aliasing.
- Option values other than the plugin list are restricted to `Value`: undefined, booleans, integers and strings. The `any` fields of plugin.ts:38 and plugin.ts:64 may hold mutable objects and functions, which are not modelled.
- Keys named `__proto__` are not modelled; `o[k] = v` is modelled for ordinary keys only. `Object.assign` at plugin.ts:9 writes a supplied option field of that name through the inherited `__proto__` setter. An object or `null` value becomes the options object's prototype, any other value is ignored, and no field is added either way; `Assign` instead adds the field. A plugin class named `__proto__` would be written at plugin.ts:16 or plugin.ts:19 through the inherited `__proto__` setter of the `{}` at plugin.ts:5. The plugin would become the table's prototype and no own key would appear. `Object.values` at plugin.ts:27 would then never list it, and its hook would never be called. `Dict.Put` instead adds the key.
- TypeScript generics and the "host has capability O" typing (plugin.ts:2, plugin.ts:42-44) are type-level only and are not modelled.
- Plugins.HasPlugins.ConstructPlugins: does not restate over the whole list that each factory's plugin is a newly allocated object. `Register` states it for each loop turn.
- Plugins.HasPlugins.ConstructPlugins: the plugin instances a list names may be used by several hosts. Only this host's writes to their `of` field are modelled.
