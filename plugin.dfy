/** The plugin registry of plugin.ts: a host (`HasPlugins`) whose options list
    plugin specifications, which it resolves into plugin objects, registers
    under their class names and hooks up; and the `Plugin` base class, whose
    objects carry their own options and a back-reference to their host. */
module Plugins {
  import opened JsObjects

  /** An option value other than the plugin list; the registry never looks inside. */
  datatype Value = Undefined | Bool(b: bool) | Num(n: int) | Str(s: string)

  /** What the registry observes of a plugin class (Plugin itself or a subclass). */
  datatype PluginType = PluginType(
    name: string,                  // the class's `name`, which becomes the registration key
    defaults: map<string, Value>,  // what the class's `defaultOptions()` returns
    overrides: set<string>,        // hook keys holding a function other than Plugin.prototype's
    throwing: set<string>)         // hook keys whose function throws when called

  /** The base class: its `defaultOptions()` is an empty PluginOptions and its
      only hook, `init`, is the one on Plugin.prototype. */
  const BasePlugin: PluginType := PluginType("Plugin", map[], {}, {})

  /** An entry of `options.plugins`: a class to instantiate, or a ready plugin. */
  datatype Spec = Factory(ptype: PluginType) | Instance(plugin: Plugin)

  /** The class of the plugin a specification yields. */
  function TypeOf(spec: Spec): PluginType {
    match spec
    case Factory(t) => t
    case Instance(p) => p.cls
  }

  /** The key a specification is registered under: the factory's `name`, or
      the name of the instance's prototype constructor. */
  function NameOf(spec: Spec): (name: string)
    ensures spec.Factory? ==> name == spec.ptype.name
    ensures spec.Instance? ==> name == spec.plugin.cls.name
  {
    TypeOf(spec).name
  }

  /** The registration keys of a list of specifications, in list order. */
  function Names(specs: seq<Spec>): (ns: seq<string>)
    ensures |ns| == |specs|
    ensures forall i :: 0 <= i < |specs| ==> ns[i] == NameOf(specs[i])
  {
    seq(|specs|, i requires 0 <= i < |specs| => NameOf(specs[i]))
  }

  /** The ready plugins a list of specifications names. */
  function Instances(specs: seq<Spec>): set<Plugin> {
    set s | s in specs && s.Instance? :: s.plugin
  }

  /** A field of a host's options: the reserved plugin list, or any other value. */
  datatype Field = PluginList(specs: seq<Spec>) | Plain(value: Value)

  const PluginsKey := "plugins"

  /** `Partial<Options>`: a `plugins` field, if there is one, is a plugin list. */
  predicate PartialOptions(o: map<string, Field>) {
    PluginsKey in o ==> o[PluginsKey].PluginList?
  }

  /** `Options`: the `plugins` field is always there. */
  predicate CompleteOptions(o: map<string, Field>) {
    PluginsKey in o && o[PluginsKey].PluginList?
  }

  /** `new Options()`: nothing but an empty plugin list. */
  function DefaultHostOptions(): (o: map<string, Field>)
    ensures CompleteOptions(o) && o[PluginsKey].specs == []
    ensures o.Keys == {PluginsKey}
  {
    map[PluginsKey := PluginList([])]
  }

  /** The host's options after `Object.assign(new Options(), supplied)`: the
      plugin list is the supplied one, or empty when none was supplied; every
      other supplied field is there, holding the very value supplied. */
  lemma HostOptionsMerge(supplied: map<string, Field>)
    requires PartialOptions(supplied)
    ensures CompleteOptions(Assign(DefaultHostOptions(), supplied))
    ensures Assign(DefaultHostOptions(), supplied)[PluginsKey].specs
         == if PluginsKey in supplied then supplied[PluginsKey].specs else []
    ensures Assign(DefaultHostOptions(), supplied).Keys == supplied.Keys + {PluginsKey}
    ensures forall k :: k in supplied ==> Assign(DefaultHostOptions(), supplied)[k] == supplied[k]
  {
  }

  /** One invocation of a hook: the receiver and the hook's key. */
  datatype Call = Call(receiver: Plugin, hook: string)

  /** How a walk over the plugins ends: every hook returned, or one threw. */
  datatype Outcome = Completed | Threw(culprit: Plugin)

  /** The hooks a walk invoked, in order, and how it ended. */
  datatype Trace = Trace(invoked: seq<Plugin>, outcome: Outcome)

  /** The hook is a function of p that is not Plugin.prototype's; so a plugin
      of the base class itself never overrides one. */
  predicate Overridden(p: Plugin, hook: string): (b: bool)
    ensures p.cls == BasePlugin ==> !b
  {
    hook in p.cls.overrides
  }

  /** Calling the hook on p throws. */
  predicate Throws(p: Plugin, hook: string) {
    hook in p.cls.throwing
  }

  /** The calls of `hook` on each of ps, in order. */
  function CallsOn(ps: seq<Plugin>, hook: string): (cs: seq<Call>)
    ensures |cs| == |ps|
    ensures forall i :: 0 <= i < |ps| ==> cs[i] == Call(ps[i], hook)
  {
    seq(|ps|, i requires 0 <= i < |ps| => Call(ps[i], hook))
  }

  lemma CallsOnAppend(ps: seq<Plugin>, p: Plugin, hook: string)
    ensures CallsOn(ps + [p], hook) == CallsOn(ps, hook) + [Call(p, hook)]
  {
  }

  /** The loop of `initPlugins` over ps, step by step: a plugin whose hook is
      overridden gets it called; a call that throws ends the walk, so the
      plugin whose hook threw is the last one called. */
  function InitWalk(ps: seq<Plugin>, hook: string): (t: Trace)
    ensures |t.invoked| <= |ps|
    ensures t.outcome.Threw? ==>
      t.invoked != [] && t.outcome.culprit == t.invoked[|t.invoked| - 1]
      && Overridden(t.outcome.culprit, hook) && Throws(t.outcome.culprit, hook)
    decreases |ps|
  {
    if ps == [] then Trace([], Completed)
    else
      var t := InitWalk(ps[..|ps| - 1], hook);
      var p := ps[|ps| - 1];
      if t.outcome.Threw? || !Overridden(p, hook) then t
      else Trace(t.invoked + [p], if Throws(p, hook) then Threw(p) else Completed)
  }

  /** The walk over one more plugin of ps. */
  lemma InitWalkNext(ps: seq<Plugin>, i: nat, hook: string)
    requires i < |ps|
    ensures var t := InitWalk(ps[..i], hook);
      InitWalk(ps[..i + 1], hook)
        == if t.outcome.Threw? || !Overridden(ps[i], hook) then t
           else Trace(t.invoked + [ps[i]], if Throws(ps[i], hook) then Threw(ps[i]) else Completed)
  {
    assert ps[..i + 1][..i] == ps[..i];
  }

  /** The plugins of ps whose hook is overridden, in order: a reference
      definition of what a walk that nothing interrupts invokes. */
  function Hooked(ps: seq<Plugin>, hook: string): seq<Plugin>
    decreases |ps|
  {
    if ps == [] then []
    else (if Overridden(ps[0], hook) then [ps[0]] else []) + Hooked(ps[1..], hook)
  }

  lemma {:induction false} HookedAppend(ps: seq<Plugin>, p: Plugin, hook: string)
    ensures Hooked(ps + [p], hook) == Hooked(ps, hook) + (if Overridden(p, hook) then [p] else [])
    decreases |ps|
  {
    if ps != [] {
      assert (ps + [p])[1..] == ps[1..] + [p];
      HookedAppend(ps[1..], p, hook);
    }
  }

  /** A plugin is invoked by an uninterrupted walk exactly when it is in the
      walk and its hook is overridden. */
  lemma {:induction false} HookedMembers(ps: seq<Plugin>, hook: string, p: Plugin)
    ensures p in Hooked(ps, hook) <==> p in ps && Overridden(p, hook)
    decreases |ps|
  {
    if ps != [] {
      HookedMembers(ps[1..], hook, p);
      assert p in ps <==> p == ps[0] || p in ps[1..];
    }
  }

  /** Over distinct plugins, each overridden hook is invoked exactly once and
      every other plugin not at all. */
  lemma {:induction false} HookedOnce(ps: seq<Plugin>, hook: string, p: Plugin)
    requires Distinct(ps)
    ensures multiset(Hooked(ps, hook))[p] == if p in ps && Overridden(p, hook) then 1 else 0
    decreases |ps|
  {
    if ps != [] {
      assert Distinct(ps[1..]);
      HookedOnce(ps[1..], hook, p);
      assert p in ps <==> p == ps[0] || p in ps[1..];
      assert ps[0] !in ps[1..];
    }
  }

  /** Over distinct plugins, a plugin earlier in the walk has its hook invoked
      before a later one. */
  lemma {:induction false} HookedInOrder(ps: seq<Plugin>, hook: string, i: nat, j: nat)
    requires Distinct(ps) && i < j < |ps|
    requires Overridden(ps[i], hook) && Overridden(ps[j], hook)
    ensures ps[i] in Hooked(ps, hook) && ps[j] in Hooked(ps, hook)
    ensures IndexOf(Hooked(ps, hook), ps[i]) < IndexOf(Hooked(ps, hook), ps[j])
    decreases |ps|
  {
    var rest := Hooked(ps[1..], hook);
    HookedMembers(ps[1..], hook, ps[j]);
    assert ps[j] == ps[1..][j - 1];
    if i == 0 {
      assert Hooked(ps, hook) == [ps[0]] + rest;
      assert ps[j] != ps[0];
      IndexOfUnique(Hooked(ps, hook), ps[0], 0);
    } else {
      assert Distinct(ps[1..]);
      assert ps[i] == ps[1..][i - 1];
      HookedInOrder(ps[1..], hook, i - 1, j - 1);
      if Overridden(ps[0], hook) {
        assert Hooked(ps, hook) == [ps[0]] + rest;
        assert ps[i] != ps[0] && ps[j] != ps[0];
        IndexOfCons(rest, ps[0], ps[i]);
        IndexOfCons(rest, ps[0], ps[j]);
      } else {
        assert Hooked(ps, hook) == rest;
      }
    }
  }

  /** Once a hook has thrown, the rest of the walk invokes nothing. */
  lemma {:induction false} InitWalkStops(ps: seq<Plugin>, i: nat, hook: string)
    requires i <= |ps| && InitWalk(ps[..i], hook).outcome.Threw?
    ensures InitWalk(ps, hook) == InitWalk(ps[..i], hook)
    decreases |ps|
  {
    if i < |ps| {
      var n := |ps|;
      assert ps[..n - 1][..i] == ps[..i];
      InitWalkStops(ps[..n - 1], i, hook);
    } else {
      assert ps[..i] == ps;
    }
  }

  /** The walk completes exactly when no overridden hook throws, and then it
      has invoked precisely the overridden hooks, in order. */
  lemma {:induction false} InitWalkCompletes(ps: seq<Plugin>, hook: string)
    ensures InitWalk(ps, hook).outcome.Completed?
        <==> forall i :: 0 <= i < |ps| && Overridden(ps[i], hook) ==> !Throws(ps[i], hook)
    ensures InitWalk(ps, hook).outcome.Completed? ==> InitWalk(ps, hook).invoked == Hooked(ps, hook)
    decreases |ps|
  {
    if ps != [] {
      var n := |ps|;
      var p := ps[..n - 1];
      assert ps == p + [ps[n - 1]];
      InitWalkCompletes(p, hook);
      HookedAppend(p, ps[n - 1], hook);
      if InitWalk(p, hook).outcome.Threw? {
        var k :| 0 <= k < n - 1 && Overridden(p[k], hook) && Throws(p[k], hook);
        assert ps[k] == p[k];
      }
    }
  }

  /** A walk in which the hook of ps[k] is the first overridden hook to throw
      ends with that throw, having invoked the overridden hooks up to ps[k]. */
  lemma InitWalkThrows(ps: seq<Plugin>, hook: string, k: nat)
    requires k < |ps| && Overridden(ps[k], hook) && Throws(ps[k], hook)
    requires forall j :: 0 <= j < k && Overridden(ps[j], hook) ==> !Throws(ps[j], hook)
    ensures InitWalk(ps, hook).outcome == Threw(ps[k])
    ensures InitWalk(ps, hook).invoked == Hooked(ps[..k + 1], hook)
  {
    var p := ps[..k];
    assert ps[..k + 1][..k] == p;
    assert ps[..k + 1] == p + [ps[k]];
    assert forall j :: 0 <= j < k ==> p[j] == ps[j];
    InitWalkCompletes(p, hook);
    HookedAppend(p, ps[k], hook);
    InitWalkStops(ps, k + 1, hook);
  }

  /** No plugin of the base class ever has a hook invoked: initPlugins never
      calls the no-op on Plugin.prototype. */
  lemma {:induction false} BaseHooksSkipped(ps: seq<Plugin>, hook: string)
    requires forall i :: 0 <= i < |ps| ==> ps[i].cls == BasePlugin
    ensures InitWalk(ps, hook) == Trace([], Completed)
    decreases |ps|
  {
    if ps != [] {
      BaseHooksSkipped(ps[..|ps| - 1], hook);
    }
  }

  /** Every key holds a plugin of the class of that name. */
  predicate KeyedByClass(table: Dict<Plugin>) {
    forall k :: k in table.entries ==> table.entries[k].cls.name == k
  }

  /** The class names of some plugins, in order: the keys they are stored under. */
  function ClassNames(ps: seq<Plugin>): (ns: seq<string>)
    ensures |ns| == |ps|
    decreases |ps|
  {
    if ps == [] then [] else ClassNames(ps[..|ps| - 1]) + [ps[|ps| - 1].cls.name]
  }

  lemma ClassNamesAppend(ps: seq<Plugin>, p: Plugin)
    ensures ClassNames(ps + [p]) == ClassNames(ps) + [p.cls.name]
  {
    assert (ps + [p])[..|ps|] == ps;
  }

  lemma {:induction false} ClassNamesAt(ps: seq<Plugin>)
    ensures forall i :: 0 <= i < |ps| ==> ClassNames(ps)[i] == ps[i].cls.name
    decreases |ps|
  {
    if ps != [] {
      ClassNamesAt(ps[..|ps| - 1]);
    }
  }

  /** Plugins resolved from specifications, class for class, carry the
      specifications' registration keys. */
  lemma NamesOfResolved(specs: seq<Spec>, ps: seq<Plugin>)
    requires |ps| == |specs|
    requires forall j :: 0 <= j < |ps| ==> ps[j].cls == TypeOf(specs[j])
    ensures Names(specs) == ClassNames(ps)
  {
    ClassNamesAt(ps);
  }

  /** ps are the plugins the first |ps| specifications resolve to: of the
      specified class, and the very instance where one was given. */
  predicate ResolvedPrefix(specs: seq<Spec>, ps: seq<Plugin>)
  {
    |ps| <= |specs| &&
    forall j :: 0 <= j < |ps| ==>
      && ps[j].cls == TypeOf(specs[j])
      && (specs[j].Instance? ==> ps[j] == specs[j].plugin)
  }

  /** Resolving one more specification extends the resolved prefix, and
      storing its plugin extends the sequence of writes by one. */
  lemma ResolveStep(d: Dict<Plugin>, specs: seq<Spec>, ps: seq<Plugin>, p: Plugin)
    requires ResolvedPrefix(specs, ps) && |ps| < |specs|
    requires p.cls == TypeOf(specs[|ps|])
    requires specs[|ps|].Instance? ==> p == specs[|ps|].plugin
    ensures ResolvedPrefix(specs, ps + [p])
    ensures PutAll(d, ClassNames(ps + [p]), ps + [p]) == PutAll(d, ClassNames(ps), ps).Put(NameOf(specs[|ps|]), p)
  {
    ClassNamesAppend(ps, p);
    PutAllAppend(d, ClassNames(ps), ps, p.cls.name, p);
  }

  /** Storing plugins under their own class names keeps a table keyed by class. */
  lemma {:induction false} PutAllKeyedByClass(d: Dict<Plugin>, ps: seq<Plugin>)
    requires KeyedByClass(d)
    ensures KeyedByClass(PutAll(d, ClassNames(ps), ps))
    decreases |ps|
  {
    if ps != [] {
      var n := |ps|;
      assert ClassNames(ps)[..n - 1] == ClassNames(ps[..n - 1]);
      PutAllKeyedByClass(d, ps[..n - 1]);
    }
  }

  /** A table keyed by class names holds no plugin twice, so a walk over its
      values meets each plugin once. */
  lemma TableValuesDistinct(table: Dict<Plugin>)
    requires table.Valid() && KeyedByClass(table)
    ensures Distinct(table.Values())
    ensures forall p :: p in table.Values() <==> p in table.entries.Values
  {
    var vs := table.Values();
    forall i, j | 0 <= i < j < |vs|
      ensures vs[i] != vs[j]
    {
      assert table.order[i] in table.entries && table.order[j] in table.entries;
      assert vs[i].cls.name == table.order[i] && vs[j].cls.name == table.order[j];
    }
    forall p | p in table.entries.Values
      ensures p in vs
    {
      var k :| k in table.entries && table.entries[k] == p;
      var i := IndexOf(table.order, k);
      assert vs[i] == p;
    }
  }

  /** `initPlugins` over a table keyed by class names: when no overridden hook
      throws, every value whose hook is overridden is invoked exactly once and
      every other value never. */
  lemma InitInvokesOnce(table: Dict<Plugin>, hook: string, p: Plugin)
    requires table.Valid() && KeyedByClass(table)
    requires InitWalk(table.Values(), hook).outcome.Completed?
    ensures multiset(InitWalk(table.Values(), hook).invoked)[p]
         == if p in table.entries.Values && Overridden(p, hook) then 1 else 0
  {
    TableValuesDistinct(table);
    InitWalkCompletes(table.Values(), hook);
    HookedOnce(table.Values(), hook, p);
  }

  /** class Plugin */
  class Plugin {
    const cls: PluginType
    var of: HasPlugins?
    var options: map<string, Value>

    /** `new P(supplied)`: the class's defaults overlaid with the supplied
        fields; the host reference is not set yet. */
    constructor (cls: PluginType, supplied: map<string, Value> := map[])
      ensures this.cls == cls && of == null
      ensures options.Keys == cls.defaults.Keys + supplied.Keys
      ensures forall k :: k in supplied ==> options[k] == supplied[k]
      ensures forall k :: k in cls.defaults && k !in supplied ==> options[k] == cls.defaults[k]
    {
      this.cls := cls;
      of := null;
      new;
      options := Assign(DefaultOptions(), supplied);
    }

    /** `defaultOptions()`: the class's own defaults; the base class has none. */
    function DefaultOptions(): (defaults: map<string, Value>)
      ensures cls == BasePlugin ==> defaults == map[]
    {
      cls.defaults
    }
  }

  /** class HasPlugins */
  class HasPlugins {
    var options: map<string, Field>
    var plugins: Dict<Plugin>
    /** The hook invocations this host has made, in order. */
    ghost var log: seq<Call>

    ghost predicate Valid()
      reads this
    {
      CompleteOptions(options) && plugins.Valid()
    }

    /** `this.options.plugins` */
    function Specs(): seq<Spec>
      reads this
      requires CompleteOptions(options)
    {
      options[PluginsKey].specs
    }

    /** Every registered plugin refers back to this host. */
    ghost predicate Ready()
      reads this, plugins.entries.Values
    {
      forall k :: k in plugins.entries ==> plugins.entries[k].of == this
    }

    /** `new HasPlugins(supplied)`: `Object.assign(new Options(), supplied)`
        and an empty plugin table. */
    constructor (supplied: map<string, Field> := map[])
      requires PartialOptions(supplied)
      ensures Valid() && KeyedByClass(plugins)
      ensures options == Assign(DefaultHostOptions(), supplied)
      ensures Specs() == if PluginsKey in supplied then supplied[PluginsKey].specs else []
      ensures forall k :: k in supplied ==> options[k] == supplied[k]
      ensures plugins == EmptyDict() && log == []
    {
      options := DefaultHostOptions();
      plugins := EmptyDict();
      log := [];
      new;
      HostOptionsMerge(supplied);
      options := Assign(options, supplied);
    }

    /** `constructPlugins()`: each specification in turn is resolved to a
        plugin (a factory is instantiated with no arguments, an instance is
        taken as it is), stored under its class name and pointed back at this
        host. `resolved` lists the plugin each specification gave. */
    method ConstructPlugins() returns (ghost resolved: seq<Plugin>)
      requires Valid()
      modifies this`plugins, Instances(Specs())`of
      ensures Valid() && options == old(options) && log == old(log)
      ensures KeyedByClass(old(plugins)) ==> KeyedByClass(plugins)
      ensures |resolved| == |Specs()|
      ensures forall i :: 0 <= i < |resolved| ==>
        resolved[i].cls == TypeOf(Specs()[i]) && resolved[i].of == this
      ensures forall i :: 0 <= i < |resolved| && Specs()[i].Instance? ==>
        resolved[i] == Specs()[i].plugin
      ensures forall i :: 0 <= i < |resolved| && Specs()[i].Factory? ==>
        resolved[i].options == Specs()[i].ptype.defaults
      ensures plugins == PutAll(old(plugins), Names(Specs()), resolved)
      ensures Specs() == [] ==> plugins == old(plugins)
      ensures forall k :: k in Names(Specs()) ==> k in plugins.entries && plugins.entries[k].of == this
      ensures forall k :: k in plugins.entries ==> k in old(plugins.entries) || k in Names(Specs())
      ensures old(plugins.entries) == map[] ==> Ready()
    {
      var specs := options[PluginsKey].specs;
      resolved := [];
      var i := 0;
      while i < |specs|
        invariant 0 <= i <= |specs| && |resolved| == i
        invariant plugins == PutAll(old(plugins), ClassNames(resolved), resolved)
        invariant ResolvedPrefix(specs, resolved)
        invariant Linked(specs, resolved)
      {
        var spec := specs[i];
        var p := Register(spec, specs, resolved);
        ResolveStep(old(plugins), specs, resolved, p);
        resolved := resolved + [p];
        i := i + 1;
      }
      assert specs[..i] == specs;
      NamesOfResolved(specs, resolved);
      if KeyedByClass(old(plugins)) {
        PutAllKeyedByClass(old(plugins), resolved);
      }
      RegisteredLinked(old(plugins), specs, resolved);
    }

    /** After the writes of constructPlugins, every key written holds a
        plugin that refers back to this host, and there are no other new keys. */
    lemma RegisteredLinked(d: Dict<Plugin>, specs: seq<Spec>, resolved: seq<Plugin>)
      requires |resolved| == |specs|
      requires forall j :: 0 <= j < |resolved| ==> resolved[j].of == this
      ensures forall k :: k in Names(specs) ==>
        k in PutAll(d, Names(specs), resolved).entries && PutAll(d, Names(specs), resolved).entries[k].of == this
      ensures forall k :: k in PutAll(d, Names(specs), resolved).entries ==> k in d.entries || k in Names(specs)
    {
      var ns := Names(specs);
      PutAllKeys(d, ns, resolved);
      forall k | k in ns
        ensures k in PutAll(d, ns, resolved).entries && PutAll(d, ns, resolved).entries[k].of == this
      {
        var j := LastIndexOf(ns, k);
        PutAllLastWins(d, ns, resolved, j);
      }
    }

    /** ps hold the plugins the first |ps| of specs gave, each hooked up to
        this host, a factory's with its class's defaults. */
    ghost predicate Linked(specs: seq<Spec>, ps: seq<Plugin>)
      reads ps
    {
      && |ps| <= |specs|
      && forall j :: 0 <= j < |ps| ==>
          ps[j].of == this && (specs[j].Factory? ==> ps[j].options == specs[j].ptype.defaults)
    }

    /** One turn of the `constructPlugins` loop: resolve spec, store the
        plugin under its class name, point it back at this host. The ghost
        arguments are the loop's progress: spec is specs[|ps|], and ps the
        plugins the earlier turns gave. */
    method Register(spec: Spec, ghost specs: seq<Spec>, ghost ps: seq<Plugin>) returns (p: Plugin)
      requires |ps| < |specs| && spec == specs[|ps|] && Linked(specs, ps)
      modifies this`plugins, (if spec.Instance? then {spec.plugin} else {})`of
      ensures plugins == old(plugins).Put(NameOf(spec), p)
      ensures p.cls == TypeOf(spec) && p.of == this
      ensures spec.Instance? ==> p == spec.plugin
      ensures spec.Factory? ==> fresh(p) && p.options == spec.ptype.defaults
      ensures Linked(specs, ps + [p])
    {
      if spec.Factory? {
        p := new Plugin(spec.ptype, map[]);
      } else {
        p := spec.plugin;
      }
      plugins := plugins.Put(NameOf(spec), p);
      p.of := this;
    }

    /** `initPlugins(hook)`: over a snapshot of the table's values, in key
        order, the hook is called on each plugin that overrides it; a hook
        that throws ends the walk and the exception reaches the caller. */
    method InitPlugins(hook: string := "init") returns (outcome: Outcome)
      requires Valid()
      modifies this`log
      ensures Valid()
      ensures log == old(log) + CallsOn(InitWalk(plugins.Values(), hook).invoked, hook)
      ensures outcome == InitWalk(plugins.Values(), hook).outcome
      ensures plugins.entries == map[] ==> log == old(log) && outcome == Completed
    {
      var ps := plugins.Values();
      ValuesEmpty(plugins);
      var i := 0;
      outcome := Completed;
      ghost var t := Trace([], Completed);
      while i < |ps| && outcome.Completed?
        invariant 0 <= i <= |ps|
        invariant t == InitWalk(ps[..i], hook)
        invariant log == old(log) + CallsOn(t.invoked, hook)
        invariant outcome == t.outcome
      {
        var p := ps[i];
        InitWalkNext(ps, i, hook);
        if Overridden(p, hook) {
          CallsOnAppend(t.invoked, p, hook);
          log := log + [Call(p, hook)];
          if Throws(p, hook) {
            outcome := Threw(p);
          }
          t := Trace(t.invoked + [p], outcome);
        }
        i := i + 1;
      }
      if outcome.Threw? {
        InitWalkStops(ps, i, hook);
      } else {
        assert ps[..i] == ps;
      }
    }
  }
}
