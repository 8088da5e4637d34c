/**
 parseRule and the loop of newInput.  parseRule copies one model per container out of a rule's
 model, so the copies share the path slice and the field map, and FindMount writes into both.
 */
module SharedModels {
  import opened Wrappers
  import opened Strings
  import opened Paths
  import opened Env
  import opened Mounts
  import opened Filebeat
  import opened Rules
  import opened LogPipeline

  /** A collection rule with the containers it is for. */
  datatype Unit = Unit(rule: CollectionRule, containers: seq<string>)

  /** One model: the unit it belongs to and its container. */
  datatype Stub = Stub(unit: nat, container: string)

  function StatusNames(pod: Pod): (r: seq<string>)
    ensures |r| == |pod.statuses|
  {
    seq(|pod.statuses|, i requires 0 <= i < |pod.statuses| => pod.statuses[i].name)
  }

  /** A container rule without containers is for every container of the pod. */
  function ContainersFor(c: ContainerRule, pod: Pod): seq<string> {
    if c.containers == [] then StatusNames(pod) else c.containers
  }

  function UnitsOf(c: ContainerRule, pod: Pod): (r: seq<Unit>)
    ensures |r| == |c.rules|
  {
    seq(|c.rules|, i requires 0 <= i < |c.rules| => Unit(c.rules[i], ContainersFor(c, pod)))
  }

  function Units(rules: seq<ContainerRule>, pod: Pod): seq<Unit> {
    if rules == [] then []
    else Units(rules[..|rules| - 1], pod) + UnitsOf(rules[|rules| - 1], pod)
  }

  function StubsOf(u: nat, containers: seq<string>): (r: seq<Stub>)
    ensures |r| == |containers|
  {
    seq(|containers|, i requires 0 <= i < |containers| => Stub(u, containers[i]))
  }

  function Stubs(units: seq<Unit>): (r: seq<Stub>)
    ensures forall i :: 0 <= i < |r| ==> r[i].unit < |units|
  {
    if units == [] then []
    else Stubs(units[..|units| - 1]) + StubsOf(|units| - 1, units[|units| - 1].containers)
  }

  function StreamId(uid: string, container: string): string {
    uid + "-" + container
  }

  function InitialPaths(rule: CollectionRule): seq<string> {
    rule.path + if rule.stdout then [STDOUT] else []
  }

  // ---- The models on the heap ----

  /** The model of a stub uses the slice and the map of its unit. */
  ghost predicate ModelFor(m: LogModel, stub: Stub, units: seq<Unit>, arrays: seq<array<string>>, maps: seq<FieldMap>)
    requires |arrays| == |maps| == |units|
  {
    && stub.unit < |units|
    && m.container == stub.container
    && m.uid == StreamId(units[stub.unit].rule.uid, stub.container)
    && m.rule == units[stub.unit].rule
    && m.logPath == arrays[stub.unit]
    && m.fields == maps[stub.unit]
  }

  ghost predicate DistinctObjects(s: seq<object>) {
    forall i, j :: 0 <= i < j < |s| ==> s[i] != s[j]
  }

  ghost predicate Shape(models: seq<LogModel>, units: seq<Unit>, stubs: seq<Stub>,
                        arrays: seq<array<string>>, maps: seq<FieldMap>)
  {
    && |models| == |stubs| && |arrays| == |maps| == |units|
    && (forall i :: 0 <= i < |models| ==> ModelFor(models[i], stubs[i], units, arrays, maps))
    && DistinctObjects(models) && DistinctObjects(arrays) && DistinctObjects(maps)
  }

  lemma {:induction false} ShapeAddUnit(models: seq<LogModel>, units: seq<Unit>, stubs: seq<Stub>,
                                        arrays: seq<array<string>>, maps: seq<FieldMap>, u: Unit, a: array<string>,
                                        f: FieldMap)
    requires Shape(models, units, stubs, arrays, maps) && a !in arrays && f !in maps
    ensures Shape(models, units + [u], stubs, arrays + [a], maps + [f])
  {
    forall i | 0 <= i < |models|
      ensures ModelFor(models[i], stubs[i], units + [u], arrays + [a], maps + [f])
    {
      assert ModelFor(models[i], stubs[i], units, arrays, maps);
    }
  }

  lemma {:induction false} ShapeAddModel(models: seq<LogModel>, units: seq<Unit>, stubs: seq<Stub>,
                                         arrays: seq<array<string>>, maps: seq<FieldMap>, m: LogModel, stub: Stub)
    requires Shape(models, units, stubs, arrays, maps) && m !in models
    requires ModelFor(m, stub, units, arrays, maps)
    ensures Shape(models + [m], units, stubs + [stub], arrays, maps)
  {
  }

  /** Every slice and map still holds what the rule says. */
  ghost predicate Untouched(units: seq<Unit>, arrays: seq<array<string>>, maps: seq<FieldMap>)
    requires |arrays| == |maps| == |units|
    reads arrays, maps
  {
    forall g :: 0 <= g < |units| ==>
      arrays[g][..] == InitialPaths(units[g].rule) && maps[g].m == units[g].rule.fields
  }

  /** The models of one rule's containers, all with the same slice and map. */
  method AddModels(u: Unit, logPath: array<string>, fields: FieldMap, models: seq<LogModel>, ghost units: seq<Unit>,
                   ghost stubs: seq<Stub>, ghost arrays: seq<array<string>>, ghost maps: seq<FieldMap>)
    returns (more: seq<LogModel>)
    requires units != [] && Shape(models, units, stubs, arrays, maps)
    requires u == units[|units| - 1] && logPath == arrays[|units| - 1] && fields == maps[|units| - 1]
    ensures Shape(more, units, stubs + StubsOf(|units| - 1, u.containers), arrays, maps)
    ensures fresh(set m | m in more && m !in models)
  {
    more := models;
    for i := 0 to |u.containers|
      invariant Shape(more, units, stubs + StubsOf(|units| - 1, u.containers[..i]), arrays, maps)
      invariant fresh(set m | m in more && m !in models)
    {
      ghost var stub := Stub(|units| - 1, u.containers[i]);
      ghost var before := StubsOf(|units| - 1, u.containers[..i]);
      assert stubs + StubsOf(|units| - 1, u.containers[..i + 1]) == stubs + before + [stub];
      var newModel := new LogModel(u.rule.uid + "-" + u.containers[i], u.containers[i], logPath, fields,
                                   u.rule);
      ShapeAddModel(more, units, stubs + before, arrays, maps, newModel, stub);
      more := more + [newModel];
    }
    assert u.containers[..|u.containers|] == u.containers;
  }

  lemma {:induction false} UntouchedAddUnit(units: seq<Unit>, arrays: seq<array<string>>, maps: seq<FieldMap>,
                                            u: Unit, a: array<string>, f: FieldMap)
    requires |arrays| == |maps| == |units| && Untouched(units, arrays, maps)
    requires a[..] == InitialPaths(u.rule) && f.m == u.rule.fields
    ensures Untouched(units + [u], arrays + [a], maps + [f])
  {
  }

  method NewSlice(rule: CollectionRule) returns (logPath: array<string>)
    ensures fresh(logPath) && logPath[..] == InitialPaths(rule)
  {
    var paths := rule.path;
    if rule.stdout {
      paths := paths + [STDOUT];
    }
    logPath := new string[|paths|](i requires 0 <= i < |paths| => paths[i]);
    assert logPath[..] == paths;
  }

  ghost predicate Parsed(models: seq<LogModel>, units: seq<Unit>, arrays: seq<array<string>>, maps: seq<FieldMap>)
    reads arrays, maps
  {
    Shape(models, units, Stubs(units), arrays, maps) && Untouched(units, arrays, maps)
  }

  method AddUnit(u: Unit, models: seq<LogModel>, ghost arrays: seq<array<string>>, ghost maps: seq<FieldMap>,
                 ghost units: seq<Unit>)
    returns (more: seq<LogModel>, ghost arrays': seq<array<string>>, ghost maps': seq<FieldMap>,
             ghost units': seq<Unit>)
    requires Parsed(models, units, arrays, maps)
    ensures units' == units + [u] && Parsed(more, units', arrays', maps')
    ensures New(arrays, arrays') && New(maps, maps') && New(models, more)
  {
    var logPath := NewSlice(u.rule);
    var fields := new FieldMap(u.rule.fields);
    ShapeAddUnit(models, units, Stubs(units), arrays, maps, u, logPath, fields);
    UntouchedAddUnit(units, arrays, maps, u, logPath, fields);
    units', arrays', maps' := units + [u], arrays + [logPath], maps + [fields];
    more := AddModels(u, logPath, fields, models, units', Stubs(units), arrays', maps');
    assert units'[..|units|] == units;
  }

  /** Everything added to a list of objects was allocated since. */
  twostate predicate New(before: seq<object>, new after: seq<object>) {
    forall o :: o in after ==> o in before || fresh(o)
  }

  method AddContainerRule(c: ContainerRule, pod: Pod, models: seq<LogModel>, ghost arrays: seq<array<string>>,
                          ghost maps: seq<FieldMap>, ghost units: seq<Unit>)
    returns (more: seq<LogModel>, ghost arrays': seq<array<string>>, ghost maps': seq<FieldMap>,
             ghost units': seq<Unit>)
    requires Parsed(models, units, arrays, maps)
    ensures units' == units + UnitsOf(c, pod) && Parsed(more, units', arrays', maps')
    ensures New(arrays, arrays') && New(maps, maps') && New(models, more)
  {
    var containers := c.containers;
    if |containers| == 0 {
      containers := StatusNames(pod);
    }
    assert containers == ContainersFor(c, pod);
    more, arrays', maps', units' := models, arrays, maps, units;
    for j := 0 to |c.rules|
      invariant units' == units + UnitsOf(c, pod)[..j] && Parsed(more, units', arrays', maps')
      invariant New(arrays, arrays') && New(maps, maps') && New(models, more)
    {
      assert UnitsOf(c, pod)[..j + 1] == UnitsOf(c, pod)[..j] + [UnitsOf(c, pod)[j]];
      more, arrays', maps', units' := AddUnit(Unit(c.rules[j], containers), more, arrays', maps', units');
    }
    assert UnitsOf(c, pod)[..|c.rules|] == UnitsOf(c, pod);
  }

  method ParseRule(rules: seq<ContainerRule>, pod: Pod)
    returns (models: seq<LogModel>, ghost arrays: seq<array<string>>, ghost maps: seq<FieldMap>)
    ensures Parsed(models, Units(rules, pod), arrays, maps)
    ensures New([], arrays) && New([], maps) && New([], models)
  {
    models, arrays, maps := [], [], [];
    ghost var units := [];
    for i := 0 to |rules|
      invariant units == Units(rules[..i], pod) && Parsed(models, units, arrays, maps)
      invariant New([], arrays) && New([], maps) && New([], models)
    {
      assert rules[..i + 1][..i] == rules[..i];
      models, arrays, maps, units := AddContainerRule(rules[i], pod, models, arrays, maps, units);
    }
    assert rules[..|rules|] == rules;
  }

  // ---- Running FindMount over the models ----

  /** What the models of one rule share. */
  datatype Store = Store(paths: seq<string>, fields: map<string, string>)

  function Initial(u: Unit): Store {
    Store(InitialPaths(u.rule), u.rule.fields)
  }

  /** What FindMount leaves of it. */
  function After(info: ContainerInfo, st: Store): Store {
    Store(NewPaths(info, st.paths), NewFields(info, st.fields))
  }

  /** The containers of the first n models are known to the runtime. */
  predicate Known(stubs: seq<Stub>, runtime: map<string, ContainerInfo>, n: nat) {
    n <= |stubs| && forall i | 0 <= i < n :: stubs[i].container in runtime
  }

  /** The store of unit g once the first n models have been through FindMount. */
  function StoreAt(units: seq<Unit>, stubs: seq<Stub>, runtime: map<string, ContainerInfo>, g: nat, n: nat): Store
    requires g < |units|
    requires Known(stubs, runtime, n)
  {
    if n == 0 then Initial(units[g])
    else
      var st := StoreAt(units, stubs, runtime, g, n - 1);
      if stubs[n - 1].unit == g then After(runtime[stubs[n - 1].container], st) else st
  }

  /** The mounts recorded in model i. */
  function MountsAt(units: seq<Unit>, stubs: seq<Stub>, runtime: map<string, ContainerInfo>, pod: Pod, base: string,
                    i: nat): seq<Mount>
    requires i < |stubs| && stubs[i].unit < |units|
    requires Known(stubs, runtime, i + 1)
  {
    var st := StoreAt(units, stubs, runtime, stubs[i].unit, i);
    MarkAll(MountsOf(runtime[stubs[i].container], base, st.paths), ClaimPaths(pod, stubs[i].container))
  }

  /** The slices and maps hold the stores reached after n models. */
  ghost predicate Holds(units: seq<Unit>, stubs: seq<Stub>, runtime: map<string, ContainerInfo>, n: nat,
                        arrays: seq<array<string>>, maps: seq<FieldMap>)
    requires |arrays| == |maps| == |units|
    requires Known(stubs, runtime, n)
    reads arrays, maps
  {
    forall g :: 0 <= g < |units| ==>
      && arrays[g][..] == StoreAt(units, stubs, runtime, g, n).paths
      && maps[g].m == StoreAt(units, stubs, runtime, g, n).fields
  }

  /** The first models have the given mounts. */
  ghost predicate Mounted(models: seq<LogModel>, mounts: seq<seq<Mount>>)
    reads models`mount
  {
    |mounts| <= |models| && forall i :: 0 <= i < |mounts| ==> models[i].mount == mounts[i]
  }

  ghost predicate Recorded(mounts: seq<seq<Mount>>, units: seq<Unit>, stubs: seq<Stub>,
                           runtime: map<string, ContainerInfo>, pod: Pod, base: string)
    requires Known(stubs, runtime, |mounts|)
  {
    forall i {:trigger mounts[i]} :: 0 <= i < |mounts| ==>
      stubs[i].unit < |units| && mounts[i] == MountsAt(units, stubs, runtime, pod, base, i)
  }

  lemma {:induction false} HoldsAtStart(units: seq<Unit>, stubs: seq<Stub>, runtime: map<string, ContainerInfo>,
                                        arrays: seq<array<string>>, maps: seq<FieldMap>)
    requires |arrays| == |maps| == |units| && Untouched(units, arrays, maps)
    ensures Holds(units, stubs, runtime, 0, arrays, maps)
  {
  }

  lemma {:induction false} RecordedNone(units: seq<Unit>, stubs: seq<Stub>, runtime: map<string, ContainerInfo>,
                                        pod: Pod, base: string)
    ensures Recorded([], units, stubs, runtime, pod, base)
  {
  }

  lemma {:induction false} RecordedSnoc(mounts: seq<seq<Mount>>, found: seq<Mount>, units: seq<Unit>, stubs: seq<Stub>,
                                        runtime: map<string, ContainerInfo>, pod: Pod, base: string)
    requires Known(stubs, runtime, |mounts| + 1) && Recorded(mounts, units, stubs, runtime, pod, base)
    requires stubs[|mounts|].unit < |units| && found == MountsAt(units, stubs, runtime, pod, base, |mounts|)
    ensures Recorded(mounts + [found], units, stubs, runtime, pod, base)
  {
    hide MountsAt;
    var more := mounts + [found];
    forall i | 0 <= i < |more|
      ensures stubs[i].unit < |units| && more[i] == MountsAt(units, stubs, runtime, pod, base, i)
    {
      if i < |mounts| {
        assert more[i] == mounts[i];
      }
    }
  }

  /**
   newInput's loop: FindMount, then setIfPVC, for one model after the other.  A container the
   runtime does not know is an error and ends the loop.
   */
  method Prepare(models: seq<LogModel>, runtime: map<string, ContainerInfo>, pod: Pod, base: string,
                 ghost units: seq<Unit>, ghost stubs: seq<Stub>, ghost arrays: seq<array<string>>,
                 ghost maps: seq<FieldMap>)
    returns (ok: bool, ghost mounts: seq<seq<Mount>>)
    requires Shape(models, units, stubs, arrays, maps) && Untouched(units, arrays, maps)
    modifies arrays, maps`m, models`mount
    ensures ok <==> Known(stubs, runtime, |stubs|)
    ensures ok ==> Holds(units, stubs, runtime, |stubs|, arrays, maps)
    ensures ok ==> |mounts| == |models| && Mounted(models, mounts)
    ensures ok ==> Recorded(mounts, units, stubs, runtime, pod, base)
  {
    hide MountsAt, StoreAt, Untouched, DistinctObjects, Recorded;
    HoldsAtStart(units, stubs, runtime, arrays, maps);
    mounts := [];
    RecordedNone(units, stubs, runtime, pod, base);
    for n := 0 to |models|
      invariant Known(stubs, runtime, n) && Holds(units, stubs, runtime, n, arrays, maps)
      invariant |mounts| == n && Mounted(models, mounts) && Recorded(mounts, units, stubs, runtime, pod, base)
    {
      if models[n].container !in runtime {
        assert ModelFor(models[n], stubs[n], units, arrays, maps);
        return false, mounts;
      }
      var found := PrepareNext(models, n, runtime, pod, base, units, stubs, arrays, maps, mounts);
      RecordedSnoc(mounts, found, units, stubs, runtime, pod, base);
      mounts := mounts + [found];
    }
    return true, mounts;
  }

  method PrepareNext(models: seq<LogModel>, n: nat, runtime: map<string, ContainerInfo>, pod: Pod, base: string,
                     ghost units: seq<Unit>, ghost stubs: seq<Stub>, ghost arrays: seq<array<string>>,
                     ghost maps: seq<FieldMap>, ghost mounts: seq<seq<Mount>>)
    returns (found: seq<Mount>)
    requires Shape(models, units, stubs, arrays, maps) && n == |mounts| < |models|
    requires Known(stubs, runtime, n)
    requires models[n].container in runtime
    requires Holds(units, stubs, runtime, n, arrays, maps) && Mounted(models, mounts)
    modifies arrays, maps`m, models`mount
    ensures Known(stubs, runtime, n + 1) && stubs[n].unit < |units|
    ensures Holds(units, stubs, runtime, n + 1, arrays, maps) && Mounted(models, mounts + [found])
    ensures found == MountsAt(units, stubs, runtime, pod, base, n)
  {
    found := FindNext(models, n, runtime, pod, base, units, stubs, arrays, maps);
    assert Mounted(models, mounts);
    SetMount(models, n, mounts, found);
  }

  method SetMount(models: seq<LogModel>, n: nat, ghost mounts: seq<seq<Mount>>, found: seq<Mount>)
    requires DistinctObjects(models) && n == |mounts| < |models| && Mounted(models, mounts)
    modifies models`mount
    ensures Mounted(models, mounts + [found])
  {
    models[n].mount := found;
  }

  method FindNext(models: seq<LogModel>, n: nat, runtime: map<string, ContainerInfo>, pod: Pod, base: string,
                  ghost units: seq<Unit>, ghost stubs: seq<Stub>, ghost arrays: seq<array<string>>,
                  ghost maps: seq<FieldMap>)
    returns (found: seq<Mount>)
    requires Shape(models, units, stubs, arrays, maps) && n < |models|
    requires Known(stubs, runtime, n)
    requires models[n].container in runtime
    requires Holds(units, stubs, runtime, n, arrays, maps)
    modifies arrays, maps`m
    ensures Known(stubs, runtime, n + 1) && stubs[n].unit < |units|
    ensures Holds(units, stubs, runtime, n + 1, arrays, maps)
    ensures found == MountsAt(units, stubs, runtime, pod, base, n)
  {
    hide After, MountsOf, MarkAll;
    var model := models[n];
    assert ModelFor(model, stubs[n], units, arrays, maps);
    ghost var own := stubs[n].unit;
    found := PrepareOne(model, runtime[model.container], pod, base);
    forall g | 0 <= g < |units|
      ensures arrays[g][..] == StoreAt(units, stubs, runtime, g, n + 1).paths
      ensures maps[g].m == StoreAt(units, stubs, runtime, g, n + 1).fields
    {
      if g != own {
        assert arrays[g] != arrays[own] && maps[g] != maps[own];
      }
    }
  }

  method PrepareOne(model: LogModel, info: ContainerInfo, pod: Pod, base: string) returns (found: seq<Mount>)
    modifies model.logPath, model.fields`m
    ensures found == MarkAll(MountsOf(info, base, old(model.logPath[..])), ClaimPaths(pod, model.container))
    ensures Store(model.logPath[..], model.fields.m) == After(info, Store(old(model.logPath[..]), old(model.fields.m)))
  {
    var mounts := FindMount(info, model, base);
    var mountPoint := new Mount[|mounts|](i requires 0 <= i < |mounts| => mounts[i]);
    assert mountPoint[..] == mounts;
    var pvcPath := GetPVCPath(pod, model.container);
    SetIfPVC(mountPoint, pvcPath);
    found := mountPoint[..];
  }

  /** newInput and NewConfig: one configuration entry per model, or an error and no file. */
  method NewInput(rules: seq<ContainerRule>, runtime: map<string, ContainerInfo>, pod: Pod, base: string)
    returns (r: Option<seq<LogConfig>>, ghost mounts: seq<seq<Mount>>)
    ensures var stubs := Stubs(Units(rules, pod)); r.Some? <==> Known(stubs, runtime, |stubs|)
    ensures r.Some? ==>
              var units := Units(rules, pod);
              var stubs := Stubs(units);
              && |r.value| == |mounts| == |stubs| && Recorded(mounts, units, stubs, runtime, pod, base)
              && AllEntries(r.value, units, stubs, runtime, mounts, View(pod))
  {
    var models;
    ghost var arrays, maps;
    models, arrays, maps := ParseRule(rules, pod);
    ghost var units := Units(rules, pod);
    ghost var stubs := Stubs(units);
    forall i | 0 <= i < |arrays| ensures fresh(arrays[i]) { var o: object := arrays[i]; assert o in arrays; }
    forall i | 0 <= i < |maps| ensures fresh(maps[i]) { var o: object := maps[i]; assert o in maps; }
    forall i | 0 <= i < |models| ensures fresh(models[i]) { var o: object := models[i]; assert o in models; }
    var ok;
    ok, mounts := Prepare(models, runtime, pod, base, units, stubs, arrays, maps);
    if !ok {
      return None, mounts;
    }
    var configs := BuildEntries(models, runtime, View(pod), units, stubs, arrays, maps, mounts);
    return Some(configs), mounts;
  }

  ghost predicate AllEntries(configs: seq<LogConfig>, units: seq<Unit>, stubs: seq<Stub>,
                             runtime: map<string, ContainerInfo>, mounts: seq<seq<Mount>>, pod: PodView)
    requires Known(stubs, runtime, |stubs|) && |configs| <= |stubs| == |mounts|
  {
    forall i :: 0 <= i < |configs| ==> EntryFor(configs[i], units, stubs, runtime, i, mounts[i], pod)
  }

  method BuildEntries(models: seq<LogModel>, runtime: map<string, ContainerInfo>, pod: PodView, ghost units: seq<Unit>,
                      ghost stubs: seq<Stub>, ghost arrays: seq<array<string>>, ghost maps: seq<FieldMap>,
                      ghost mounts: seq<seq<Mount>>)
    returns (configs: seq<LogConfig>)
    requires Shape(models, units, stubs, arrays, maps) && Known(stubs, runtime, |stubs|)
    requires Holds(units, stubs, runtime, |stubs|, arrays, maps)
    requires |mounts| == |models| && Mounted(models, mounts)
    ensures |configs| == |stubs| && AllEntries(configs, units, stubs, runtime, mounts, pod)
  {
    hide EntryIs;
    configs := [];
    for i := 0 to |models|
      invariant |configs| == i && AllEntries(configs, units, stubs, runtime, mounts, pod)
    {
      assert ModelFor(models[i], stubs[i], units, arrays, maps);
      var entry := EntryOf(models[i], pod);
      configs := configs + [entry];
    }
  }

  method EntryOf(model: LogModel, pod: PodView) returns (c: LogConfig)
    ensures EntryIs(c, model.uid, model.container, model.rule, model.fields.m, model.logPath[..], model.mount, pod)
  {
    c := BuildLogConfig(model.uid, model.container, model.rule, model.fields.m, model.logPath[..], model.mount, pod);
  }

  /** The entry of model i, built from the paths and fields as all models of its rule have left them. */
  ghost predicate EntryFor(c: LogConfig, units: seq<Unit>, stubs: seq<Stub>, runtime: map<string, ContainerInfo>,
                           i: nat, mounts: seq<Mount>, pod: PodView)
    requires i < |stubs| && Known(stubs, runtime, |stubs|)
  {
    && stubs[i].unit < |units|
    && var rule, st := units[stubs[i].unit].rule, StoreAt(units, stubs, runtime, stubs[i].unit, |stubs|);
       EntryIs(c, rule.uid + "-" + stubs[i].container, stubs[i].container, rule, st.fields, st.paths, mounts, pod)
  }

  // ---- Sharing makes no difference ----

  /**
   The two variable lists give a segment the same value, and that value has no reference of its own.
   */
  predicate Settled(a: seq<EnvVar>, b: seq<EnvVar>, s: string) {
    IsReference(s) ==>
      && Lookup(a, Referenced(s)) == Lookup(b, Referenced(s))
      && (Lookup(a, Referenced(s)).Some? ==>
            && !IsReference(Lookup(a, Referenced(s)).value)
            && forall x | x in Segments(Lookup(a, Referenced(s)).value) :: !IsReference(x))
  }

  ghost predicate SettledAll(a: seq<EnvVar>, b: seq<EnvVar>, parts: seq<string>) {
    forall s :: s in parts ==> Settled(a, b, s)
  }

  lemma {:induction false} SettledValue(a: seq<EnvVar>, b: seq<EnvVar>, s: string)
    requires Settled(a, b, s)
    ensures Subst(a, s) == Subst(b, s)
    ensures Subst(b, Subst(a, s)) == Subst(a, s)
    ensures SLASH !in s ==> forall x :: x in Segments(Subst(a, s)) ==> Subst(b, x) == x
  {
    if SLASH !in s {
      SplitWhole(s, SLASH);
    }
  }

  /** The value that the first container gives a segment has nothing for the second one to substitute. */
  predicate Final(a: seq<EnvVar>, b: seq<EnvVar>, s: string) {
    forall x | x in Segments(Subst(a, s)) :: Subst(b, x) == x
  }

  ghost predicate FinalAll(a: seq<EnvVar>, b: seq<EnvVar>, parts: seq<string>) {
    forall s :: s in parts ==> Final(a, b, s)
  }

  lemma {:induction false} SettledIsFinal(a: seq<EnvVar>, b: seq<EnvVar>, parts: seq<string>)
    requires SettledAll(a, b, parts) && Free(parts, SLASH)
    ensures FinalAll(a, b, parts)
  {
    forall s | s in parts
      ensures Final(a, b, s)
    {
      SettledValue(a, b, s);
    }
  }

  lemma {:induction false} FinalFlat(a: seq<EnvVar>, b: seq<EnvVar>, parts: seq<string>)
    requires FinalAll(a, b, parts)
    ensures forall x :: x in Flat(a, parts) ==> Subst(b, x) == x
  {
    if parts != [] {
      FinalFlat(a, b, parts[..|parts| - 1]);
      assert Final(a, b, parts[|parts| - 1]);
    }
  }

  /**
   A path whose substitution is final is left alone by the next container, which looks up the parent of the
   substituted path: for that container the two computations of the directory always agree.
   */
  lemma {:induction false} FinalPath(a: ContainerInfo, b: ContainerInfo, path: string)
    requires FinalAll(a.envs, b.envs, Segments(path))
    ensures SubstPath(b.envs, SubstPath(a.envs, path)) == SubstPath(a.envs, path)
    ensures Destination(b, SubstPath(a.envs, path)) == Dir(SubstPath(a.envs, path))
    ensures KeyAgrees(b, SubstPath(a.envs, path))
  {
    hide Final, Dir, Subst;
    var q := SubstPath(a.envs, path);
    SegmentsOfSubst(a.envs, Segments(path));
    FinalFlat(a.envs, b.envs, Segments(path));
    Unchanged(b.envs, q);
    SegmentsOfDir(q);
    NoReferences(b.envs);
    Unchanged(b.envs, Dir(q));
  }

  lemma {:induction false} NoReferences(envs: seq<EnvVar>)
    ensures Subst(envs, "") == "" && Subst(envs, ".") == "."
  {
  }

  /** The container has a value for every reference, and none of its values has a reference. */
  predicate Resolves(envs: seq<EnvVar>, s: string) {
    IsReference(s) ==>
      && Lookup(envs, Referenced(s)).Some?
      && !IsReference(Lookup(envs, Referenced(s)).value)
      && forall x | x in Segments(Lookup(envs, Referenced(s)).value) :: !IsReference(x)
  }

  /** Whatever the others hold, what such a container substitutes is final for them. */
  lemma {:induction false} ResolvedIsFinal(a: seq<EnvVar>, b: seq<EnvVar>, parts: seq<string>)
    requires Free(parts, SLASH) && forall s :: s in parts ==> Resolves(a, s)
    ensures FinalAll(a, b, parts)
  {
    forall s | s in parts
      ensures Final(a, b, s)
    {
      SplitWhole(s, SLASH);
    }
  }

  lemma {:induction false} SettledSubstAll(a: seq<EnvVar>, b: seq<EnvVar>, parts: seq<string>)
    requires SettledAll(a, b, parts)
    ensures SubstAll(a, parts) == SubstAll(b, parts)
  {
    forall i | 0 <= i < |parts|
      ensures Subst(a, parts[i]) == Subst(b, parts[i])
    {
      SettledValue(a, b, parts[i]);
    }
  }

  lemma {:induction false} SegmentsOfDir(path: string)
    ensures forall x :: x in Segments(Dir(path)) ==> x in Segments(path) || x == "" || x == "."
  {
    var init := Segments(path)[..|Segments(path)| - 1];
    SegmentsFacts(path);
    NormIsProper(IsAbs(path), init);
    RenderReadBack(IsAbs(path), Norm(IsAbs(path), init));
  }

  lemma {:induction false} SettledPlain(a: seq<EnvVar>, b: seq<EnvVar>)
    ensures Settled(a, b, "") && Settled(a, b, ".")
  {
  }

  /** One container's substitution of a path is final for the other containers of the rule. */
  lemma {:induction false} SettledPath(a: ContainerInfo, b: ContainerInfo, path: string)
    requires SettledAll(a.envs, b.envs, Segments(path))
    ensures SubstPath(a.envs, path) == SubstPath(b.envs, path)
    ensures Destination(a, path) == Destination(b, path)
    ensures SubstPath(b.envs, SubstPath(a.envs, path)) == SubstPath(a.envs, path)
    ensures Destination(b, SubstPath(a.envs, path)) == Dir(SubstPath(a.envs, path))
  {
    hide Dir, Subst, FinalAll;
    SegmentsFacts(path);
    SettledSubstAll(a.envs, b.envs, Segments(path));
    SegmentsOfDir(path);
    SettledPlain(a.envs, b.envs);
    SettledSubstAll(a.envs, b.envs, Segments(Dir(path)));
    SettledIsFinal(a.envs, b.envs, Segments(path));
    FinalPath(a, b, path);
  }

  /**
   The next container of the rule reads the path already substituted.  It looks up the directory
   it would have looked up in its own copy exactly when the two computations of the directory agree.
   */
  lemma {:induction false} NextContainerDestination(a: ContainerInfo, b: ContainerInfo, path: string)
    requires SettledAll(a.envs, b.envs, Segments(path))
    ensures Destination(b, SubstPath(a.envs, path)) == Destination(b, path) <==> KeyAgrees(a, path)
  {
    SettledPath(a, b, path);
  }

  /** With D = /v/ and the path $(D)/a, two containers that agree on everything look up /v/ and /v. */
  lemma {:induction false} UncleanValueSplitsContainers()
    ensures var a, path := ContainerInfo([EnvVar("D", "/v/")], [], "/up", ""), "$(D)/a";
            && SettledAll(a.envs, a.envs, Segments(path))
            && Destination(a, SubstPath(a.envs, path)) != Destination(a, path)
  {
    hide Dir, Clean, SubstPath;
    var a, path, ref := ContainerInfo([EnvVar("D", "/v/")], [], "/up", ""), "$(D)/a", "$(D)";
    ReferencePath();
    UncleanValue();
    assert IsReference(ref) && Referenced(ref) == "D" && Subst(a.envs, ref) == "/v/";
    SubstSingle(a.envs, ref);
    assert Destination(a, path) == "/v/";
    PlainFileNameAgreement(a.envs, path);

    NextContainerDestination(a, a, path);
  }

  /** What the rule's paths and fields must satisfy for a pair of its containers. */
  ghost predicate StablePair(a: ContainerInfo, b: ContainerInfo, st: Store) {
    && (forall i :: 0 <= i < |st.paths| && st.paths[i] != STDOUT ==>
          && SettledAll(a.envs, b.envs, Segments(st.paths[i]))
          && KeyAgrees(a, st.paths[i])
          && SubstPath(a.envs, st.paths[i]) != STDOUT)
    && (forall k :: k in st.fields ==> Settled(a.envs, b.envs, st.fields[k]))
  }

  /** The mounts depend on the paths only through the directories looked up. */
  lemma {:induction false} SameLookups(info: ContainerInfo, base: string, paths: seq<string>, others: seq<string>)
    requires |paths| == |others|
    requires forall i :: 0 <= i < |paths| ==> (paths[i] == STDOUT <==> others[i] == STDOUT)
    requires forall i :: 0 <= i < |paths| ==>
               (paths[i] != STDOUT ==> Destination(info, paths[i]) == Destination(info, others[i]))
    ensures MountsOf(info, base, paths) == MountsOf(info, base, others)
  {
    hide Destination, SourceOf, Walk;
    if paths != [] {
      SameLookups(info, base, paths[..|paths| - 1], others[..|others| - 1]);
    }
  }

  lemma {:induction false} SecondRunMounts(a: ContainerInfo, b: ContainerInfo, base: string, st: Store)
    requires StablePair(a, b, st)
    ensures MountsOf(b, base, After(a, st).paths) == MountsOf(b, base, st.paths)
  {
    hide Destination, MountsOf, SettledAll;
    forall i | 0 <= i < |st.paths| && st.paths[i] != STDOUT
      ensures Destination(b, NewPath(a, st.paths[i])) == Destination(b, st.paths[i])
    {
      NextContainerDestination(a, b, st.paths[i]);
    }
    SameLookups(b, base, After(a, st).paths, st.paths);
  }

  lemma {:induction false} SecondRunStore(a: ContainerInfo, b: ContainerInfo, st: Store)
    requires StablePair(a, b, st)
    ensures After(b, st) == After(a, st)
    ensures After(b, After(a, st)) == After(a, st)
  {
    forall i | 0 <= i < |st.paths|
      ensures NewPath(b, st.paths[i]) == NewPath(a, st.paths[i])
      ensures NewPath(b, NewPath(a, st.paths[i])) == NewPath(a, st.paths[i])
    {
      if st.paths[i] != STDOUT {
        SettledPath(a, b, st.paths[i]);
      }
    }
    assert After(b, After(a, st)).paths == After(a, st).paths;
    forall k | k in st.fields {
      SettledValue(a.envs, b.envs, st.fields[k]);
    }
    assert After(b, After(a, st)).fields == After(a, st).fields;
    assert After(b, st).paths == After(a, st).paths;
  }

  /** Every two containers of unit g are a stable pair for what the rule says. */
  ghost predicate StableUnit(units: seq<Unit>, stubs: seq<Stub>, runtime: map<string, ContainerInfo>, g: nat)
    requires g < |units| && Known(stubs, runtime, |stubs|)
  {
    forall i, j :: 0 <= i < |stubs| && 0 <= j < |stubs| && stubs[i].unit == g && stubs[j].unit == g ==>
      StablePair(runtime[stubs[i].container], runtime[stubs[j].container], Initial(units[g]))
  }

  lemma {:induction false} StableStoreAt(units: seq<Unit>, stubs: seq<Stub>, runtime: map<string, ContainerInfo>,
                                         g: nat, n: nat, i: nat)
    requires g < |units| && Known(stubs, runtime, |stubs|) && n <= |stubs|
    requires StableUnit(units, stubs, runtime, g)
    requires i < |stubs| && stubs[i].unit == g
    ensures StoreAt(units, stubs, runtime, g, n) ==
            if exists k :: 0 <= k < n && stubs[k].unit == g then After(runtime[stubs[i].container], Initial(units[g]))
            else Initial(units[g])
  {
    hide After, StablePair;
    if n > 0 {
      StableStoreAt(units, stubs, runtime, g, n - 1, i);
      if stubs[n - 1].unit == g {
        SecondRunStore(runtime[stubs[i].container], runtime[stubs[n - 1].container], Initial(units[g]));
      }
    }
  }

  /**
   For a stable rule, sharing is invisible: each model ends with the paths, fields and mounts that
   FindMount would give it on its own copy of what the rule says.
   */
  lemma {:induction false} SharedEqualsCopies(units: seq<Unit>, stubs: seq<Stub>, runtime: map<string, ContainerInfo>,
                                              pod: Pod, base: string, i: nat)
    requires Known(stubs, runtime, |stubs|) && i < |stubs| && stubs[i].unit < |units|
    requires StableUnit(units, stubs, runtime, stubs[i].unit)
    ensures var info, own := runtime[stubs[i].container], Initial(units[stubs[i].unit]);
            && StoreAt(units, stubs, runtime, stubs[i].unit, |stubs|) == After(info, own)
            && MountsAt(units, stubs, runtime, pod, base, i) ==
               MarkAll(MountsOf(info, base, own.paths), ClaimPaths(pod, stubs[i].container))
  {
    hide MountsOf, After;
    var g := stubs[i].unit;
    var info := runtime[stubs[i].container];
    StableStoreAt(units, stubs, runtime, g, |stubs|, i);
    StableStoreAt(units, stubs, runtime, g, i, i);
    if k :| 0 <= k < i && stubs[k].unit == g {
      assert StablePair(info, info, Initial(units[g]));
      SecondRunMounts(info, info, base, Initial(units[g]));
    }
  }

  // ---- The first container decides ----

  /** What the first container makes of the rule is final for the second one. */
  ghost predicate Decides(a: ContainerInfo, b: ContainerInfo, st: Store) {
    && (forall k :: 0 <= k < |st.paths| && st.paths[k] != STDOUT ==> FinalAll(a.envs, b.envs, Segments(st.paths[k])))
    && (forall k :: k in st.fields ==> Subst(b.envs, Subst(a.envs, st.fields[k])) == Subst(a.envs, st.fields[k]))
  }

  lemma {:induction false} DecidedStore(a: ContainerInfo, b: ContainerInfo, st: Store)
    requires Decides(a, b, st)
    ensures After(b, After(a, st)) == After(a, st)
  {
    hide FinalAll, Subst, SubstPath, Destination, KeyAgrees;
    var once := After(a, st);
    forall k | 0 <= k < |st.paths|
      ensures NewPath(b, once.paths[k]) == once.paths[k]
    {
      if st.paths[k] != STDOUT {
        FinalPath(a, b, st.paths[k]);
      }
    }
    assert After(b, once).paths == once.paths;
    assert After(b, once).fields == once.fields;
  }

  /** The first model of unit g, whose container decides for the others of the unit. */
  ghost predicate FirstDecides(units: seq<Unit>, stubs: seq<Stub>, runtime: map<string, ContainerInfo>, first: nat)
    requires Known(stubs, runtime, |stubs|)
  {
    && first < |stubs| && stubs[first].unit < |units|
    && (forall k :: 0 <= k < first ==> stubs[k].unit != stubs[first].unit)
    && (forall k :: first < k < |stubs| && stubs[k].unit == stubs[first].unit ==>
          Decides(runtime[stubs[first].container], runtime[stubs[k].container], Initial(units[stubs[first].unit])))
  }

  lemma {:induction false} FirstStore(units: seq<Unit>, stubs: seq<Stub>, runtime: map<string, ContainerInfo>,
                                      first: nat, n: nat)
    requires Known(stubs, runtime, |stubs|) && FirstDecides(units, stubs, runtime, first) && n <= |stubs|
    ensures var g := stubs[first].unit;
            StoreAt(units, stubs, runtime, g, n) ==
            if n <= first then Initial(units[g]) else After(runtime[stubs[first].container], Initial(units[g]))
  {
    hide After, Decides;
    if n > 0 {
      FirstStore(units, stubs, runtime, first, n - 1);
      if n - 1 > first && stubs[n - 1].unit == stubs[first].unit {
        DecidedStore(runtime[stubs[first].container], runtime[stubs[n - 1].container],
                     Initial(units[stubs[first].unit]));
      }
    }
  }

  lemma {:induction false} MarksAdd(x: seq<Mount>, y: seq<Mount>, claims: set<string>)
    requires forall i :: 0 <= i < |x| ==> !x[i].isPVC
    requires forall i :: 0 <= i < |y| ==> !y[i].isPVC
    ensures MarkAll(x, claims) == MarkAll(y, claims) <==> x == y
  {
    if MarkAll(x, claims) == MarkAll(y, claims) {
      assert |MarkAll(x, claims)| == |x| && |MarkAll(y, claims)| == |y|;
      forall i | 0 <= i < |x|
        ensures x[i] == y[i]
      {
        assert MarkAll(x, claims)[i] == MarkAll(y, claims)[i];
        assert Mark(x[i], claims) == Mark(y[i], claims);
      }
    }
  }

  lemma {:induction false} FoundUnmarked(info: ContainerInfo, base: string, paths: seq<string>)
    ensures forall i :: 0 <= i < |MountsOf(info, base, paths)| ==> !MountsOf(info, base, paths)[i].isPVC
  {
    hide SourceOf, Destination, Walk;
    if paths != [] {
      FoundUnmarked(info, base, paths[..|paths| - 1]);
    }
  }

  /**
   Whatever the other containers hold: all models of the unit end with the paths and fields of the first
   one, and another container has the mounts of its own copy of the rule exactly when the first one's
   paths lead it to them.
   */
  lemma {:induction false} FirstContainerDecides(units: seq<Unit>, stubs: seq<Stub>,
                                                 runtime: map<string, ContainerInfo>, pod: Pod, base: string,
                                                 first: nat, i: nat)
    requires Known(stubs, runtime, |stubs|) && FirstDecides(units, stubs, runtime, first)
    requires first < i < |stubs| && stubs[i].unit == stubs[first].unit
    ensures var g, claims := stubs[first].unit, ClaimPaths(pod, stubs[i].container);
            var a, b, own := runtime[stubs[first].container], runtime[stubs[i].container], Initial(units[g]);
            && StoreAt(units, stubs, runtime, g, |stubs|) == After(a, own)
            && MountsAt(units, stubs, runtime, pod, base, first) ==
               MarkAll(MountsOf(a, base, own.paths), ClaimPaths(pod, stubs[first].container))
            && MountsAt(units, stubs, runtime, pod, base, i) ==
               MarkAll(MountsOf(b, base, NewPaths(a, own.paths)), claims)
            && (MountsAt(units, stubs, runtime, pod, base, i) == MarkAll(MountsOf(b, base, own.paths), claims) <==>
                MountsOf(b, base, NewPaths(a, own.paths)) == MountsOf(b, base, own.paths))
  {
    hide MountsOf, FirstDecides, MarkAll;
    var a, b := runtime[stubs[first].container], runtime[stubs[i].container];
    assert stubs[first].unit < |units| by {
      FirstIndex(units, stubs, runtime, first);
    }
    var own := Initial(units[stubs[first].unit]);
    FirstStore(units, stubs, runtime, first, |stubs|);
    FirstStore(units, stubs, runtime, first, i);
    FirstStore(units, stubs, runtime, first, first);
    FoundUnmarked(b, base, NewPaths(a, own.paths));
    FoundUnmarked(b, base, own.paths);
    MarksAdd(MountsOf(b, base, NewPaths(a, own.paths)), MountsOf(b, base, own.paths),
             ClaimPaths(pod, stubs[i].container));
  }

  lemma {:induction false} FirstIndex(units: seq<Unit>, stubs: seq<Stub>, runtime: map<string, ContainerInfo>,
                                      first: nat)
    requires Known(stubs, runtime, |stubs|) && FirstDecides(units, stubs, runtime, first)
    ensures first < |stubs| && stubs[first].unit < |units|
  {
  }

  // ---- Stream ids ----

  function ContainerCount(units: seq<Unit>): nat {
    if units == [] then 0
    else ContainerCount(units[..|units| - 1]) + |units[|units| - 1].containers|
  }

  lemma {:induction false} StubCount(units: seq<Unit>)
    ensures |Stubs(units)| == ContainerCount(units)
  {
    if units != [] {
      StubCount(units[..|units| - 1]);
    }
  }

  /** Rule UIDs of one length, all different, and no container named twice in a rule. */
  ghost predicate DistinctUnits(units: seq<Unit>) {
    && (forall g, h :: 0 <= g < h < |units| ==>
          units[g].rule.uid != units[h].rule.uid && |units[g].rule.uid| == |units[h].rule.uid|)
    && (forall g :: 0 <= g < |units| ==> NoRepeats(units[g].containers))
  }

  ghost predicate NoRepeats(s: seq<string>) {
    forall i, j :: 0 <= i < j < |s| ==> s[i] != s[j]
  }

  lemma {:induction false} StubsDistinct(units: seq<Unit>)
    requires forall g :: 0 <= g < |units| ==> NoRepeats(units[g].containers)
    ensures forall i, j :: 0 <= i < j < |Stubs(units)| ==> Stubs(units)[i] != Stubs(units)[j]
  {
    if units != [] {
      var init := units[..|units| - 1];
      StubsDistinct(init);
      assert NoRepeats(units[|units| - 1].containers);
      assert forall i :: 0 <= i < |Stubs(init)| ==> Stubs(init)[i].unit < |units| - 1;
    }
  }

  /** No two entries of a configuration file have the same stream id. */
  lemma {:induction false} StreamIdsDistinct(units: seq<Unit>, i: int, j: int)
    requires DistinctUnits(units) && 0 <= i < j < |Stubs(units)|
    ensures var a, b := Stubs(units)[i], Stubs(units)[j];
            StreamId(units[a.unit].rule.uid, a.container) != StreamId(units[b.unit].rule.uid, b.container)
  {
    StubsDistinct(units);
    var a, b := Stubs(units)[i], Stubs(units)[j];
    var u, v := units[a.unit].rule.uid, units[b.unit].rule.uid;
    var s, t := StreamId(u, a.container), StreamId(v, b.container);
    assert |u| == |v|;
    assert s[..|u|] == u && t[..|v|] == v;
    assert s[|u| + 1..] == a.container && t[|v| + 1..] == b.container;
  }

  // ---- A stable rule end to end ----

  /**
   For one path, the next container finds the mounts of its own copy exactly when the keys agree or
   neither of the two directories has a source.
   */
  lemma {:induction false} NextContainerMount(a: ContainerInfo, b: ContainerInfo, base: string, path: string)
    requires SettledAll(a.envs, b.envs, Segments(path))
    requires path != STDOUT && SubstPath(a.envs, path) != STDOUT
    ensures MountsOf(b, base, [SubstPath(a.envs, path)]) == MountsOf(b, base, [path]) <==>
            || KeyAgrees(a, path)
            || (SourceOf(b, base, Destination(b, path)).None? &&
                SourceOf(b, base, Dir(SubstPath(a.envs, path))).None?)
  {
    hide Dir, Destination, SubstPath, SourceOf, SettledAll, KeyAgrees;
    NextContainerDestination(a, b, path);
    SettledPath(a, b, path);
    SingleMount(b, base, path);
    SingleMount(b, base, SubstPath(a.envs, path));
  }

  lemma {:induction false} SingleMount(info: ContainerInfo, base: string, path: string)
    requires path != STDOUT
    ensures var dest := Destination(info, path);
            MountsOf(info, base, [path]) ==
            if SourceOf(info, base, dest).None? then [] else [Mount(SourceOf(info, base, dest).value, dest, false)]
  {
    hide Destination, SourceOf, Walk;
    assert [path][..0] == [];
    assert MountsOf(info, base, []) == [];
  }

  /** The next container substitutes the path in the same way, and its file name's value leads back to the directory. */
  ghost predicate Follows(a: ContainerInfo, b: ContainerInfo, path: string) {
    && SettledAll(a.envs, b.envs, Segments(path)) && SubstPath(a.envs, path) != STDOUT
    && Steady(a.envs, IsAbs(path), Leading(path)) && LeadsBack(a.envs, path)
  }

  /**
   The directory that path k's own copy looks up has no source, and the one that is looked up instead has
   none either, or the mount that some path's own copy finds.
   */
  ghost predicate SameAnyway(a: ContainerInfo, b: ContainerInfo, base: string, paths: seq<string>, k: int)
    requires 0 <= k < |paths|
  {
    var dest := Dir(SubstPath(a.envs, paths[k]));
    && SourceOf(b, base, Destination(b, paths[k])).None?
    && (SourceOf(b, base, dest).Some? ==>
          exists j :: 0 <= j < |paths| &&
            FoundFor(b, base, paths[j], Mount(SourceOf(b, base, dest).value, dest, false)))
  }

  /** With any number of paths, the next container finds the mounts of its own copy exactly when each does. */
  lemma {:induction false} NextContainerMounts(a: ContainerInfo, b: ContainerInfo, base: string, paths: seq<string>)
    requires forall i :: 0 <= i < |paths| && paths[i] != STDOUT ==> Follows(a, b, paths[i])
    ensures (forall m :: m in MountsOf(b, base, NewPaths(a, paths)) <==> m in MountsOf(b, base, paths)) <==>
            forall k :: 0 <= k < |paths| && paths[k] != STDOUT ==>
              KeyAgrees(a, paths[k]) || SameAnyway(a, b, base, paths, k)
  {
    hide Destination, MountsOf, SubstPath, SettledAll, SourceOf, KeyAgrees, LeadsBack, Steady, Dir, SameAnyway;
    var after := NewPaths(a, paths);
    if forall k :: 0 <= k < |paths| && paths[k] != STDOUT ==> KeyAgrees(a, paths[k]) || SameAnyway(a, b, base, paths, k)
    {
      forall m | m in MountsOf(b, base, after)
        ensures m in MountsOf(b, base, paths)
      {
        SharedIsOwn(a, b, base, paths, m);
      }
      forall m | m in MountsOf(b, base, paths)
        ensures m in MountsOf(b, base, after)
      {
        OwnIsShared(a, b, base, paths, m);
      }
    } else {
      var k :| 0 <= k < |paths| && paths[k] != STDOUT && !KeyAgrees(a, paths[k]) && !SameAnyway(a, b, base, paths, k);
      SomeMountDiffers(a, b, base, paths, k);
    }
  }

  lemma {:induction false} SharedIsOwn(a: ContainerInfo, b: ContainerInfo, base: string, paths: seq<string>, m: Mount)
    requires forall i :: 0 <= i < |paths| && paths[i] != STDOUT ==> Follows(a, b, paths[i])
    requires forall k :: 0 <= k < |paths| && paths[k] != STDOUT ==>
               KeyAgrees(a, paths[k]) || SameAnyway(a, b, base, paths, k)
    requires m in MountsOf(b, base, NewPaths(a, paths))
    ensures m in MountsOf(b, base, paths)
  {
    hide Destination, MountsOf, SubstPath, SettledAll, SourceOf, KeyAgrees, LeadsBack, Steady, Dir;
    var after := NewPaths(a, paths);
    MountsOfExactly(b, base, paths);
    var k := OriginOf(b, base, after, m);
    if paths[k] == STDOUT {
      assert FoundFor(b, base, paths[k], m);
    } else {
      assert Follows(a, b, paths[k]);
      SettledPath(a, b, paths[k]);
      if KeyAgrees(a, paths[k]) {
        NextContainerDestination(a, b, paths[k]);
        assert FoundFor(b, base, paths[k], m);
      } else {
        assert SameAnyway(a, b, base, paths, k);
        var dest := Dir(SubstPath(a.envs, paths[k]));
        var j :| 0 <= j < |paths| && FoundFor(b, base, paths[j], Mount(SourceOf(b, base, dest).value, dest, false));
      }
    }
  }

  lemma {:induction false} OwnIsShared(a: ContainerInfo, b: ContainerInfo, base: string, paths: seq<string>, m: Mount)
    requires forall i :: 0 <= i < |paths| && paths[i] != STDOUT ==> Follows(a, b, paths[i])
    requires forall k :: 0 <= k < |paths| && paths[k] != STDOUT ==>
               KeyAgrees(a, paths[k]) || SameAnyway(a, b, base, paths, k)
    requires m in MountsOf(b, base, paths)
    ensures m in MountsOf(b, base, NewPaths(a, paths))
  {
    hide Destination, MountsOf, SubstPath, SettledAll, SourceOf, KeyAgrees, LeadsBack, Steady, Dir;
    var after := NewPaths(a, paths);
    MountsOfExactly(b, base, after);
    var k := OriginOf(b, base, paths, m);
    if paths[k] != STDOUT {
      assert Follows(a, b, paths[k]);
      NextContainerDestination(a, b, paths[k]);
    }
    assert FoundFor(b, base, after[k], m);
  }

  /** The own copy finds an unclean directory that is not looked up, or one is looked up that it does not find. */
  lemma {:induction false} SomeMountDiffers(a: ContainerInfo, b: ContainerInfo, base: string, paths: seq<string>,
                                            k: int)
    requires 0 <= k < |paths| && paths[k] != STDOUT && !KeyAgrees(a, paths[k])
    requires !SameAnyway(a, b, base, paths, k)
    requires forall i :: 0 <= i < |paths| && paths[i] != STDOUT ==> Follows(a, b, paths[i])
    ensures !(forall m :: m in MountsOf(b, base, NewPaths(a, paths)) <==> m in MountsOf(b, base, paths))
  {
    hide Destination, MountsOf, SubstPath, SettledAll, SourceOf, LeadsBack, Steady, Dir, Clean, KeyAgrees;
    var after, dest := NewPaths(a, paths), Dir(SubstPath(a.envs, paths[k]));
    assert Follows(a, b, paths[k]);
    if SourceOf(b, base, Destination(b, paths[k])).Some? {
      UncleanMount(a, b, base, paths, k);
    } else {
      SettledPath(a, b, paths[k]);
      var m := Mount(SourceOf(b, base, dest).value, dest, false);
      MountsOfExactly(b, base, after);
      assert FoundFor(b, base, after[k], m) && m in MountsOf(b, base, after);
      if m in MountsOf(b, base, paths) {
        var j := OriginOf(b, base, paths, m);
        assert false;
      }
    }
  }

  /** A directory whose two computations differ is looked up by the container's own copy only. */
  lemma {:induction false} UncleanMount(a: ContainerInfo, b: ContainerInfo, base: string, paths: seq<string>, k: int)
    requires 0 <= k < |paths| && paths[k] != STDOUT && !KeyAgrees(a, paths[k])
    requires SourceOf(b, base, Destination(b, paths[k])).Some?
    requires forall i :: 0 <= i < |paths| && paths[i] != STDOUT ==> Follows(a, b, paths[i])
    ensures exists m :: m in MountsOf(b, base, paths) && m !in MountsOf(b, base, NewPaths(a, paths))
  {
    hide MountsOf, SubstPath, SettledAll, SourceOf, LeadsBack, Steady, Dir, Clean;
    var after, dest := NewPaths(a, paths), Destination(b, paths[k]);
    SettledPath(a, b, paths[k]);
    DirectoryKeyAgreement(a.envs, paths[k]);
    assert Clean(dest) != dest;
    var m := Mount(SourceOf(b, base, dest).value, dest, false);
    MountsOfExactly(b, base, paths);
    assert FoundFor(b, base, paths[k], m) && m in MountsOf(b, base, paths);
    if m in MountsOf(b, base, after) {
      var l := OriginOf(b, base, after, m);
      if paths[l] == STDOUT {
        StdoutIsClean();
      } else {
        SettledPath(a, b, paths[l]);
        DirIsClean(SubstPath(a.envs, paths[l]));
      }
      assert false;
    }
  }

  /** With a writable layer, the list of mounts is that of the own copy exactly when all keys agree. */
  lemma {:induction false} NextContainerMountsInOrder(a: ContainerInfo, b: ContainerInfo, base: string,
                                                      paths: seq<string>)
    requires b.upperDir != ""
    requires forall i :: 0 <= i < |paths| && paths[i] != STDOUT ==> Follows(a, b, paths[i])
    ensures MountsOf(b, base, NewPaths(a, paths)) == MountsOf(b, base, paths) <==>
            forall i :: 0 <= i < |paths| && paths[i] != STDOUT ==> KeyAgrees(a, paths[i])
  {
    hide Destination, MountsOf, SubstPath, SettledAll, SourceOf, KeyAgrees, LeadsBack, Steady, Dir, FoundFor;
    if forall i :: 0 <= i < |paths| && paths[i] != STDOUT ==> KeyAgrees(a, paths[i]) {
      forall i | 0 <= i < |paths| && paths[i] != STDOUT
        ensures Destination(b, NewPath(a, paths[i])) == Destination(b, paths[i])
      {
        NextContainerDestination(a, b, paths[i]);
      }
      SameLookups(b, base, NewPaths(a, paths), paths);
    } else {
      var k :| 0 <= k < |paths| && paths[k] != STDOUT && !KeyAgrees(a, paths[k]);
      SourceInUpperDir(b, base, Destination(b, paths[k]));
      UncleanMount(a, b, base, paths, k);
    }
  }

  lemma {:induction false} SourceInUpperDir(info: ContainerInfo, base: string, dest: string)
    requires info.upperDir != ""
    ensures SourceOf(info, base, dest).Some?
  {
  }

  lemma {:induction false} StdoutIsClean()
    ensures Clean(STDOUT) == STDOUT
  {
    SplitWhole(STDOUT, SLASH);
    NormSingle(false, STDOUT);
  }

  ghost predicate SettledPair(a: ContainerInfo, b: ContainerInfo, st: Store) {
    && (forall k :: 0 <= k < |st.paths| && st.paths[k] != STDOUT ==> Follows(a, b, st.paths[k]))
    && (forall k :: k in st.fields ==> Settled(a.envs, b.envs, st.fields[k]))
  }

  lemma {:induction false} SettledDecides(a: ContainerInfo, b: ContainerInfo, st: Store)
    requires SettledPair(a, b, st)
    ensures Decides(a, b, st)
  {
    hide SettledAll, FinalAll, Steady, LeadsBack, Subst;
    forall k | 0 <= k < |st.paths| && st.paths[k] != STDOUT
      ensures FinalAll(a.envs, b.envs, Segments(st.paths[k]))
    {
      assert Follows(a, b, st.paths[k]);
      SegmentsFacts(st.paths[k]);
      SettledIsFinal(a.envs, b.envs, Segments(st.paths[k]));
    }
    forall k | k in st.fields
      ensures Subst(b.envs, Subst(a.envs, st.fields[k])) == Subst(a.envs, st.fields[k])
    {
      SettledValue(a.envs, b.envs, st.fields[k]);
    }
  }

  /** Model i has the mounts that FindMount would give it on its own copy of the rule. */
  ghost predicate HasOwnMounts(units: seq<Unit>, stubs: seq<Stub>, runtime: map<string, ContainerInfo>, pod: Pod,
                               base: string, i: nat)
    requires i < |stubs| && Known(stubs, runtime, |stubs|) && stubs[i].unit < |units|
  {
    MountsAt(units, stubs, runtime, pod, base, i) ==
    MarkAll(MountsOf(runtime[stubs[i].container], base, Initial(units[stubs[i].unit]).paths),
            ClaimPaths(pod, stubs[i].container))
  }

  /** The containers of the unit agree with the first one on its variables, and each has a writable layer. */
  ghost predicate SettledUnit(units: seq<Unit>, stubs: seq<Stub>, runtime: map<string, ContainerInfo>, first: nat)
    requires Known(stubs, runtime, |stubs|)
  {
    && first < |stubs| && stubs[first].unit < |units|
    && (forall k :: 0 <= k < first ==> stubs[k].unit != stubs[first].unit)
    && (forall k :: first < k < |stubs| && stubs[k].unit == stubs[first].unit ==>
          && runtime[stubs[k].container].upperDir != ""
          && SettledPair(runtime[stubs[first].container], runtime[stubs[k].container],
                         Initial(units[stubs[first].unit])))
  }

  /**
   For a rule with any number of containers that agree on its variables, all models have the mounts of
   their own copies exactly when there is no second container or the keys agree for every path.
   */
  lemma {:induction false} SharedExactly(units: seq<Unit>, stubs: seq<Stub>, runtime: map<string, ContainerInfo>,
                                         pod: Pod, base: string, first: nat)
    requires Known(stubs, runtime, |stubs|) && SettledUnit(units, stubs, runtime, first)
    ensures var g, a := stubs[first].unit, runtime[stubs[first].container];
            var paths := Initial(units[g]).paths;
            (forall i: nat :: i < |stubs| && stubs[i].unit == g ==>
               HasOwnMounts(units, stubs, runtime, pod, base, i)) <==>
            || (forall i :: first < i < |stubs| ==> stubs[i].unit != g)
            || (forall k :: 0 <= k < |paths| && paths[k] != STDOUT ==> KeyAgrees(a, paths[k]))
  {
    hide MountsOf, MarkAll, KeyAgrees, Decides, Initial, StoreAt, MountsAt, SettledPair;
    SettledFirst(units, stubs, runtime, first);
    var g, a := stubs[first].unit, runtime[stubs[first].container];
    var paths := Initial(units[g]).paths;
    var agree := forall k :: 0 <= k < |paths| && paths[k] != STDOUT ==> KeyAgrees(a, paths[k]);
    forall i: nat | first < i < |stubs| && stubs[i].unit == g
      ensures HasOwnMounts(units, stubs, runtime, pod, base, i) <==> agree
      ensures HasOwnMounts(units, stubs, runtime, pod, base, first)
    {
      FirstContainerDecides(units, stubs, runtime, pod, base, first, i);
      assert SettledPair(a, runtime[stubs[i].container], Initial(units[g]));
      SettledInOrder(a, runtime[stubs[i].container], base, Initial(units[g]));
    }
    assert HasOwnMounts(units, stubs, runtime, pod, base, first) by {
      FirstHasOwn(units, stubs, runtime, pod, base, first);
    }
  }

  lemma {:induction false} SettledInOrder(a: ContainerInfo, b: ContainerInfo, base: string, st: Store)
    requires SettledPair(a, b, st) && b.upperDir != ""
    ensures MountsOf(b, base, NewPaths(a, st.paths)) == MountsOf(b, base, st.paths) <==>
            forall k :: 0 <= k < |st.paths| && st.paths[k] != STDOUT ==> KeyAgrees(a, st.paths[k])
  {
    hide MountsOf, KeyAgrees, Follows, Settled;
    NextContainerMountsInOrder(a, b, base, st.paths);
  }

  lemma {:induction false} SettledFirst(units: seq<Unit>, stubs: seq<Stub>, runtime: map<string, ContainerInfo>,
                                        first: nat)
    requires Known(stubs, runtime, |stubs|) && SettledUnit(units, stubs, runtime, first)
    ensures FirstDecides(units, stubs, runtime, first)
  {
    hide SettledPair, Decides, Initial;
    forall k | first < k < |stubs| && stubs[k].unit == stubs[first].unit
      ensures Decides(runtime[stubs[first].container], runtime[stubs[k].container],
                      Initial(units[stubs[first].unit]))
    {
      SettledDecides(runtime[stubs[first].container], runtime[stubs[k].container], Initial(units[stubs[first].unit]));
    }
  }

  lemma {:induction false} FirstHasOwn(units: seq<Unit>, stubs: seq<Stub>, runtime: map<string, ContainerInfo>,
                                       pod: Pod, base: string, first: nat)
    requires Known(stubs, runtime, |stubs|) && FirstDecides(units, stubs, runtime, first)
    ensures HasOwnMounts(units, stubs, runtime, pod, base, first)
  {
    hide Decides, MountsOf, MarkAll;
    FirstStore(units, stubs, runtime, first, first);
  }

  /** What a configuration is generated from is the view of the pod: its models and its claims. */
  lemma {:induction false} ViewDecides(rules: seq<ContainerRule>, p: Pod, q: Pod, container: string)
    requires View(p) == View(q)
    ensures Units(rules, p) == Units(rules, q) && ClaimPaths(p, container) == ClaimPaths(q, container)
  {
    assert |Refs(p.statuses)| == |Refs(q.statuses)|;
    forall i | 0 <= i < |p.statuses|
      ensures p.statuses[i].name == q.statuses[i].name
    {
      assert Refs(p.statuses)[i] == Refs(q.statuses)[i];
    }
    assert StatusNames(p) == StatusNames(q);
    SameUnits(rules, p, q);
    assert forall name :: ClaimVolume(p, name) == ClaimVolume(q, name);
  }

  lemma {:induction false} SameUnits(rules: seq<ContainerRule>, p: Pod, q: Pod)
    requires StatusNames(p) == StatusNames(q)
    ensures Units(rules, p) == Units(rules, q)
  {
    if rules != [] {
      SameUnits(rules[..|rules| - 1], p, q);
      var c := rules[|rules| - 1];
      assert ContainersFor(c, p) == ContainersFor(c, q);
      assert UnitsOf(c, p) == UnitsOf(c, q);
    }
  }

  /** The entry of a container of a stable rule is the one its own copy of the rule would give. */
  lemma {:induction false} StableEntry(c: LogConfig, units: seq<Unit>, stubs: seq<Stub>,
                                       runtime: map<string, ContainerInfo>, pod: Pod, base: string,
                                       mounts: seq<seq<Mount>>, i: nat)
    requires Known(stubs, runtime, |stubs|) && i < |stubs| == |mounts| && stubs[i].unit < |units|
    requires Recorded(mounts, units, stubs, runtime, pod, base)
    requires EntryFor(c, units, stubs, runtime, i, mounts[i], View(pod))
    requires StableUnit(units, stubs, runtime, stubs[i].unit)
    ensures var info, rule, container := runtime[stubs[i].container], units[stubs[i].unit].rule, stubs[i].container;
            var paths := InitialPaths(rule);
            EntryIs(c, rule.uid + "-" + container, container, rule, NewFields(info, rule.fields),
                    NewPaths(info, paths), MarkAll(MountsOf(info, base, paths), ClaimPaths(pod, container)), View(pod))
  {
    hide EntryIs, MountsOf, StoreAt, StableUnit;
    SharedEqualsCopies(units, stubs, runtime, pod, base, i);
  }

  /** There is a model for a rule and a container exactly when the rule is for that container. */
  lemma {:induction false} StubsExactly(units: seq<Unit>, s: Stub)
    ensures s in Stubs(units) <==> s.unit < |units| && s.container in units[s.unit].containers
  {
    if units != [] {
      var g := |units| - 1;
      var last := StubsOf(g, units[g].containers);
      StubsExactly(units[..g], s);
      if s.unit == g && s.container in units[g].containers {
        var i :| 0 <= i < |units[g].containers| && units[g].containers[i] == s.container;
        assert last[i] == s;
      }
    }
  }

  /** The units are the rules of all container rules, each with its containers. */
  lemma {:induction false} UnitsExactly(rules: seq<ContainerRule>, pod: Pod, u: Unit)
    ensures u in Units(rules, pod) <==> exists c :: c in rules && UnitFrom(c, pod, u)
  {
    if rules != [] {
      var init, c := rules[..|rules| - 1], rules[|rules| - 1];
      UnitsExactly(init, pod, u);
      var last := UnitsOf(c, pod);
      if u in last {
        var i :| 0 <= i < |last| && last[i] == u;
        assert u == Unit(c.rules[i], ContainersFor(c, pod));
        assert UnitFrom(c, pod, u);
      }
      if UnitFrom(c, pod, u) {
        var i :| 0 <= i < |c.rules| && c.rules[i] == u.rule;
        assert last[i] == Unit(c.rules[i], ContainersFor(c, pod)) == u;
      }
    }
  }

  /** A rule of a container rule, for the named containers or else for all of the pod. */
  ghost predicate UnitFrom(c: ContainerRule, pod: Pod, u: Unit) {
    u.rule in c.rules && u.containers == (if c.containers == [] then StatusNames(pod) else c.containers)
  }

  // ---- The models in order ----

  /** The paths of a rule in order, and stdout behind them if the rule collects it. */
  lemma {:induction false} InitialExactly(rule: CollectionRule)
    ensures rule.path <= InitialPaths(rule)
    ensures InitialPaths(rule)[|rule.path|..] == if rule.stdout then ["stdout"] else []
  {
  }

  function RuleCount(rules: seq<ContainerRule>): nat {
    if rules == [] then 0 else RuleCount(rules[..|rules| - 1]) + |rules[|rules| - 1].rules|
  }

  /** Rule j of container rule i comes behind all rules of the container rules before it. */
  lemma {:induction false} UnitAt(rules: seq<ContainerRule>, pod: Pod, i: int, j: int)
    requires 0 <= i < |rules| && 0 <= j < |rules[i].rules|
    ensures |Units(rules, pod)| == RuleCount(rules)
    ensures RuleCount(rules[..i]) + j < |Units(rules, pod)|
    ensures var u := Units(rules, pod)[RuleCount(rules[..i]) + j];
            && u.rule == rules[i].rules[j]
            && (rules[i].containers != [] ==> u.containers == rules[i].containers)
            && (rules[i].containers == [] ==>
                  |u.containers| == |pod.statuses| &&
                  forall k :: 0 <= k < |pod.statuses| ==> u.containers[k] == pod.statuses[k].name)
  {
    var init := rules[..|rules| - 1];
    CountUnits(rules, pod);
    CountUnits(init, pod);
    if i < |init| {
      UnitAt(init, pod, i, j);
      assert init[..i] == rules[..i];
    } else {
      assert rules[..i] == init;
      assert Units(rules, pod)[RuleCount(init) + j] == UnitsOf(rules[i], pod)[j];
      assert UnitsOf(rules[i], pod)[j] == Unit(rules[i].rules[j], ContainersFor(rules[i], pod));
    }
  }

  lemma {:induction false} CountUnits(rules: seq<ContainerRule>, pod: Pod)
    ensures |Units(rules, pod)| == RuleCount(rules)
  {
    if rules != [] {
      CountUnits(rules[..|rules| - 1], pod);
    }
  }

  /** The model of container c of unit g comes behind those of all units before it. */
  lemma {:induction false} StubAt(units: seq<Unit>, g: int, c: int)
    requires 0 <= g < |units| && 0 <= c < |units[g].containers|
    ensures ContainerCount(units[..g]) + c < |Stubs(units)|
    ensures Stubs(units)[ContainerCount(units[..g]) + c] == Stub(g, units[g].containers[c])
  {
    var init := units[..|units| - 1];
    StubCount(init);
    if g < |init| {
      StubAt(init, g, c);
      assert init[..g] == units[..g];
    }
  }
}
