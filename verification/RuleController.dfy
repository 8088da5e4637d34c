/**
 The rule reconciler: an object with a cache, the configuration files of its node and the API
 server.  Every pass is one step of the machine of RuleRuns.
 */
module RuleController {
  import opened Wrappers
  import opened Rules
  import opened ConfigFiles
  import opened RuleOps
  import opened RuleRuns
  import opened Uids

  /** A rule object; others says whether it also carries finalizers of other parties. */
  datatype Rule = Rule(key: Key, spec: Spec, deleting: bool, finalizer: bool, others: bool, version: nat)

  datatype Outcome = Fine | RequeueLater | Failed

  datatype UpdateResult = Stored(rule: Rule) | Conflict | Broke

  // ---- The API server ----

  /** What a server holds after accepting an update. */
  function Accept(rules: map<Key, Rule>, rule: Rule): map<Key, Rule> {
    if rule.deleting && !rule.finalizer && !rule.others then rules - {rule.key}
    else rules[rule.key := rule.(version := rule.version + 1)]
  }

  function Listed(pods: seq<Pod>, matchLabels: map<string, string>, namespace: string): seq<Pod> {
    if pods == [] then []
    else
      var init := Listed(pods[..|pods| - 1], matchLabels, namespace);
      var pod := pods[|pods| - 1];
      if pod.namespace == namespace && Selects(matchLabels, pod.labels) then init + [pod] else init
  }

  class ApiServer {
    var rules: map<Key, Rule>
    var pods: seq<Pod>

    constructor (pods: seq<Pod>)
      ensures this.pods == pods && rules == map[]
    {
      this.pods, rules := pods, map[];
    }

    /** Reads go through a cache of the client and may be stale: only the key can be relied on. */
    method Get(key: Key) returns (r: Option<Rule>)
      ensures r.Some? ==> r.value.key == key
    {
      r := *;
      if r.Some? && r.value.key != key {
        r := None;
      }
    }

    /** Compare-and-swap on the version.  A broken call may or may not have been applied. */
    method Update(rule: Rule) returns (r: UpdateResult)
      modifies this`rules
      ensures r.Stored? ==>
                && rule.key in old(rules) && old(rules)[rule.key].version == rule.version
                && rules == Accept(old(rules), rule) && r.rule == rule.(version := rule.version + 1)
      ensures r.Conflict? ==> rules == old(rules)
      ensures r.Broke? ==>
                || rules == old(rules)
                || (rule.key in old(rules) && old(rules)[rule.key].version == rule.version
                    && rules == Accept(old(rules), rule))
    {
      var lost: bool := *;
      if lost {
        return Broke;
      }
      if rule.key !in rules || rules[rule.key].version != rule.version {
        return Conflict;
      }
      rules := Accept(rules, rule);
      lost := *;
      r := if lost then Broke else Stored(rule.(version := rule.version + 1));
    }

    method List(matchLabels: map<string, string>, namespace: string) returns (r: Option<seq<Pod>>)
      ensures r.Some? ==> r.value == Listed(pods, matchLabels, namespace)
    {
      var broken: bool := *;
      r := if broken then None else Some(Listed(pods, matchLabels, namespace));
    }
  }

  // ---- Interrupted plans ----

  lemma {:induction false} CollectorPrefix(phase: Phase, c: Collector, pods: seq<Pod>, n: nat, namespace: string,
                                           host: string)
    requires n <= |pods|
    ensures CollectorOps(phase, c, pods[..n], namespace, host) <= CollectorOps(phase, c, pods, namespace, host)
    decreases |pods|
  {
    if n == |pods| {
      assert pods[..n] == pods;
    } else {
      CollectorPrefix(phase, c, pods[..|pods| - 1], n, namespace, host);
      assert pods[..|pods| - 1][..n] == pods[..n];
    }
  }

  lemma {:induction false} SpecPrefix(phase: Phase, spec: Spec, n: nat, cl: Cluster, namespace: string)
    requires n <= |spec|
    ensures SpecOps(phase, spec[..n], cl, namespace) <= SpecOps(phase, spec, cl, namespace)
    decreases |spec|
  {
    if n == |spec| {
      assert spec[..n] == spec;
    } else {
      SpecPrefix(phase, spec[..|spec| - 1], n, cl, namespace);
      assert spec[..|spec| - 1][..n] == spec[..n];
    }
  }

  /** Listing by label and namespace first loses no operation. */
  lemma {:induction false} ListedOps(phase: Phase, c: Collector, pods: seq<Pod>, namespace: string, host: string)
    requires c.enable
    ensures CollectorOps(phase, c, Listed(pods, c.matchLabels, namespace), namespace, host) ==
            CollectorOps(phase, c, pods, namespace, host)
  {
    if pods != [] {
      var init, pod := pods[..|pods| - 1], pods[|pods| - 1];
      ListedOps(phase, c, init, namespace, host);
      var listed := Listed(init, c.matchLabels, namespace);
      assert (listed + [pod])[..|listed|] == listed;
    }
  }

  lemma {:induction false} DisabledOps(phase: Phase, c: Collector, pods: seq<Pod>, namespace: string, host: string)
    requires !c.enable
    ensures CollectorOps(phase, c, pods, namespace, host) == []
  {
    if pods != [] {
      DisabledOps(phase, c, pods[..|pods| - 1], namespace, host);
    }
  }

  /** The operations done before pod j of collector i are a beginning of all of them. */
  lemma {:induction false} DonePrefix(phase: Phase, spec: Spec, i: nat, listed: seq<Pod>, j: nat, cl: Cluster,
                                      namespace: string)
    requires i < |spec| && j <= |listed| && spec[i].enable
    requires listed == Listed(cl.pods, spec[i].matchLabels, namespace)
    ensures SpecOps(phase, spec[..i], cl, namespace) +
            CollectorOps(phase, spec[i], listed[..j], namespace, cl.host) <= SpecOps(phase, spec, cl, namespace)
  {
    hide CollectorOps, Listed;
    SpecPrefix(phase, spec, i + 1, cl, namespace);
    assert spec[..i + 1][..i] == spec[..i];
    ListedOps(phase, spec[i], cl.pods, namespace, cl.host);
    CollectorPrefix(phase, spec[i], listed, j, namespace, cl.host);
    PrefixOfConcat(SpecOps(phase, spec[..i], cl, namespace),
                   CollectorOps(phase, spec[i], listed[..j], namespace, cl.host),
                   CollectorOps(phase, spec[i], listed, namespace, cl.host));
  }

  lemma {:induction false} PrefixOfConcat(a: seq<Op>, b: seq<Op>, c: seq<Op>)
    requires b <= c
    ensures a + b <= a + c
  {
    assert c == b + c[|b|..];
    assert a + c == (a + b) + c[|b|..];
  }

  /** Stopping before the next operation, or in the middle of writing it. */
  lemma {:induction false} CutAfter(ops: seq<Op>, done: seq<Op>)
    requires done <= ops
    ensures CutOps(ops, Broken(|done|, false)) == done
  {
  }

  lemma {:induction false} CutDuring(ops: seq<Op>, done: seq<Op>, uid: string, content: Content)
    requires done + [Put(uid, content)] <= ops
    ensures CutOps(ops, Broken(|done|, true)) == done + [Put(uid, Torn)]
  {
    assert ops[|done|] == Put(uid, content);
    assert ops[..|done|] == done;
  }

  /** An interruption of the later part of a plan. */
  lemma {:induction false} CutLater(first: seq<Op>, later: seq<Op>, n: nat, torn: bool)
    ensures CutOps(first + later, Broken(|first| + n, torn)) == first + CutOps(later, Broken(n, torn))
  {
    if n < |later| {
      assert (first + later)[..|first| + n] == first + later[..n];
      assert (first + later)[|first| + n] == later[n];
    }
  }

  function Shift(n: nat, cut: Cut): Cut {
    if cut.Done? then Done else Broken(n + cut.after, cut.torn)
  }

  lemma {:induction false} CutsJoined(files: Files, key: Key, first: seq<Op>, later: seq<Op>, cut: Cut)
    ensures ApplyAll(ApplyAll(files, key, first), key, CutOps(later, cut)) ==
            ApplyAll(files, key, CutOps(first + later, Shift(|first|, cut)))
  {
    hide Apply, ApplyAll;
    CutDone(later);
    CutDone(first + later);
    ApplyAppend(files, key, first, CutOps(later, cut));
    hide CutOps;
    if cut.Broken? {
      CutLater(first, later, cut.after, cut.torn);
    }
  }

  lemma {:induction false} CutEarlier(first: seq<Op>, later: seq<Op>, n: nat)
    requires n <= |first|
    ensures CutOps(first + later, Broken(n, false)) == CutOps(first, Broken(n, false))
  {
    assert (first + later)[..n] == first[..n];
    assert first[..|first|] == first;
    assert n >= |first + later| ==> later == [] && first + later == first;
  }

  // ---- A pass without failures, on what the server holds ----

  datatype World = World(rules: map<Key, Rule>, state: State)

  /** The changes of an undisturbed pass, and how many updates it sends to the server. */
  function Pass(w: World, key: Key, supply: Supply, cl: Cluster): (r: (World, nat)) {
    if key !in w.rules || w.rules[key].key != key then (w, 0)
    else
      var rule := w.rules[key];
      if !rule.deleting then
        if !rule.finalizer then (w.(rules := Accept(w.rules, rule.(finalizer := true))), 1)
        else
          var a := Sync(key, rule.spec, Fill(rule.spec, supply), Done);
          if Skips(w.state, a) then (w, 0)
          else
            var filled := rule.(spec := a.filled);
            (World(if filled == rule then w.rules else Accept(w.rules, filled), Do(w.state, a, cl)),
             if filled == rule then 0 else 1)
      else
        var state := if rule.finalizer then Do(w.state, Drop(key, rule.spec, Done), cl) else w.state;
        (World(Accept(w.rules, rule.(finalizer := false)), state), 1)
  }

  /** Undisturbed passes one after the other, and how many updates they send in all. */
  function Passes(w: World, key: Key, supplies: seq<Supply>, cl: Cluster): (r: (World, nat)) {
    if supplies == [] then (w, 0)
    else
      var before := Passes(w, key, supplies[..|supplies| - 1], cl);
      var last := Pass(before.0, key, supplies[|supplies| - 1], cl);
      (last.0, before.1 + last.1)
  }

  predicate Live(w: World, key: Key) {
    key in w.rules && w.rules[key].key == key && !w.rules[key].deleting
  }

  /**
   For a live rule, two passes reach a fixed point: one for the finalizer, one for the UIDs, the
   files and the cache.  However many follow, no more than two updates are sent, each of which is a
   version of the rule, and the server, the files and the cache stay as they are.
   */
  lemma {:induction false} NoSelfTriggering(w: World, key: Key, supplies: seq<Supply>, cl: Cluster)
    requires Live(w, key)
    ensures Passes(w, key, supplies, cl).1 <= 2
    ensures Live(Passes(w, key, supplies, cl).0, key)
    ensures Passes(w, key, supplies, cl).0.rules[key].version == w.rules[key].version + Passes(w, key, supplies, cl).1
    ensures |supplies| >= 2 ==>
              && Passes(w, key, supplies, cl) == Passes(w, key, supplies[..2], cl)
              && Settled(Passes(w, key, supplies, cl).0, key)
  {
    hide Pass;
    var n := |supplies|;
    PassesCounted(w, key, supplies, cl);
    if n > 2 {
      NoSelfTriggering(w, key, supplies[..n - 1], cl);
      SettledPass(Passes(w, key, supplies[..n - 1], cl).0, key, supplies[n - 1], cl);
      assert supplies[..n - 1][..2] == supplies[..2];
    } else if n > 0 {
      FirstPasses(w, key, supplies, cl);
      assert n == 2 ==> supplies[..2] == supplies;
    }
  }

  /** A pass over a live rule makes as many versions of it as it sends updates. */
  lemma {:induction false} PassCounted(w: World, key: Key, supply: Supply, cl: Cluster)
    requires Live(w, key)
    ensures var (after, n) := Pass(w, key, supply, cl);
            Live(after, key) && after.rules[key].version == w.rules[key].version + n
  {
    hide Fill, Do;
  }

  lemma {:induction false} PassesCounted(w: World, key: Key, supplies: seq<Supply>, cl: Cluster)
    requires Live(w, key)
    ensures var (after, n) := Passes(w, key, supplies, cl);
            Live(after, key) && after.rules[key].version == w.rules[key].version + n
  {
    hide Pass;
    if supplies != [] {
      var init := supplies[..|supplies| - 1];
      PassesCounted(w, key, init, cl);
      PassCounted(Passes(w, key, init, cl).0, key, supplies[|supplies| - 1], cl);
    }
  }

  lemma {:induction false} FirstPasses(w: World, key: Key, supplies: seq<Supply>, cl: Cluster)
    requires Live(w, key) && 0 < |supplies| <= 2
    ensures Live(Passes(w, key, supplies, cl).0, key) && Passes(w, key, supplies, cl).1 <= |supplies|
    ensures |supplies| == 2 || w.rules[key].finalizer ==> Settled(Passes(w, key, supplies, cl).0, key)
    ensures Passes(w, key, supplies, cl).0.rules[key].finalizer
  {
    hide Fill, Do, NeedsUid;
    var init, last := supplies[..|supplies| - 1], supplies[|supplies| - 1];
    if init != [] {
      FirstPasses(w, key, init, cl);
    }
    var before := Passes(w, key, init, cl).0;
    assert init == [] ==> before == w;
    if before.rules[key].finalizer {
      SyncSettles(before, key, last, cl);
    }
  }

  /** The cache holds what the server holds. */
  ghost predicate Settled(w: World, key: Key) {
    && key in w.rules && w.rules[key].key == key && !w.rules[key].deleting && w.rules[key].finalizer
    && key in w.state.cache && w.state.cache[key] == w.rules[key].spec
  }

  lemma {:induction false} SettledPass(w: World, key: Key, supply: Supply, cl: Cluster)
    requires Settled(w, key)
    ensures Pass(w, key, supply, cl) == (w, 0)
  {
  }

  lemma {:induction false} SyncSettles(w: World, key: Key, supply: Supply, cl: Cluster)
    requires key in w.rules && w.rules[key].key == key && !w.rules[key].deleting && w.rules[key].finalizer
    ensures Settled(Pass(w, key, supply, cl).0, key)
  {
    hide Fill, ApplyAll, Plan, CutOps;
  }

  /**
   An undisturbed pass over a deleted rule: with the finalizer it takes the rule out of the cache and leaves no file
   for any pod that a collector of its specification is meant for; then the rule is gone from the server, or stays
   without the finalizer as long as other parties hold it.
   */
  lemma {:induction false} DeletedRuleGoes(w: World, key: Key, supply: Supply, cl: Cluster, p: int, i: int)
    requires ValidKey(key) && ValidPods(cl.pods)
    requires key in w.rules && w.rules[key].key == key && w.rules[key].deleting
    requires 0 <= p < |cl.pods| && 0 <= i < |w.rules[key].spec|
    requires MeantFor(w.rules[key].spec[i], cl.pods[p], key.namespace, cl.host)
    ensures var rule, after := w.rules[key], Pass(w, key, supply, cl).0;
            && (rule.finalizer ==>
                  && key !in after.state.cache
                  && FileId(key.namespace, cl.pods[p].uid + "-by-" + key.name + ".yml") !in after.state.files)
            && (!rule.finalizer ==> after.state == w.state)
            && (key in after.rules <==> rule.others)
            && (rule.others ==> after.rules[key] == rule.(finalizer := false, version := rule.version + 1))
  {
    hide SpecOps, Fill, MeantFor, PodUid, ValidKey, LastTaker;
    var spec, uid := w.rules[key].spec, cl.pods[p].uid;
    TakerExactly(spec, cl.pods[p], key.namespace, cl.host);
    PodWithMember(cl.pods, p);
    SpecAt(w.state.files, key, Deleting, spec, cl, uid);
  }

  /** A pass over a live rule without the finalizer sets it and does nothing else. */
  lemma {:induction false} FinalizerFirst(w: World, key: Key, supply: Supply, cl: Cluster)
    requires Live(w, key) && !w.rules[key].finalizer
    ensures var rule, after := w.rules[key], Pass(w, key, supply, cl).0;
            && after.state == w.state
            && after.rules == w.rules[key := rule.(finalizer := true, version := rule.version + 1)]
  {
    hide Fill;
  }

  /**
   A pass over a live, finalized rule: each pod that a collector is meant for has the file of the last such collector,
   with all UIDs set, and the server has the same specification; a specification equal to the cached one is skipped.
   */
  lemma {:induction false} LiveRuleSynced(w: World, key: Key, supply: Supply, cl: Cluster, p: int, i: int)
    requires ValidKey(key) && ValidPods(cl.pods)
    requires Live(w, key) && w.rules[key].finalizer
    requires key in w.state.cache ==> w.state.cache[key] != w.rules[key].spec
    requires 0 <= p < |cl.pods| && LastMeant(Fill(w.rules[key].spec, supply), i, cl.pods[p], key.namespace, cl.host)
    ensures var filled, after := Fill(w.rules[key].spec, supply), Pass(w, key, supply, cl).0;
            var f := FileId(key.namespace, cl.pods[p].uid + "-by-" + key.name + ".yml");
            && after.rules[key].spec == filled && key in after.state.cache && after.state.cache[key] == filled
            && f in after.state.files && after.state.files[f] == PodConfig(filled[i].containerRule, View(cl.pods[p]))
  {
    hide SpecOps, Fill, MeantFor, PodUid, ValidKey, LastTaker, Plan, PlanReach, ApplyAll, View;
    var spec, uid := Fill(w.rules[key].spec, supply), cl.pods[p].uid;
    var a := Sync(key, w.rules[key].spec, spec, Done);
    TakerExactly(spec, cl.pods[p], key.namespace, cl.host);
    PodWithMember(cl.pods, p);
    PlanAt(w.state, a, cl, uid);
    CutDone(Plan(w.state, a, cl));
  }

  // ---- The reconciler ----

  class Reconciler {
    var cache: map<Key, Spec>
    const hostName: string
    const server: ApiServer
    const store: ConfigStore

    constructor (hostName: string, server: ApiServer, store: ConfigStore)
      ensures this.hostName == hostName && this.server == server && this.store == store && cache == map[]
    {
      this.hostName, this.server, this.store, cache := hostName, server, store, map[];
    }

    ghost function Abs(): State
      reads this, store
    {
      State(cache, store.files)
    }

    ghost function Nodes(): Cluster
      reads server`pods
    {
      Cluster(server.pods, hostName)
    }

    method DeletePodConfig(key: Key, pod: Pod) returns (err: bool)
      requires key.name != "" && pod.namespace == key.namespace
      modifies store
      ensures store.files == if err then old(store.files) else Apply(old(store.files), key, Remove(pod.uid))
    {
      err := *;
      if !err {
        store.DeleteConfig(pod.namespace, pod.uid, key.name);
      }
    }

    /** newInput as a whole: it fails before the file is touched, in the middle of writing it, or not. */
    method NewInput(rules: seq<ContainerRule>, pod: Pod, key: Key) returns (err: bool, ghost torn: bool)
      requires pod.namespace == key.namespace
      modifies store
      ensures store.files ==
              if !err then Apply(old(store.files), key, Put(pod.uid, PodConfig(rules, View(pod))))
              else if torn then Apply(old(store.files), key, Put(pod.uid, Torn))
              else old(store.files)
    {
      err, torn := *, false;
      if err {
        var began: bool := *;
        if began {
          store.Write(PodFile(key.namespace, pod.uid, key.name), Torn);
          torn := true;
        }
        return;
      }
      store.Write(PodFile(key.namespace, pod.uid, key.name), PodConfig(rules, View(pod)));
    }

    method DeleteEvent(key: Key, spec: Spec) returns (err: bool, ghost cut: Cut)
      requires key.name != ""
      modifies store
      ensures err <==> cut != Done
      ensures cut.Broken? ==> !cut.torn && cut.after <= |SpecOps(Deleting, spec, Nodes(), key.namespace)|
      ensures store.files ==
              ApplyAll(old(store.files), key, CutOps(SpecOps(Deleting, spec, Nodes(), key.namespace), cut))
    {
      hide SpecOps, CollectorOps, Apply;
      ghost var all := SpecOps(Deleting, spec, Nodes(), key.namespace);
      ghost var done: seq<Op> := [];
      NoOps(Deleting, spec, Nodes(), key.namespace);
      for i := 0 to |spec|
        invariant done == SpecOps(Deleting, spec[..i], Nodes(), key.namespace)
        invariant store.files == ApplyAll(old(store.files), key, done)
      {
        var c := spec[i];
        SpecStep(Deleting, spec, i, Nodes(), key.namespace);
        SpecPrefix(Deleting, spec, i, Nodes(), key.namespace);
        if !c.enable {
          DisabledOps(Deleting, c, server.pods, key.namespace, hostName);
          continue;
        }
        var pods := server.List(c.matchLabels, key.namespace);
        if pods.None? {
          CutAfter(all, done);
          return true, Broken(|done|, false);
        }
        ghost var before := done;
        CollectorNone(Deleting, c, pods.value, key.namespace, hostName);
        for j := 0 to |pods.value|
          invariant done == before + CollectorOps(Deleting, c, pods.value[..j], key.namespace, hostName)
          invariant store.files == ApplyAll(old(store.files), key, done)
        {
          var pod := pods.value[j];
          ListedFacts(server.pods, c.matchLabels, key.namespace, j);
          CollectorStep(Deleting, c, pods.value, j, key.namespace, hostName);
          if pod.nodeName != hostName {
            continue;
          }
          DonePrefix(Deleting, spec, i, pods.value, j, Nodes(), key.namespace);
          var failed := DeletePodConfig(key, pod);
          if failed {
            CutAfter(all, done);
            return true, Broken(|done|, false);
          }
          ApplySnoc(old(store.files), key, done, Remove(pod.uid));
          done := done + [Remove(pod.uid)];
        }
        assert pods.value[..|pods.value|] == pods.value;
        ListedOps(Deleting, c, server.pods, key.namespace, hostName);
      }
      assert spec[..|spec|] == spec;
      return false, Done;
    }

    /** The loops of createEvent; configurations are only written once every UID is on the server. */
    method WriteConfigs(key: Key, spec: Spec) returns (err: bool, ghost cut: Cut)
      modifies store
      ensures err <==> cut != Done
      ensures store.files ==
              ApplyAll(old(store.files), key, CutOps(SpecOps(Creating, spec, Nodes(), key.namespace), cut))
    {
      hide SpecOps, CollectorOps, Apply;
      ghost var all := SpecOps(Creating, spec, Nodes(), key.namespace);
      ghost var done: seq<Op> := [];
      NoOps(Creating, spec, Nodes(), key.namespace);
      for i := 0 to |spec|
        invariant done == SpecOps(Creating, spec[..i], Nodes(), key.namespace)
        invariant store.files == ApplyAll(old(store.files), key, done)
      {
        var c := spec[i];
        SpecStep(Creating, spec, i, Nodes(), key.namespace);
        SpecPrefix(Creating, spec, i, Nodes(), key.namespace);
        if !c.enable {
          DisabledOps(Creating, c, server.pods, key.namespace, hostName);
          continue;
        }
        var pods := server.List(c.matchLabels, key.namespace);
        if pods.None? {
          CutAfter(all, done);
          return true, Broken(|done|, false);
        }
        ghost var before := done;
        CollectorNone(Creating, c, pods.value, key.namespace, hostName);
        for j := 0 to |pods.value|
          invariant done == before + CollectorOps(Creating, c, pods.value[..j], key.namespace, hostName)
          invariant store.files == ApplyAll(old(store.files), key, done)
        {
          var pod := pods.value[j];
          ListedFacts(server.pods, c.matchLabels, key.namespace, j);
          CollectorStep(Creating, c, pods.value, j, key.namespace, hostName);
          if pod.nodeName != hostName {
            continue;
          }
          ghost var op := Put(pod.uid, PodConfig(c.containerRule, View(pod)));
          DonePrefix(Creating, spec, i, pods.value, j, Nodes(), key.namespace);
          DonePrefix(Creating, spec, i, pods.value, j + 1, Nodes(), key.namespace);
          assert done + [op] <= all;
          var failed;
          ghost var torn;
          failed, torn := NewInput(c.containerRule, pod, key);
          if failed {
            CutAfter(all, done);
            CutDuring(all, done, pod.uid, op.content);
            ApplySnoc(old(store.files), key, done, Put(pod.uid, Torn));
            return true, Broken(|done|, torn);
          }
          ApplySnoc(old(store.files), key, done, op);
          done := done + [op];
        }
        assert pods.value[..|pods.value|] == pods.value;
        ListedOps(Creating, c, server.pods, key.namespace, hostName);
      }
      assert spec[..|spec|] == spec;
      return false, Done;
    }

    method CreateEvent(rule: Rule, supply: Supply) returns (err: bool, filled: Spec, ghost cut: Cut)
      requires GoodSupply(supply)
      modifies store, server`rules
      ensures filled == Fill(rule.spec, supply) && (err <==> cut != Done)
      ensures store.files ==
              ApplyAll(old(store.files), rule.key, CutOps(SpecOps(Creating, filled, Nodes(), rule.key.namespace), cut))
      ensures !err ==> server.rules ==
                         if filled == rule.spec then old(server.rules)
                         else Accept(old(server.rules), rule.(spec := filled))
      ensures cut == Broken(0, false) || Committed(rule, filled, old(server.rules))
    {
      var needUpdate;
      filled, needUpdate := MustSetUID(rule.spec, supply);
      UpdateNeeded(rule.spec, supply);
      if needUpdate {
        var stored := server.Update(rule.(spec := filled));
        if !stored.Stored? {
          return true, filled, Broken(0, false);
        }
      }
      err, cut := WriteConfigs(rule.key, filled);
    }

    method UpdateEvent(rule: Rule, cached: Spec, supply: Supply) returns (err: bool, filled: Spec, ghost cut: Cut)
      requires GoodSupply(supply) && rule.key.name != ""
      modifies store, server`rules
      ensures err <==> cut != Done
      ensures rule.spec == cached ==>
                !err && filled == cached && store.files == old(store.files) && server.rules == old(server.rules)
      ensures rule.spec != cached ==>
                && filled == Fill(rule.spec, supply)
                && store.files ==
                   ApplyAll(old(store.files), rule.key,
                            CutOps(SpecOps(Deleting, cached, Nodes(), rule.key.namespace) +
                                   SpecOps(Creating, filled, Nodes(), rule.key.namespace), cut))
                && (!err ==> server.rules ==
                             if filled == rule.spec then old(server.rules)
                             else Accept(old(server.rules), rule.(spec := filled)))
    {
      if rule.spec == cached {
        return false, cached, Done;
      }
      ghost var first := SpecOps(Deleting, cached, Nodes(), rule.key.namespace);
      ghost var later := SpecOps(Creating, Fill(rule.spec, supply), Nodes(), rule.key.namespace);
      ghost var start := store.files;
      hide Fill, Apply, ApplyAll, CutOps, SpecOps, NeedsUid, Accept;
      err, cut := DeleteEvent(rule.key, cached);
      filled := Fill(rule.spec, supply);
      if err {
        CutEarlier(first, later, cut.after);
        return;
      }
      CutDone(first);
      ghost var rest;
      err, filled, rest := CreateEvent(rule, supply);
      CutsJoined(start, rule.key, first, later, rest);
      cut := Shift(|first|, rest);
    }

    /**
     One pass.  The ghost results name the rule it read and the step of the machine it took; a pass
     that finishes on what the server holds is Pass.
     */
    method Reconcile(key: Key, supply: Supply)
      returns (outcome: Outcome, ghost seen: Option<Rule>, ghost step: Option<Action>)
      requires GoodSupply(supply) && key.name != ""
      modifies this`cache, store, server`rules
      ensures seen.Some? ==> seen.value.key == key
      ensures step.None? ==> Abs() == old(Abs())
      ensures step.Some? ==> Abs() == Do(old(Abs()), step.value, Nodes())
      ensures step.Some? ==> seen.Some? && FromRule(step.value, seen.value, supply)
      ensures outcome == Fine && seen == Current(old(server.rules), key) ==>
                World(server.rules, Abs()) == Pass(World(old(server.rules), old(Abs())), key, supply, Nodes()).0
    {
      seen, step := None, None;
      var found := server.Get(key);
      seen := found;
      if found.None? {
        return Fine, seen, step;
      }
      var rule := found.value;
      if !rule.deleting {
        if !rule.finalizer {
          var stored := server.Update(rule.(finalizer := true));
          outcome := if stored.Stored? then Fine else if stored.Conflict? then RequeueLater else Failed;
        } else {
          outcome, step := ReconcileLive(rule, supply);
        }
      } else {
        outcome, step := ReconcileDeleted(rule);
      }
    }

    method ReconcileLive(rule: Rule, supply: Supply) returns (outcome: Outcome, ghost step: Option<Action>)
      requires GoodSupply(supply) && rule.key.name != "" && !rule.deleting && rule.finalizer
      modifies this`cache, store, server`rules
      ensures step.Some? && step.value.Sync? && FromRule(step.value, rule, supply)
      ensures Abs() == Do(old(Abs()), step.value, Nodes())
      ensures outcome == Fine <==> step.value.cut == Done
      ensures outcome == Fine ==>
                server.rules ==
                if rule.key in old(cache) && old(cache)[rule.key] == rule.spec then old(server.rules)
                else if step.value.filled == rule.spec then old(server.rules)
                else Accept(old(server.rules), rule.(spec := step.value.filled))
    {
      hide Fill, ApplyAll, CutOps, SpecOps;
      var err, filled;
      ghost var cut;
      if rule.key !in cache {
        err, filled, cut := CreateEvent(rule, supply);
        assert [] + SpecOps(Creating, filled, Nodes(), rule.key.namespace) ==
               SpecOps(Creating, filled, Nodes(), rule.key.namespace);
      } else {
        err, filled, cut := UpdateEvent(rule, cache[rule.key], supply);
      }
      step := Some(Sync(rule.key, rule.spec, Fill(rule.spec, supply), cut));
      if err {
        return Failed, step;
      }
      cache := cache[rule.key := filled];
      return Fine, step;
    }

    method ReconcileDeleted(rule: Rule) returns (outcome: Outcome, ghost step: Option<Action>)
      requires rule.key.name != "" && rule.deleting
      modifies this`cache, store, server`rules
      ensures step.None? ==> Abs() == old(Abs())
      ensures step.Some? ==> step.value.Drop? && step.value.key == rule.key && step.value.seen == rule.spec
      ensures step.Some? ==> Abs() == Do(old(Abs()), step.value, Nodes())
      ensures step.Some? <==> rule.finalizer
      ensures outcome == Fine ==>
                && (step.Some? ==> step.value.cut == Done)
                && server.rules == Accept(old(server.rules), rule.(finalizer := false))
    {
      hide ApplyAll, CutOps, SpecOps;
      step := None;
      if rule.finalizer {
        var err;
        ghost var cut;
        err, cut := DeleteEvent(rule.key, rule.spec);
        step := Some(Drop(rule.key, rule.spec, cut));
        if err {
          return Failed, step;
        }
        cache := cache - {rule.key};
      }
      var stored := server.Update(rule.(finalizer := false));
      return if stored.Stored? then Fine else Failed, step;
    }
  }

  function Current(rules: map<Key, Rule>, key: Key): Option<Rule> {
    if key in rules then Some(rules[key]) else None
  }

  /** The step of a pass is about the rule it read. */
  ghost predicate FromRule(a: Action, rule: Rule, supply: Supply) {
    a.key == rule.key && a.seen == rule.spec && (a.Sync? ==> a.filled == Fill(rule.spec, supply))
  }

  /** The specification is complete as read, or was accepted by the server in place of what was read. */
  ghost predicate Committed(rule: Rule, filled: Spec, before: map<Key, Rule>) {
    !NeedsUid(filled) &&
    (filled == rule.spec || (rule.key in before && before[rule.key].version == rule.version))
  }

  lemma {:induction false} UpdateNeeded(spec: Spec, supply: Supply)
    requires GoodSupply(supply)
    ensures NeedsUid(spec) <==> Fill(spec, supply) != spec
    ensures !NeedsUid(Fill(spec, supply))
  {
    FillLeavesNone(spec, supply);
    if !NeedsUid(spec) {
      FillOfFilled(spec, supply);
    }
  }

  lemma {:induction false} CutDone(ops: seq<Op>)
    ensures CutOps(ops, Done) == ops
  {
  }

  lemma {:induction false} NoOps(phase: Phase, spec: Spec, cl: Cluster, namespace: string)
    ensures SpecOps(phase, spec[..0], cl, namespace) == []
  {
  }

  lemma {:induction false} SpecStep(phase: Phase, spec: Spec, i: nat, cl: Cluster, namespace: string)
    requires i < |spec|
    ensures SpecOps(phase, spec[..i + 1], cl, namespace) ==
            SpecOps(phase, spec[..i], cl, namespace) + CollectorOps(phase, spec[i], cl.pods, namespace, cl.host)
  {
    assert spec[..i + 1][..i] == spec[..i];
  }

  lemma {:induction false} CollectorNone(phase: Phase, c: Collector, pods: seq<Pod>, namespace: string, host: string)
    ensures CollectorOps(phase, c, pods[..0], namespace, host) == []
  {
  }

  lemma {:induction false} CollectorStep(phase: Phase, c: Collector, pods: seq<Pod>, j: nat, namespace: string,
                                         host: string)
    requires j < |pods|
    ensures CollectorOps(phase, c, pods[..j + 1], namespace, host) ==
            CollectorOps(phase, c, pods[..j], namespace, host) +
            if Takes(c, pods[j], namespace, host) then [OpFor(phase, c, pods[j])] else []
  {
    assert pods[..j + 1][..j] == pods[..j];
  }

  lemma {:induction false} ListedFacts(pods: seq<Pod>, matchLabels: map<string, string>, namespace: string, j: nat)
    requires j < |Listed(pods, matchLabels, namespace)|
    ensures var pod := Listed(pods, matchLabels, namespace)[j];
            pod.namespace == namespace && Selects(matchLabels, pod.labels)
  {
    if pods != [] {
      var init := pods[..|pods| - 1];
      if j < |Listed(init, matchLabels, namespace)| {
        ListedFacts(init, matchLabels, namespace, j);
      }
    }
  }
}
