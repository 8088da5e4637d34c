/**
 The host rule reconciler: the sibling protocol without a cache.  Every pass writes the file of a
 matching rule again and deletes the file of one that does not match.
 */
module HostRule {
  import opened Wrappers
  import Strings
  import opened Rules
  import opened ConfigFiles

  type HostSpec = seq<seq<Rules.HostRule>>

  /** One list of rules for each collector, and the labels a node must have. */
  datatype HostObject = HostObject(
    name: string, collectors: HostSpec, nodeSelector: map<string, string>,
    deleting: bool, finalizer: bool, others: bool, version: nat)

  datatype NodeInfo = NodeInfo(name: string, labels: map<string, string>)

  type Supply = (nat, nat) -> string

  // ---- UIDs ----

  function FillRules(rules: seq<Rules.HostRule>, supply: Supply, i: nat): (r: seq<Rules.HostRule>)
    ensures |r| == |rules|
  {
    seq(|rules|, j requires 0 <= j < |rules| =>
      if rules[j].uid != "" then rules[j] else rules[j].(uid := supply(i, j)))
  }

  function Fill(spec: HostSpec, supply: Supply): (r: HostSpec)
    ensures |r| == |spec|
  {
    seq(|spec|, i requires 0 <= i < |spec| => FillRules(spec[i], supply, i))
  }

  ghost predicate RulesNeedUid(rules: seq<Rules.HostRule>) {
    exists j :: 0 <= j < |rules| && rules[j].uid == ""
  }

  ghost predicate NeedsUid(spec: HostSpec) {
    exists i :: 0 <= i < |spec| && RulesNeedUid(spec[i])
  }

  ghost predicate GoodSupply(supply: Supply) {
    forall i: nat, j: nat :: supply(i, j) != ""
  }

  method SetInRules(rules: seq<Rules.HostRule>, supply: Supply, i: nat)
    returns (filled: seq<Rules.HostRule>, needUpdate: bool)
    ensures filled == FillRules(rules, supply, i)
    ensures needUpdate <==> RulesNeedUid(rules)
  {
    filled, needUpdate := rules, false;
    for j := 0 to |rules|
      invariant |filled| == |rules|
      invariant forall m :: 0 <= m < j ==> filled[m] == FillRules(rules, supply, i)[m]
      invariant forall m :: j <= m < |rules| ==> filled[m] == rules[m]
      invariant needUpdate <==> exists m :: 0 <= m < j && rules[m].uid == ""
    {
      if rules[j].uid != "" {
        continue;
      }
      filled := filled[j := filled[j].(uid := supply(i, j))];
      needUpdate := true;
    }
  }

  method MustSetUID(spec: HostSpec, supply: Supply) returns (filled: HostSpec, needUpdate: bool)
    ensures filled == Fill(spec, supply)
    ensures needUpdate <==> NeedsUid(spec)
  {
    hide FillRules, RulesNeedUid;
    filled, needUpdate := spec, false;
    for i := 0 to |spec|
      invariant |filled| == |spec|
      invariant forall m :: 0 <= m < i ==> filled[m] == Fill(spec, supply)[m]
      invariant forall m :: i <= m < |spec| ==> filled[m] == spec[m]
      invariant needUpdate <==> exists m :: 0 <= m < i && RulesNeedUid(spec[m])
    {
      var rules, changed := SetInRules(spec[i], supply, i);
      filled := filled[i := rules];
      needUpdate := needUpdate || changed;
    }
  }

  lemma {:induction false} FillSettles(spec: HostSpec, supply: Supply, again: Supply)
    requires GoodSupply(supply)
    ensures !NeedsUid(Fill(spec, supply))
    ensures Fill(Fill(spec, supply), again) == Fill(spec, supply)
    ensures NeedsUid(spec) <==> Fill(spec, supply) != spec
  {
    var filled := Fill(spec, supply);
    forall i | 0 <= i < |spec|
      ensures !RulesNeedUid(filled[i]) && FillRules(filled[i], again, i) == filled[i]
      ensures RulesNeedUid(spec[i]) <==> filled[i] != spec[i]
    {
      if !RulesNeedUid(spec[i]) {
        assert filled[i] == spec[i];
      } else {
        var j :| 0 <= j < |spec[i]| && spec[i][j].uid == "";
        assert filled[i][j].uid != "";
      }
    }
    if NeedsUid(spec) {
      var i :| 0 <= i < |spec| && RulesNeedUid(spec[i]);
      assert filled[i] != spec[i];
    } else {
      assert filled == spec;
    }
  }

  /** Filling draws the empty UIDs, and touches nothing else. */
  lemma {:induction false} FillExactly(spec: HostSpec, supply: Supply, i: int, j: int)
    requires 0 <= i < |spec| && 0 <= j < |spec[i]|
    ensures var filled := Fill(spec, supply);
            && |filled| == |spec| && |filled[i]| == |spec[i]|
            && filled[i][j].uid == (if spec[i][j].uid != "" then spec[i][j].uid else supply(i, j))
            && filled[i][j] == spec[i][j].(uid := filled[i][j].uid)
  {
    assert Fill(spec, supply)[i] == FillRules(spec[i], supply, i);
  }

  // ---- A pass without failures ----

  predicate NodeMatches(nodes: seq<NodeInfo>, selector: map<string, string>, host: string) {
    exists n | n in nodes :: n.name == host && Selects(selector, n.labels)
  }

  /** Every collector overwrites the one file of the rule. */
  function WriteCollectors(files: Files, spec: HostSpec, node: string, name: string): Files {
    if spec == [] then files
    else
      WriteCollectors(files, spec[..|spec| - 1], node, name)[HostFile(node, name) := HostConfig(spec[|spec| - 1], node)]
  }

  function Synced(files: Files, filled: HostSpec, node: string, name: string, matches: bool): Files {
    if matches then WriteCollectors(files, filled, node, name) else Kept(files, node, ConfigName(node, name))
  }

  datatype World = World(rules: map<string, HostObject>, files: Files)

  function Accept(rules: map<string, HostObject>, rule: HostObject): map<string, HostObject> {
    if rule.deleting && !rule.finalizer && !rule.others then rules - {rule.name}
    else rules[rule.name := rule.(version := rule.version + 1)]
  }

  /** What a pass takes for a match: a failed listing of nodes is none. */
  predicate SeesMatch(nodes: seq<NodeInfo>, selector: map<string, string>, host: string, listed: bool) {
    listed && NodeMatches(nodes, selector, host)
  }

  /** A pass on what the server holds, with or without a listing of the nodes, and otherwise undisturbed. */
  function Pass(w: World, name: string, supply: Supply, nodes: seq<NodeInfo>, host: string, listed: bool): World {
    if name !in w.rules || w.rules[name].name != name then w
    else
      var rule := w.rules[name];
      if !rule.deleting then
        if !rule.finalizer then w.(rules := Accept(w.rules, rule.(finalizer := true)))
        else
          var matches := SeesMatch(nodes, rule.nodeSelector, host, listed);
          var filled := if matches then rule.(collectors := Fill(rule.collectors, supply)) else rule;
          World(if filled == rule then w.rules else Accept(w.rules, filled),
                Synced(w.files, filled.collectors, host, name, matches))
      else
        World(Accept(w.rules, rule.(finalizer := false)),
              if rule.finalizer then Kept(w.files, host, ConfigName(host, name)) else w.files)
  }

  lemma {:induction false} WriteCollectorsAt(files: Files, spec: HostSpec, node: string, name: string)
    ensures WriteCollectors(files, spec, node, name) ==
            if spec == [] then files
            else files[HostFile(node, name) := HostConfig(spec[|spec| - 1], node)]
  {
    if spec != [] {
      WriteCollectorsAt(files, spec[..|spec| - 1], node, name);
    }
  }

  lemma {:induction false} HostFileInjective(node: string, a: string, b: string)
    requires HostFile(node, a) == HostFile(node, b)
    ensures a == b
  {
    var s, t, n := ConfigName(node, a), ConfigName(node, b), |node| + 4;
    assert s[n..|s| - 4] == a && t[n..|t| - 4] == b;
  }

  /** A live, finalized rule: what a pass leaves of its own file and of the other rules' files. */
  lemma {:induction false} SyncedAt(files: Files, filled: HostSpec, node: string, name: string, matches: bool,
                                    other: string)
    requires SafeHostRule(name) && SafeHostRule(other)
    ensures var f, g := HostFile(node, name), HostFile(node, other);
            var after := Synced(files, filled, node, name, matches);
            && (matches && filled != [] ==> f in after && after[f] == HostConfig(filled[|filled| - 1], node))
            && (!matches ==> f !in after)
            && (other != name ==> (g in after <==> g in files) && (g in files ==> after[g] == files[g]))
  {
    WriteCollectorsAt(files, filled, node, name);
    HostDeletionIsExact(node, name, other);
    HostDeletionIsExact(node, name, name);
    if HostFile(node, name) == HostFile(node, other) {
      HostFileInjective(node, name, other);
    }
  }

  /**
   One pass over a live, finalized rule should leave its file present with the last collector's rules
   if this node matches, and absent otherwise.  It does so exactly when the node does not match; or the
   nodes were listed, and there is a collector or no old file; or they were not, and there is no collector.
   */
  lemma {:induction false} HostConverges(w: World, name: string, supply: Supply, nodes: seq<NodeInfo>, host: string,
                                         listed: bool)
    requires SafeHostRule(name) && name in w.rules && w.rules[name].name == name
    requires !w.rules[name].deleting && w.rules[name].finalizer
    ensures var rule, after := w.rules[name], Pass(w, name, supply, nodes, host, listed);
            var f, matches := HostFile(host, name), NodeMatches(nodes, w.rules[name].nodeSelector, host);
            var wanted := if matches && rule.collectors != []
                          then Some(HostConfig(Fill(rule.collectors, supply)[|rule.collectors| - 1], host)) else None;
            (if f in after.files then Some(after.files[f]) else None) == wanted <==>
            !matches || (if listed then rule.collectors != [] || f !in w.files else rule.collectors == [])
  {
    var rule := w.rules[name];
    var matches := SeesMatch(nodes, rule.nodeSelector, host, listed);
    var filled := if matches then Fill(rule.collectors, supply) else rule.collectors;
    SyncedAt(w.files, filled, host, name, matches, name);
    WriteCollectorsAt(w.files, filled, host, name);
  }

  /** When the listing fails in a pass, a matching node loses its file, and the next pass with a listing restores it. */
  lemma {:induction false} FailedListingDeletes(w: World, name: string, s1: Supply, s2: Supply, nodes: seq<NodeInfo>,
                                                host: string)
    requires SafeHostRule(name) && name in w.rules && w.rules[name].name == name
    requires !w.rules[name].deleting && w.rules[name].finalizer
    requires NodeMatches(nodes, w.rules[name].nodeSelector, host)
    ensures var rule, f := w.rules[name], HostFile(host, name);
            var w1 := Pass(w, name, s1, nodes, host, false);
            var w2 := Pass(w1, name, s2, nodes, host, true);
            && w1.rules == w.rules && f !in w1.files
            && (rule.collectors != [] ==>
                  && f in w2.files
                  && w2.files[f] == HostConfig(Fill(rule.collectors, s2)[|rule.collectors| - 1], host))
  {
    hide Strings.Contains;
    var w1 := Pass(w, name, s1, nodes, host, false);
    assert w1.rules == w.rules;
    HostConverges(w, name, s1, nodes, host, false);
    HostConverges(w1, name, s2, nodes, host, true);
    SyncedAt(w.files, w.rules[name].collectors, host, name, false, name);
  }

  /** A second pass with the same outcome of the listing changes neither the server nor the files. */
  lemma {:induction false} SecondPassChangesNothing(w: World, name: string, s1: Supply, s2: Supply,
                                                    nodes: seq<NodeInfo>, host: string, listed: bool)
    requires SafeHostRule(name) && name in w.rules && w.rules[name].name == name
    requires !w.rules[name].deleting && w.rules[name].finalizer && GoodSupply(s1)
    ensures var w1 := Pass(w, name, s1, nodes, host, listed); Pass(w1, name, s2, nodes, host, listed) == w1
  {
    var rule := w.rules[name];
    var w1 := Pass(w, name, s1, nodes, host, listed);
    if SeesMatch(nodes, rule.nodeSelector, host, listed) {
      FillSettles(rule.collectors, s1, s2);
      var filled := Fill(rule.collectors, s1);
      WriteCollectorsAt(w.files, filled, host, name);
      WriteCollectorsAt(w1.files, filled, host, name);
    } else {
      hide Strings.Contains;
    }
  }

  /** Passes over one rule leave the files of the others. */
  lemma {:induction false} OthersUntouched(w: World, name: string, supply: Supply, nodes: seq<NodeInfo>, host: string,
                                           listed: bool, other: string)
    requires SafeHostRule(name) && SafeHostRule(other) && other != name
    ensures var g, after := HostFile(host, other), Pass(w, name, supply, nodes, host, listed).files;
            (g in after <==> g in w.files) && (g in w.files ==> after[g] == w.files[g])
  {
    if name in w.rules {
      var rule := w.rules[name];
      var matches := SeesMatch(nodes, rule.nodeSelector, host, listed);
      SyncedAt(w.files, if matches then Fill(rule.collectors, supply) else rule.collectors, host, name, matches, other);
      SyncedAt(w.files, rule.collectors, host, name, false, other);
    }
  }

  /** The node has the name of the host and all labels of the selector. */
  lemma {:induction false} MatchesExactly(nodes: seq<NodeInfo>, selector: map<string, string>, host: string)
    ensures NodeMatches(nodes, selector, host) <==>
            exists i :: 0 <= i < |nodes| && nodes[i].name == host && selector.Items <= nodes[i].labels.Items
  {
    hide Selects;
    if n :| n in nodes && n.name == host && Selects(selector, n.labels) {
      var i :| 0 <= i < |nodes| && nodes[i] == n;
      SelectsExactly(selector, n.labels);
    }
    if i :| 0 <= i < |nodes| && nodes[i].name == host && selector.Items <= nodes[i].labels.Items {
      SelectsExactly(selector, nodes[i].labels);
      assert nodes[i] in nodes;
    }
  }

  /**
   A pass over a deleted rule: with the finalizer its file goes, without it no file changes; then the rule is gone
   from the server, or stays without the finalizer as long as other parties hold it.
   */
  lemma {:induction false} DeletedRuleGoes(w: World, name: string, supply: Supply, nodes: seq<NodeInfo>, host: string,
                                           listed: bool)
    requires SafeHostRule(name) && name in w.rules && w.rules[name].name == name && w.rules[name].deleting
    ensures var rule, after := w.rules[name], Pass(w, name, supply, nodes, host, listed);
            && (rule.finalizer ==> FileId(host, host + "-by-" + name + ".yml") !in after.files)
            && (!rule.finalizer ==> after.files == w.files)
            && (name in after.rules <==> rule.others)
            && (rule.others ==> after.rules[name] == rule.(finalizer := false, version := rule.version + 1))
            && (forall other :: other != name ==>
                  (other in after.rules <==> other in w.rules) &&
                  (other in w.rules ==> after.rules[other] == w.rules[other]))
  {
    hide Strings.Contains, Fill;
    HostDeletionIsExact(host, name, name);
  }

  /** A pass over a live rule without the finalizer sets it and does nothing else. */
  lemma {:induction false} FinalizerFirst(w: World, name: string, supply: Supply, nodes: seq<NodeInfo>, host: string,
                                          listed: bool)
    requires name in w.rules && w.rules[name].name == name && !w.rules[name].deleting && !w.rules[name].finalizer
    ensures var rule, after := w.rules[name], Pass(w, name, supply, nodes, host, listed);
            && after.files == w.files
            && after.rules == w.rules[name := rule.(finalizer := true, version := rule.version + 1)]
  {
  }

  /** A rule that is not on the server is left alone. */
  lemma {:induction false} MissingRuleStays(w: World, name: string, supply: Supply, nodes: seq<NodeInfo>, host: string,
                                            listed: bool)
    requires name !in w.rules
    ensures Pass(w, name, supply, nodes, host, listed) == w
  {
  }

  /** The files of the other rules are as before. */
  ghost predicate OthersKept(before: Files, after: Files, node: string, name: string) {
    forall other :: SafeHostRule(other) && other != name ==>
      var g := HostFile(node, other);
      (g in after <==> g in before) && (g in before ==> after[g] == before[g])
  }

  lemma {:induction false} DeletionKeepsOthers(files: Files, node: string, name: string)
    ensures OthersKept(files, Kept(files, node, ConfigName(node, name)), node, name)
  {
    forall other | SafeHostRule(other) && other != name
      ensures !Strings.Contains(ConfigName(node, other), ConfigName(node, name))
    {
      HostDeletionIsExact(node, name, other);
    }
  }

  lemma {:induction false} WriteKeepsOthers(before: Files, files: Files, node: string, name: string, content: Content)
    requires OthersKept(before, files, node, name)
    ensures OthersKept(before, files[HostFile(node, name) := content], node, name)
  {
    forall other | other != name
      ensures HostFile(node, other) != HostFile(node, name)
    {
      if HostFile(node, other) == HostFile(node, name) {
        HostFileInjective(node, other, name);
      }
    }
  }

  /** A rule that has lost its collectors keeps the file it had: nothing writes or deletes it. */
  lemma {:induction false} EmptyRuleKeepsFile(w: World, name: string, supply: Supply, nodes: seq<NodeInfo>,
                                              host: string, listed: bool)
    requires name in w.rules && w.rules[name].name == name && !w.rules[name].deleting && w.rules[name].finalizer
    requires w.rules[name].collectors == [] && SeesMatch(nodes, w.rules[name].nodeSelector, host, listed)
    ensures Pass(w, name, supply, nodes, host, listed) == w
  {
    assert Fill(w.rules[name].collectors, supply) == [];
  }

  // ---- The reconciler ----

  datatype Outcome = Fine | RequeueLater | Failed

  class Reconciler {
    var rules: map<string, HostObject>
    const nodes: seq<NodeInfo>
    const hostName: string
    const store: ConfigStore

    constructor (nodes: seq<NodeInfo>, hostName: string, store: ConfigStore)
      ensures this.nodes == nodes && this.hostName == hostName && this.store == store && rules == map[]
    {
      this.nodes, this.hostName, this.store, rules := nodes, hostName, store, map[];
    }

    /** Reads may be stale: only the name can be relied on. */
    method Get(name: string) returns (r: Option<HostObject>)
      ensures r.Some? ==> r.value.name == name
    {
      r := *;
      if r.Some? && r.value.name != name {
        r := None;
      }
    }

    /** Compare-and-swap on the server's copy.  A broken call may or may not have been applied. */
    method Update(rule: HostObject) returns (outcome: Outcome)
      modifies this`rules
      ensures outcome == Fine ==>
                && rule.name in old(rules) && old(rules)[rule.name].version == rule.version
                && rules == Accept(old(rules), rule)
      ensures outcome == RequeueLater ==> rules == old(rules)
      ensures outcome == Failed ==>
                || rules == old(rules)
                || (rule.name in old(rules) && old(rules)[rule.name].version == rule.version
                    && rules == Accept(old(rules), rule))
    {
      var lost: bool := *;
      if lost {
        return Failed;
      }
      if rule.name !in rules || rules[rule.name].version != rule.version {
        return RequeueLater;
      }
      rules := Accept(rules, rule);
      lost := *;
      outcome := if lost then Failed else Fine;
    }

    /** A failed listing reads as no match. */
    method IsHostMatch(selector: map<string, string>) returns (matches: bool, ghost listed: bool)
      ensures listed ==> (matches <==> NodeMatches(nodes, selector, hostName))
      ensures !listed ==> !matches
      ensures matches ==> NodeMatches(nodes, selector, hostName)
    {
      var broken: bool := *;
      listed := !broken;
      if broken {
        return false, listed;
      }
      for i := 0 to |nodes|
        invariant forall k :: 0 <= k < i ==> !(nodes[k].name == hostName && Selects(selector, nodes[k].labels))
      {
        if nodes[i].name == hostName && Selects(selector, nodes[i].labels) {
          return true, listed;
        }
      }
      return false, listed;
    }

    method SyncRule(rule: HostObject, supply: Supply)
      returns (outcome: Outcome, ghost listed: bool, ghost filled: HostObject)
      requires GoodSupply(supply)
      modifies this`rules, store
      ensures outcome == Fine ==>
                var matches := SeesMatch(nodes, rule.nodeSelector, hostName, listed);
                && filled == (if matches then rule.(collectors := Fill(rule.collectors, supply)) else rule)
                && rules == (if filled == rule then old(rules) else Accept(old(rules), filled))
                && store.files == Synced(old(store.files), filled.collectors, hostName, rule.name, matches)
      ensures !listed ==>
                && outcome == Fine && rules == old(rules)
                && store.files == Kept(old(store.files), hostName, ConfigName(hostName, rule.name))
      ensures OthersKept(old(store.files), store.files, hostName, rule.name)
    {
      var matches;
      matches, listed := IsHostMatch(rule.nodeSelector);
      filled := rule;
      if !matches {
        DeletionKeepsOthers(store.files, hostName, rule.name);
        store.DeleteConfigForHost(hostName, rule.name);
        return Fine, listed, filled;
      }
      var spec, needUpdate := MustSetUID(rule.collectors, supply);
      FillSettles(rule.collectors, supply, supply);
      filled := rule.(collectors := spec);
      if needUpdate {
        outcome := Update(rule.(collectors := spec));
        if outcome != Fine {
          return Failed, listed, filled;
        }
      }
      ghost var updated := rules;
      for i := 0 to |spec|
        invariant rules == updated
        invariant store.files == WriteCollectors(old(store.files), spec[..i], hostName, rule.name)
        invariant OthersKept(old(store.files), store.files, hostName, rule.name)
      {
        assert spec[..i + 1][..i] == spec[..i];
        var failed: bool, began: bool := *, *;
        var content := if failed then Torn else HostConfig(spec[i], hostName);
        if began || !failed {
          WriteKeepsOthers(old(store.files), store.files, hostName, rule.name, content);
          store.Write(HostFile(hostName, rule.name), content);
        }
        if failed {
          return Failed, listed, filled;
        }
      }
      assert spec[..|spec|] == spec;
      return Fine, listed, filled;
    }

    /**
     A pass that ends well on the server's copy is Pass, whether or not the nodes were listed.  However it
     ends, the files of other rules are untouched.
     */
    method Reconcile(name: string, supply: Supply)
      returns (outcome: Outcome, ghost seen: Option<HostObject>, ghost listed: bool)
      requires GoodSupply(supply)
      modifies this`rules, store
      ensures outcome == Fine && seen == Current(old(rules), name) ==>
                World(rules, store.files) ==
                Pass(World(old(rules), old(store.files)), name, supply, nodes, hostName, listed)
      ensures OthersKept(old(store.files), store.files, hostName, name)
    {
      listed := true;
      var found := Get(name);
      seen := found;
      if found.None? {
        return Fine, seen, listed;
      }
      var rule := found.value;
      if !rule.deleting {
        if !rule.finalizer {
          outcome := Update(rule.(finalizer := true));
          return;
        }
        ghost var filled;
        outcome, listed, filled := SyncRule(rule, supply);
      } else {
        if rule.finalizer {
          DeletionKeepsOthers(store.files, hostName, rule.name);
          store.DeleteConfigForHost(hostName, rule.name);
        }
        outcome := Update(rule.(finalizer := false));
        if outcome != Fine {
          outcome := Failed;
        }
      }
    }
  }

  function Current(rules: map<string, HostObject>, name: string): Option<HostObject> {
    if name in rules then Some(rules[name]) else None
  }
}
