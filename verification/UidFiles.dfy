/**
 The steps of the UID protocol and the controller: which step a pass of the reconciler has done when it
 begins to write, and which entries the files of passes and of pod events hold.
 */
module UidFiles {
  import opened Rules
  import opened Uids
  import opened UidProtocol
  import RuleOps
  import RuleController
  import PodEvents

  /**
   A pass whose createEvent got as far as writing has done the step Fill: it holds a version of the history,
   and a rule with the server's version number is a copy of the current one.
   */
  lemma {:induction false} CreateIsFill(g: Global, n: nat, rule: RuleController.Rule, supply: Supply,
                                        before: map<RuleOps.Key, RuleController.Rule>)
    requires PhaseOf(g, n).Holding? && PhaseOf(g, n).version < |g.history|
    requires g.history[PhaseOf(g, n).version] == rule.spec
    requires rule.key in before && before[rule.key].version == rule.version ==> IsCurrent(g, PhaseOf(g, n).version)
    requires RuleController.Committed(rule, Uids.Fill(rule.spec, supply), before)
    ensures var next := Next(g, Fill(n, supply));
            && PhaseOf(next, n).Writing? && PhaseOf(next, n).version < |next.history|
            && next.history[PhaseOf(next, n).version] == Uids.Fill(rule.spec, supply)
  {
    hide Uids.Fill, NeedsUid;
  }

  /** The entries for the collector's rules are written, from a version, in a pass or for an event. */
  ghost predicate EntriesIn(written: set<Entry>, node: nat, v: nat, event: bool, i: nat, rules: seq<ContainerRule>) {
    forall j: nat, k: nat :: j < |rules| && k < |rules[j].rules| ==>
      Entry(node, v, event, i, j, k, rules[j].rules[k].uid) in written
  }

  function WriteStep(node: nat, v: nat, event: bool, i: nat, j: nat, k: nat): Step {
    if event then EventWrite(node, v, i, j, k) else Write(node, i, j, k)
  }

  /** Steps that write from version v on one node, every slot of the version among them. */
  ghost predicate WritesAll(steps: seq<Step>, spec: Spec, node: nat, v: nat, event: bool) {
    && (forall n :: 0 <= n < |steps| ==> IsWrite(steps[n], node, v, event))
    && (forall i: nat, j: nat, k: nat :: Slot(spec, i, j, k) ==> WriteStep(node, v, event, i, j, k) in steps)
  }

  ghost predicate IsWrite(s: Step, node: nat, v: nat, event: bool) {
    if event then s.EventWrite? && s.node == node && s.version == v else s.Write? && s.node == node
  }

  lemma {:induction false} WritesDone(g: Global, steps: seq<Step>, node: nat, v: nat, event: bool)
    requires v < |g.history| && (!event ==> PhaseOf(g, node) == Writing(v))
    requires forall n :: 0 <= n < |steps| ==> IsWrite(steps[n], node, v, event)
    ensures var next := Run(g, steps); next.history == g.history && next.phase == g.phase
    ensures forall s :: s in steps && IsWrite(s, node, v, event) && Slot(g.history[v], s.i, s.j, s.k) ==>
              Entry(node, v, event, s.i, s.j, s.k, UidAt(g.history[v], s.i, s.j, s.k)) in Run(g, steps).written
  {
    if steps != [] {
      WritesDone(g, steps[..|steps| - 1], node, v, event);
    }
  }

  /**
   A file that the handling of a pod update writes for a rule listed in version v has the entries that
   the steps EventWrite write for one of its collectors.
   */
  lemma {:induction false} EventFileIsEventWrites(g: Global, steps: seq<Step>, node: nat, v: nat, pod: Pod,
                                                  op: RuleOps.Op)
    requires v < |g.history| && op in PodEvents.PodOps(g.history[v], pod)
    requires WritesAll(steps, g.history[v], node, v, true)
    ensures op.Put? && op.content.PodConfig?
    ensures exists i: nat :: EntriesIn(Run(g, steps).written, node, v, true, i, op.content.rules)
  {
    var i := PodOpCollector(g.history[v], pod, op);
    CollectorEntries(g, steps, node, v, true, i);
  }

  lemma {:induction false} PodOpCollector(spec: Spec, pod: Pod, op: RuleOps.Op) returns (i: nat)
    requires op in PodEvents.PodOps(spec, pod)
    ensures i < |spec| && op == RuleOps.Put(pod.uid, PodConfig(spec[i].containerRule, View(pod)))
  {
    var n := |spec| - 1;
    if op in PodEvents.PodOps(spec[..n], pod) {
      i := PodOpCollector(spec[..n], pod, op);
    } else {
      i := n;
    }
  }

  /** The same for a file that a pass writes from the version it holds, and the steps Write. */
  lemma {:induction false} PassFileIsWrites(g: Global, steps: seq<Step>, node: nat, cl: RuleOps.Cluster,
                                            namespace: string, op: RuleOps.Op)
    requires PhaseOf(g, node).Writing? && PhaseOf(g, node).version < |g.history|
    requires op in RuleOps.SpecOps(RuleOps.Creating, g.history[PhaseOf(g, node).version], cl, namespace)
    requires WritesAll(steps, g.history[PhaseOf(g, node).version], node, PhaseOf(g, node).version, false)
    ensures op.Put? && op.content.PodConfig?
    ensures exists i: nat ::
              EntriesIn(Run(g, steps).written, node, PhaseOf(g, node).version, false, i, op.content.rules)
  {
    var v := PhaseOf(g, node).version;
    var i := SpecOpCollector(g.history[v], cl, namespace, op);
    CollectorEntries(g, steps, node, v, false, i);
  }

  lemma {:induction false} SpecOpCollector(spec: Spec, cl: RuleOps.Cluster, namespace: string, op: RuleOps.Op)
    returns (i: nat)
    requires op in RuleOps.SpecOps(RuleOps.Creating, spec, cl, namespace)
    ensures i < |spec| && op.Put? && op.content.PodConfig? && op.content.rules == spec[i].containerRule
  {
    var n := |spec| - 1;
    if op in RuleOps.SpecOps(RuleOps.Creating, spec[..n], cl, namespace) {
      i := SpecOpCollector(spec[..n], cl, namespace, op);
    } else {
      i := n;
      CollectorOpRules(spec[n], cl.pods, namespace, cl.host, op);
    }
  }

  lemma {:induction false} CollectorOpRules(c: Collector, pods: seq<Pod>, namespace: string, host: string,
                                            op: RuleOps.Op)
    requires op in RuleOps.CollectorOps(RuleOps.Creating, c, pods, namespace, host)
    ensures op.Put? && op.content.PodConfig? && op.content.rules == c.containerRule
  {
    if op in RuleOps.CollectorOps(RuleOps.Creating, c, pods[..|pods| - 1], namespace, host) {
      CollectorOpRules(c, pods[..|pods| - 1], namespace, host, op);
    }
  }

  lemma {:induction false} CollectorEntries(g: Global, steps: seq<Step>, node: nat, v: nat, event: bool, i: nat)
    requires v < |g.history| && i < |g.history[v]| && WritesAll(steps, g.history[v], node, v, event)
    requires !event ==> PhaseOf(g, node) == Writing(v)
    ensures EntriesIn(Run(g, steps).written, node, v, event, i, g.history[v][i].containerRule)
  {
    WritesDone(g, steps, node, v, event);
    var rules := g.history[v][i].containerRule;
    forall j: nat, k: nat | j < |rules| && k < |rules[j].rules|
      ensures Entry(node, v, event, i, j, k, rules[j].rules[k].uid) in Run(g, steps).written
    {
      assert Slot(g.history[v], i, j, k);
      assert WriteStep(node, v, event, i, j, k) in steps;
    }
  }
}
