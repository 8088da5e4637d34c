/**
 Runs of the rule reconciler on one node in which pods come, change and go between the passes, and
 the event filter handles them.  A pass works on the pods as they are then.
 */
module PodRuns {
  import opened Wrappers
  import opened Strings
  import opened Rules
  import opened ConfigFiles
  import opened RuleOps
  import opened RuleRuns
  import opened PodEvents

  // ---- Changes of the pods ----

  /** No pod but the one with this UID differs between the two lists. */
  ghost predicate OnlyDiffers(pods: seq<Pod>, next: seq<Pod>, uid: string) {
    forall other :: other != uid ==> PodWith(next, other) == PodWith(pods, other)
  }

  lemma {:induction false} PodReplaced(pods: seq<Pod>, i: nat, pod: Pod)
    requires ValidPods(pods) && i < |pods| && pod.uid == pods[i].uid
    ensures ValidPods(pods[i := pod]) && OnlyDiffers(pods, pods[i := pod], pod.uid)
    ensures PodWith(pods, pod.uid) == Some(pods[i]) && PodWith(pods[i := pod], pod.uid) == Some(pod)
  {
    hide PodUid, PodWith;
    var next := pods[i := pod];
    assert forall k :: 0 <= k < |pods| ==> next[k].uid == pods[k].uid;
    PodWithMember(pods, i);
    PodWithMember(next, i);
    forall uid | uid != pod.uid
      ensures PodWith(next, uid) == PodWith(pods, uid)
    {
      PodWithOrigin(pods, uid);
      PodWithOrigin(next, uid);
      if PodWith(pods, uid).Some? {
        var k :| 0 <= k < |pods| && pods[k] == PodWith(pods, uid).value;
        PodWithMember(next, k);
      }
    }
  }

  lemma {:induction false} PodAppended(pods: seq<Pod>, pod: Pod)
    requires ValidPods(pods) && PodUid(pod.uid) && PodWith(pods, pod.uid).None?
    ensures ValidPods(pods + [pod]) && OnlyDiffers(pods, pods + [pod], pod.uid)
    ensures PodWith(pods + [pod], pod.uid) == Some(pod)
  {
    hide PodUid;
    assert (pods + [pod])[..|pods|] == pods;
    PodWithOrigin(pods, pod.uid);
  }

  function Without(pods: seq<Pod>, i: nat): (less: seq<Pod>)
    requires i < |pods|
    ensures |less| == |pods| - 1
    ensures forall k :: 0 <= k < |less| ==> less[k] == if k < i then pods[k] else pods[k + 1]
  {
    pods[..i] + pods[i + 1..]
  }

  lemma {:induction false} ValidWithout(pods: seq<Pod>, i: nat)
    requires ValidPods(pods) && i < |pods|
    ensures ValidPods(Without(pods, i)) && PodWith(Without(pods, i), pods[i].uid) == None
  {
    hide PodUid, PodWith;
    PodWithOrigin(Without(pods, i), pods[i].uid);
  }

  lemma {:induction false} PodRemoved(pods: seq<Pod>, i: nat)
    requires ValidPods(pods) && i < |pods|
    ensures ValidPods(Without(pods, i)) && OnlyDiffers(pods, Without(pods, i), pods[i].uid)
    ensures PodWith(Without(pods, i), pods[i].uid) == None
  {
    hide PodUid, PodWith;
    ValidWithout(pods, i);
    forall uid | uid != pods[i].uid
      ensures PodWith(Without(pods, i), uid) == PodWith(pods, uid)
    {
      StillThere(pods, i, uid);
    }
  }

  lemma {:induction false} StillThere(pods: seq<Pod>, i: nat, uid: string)
    requires ValidPods(pods) && i < |pods| && uid != pods[i].uid
    ensures PodWith(Without(pods, i), uid) == PodWith(pods, uid)
  {
    hide PodUid, PodWith;
    var less := Without(pods, i);
    ValidWithout(pods, i);
    PodWithOrigin(pods, uid);
    PodWithOrigin(less, uid);
    if PodWith(pods, uid).Some? {
      var k :| 0 <= k < |pods| && pods[k] == PodWith(pods, uid).value;
      var l := if k < i then k else k - 1;
      assert less[l] == pods[k];
      PodWithMember(less, l);
    }
  }

  // ---- One event ----

  /** Whether the pod's file of a rule is in step afterwards, given what it should hold before and after. */
  function EventPending(pending: set<string>, uid: string, trace: Trace, before: Option<Content>,
                        after: Option<Content>): set<string>
  {
    match trace
    case Untouched => if before == after then pending else pending + {uid}
    case Left(content) => if content == after then pending - {uid} else pending + {uid}
    case Unsure => pending + {uid}
  }

  ghost predicate ValidEvent(items: seq<Item>, pod: Pod, key: Key) {
    PodUid(pod.uid) && ValidItems(items, pod.namespace) && ValidKey(key) && !Contains(key.name, pod.uid)
  }

  lemma {:induction false} TargetElsewhere(s: State, key: Key, cl: Cluster, next: seq<Pod>, pod: string, uid: string)
    requires OnlyDiffers(cl.pods, next, pod) && uid != pod
    ensures Target(s, key, cl.(pods := next), uid) == Target(s, key, cl, uid)
  {
  }

  /** An event keeps every rule in step, outside the pending pods. */
  lemma {:induction false} EventInStep(s: State, key: Key, pending: set<string>, cl: Cluster, next: seq<Pod>,
                                       h: Handling, items: seq<Item>, pod: Pod, stop: Stop)
    requires ValidEvent(items, pod, key) && OnlyDiffers(cl.pods, next, pod.uid)
    requires InStep(s, key, pending, cl)
    ensures var after := cl.(pods := next);
            var still := EventPending(pending, pod.uid, TraceOf(h, items, key, pod, stop),
                                      Target(s, key, cl, pod.uid), Target(s, key, after, pod.uid));
            InStep(s.(files := HandledFiles(s.files, h, items, pod, stop)), key, still, after)
  {
    hide At, Expected, PodUid, OnlyDiffers, HandledFiles, TraceOf, Contains;
    var after := cl.(pods := next);
    var t := s.(files := HandledFiles(s.files, h, items, pod, stop));
    var still := EventPending(pending, pod.uid, TraceOf(h, items, key, pod, stop),
                              Target(s, key, cl, pod.uid), Target(s, key, after, pod.uid));
    forall uid | PodUid(uid) && uid !in still
      ensures At(t.files, key, uid) == Target(t, key, after, uid)
    {
      HandledAt(s.files, h, items, key, pod, stop, uid);
      if uid != pod.uid {
        TargetElsewhere(s, key, cl, next, pod.uid, uid);
      }
    }
  }

  /** What an event must do to the pod's file of a rule that was in step for it to be in step again. */
  predicate Right(trace: Trace, before: Option<Content>, after: Option<Content>) {
    match trace
    case Untouched => before == after
    case Left(content) => content == after
    case Unsure => false
  }

  lemma {:induction false} EventExactly(s: State, key: Key, cl: Cluster, next: seq<Pod>, h: Handling,
                                        items: seq<Item>, pod: Pod)
    requires ValidEvent(items, pod, key) && OnlyDiffers(cl.pods, next, pod.uid) && InStep(s, key, {}, cl)
    ensures var after := cl.(pods := next);
            InStep(s.(files := HandledFiles(s.files, h, items, pod, Finished)), key, {}, after) <==>
            Right(TraceOf(h, items, key, pod, Finished), Target(s, key, cl, pod.uid), Target(s, key, after, pod.uid))
  {
    hide At, Expected, PodUid, OnlyDiffers, HandledFiles, TraceOf, Contains;
    var after := cl.(pods := next);
    var t := s.(files := HandledFiles(s.files, h, items, pod, Finished));
    var trace := TraceOf(h, items, key, pod, Finished);
    NeverUnsure(h, items, key, pod);
    HandledAt(s.files, h, items, key, pod, Finished, pod.uid);
    assert At(s.files, key, pod.uid) == Target(s, key, cl, pod.uid);
    EventInStep(s, key, {}, cl, next, h, items, pod, Finished);
  }

  lemma {:induction false} NeverUnsure(h: Handling, items: seq<Item>, key: Key, pod: Pod)
    ensures !TraceOf(h, items, key, pod, Finished).Unsure?
  {
    hide Written;
  }

  /**
   A pod of the node's list changes, in any way but its UID and namespace, and the event is handled.
   A rule, listed or not, stays in step exactly when what the event left is what the rule's cached
   specification asks for now, or it left the file alone and the same is asked for as before.
   */
  lemma {:induction false} PodUpdateInStep(s: State, key: Key, i: nat, pod: Pod, items: seq<Item>, cl: Cluster)
    requires ValidPods(cl.pods) && i < |cl.pods|
    requires pod.uid == cl.pods[i].uid && pod.namespace == cl.pods[i].namespace
    requires ValidEvent(items, pod, key) && InStep(s, key, {}, cl)
    ensures var h, next := UpdateHandling(pod, cl.pods[i], items, cl.host), cl.(pods := cl.pods[i := pod]);
            InStep(s.(files := HandledFiles(s.files, h, items, pod, Finished)), key, {}, next) <==>
            Right(TraceOf(h, items, key, pod, Finished), Target(s, key, cl, pod.uid), Target(s, key, next, pod.uid))
  {
    PodReplaced(cl.pods, i, pod);
    EventExactly(s, key, cl, cl.pods[i := pod], UpdateHandling(pod, cl.pods[i], items, cl.host), items, pod);
  }

  /** A pod with other statuses and otherwise the same. */
  predicate SamePod(a: Pod, b: Pod) {
    a.uid == b.uid && a.namespace == b.namespace && a.labels == b.labels && a.nodeName == b.nodeName
  }

  lemma {:induction false} SameTaker(spec: Spec, a: Pod, b: Pod, namespace: string, host: string)
    requires SamePod(a, b)
    ensures LastTaker(spec, a, namespace, host) == LastTaker(spec, b, namespace, host)
  {
    if spec != [] {
      SameTaker(spec[..|spec| - 1], a, b, namespace, host);
    }
  }

  /** The collector of the cached specification that the pod's file of the rule comes from. */
  function CachedTaker(s: State, key: Key, pod: Pod, host: string): Option<Collector> {
    if key in s.cache then LastTaker(s.cache[key], pod, key.namespace, host) else None
  }

  /**
   The same for a local pod whose labels stay: an event that writes the rule's file must write the
   rules of the cached collector, one that removes it must find none cached, and one that leaves it
   must find none cached or nothing changed of what a configuration is generated from.
   */
  lemma {:induction false} StatusChangeInStep(s: State, key: Key, i: nat, pod: Pod, items: seq<Item>, cl: Cluster)
    requires ValidPods(cl.pods) && i < |cl.pods| && SamePod(pod, cl.pods[i])
    requires key.namespace == pod.namespace && ValidEvent(items, pod, key) && InStep(s, key, {}, cl)
    ensures var h, next := UpdateHandling(pod, cl.pods[i], items, cl.host), cl.(pods := cl.pods[i := pod]);
            var taker, same := CachedTaker(s, key, pod, cl.host), View(pod) == View(cl.pods[i]);
            InStep(s.(files := HandledFiles(s.files, h, items, pod, Finished)), key, {}, next) <==>
            match h
            case Ignores => taker.None? || same
            case Removes => taker.None?
            case Rewrites =>
              match Written(items, key, pod)
              case None => taker.None? || same
              case Some(content) => taker.Some? && content == PodConfig(taker.value.containerRule, View(pod))
  {
    hide At, PodUid, LastTaker, UpdateHandling, HandledFiles, InStep, Contains, View, Written, PodWith;
    PodUpdateInStep(s, key, i, pod, items, cl);
    PodReplaced(cl.pods, i, pod);
    if key in s.cache {
      SameTaker(s.cache[key], pod, cl.pods[i], key.namespace, cl.host);
    }
  }

  /**
   A pod being deleted loses its files while it is still listed.  A rule whose cached specification takes
   it is then out of step, and a pass that finishes in the meantime writes the file again.
   */
  lemma {:induction false} TerminatingPod(s: State, key: Key, i: nat, pod: Pod, items: seq<Item>, cl: Cluster,
                                          a: Action)
    requires ValidPods(cl.pods) && i < |cl.pods| && SamePod(pod, cl.pods[i]) && ValidEvent(items, pod, key)
    requires pod.deleting && NoneReady(pod) && pod.nodeName == cl.host && SelectedByAny(items, pod)
    requires key.namespace == pod.namespace && CachedTaker(s, key, pod, cl.host).Some?
    requires a.Sync? && a.key == key && a.cut == Done && !Skips(s, a)
    ensures var next := cl.(pods := cl.pods[i := pod]);
            var h := UpdateHandling(pod, cl.pods[i], items, cl.host);
            var t := s.(files := HandledFiles(s.files, h, items, pod, Finished));
            && At(t.files, key, pod.uid) == None && Target(t, key, next, pod.uid).Some?
            && At(Do(t, a, next).files, key, pod.uid) == Expected(a.filled, next, key.namespace, pod.uid)
  {
    hide At, PodUid, LastTaker, HandledFiles, Contains, Written, PodWith, SelectedByAny, Plan, ApplyAll, PlanReach;
    var next := cl.(pods := cl.pods[i := pod]);
    var t := s.(files := HandledFiles(s.files, Removes, items, pod, Finished));
    PodReplaced(cl.pods, i, pod);
    HandledAt(s.files, Removes, items, key, pod, Finished, pod.uid);
    PlanAt(t, a, next, pod.uid);
    NotReached(t, a, next, pod.uid);
  }

  /**
   A pod goes.  A rule stays in step exactly when the pod's files were removed, which for a rule of its
   namespace needs a listed rule that selects the pod on this node, or none was asked for.
   */
  lemma {:induction false} PodDeletionInStep(s: State, key: Key, i: nat, items: seq<Item>, cl: Cluster)
    requires ValidPods(cl.pods) && i < |cl.pods|
    requires ValidEvent(items, cl.pods[i], key) && InStep(s, key, {}, cl)
    ensures var pod, less := cl.pods[i], cl.(pods := Without(cl.pods, i));
            var files := HandledFiles(s.files, DeletionHandling(pod, items, cl.host), items, pod, Finished);
            InStep(s.(files := files), key, {}, less) <==>
            || (pod.nodeName == cl.host && key.namespace == pod.namespace && SelectedByAny(items, pod))
            || Target(s, key, cl, pod.uid) == None
  {
    hide At, PodUid, LastTaker, HandledFiles, InStep, Contains, Written, PodWith, SelectedByAny;
    var pod := cl.pods[i];
    PodRemoved(cl.pods, i);
    EventExactly(s, key, cl, Without(cl.pods, i), DeletionHandling(pod, items, cl.host), items, pod);
  }

  // ---- Runs with events ----

  /** The pods of the cluster, and the state of this node. */
  datatype Node = Node(state: State, pods: seq<Pod>)

  /**
   A pass; or a pod that comes, changes or goes; or the handling of an event, which may be later and with
   other copies of the pod, and with the rules listed then.
   */
  datatype Step =
    | Pass(action: Action)
    | PodAdded(pod: Pod)
    | PodChanged(i: nat, pod: Pod)
    | PodGone(i: nat)
    | UpdateHandled(pod: Pod, before: Pod, items: seq<Item>, stop: Stop)
    | DeletionHandled(pod: Pod, items: seq<Item>, stop: Stop)

  /** A step that is not possible in a state leaves it as it is. */
  predicate Possible(n: Node, step: Step) {
    match step
    case PodAdded(pod) => PodUid(pod.uid) && PodWith(n.pods, pod.uid).None?
    case PodChanged(i, pod) => i < |n.pods| && pod.uid == n.pods[i].uid && pod.namespace == n.pods[i].namespace
    case PodGone(i) => i < |n.pods|
    case _ => true
  }

  function NextPods(n: Node, step: Step): seq<Pod>
    requires Possible(n, step)
  {
    match step
    case PodAdded(pod) => n.pods + [pod]
    case PodChanged(i, pod) => n.pods[i := pod]
    case PodGone(i) => Without(n.pods, i)
    case _ => n.pods
  }

  /** The pod a step is about, what is done to its files, with which rules, and where it stops. */
  datatype Event = Event(pod: Pod, h: Handling, items: seq<Item>, stop: Stop)

  function EventOf(n: Node, step: Step, host: string): Event
    requires Possible(n, step) && !step.Pass?
  {
    match step
    case PodAdded(pod) => Event(pod, Ignores, [], Finished)
    case PodChanged(_, pod) => Event(pod, Ignores, [], Finished)
    case PodGone(i) => Event(n.pods[i], Ignores, [], Finished)
    case UpdateHandled(pod, before, items, stop) =>
      Event(pod, UpdateHandling(pod, before, items, host), items, stop)
    case DeletionHandled(pod, items, stop) => Event(pod, DeletionHandling(pod, items, host), items, stop)
  }

  function Next(n: Node, step: Step, host: string): Node {
    if !Possible(n, step) then n
    else if step.Pass? then n.(state := Do(n.state, step.action, Cluster(n.pods, host)))
    else
      var e := EventOf(n, step, host);
      Node(n.state.(files := HandledFiles(n.state.files, e.h, e.items, e.pod, e.stop)), NextPods(n, step))
  }

  function NodeRun(n: Node, steps: seq<Step>, host: string): Node {
    if steps == [] then n else Next(NodeRun(n, steps[..|steps| - 1], host), steps[|steps| - 1], host)
  }

  /** The pods whose file for a rule may be out of step after a step. */
  function StepPending(n: Node, key: Key, pending: set<string>, step: Step, host: string): set<string> {
    var cl := Cluster(n.pods, host);
    if !Possible(n, step) then pending
    else if step.Pass? then Pending(n.state, key, pending, step.action, cl)
    else
      var e := EventOf(n, step, host);
      EventPending(pending, e.pod.uid, TraceOf(e.h, e.items, key, e.pod, e.stop),
                   Target(n.state, key, cl, e.pod.uid),
                   Target(n.state, key, Cluster(NextPods(n, step), host), e.pod.uid))
  }

  function NodePending(n: Node, key: Key, steps: seq<Step>, host: string): set<string> {
    if steps == [] then {}
    else
      var init := steps[..|steps| - 1];
      StepPending(NodeRun(n, init, host), key, NodePending(n, key, init, host), steps[|steps| - 1], host)
  }

  /** Rule names that hold no pod UID. */
  ghost predicate PlainKey(key: Key) {
    ValidKey(key) && forall uid :: PodUid(uid) ==> !Contains(key.name, uid)
  }

  /** The rules listed for an event are of the pod's namespace. */
  ghost predicate ValidStep(step: Step) {
    match step
    case Pass(a) => ValidAction(a)
    case UpdateHandled(pod, _, items, _) => PodUid(pod.uid) && ValidItems(items, pod.namespace)
    case DeletionHandled(pod, items, _) => PodUid(pod.uid) && ValidItems(items, pod.namespace)
    case _ => true
  }

  ghost predicate ValidSteps(steps: seq<Step>) {
    forall i :: 0 <= i < |steps| ==> ValidStep(steps[i])
  }

  lemma {:induction false} EventFacts(n: Node, step: Step, host: string)
    requires ValidPods(n.pods) && ValidStep(step) && Possible(n, step) && !step.Pass?
    ensures var e, next := EventOf(n, step, host), NextPods(n, step);
            && PodUid(e.pod.uid) && ValidItems(e.items, e.pod.namespace)
            && ValidPods(next) && OnlyDiffers(n.pods, next, e.pod.uid)
  {
    hide PodUid, UpdateHandling, DeletionHandling;
    match step
    case PodAdded(pod) => PodAppended(n.pods, pod);
    case PodChanged(i, pod) => PodReplaced(n.pods, i, pod);
    case PodGone(i) => PodRemoved(n.pods, i);
    case _ =>
  }

  /** Every pass, every change of a pod and every event keeps the rules in step, outside the pending pods. */
  lemma {:induction false} NodeStepInStep(n: Node, key: Key, pending: set<string>, step: Step, host: string)
    requires ValidPods(n.pods) && ValidStep(step) && PlainKey(key)
    requires InStep(n.state, key, pending, Cluster(n.pods, host))
    ensures var next := Next(n, step, host);
            && ValidPods(next.pods)
            && InStep(next.state, key, StepPending(n, key, pending, step, host), Cluster(next.pods, host))
  {
    hide InStep, EventPending, TraceOf, HandledFiles, OnlyDiffers, PodUid, Do, Pending, Target, ValidPods, ValidItems;
    var cl := Cluster(n.pods, host);
    if step.Pass? {
      StepInStep(n.state, key, pending, step.action, cl);
    } else if Possible(n, step) {
      var e := EventOf(n, step, host);
      EventFacts(n, step, host);
      EventInStep(n.state, key, pending, cl, NextPods(n, step), e.h, e.items, e.pod, e.stop);
    }
  }

  /** The same over whole runs. */
  lemma {:induction false} NodeRunInStep(n: Node, key: Key, steps: seq<Step>, host: string)
    requires ValidPods(n.pods) && ValidSteps(steps) && PlainKey(key)
    requires InStep(n.state, key, {}, Cluster(n.pods, host))
    ensures var end := NodeRun(n, steps, host);
            && ValidPods(end.pods)
            && InStep(end.state, key, NodePending(n, key, steps, host), Cluster(end.pods, host))
  {
    hide InStep, PlainKey, ValidPods, ValidStep, Next, StepPending;
    if steps != [] {
      var init := steps[..|steps| - 1];
      NodeRunInStep(n, key, init, host);
      NodeStepInStep(NodeRun(n, init, host), key, NodePending(n, key, init, host), steps[|steps| - 1], host);
    }
  }

  /**
   A new pod is settled by the handling of its start, if the listed and the cached specification of the
   rule write the same.
   */
  lemma {:induction false} NewPodSettles(n: Node, key: Key, pod: Pod, started: Pod, items: seq<Item>, host: string)
    requires ValidPods(n.pods) && PlainKey(key) && key.namespace == pod.namespace && ValidItems(items, pod.namespace)
    requires Possible(n, PodAdded(pod)) && SamePod(started, pod) && pod.nodeName == host
    requires UpdateHandling(started, pod, items, host).Rewrites?
    requires Written(items, key, started) == if key in n.state.cache then Writes(n.state.cache[key], started) else None
    requires InStep(n.state, key, {}, Cluster(n.pods, host))
    ensures var steps := [PodAdded(pod), PodChanged(|n.pods|, started), UpdateHandled(started, pod, items, Finished)];
            var end := NodeRun(n, steps, host);
            && NodePending(n, key, steps, host) == {}
            && InStep(end.state, key, {}, Cluster(end.pods, host))
  {
    hide InStep, PlainKey, ValidPods, Next, StepPending, NodePending, ValidItems, UpdateHandling, Written, PodUid;
    var first, second := PodAdded(pod), PodChanged(|n.pods|, started);
    var third := UpdateHandled(started, pod, items, Finished);
    var steps := [first, second, third];
    NodePendingNone(n, key, host);
    NodePendingLast(n, key, [], first, host);
    NodePendingLast(n, key, [first], second, host);
    NodePendingLast(n, key, [first, second], third, host);
    assert [] + [first] == [first] && [first] + [second] == [first, second] && [first, second] + [third] == steps;
    SettledByStart(n, key, pod, started, items, host);
    NodeRunInStep(n, key, steps, host);
  }

  lemma {:induction false} NodePendingNone(n: Node, key: Key, host: string)
    ensures NodePending(n, key, [], host) == {} && NodeRun(n, [], host) == n
  {
  }

  lemma {:induction false} NodePendingLast(n: Node, key: Key, steps: seq<Step>, step: Step, host: string)
    ensures NodeRun(n, steps + [step], host) == Next(NodeRun(n, steps, host), step, host)
    ensures NodePending(n, key, steps + [step], host) ==
            StepPending(NodeRun(n, steps, host), key, NodePending(n, key, steps, host), step, host)
  {
    assert (steps + [step])[..|steps|] == steps;
  }

  lemma {:induction false} SettledByStart(n: Node, key: Key, pod: Pod, started: Pod, items: seq<Item>, host: string)
    requires ValidPods(n.pods) && key.namespace == pod.namespace && ValidItems(items, pod.namespace)
    requires Possible(n, PodAdded(pod)) && SamePod(started, pod) && pod.nodeName == host
    requires UpdateHandling(started, pod, items, host).Rewrites?
    requires Written(items, key, started) == if key in n.state.cache then Writes(n.state.cache[key], started) else None
    ensures var first, second := PodAdded(pod), PodChanged(|n.pods|, started);
            var third := UpdateHandled(started, pod, items, Finished);
            var added := Next(n, first, host);
            var pending := StepPending(added, key, StepPending(n, key, {}, first, host), second, host);
            && ValidStep(first) && ValidStep(second) && ValidStep(third)
            && StepPending(Next(added, second, host), key, pending, third, host) == {}
  {
    hide PodUid, LastTaker, HandledFiles, Contains, Written, Writes, PodWith, UpdateHandling, ValidItems;
    var added := Next(n, PodAdded(pod), host);
    assert added.pods == n.pods + [pod] && added.state.cache == n.state.cache && added.pods[|n.pods|] == pod;
    PodAppended(n.pods, pod);
    PodReplaced(added.pods, |n.pods|, started);
    var changed := Next(added, PodChanged(|n.pods|, started), host);
    assert changed.pods == added.pods[|n.pods| := started] && changed.state.cache == n.state.cache;
    if key in n.state.cache {
      WritesIsTaker(n.state.cache[key], started, host);
      SameTaker(n.state.cache[key], started, pod, key.namespace, host);
    }
  }

  const EMPTY := Node(START, [])

  /**
   From an empty node, after any run of passes, edits, failures and pod events: the file of a rule for
   a pod that is not pending is there, with a content, exactly when the cached specification of the
   rule asks for it for the pods there are now.
   */
  lemma {:induction false} NodeAgreement(steps: seq<Step>, host: string, key: Key, uid: string, content: Content)
    requires ValidSteps(steps) && PlainKey(key) && PodUid(uid)
    requires uid !in NodePending(EMPTY, key, steps, host)
    ensures var end, f := NodeRun(EMPTY, steps, host), PodFile(key.namespace, uid, key.name);
            f in end.state.files && end.state.files[f] == content <==>
            FileOf(end.state, Cluster(end.pods, host), key, uid, f, content)
  {
    hide PodUid, Expected, NodePending, FileOf;
    assert InStep(START, key, {}, Cluster([], host));
    NodeRunInStep(EMPTY, key, steps, host);
    var end := NodeRun(EMPTY, steps, host);
    assert At(end.state.files, key, uid) == Target(end.state, key, Cluster(end.pods, host), uid);
    FileOfExactly(end.state, Cluster(end.pods, host), key, uid, PodFile(key.namespace, uid, key.name), content);
  }

  // ---- Nothing else in the directory ----

  lemma {:induction false} UpdatedAccounted(files: Files, items: seq<Item>, pod: Pod)
    requires Accounted(files) && ValidItems(items, pod.namespace) && PodUid(pod.uid)
    ensures Accounted(UpdatedFiles(files, items, pod))
  {
    hide Accounted, ApplyAll, PodOps, PodUid;
    if items != [] {
      var init, last := items[..|items| - 1], items[|items| - 1];
      UpdatedAccounted(files, init, pod);
      PodOpsValid(last.spec, pod);
      ApplyAccounted(UpdatedFiles(files, init, pod), last.key, PodOps(last.spec, pod));
    }
  }

  /** Events write no file but some rule's file for some pod. */
  lemma {:induction false} HandledAccounted(files: Files, h: Handling, items: seq<Item>, pod: Pod, stop: Stop)
    requires Accounted(files) && ValidItems(items, pod.namespace) && PodUid(pod.uid)
    ensures Accounted(HandledFiles(files, h, items, pod, stop))
  {
    hide ApplyAll, PodOps, PodUid, UpdatedFiles, Contains;
    if h.Rewrites? {
      UpdatedAccounted(files, items, pod);
      if stop.Stopped? && stop.item < |items| {
        var item, done := items[stop.item], UpdatedFiles(files, items[..stop.item], pod);
        UpdatedAccounted(files, items[..stop.item], pod);
        PodOpsValid(item.spec, pod);
        ApplyAccounted(done, item.key, CutOps(PodOps(item.spec, pod), stop.cut));
      }
    }
  }

  lemma {:induction false} NodeRunAccounted(n: Node, steps: seq<Step>, host: string)
    requires ValidPods(n.pods) && ValidSteps(steps) && Accounted(n.state.files)
    ensures ValidPods(NodeRun(n, steps, host).pods) && Accounted(NodeRun(n, steps, host).state.files)
  {
    hide Accounted, ValidPods, ApplyAll, HandledFiles, OnlyDiffers, Plan, ValidItems, CutOps;
    if steps != [] {
      var init, step := steps[..|steps| - 1], steps[|steps| - 1];
      NodeRunAccounted(n, init, host);
      var mid := NodeRun(n, init, host);
      if step.Pass? {
        var a, cl := step.action, Cluster(mid.pods, host);
        PlanFacts(mid.state, a, cl);
        ApplyAccounted(mid.state.files, a.key, CutOps(Plan(mid.state, a, cl), a.cut));
      } else if Possible(mid, step) {
        var e := EventOf(mid, step, host);
        EventFacts(mid, step, host);
        HandledAccounted(mid.state.files, e.h, e.items, e.pod, e.stop);
      }
    }
  }

  /** The file belongs to no pod that is pending for its rule, and the rule name holds no pod UID. */
  ghost predicate SettledFile(steps: seq<Step>, host: string, f: FileId) {
    forall key: Key, uid :: ValidKey(key) && PodUid(uid) && f == PodFile(key.namespace, uid, key.name) ==>
      PlainKey(key) && uid !in NodePending(EMPTY, key, steps, host)
  }

  /** The same for the directory as a whole: such a file is there exactly when a cached rule asks for it. */
  lemma {:induction false} NodeDirectory(steps: seq<Step>, host: string, f: FileId, content: Content)
    requires ValidSteps(steps) && SettledFile(steps, host, f)
    ensures var end := NodeRun(EMPTY, steps, host);
            f in end.state.files && end.state.files[f] == content <==>
            exists key: Key, uid :: FileOf(end.state, Cluster(end.pods, host), key, uid, f, content)
  {
    hide PodUid, Expected, NodePending, PlainKey, PodFile, NodeRun, FileOf;
    var end := NodeRun(EMPTY, steps, host);
    assert Accounted(map[]);
    NodeRunAccounted(EMPTY, steps, host);
    if f in end.state.files && end.state.files[f] == content {
      var key: Key, uid :| PodUid(uid) && f == PodFile(key.namespace, uid, key.name) && ValidKey(key);
      NodeAgreement(steps, host, key, uid, content);
    }
    if key: Key, uid :| FileOf(end.state, Cluster(end.pods, host), key, uid, f, content) {
      FileOfExactly(end.state, Cluster(end.pods, host), key, uid, f, content);
      NodeAgreement(steps, host, key, uid, content);
    }
  }
}
