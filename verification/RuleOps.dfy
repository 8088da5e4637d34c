/**
 What createEvent and deleteEvent do to the configuration files of one rule, as sequences of file
 operations, and what a finished or interrupted sequence leaves for each pod.
 */
module RuleOps {
  import opened Wrappers
  import opened Rules
  import opened ConfigFiles

  datatype Key = Key(namespace: string, name: string)

  /** The pods of the API server and the node this controller runs on. */
  datatype Cluster = Cluster(pods: seq<Pod>, host: string)

  datatype Op = Remove(uid: string) | Put(uid: string, content: Content)

  datatype Phase = Deleting | Creating

  predicate ValidPods(pods: seq<Pod>) {
    && (forall i | 0 <= i < |pods| :: PodUid(pods[i].uid))
    && (forall i, j | 0 <= i < j < |pods| :: pods[i].uid != pods[j].uid)
  }

  predicate ValidKey(key: Key) {
    key.name != "" && SafePodRule(key.name)
  }

  /** The collector is enabled and its selector lists the pod, which runs on this node. */
  predicate Takes(c: Collector, pod: Pod, namespace: string, host: string) {
    c.enable && pod.namespace == namespace && Selects(c.matchLabels, pod.labels) && pod.nodeName == host
  }

  function OpFor(phase: Phase, c: Collector, pod: Pod): Op {
    match phase
    case Deleting => Remove(pod.uid)
    case Creating => Put(pod.uid, PodConfig(c.containerRule, View(pod)))
  }

  function CollectorOps(phase: Phase, c: Collector, pods: seq<Pod>, namespace: string, host: string): seq<Op> {
    if pods == [] then []
    else
      var init := CollectorOps(phase, c, pods[..|pods| - 1], namespace, host);
      var pod := pods[|pods| - 1];
      if Takes(c, pod, namespace, host) then init + [OpFor(phase, c, pod)] else init
  }

  function SpecOps(phase: Phase, spec: Spec, cl: Cluster, namespace: string): seq<Op> {
    if spec == [] then []
    else
      SpecOps(phase, spec[..|spec| - 1], cl, namespace) +
      CollectorOps(phase, spec[|spec| - 1], cl.pods, namespace, cl.host)
  }

  function Apply(files: Files, key: Key, op: Op): Files {
    match op
    case Remove(uid) => Kept(files, key.namespace, PodPattern(uid, key.name))
    case Put(uid, content) => files[PodFile(key.namespace, uid, key.name) := content]
  }

  function ApplyAll(files: Files, key: Key, ops: seq<Op>): Files {
    if ops == [] then files
    else Apply(ApplyAll(files, key, ops[..|ops| - 1]), key, ops[|ops| - 1])
  }

  /** The rule's file for a pod. */
  function At(files: Files, key: Key, uid: string): Option<Content> {
    var f := PodFile(key.namespace, uid, key.name);
    if f in files then Some(files[f]) else None
  }

  // ---- What a rebuild from a specification would hold ----

  function PodWith(pods: seq<Pod>, uid: string): Option<Pod> {
    if pods == [] then None
    else if pods[|pods| - 1].uid == uid then Some(pods[|pods| - 1])
    else PodWith(pods[..|pods| - 1], uid)
  }

  /** The last collector that takes the pod: its file overwrites those before it. */
  function LastTaker(spec: Spec, pod: Pod, namespace: string, host: string): Option<Collector> {
    if spec == [] then None
    else if Takes(spec[|spec| - 1], pod, namespace, host) then Some(spec[|spec| - 1])
    else LastTaker(spec[..|spec| - 1], pod, namespace, host)
  }

  function Expected(spec: Spec, cl: Cluster, namespace: string, uid: string): Option<Content> {
    match PodWith(cl.pods, uid)
    case None => None
    case Some(pod) =>
      match LastTaker(spec, pod, namespace, cl.host)
      case None => None
      case Some(c) => Some(PodConfig(c.containerRule, View(pod)))
  }

  /** The pods a specification has files for. */
  predicate Reaches(spec: Spec, cl: Cluster, namespace: string, uid: string) {
    Expected(spec, cl, namespace, uid).Some?
  }

  // ---- The effect of operations ----

  lemma {:induction false} ApplyAt(files: Files, key: Key, op: Op, other: Key, uid: string)
    requires ValidKey(key) && ValidKey(other) && PodUid(op.uid) && PodUid(uid)
    ensures At(Apply(files, key, op), other, uid) ==
            if other == key && uid == op.uid then (if op.Put? then Some(op.content) else None)
            else At(files, other, uid)
  {
    DeletionIsExact(op.uid, key.name, uid, other.name);
    if PodFile(other.namespace, uid, other.name) == PodFile(key.namespace, op.uid, key.name) {
      PodFileInjective(other.namespace, uid, other.name, key.namespace, op.uid, key.name);
    }
  }

  lemma {:induction false} ApplyAppend(files: Files, key: Key, a: seq<Op>, b: seq<Op>)
    ensures ApplyAll(files, key, a + b) == ApplyAll(ApplyAll(files, key, a), key, b)
  {
    if b == [] {
      assert a + b == a;
    } else {
      assert (a + b)[..|a + b| - 1] == a + b[..|b| - 1];
      ApplyAppend(files, key, a, b[..|b| - 1]);
    }
  }

  ghost predicate ValidOps(ops: seq<Op>) {
    forall op :: op in ops ==> PodUid(op.uid)
  }

  /** Operations on other pods, or for other rules, change nothing here. */
  lemma {:induction false} ApplyElsewhere(files: Files, key: Key, ops: seq<Op>, other: Key, uid: string)
    requires ValidKey(key) && ValidKey(other) && ValidOps(ops) && PodUid(uid)
    requires other != key || forall op :: op in ops ==> op.uid != uid
    ensures At(ApplyAll(files, key, ops), other, uid) == At(files, other, uid)
  {
    if ops != [] {
      var init, op := ops[..|ops| - 1], ops[|ops| - 1];
      ApplyElsewhere(files, key, init, other, uid);
      ApplyAt(ApplyAll(files, key, init), key, op, other, uid);
    }
  }

  lemma {:induction false} PodWithMember(pods: seq<Pod>, i: int)
    requires ValidPods(pods) && 0 <= i < |pods|
    ensures PodWith(pods, pods[i].uid) == Some(pods[i])
  {
    if i < |pods| - 1 {
      PodWithMember(pods[..|pods| - 1], i);
    }
  }

  lemma {:induction false} PodWithOrigin(pods: seq<Pod>, uid: string)
    ensures PodWith(pods, uid).Some? ==> PodWith(pods, uid).value in pods && PodWith(pods, uid).value.uid == uid
    ensures PodWith(pods, uid).None? ==> forall i :: 0 <= i < |pods| ==> pods[i].uid != uid
  {
    if pods != [] {
      PodWithOrigin(pods[..|pods| - 1], uid);
    }
  }

  lemma {:induction false} CollectorOpsValid(phase: Phase, c: Collector, pods: seq<Pod>, namespace: string,
                                             host: string)
    requires ValidPods(pods)
    ensures ValidOps(CollectorOps(phase, c, pods, namespace, host))
    ensures forall op :: op in CollectorOps(phase, c, pods, namespace, host) ==>
              exists i :: 0 <= i < |pods| && pods[i].uid == op.uid && Takes(c, pods[i], namespace, host)
  {
    if pods != [] {
      var init := pods[..|pods| - 1];
      CollectorOpsValid(phase, c, init, namespace, host);
      forall op | op in CollectorOps(phase, c, init, namespace, host)
        ensures exists i :: 0 <= i < |pods| && pods[i].uid == op.uid && Takes(c, pods[i], namespace, host)
      {
        var i :| 0 <= i < |init| && init[i].uid == op.uid && Takes(c, init[i], namespace, host);
        assert pods[i] == init[i];
      }
    }
  }

  /** One collector reaches each pod that it is meant for, and no other. */
  lemma {:induction false} CollectorAt(files: Files, key: Key, phase: Phase, c: Collector, pods: seq<Pod>, host: string,
                                       uid: string)
    requires ValidKey(key) && ValidPods(pods) && PodUid(uid)
    ensures At(ApplyAll(files, key, CollectorOps(phase, c, pods, key.namespace, host)), key, uid) ==
            match PodWith(pods, uid)
            case Some(pod) =>
              if !MeantFor(c, pod, key.namespace, host) then At(files, key, uid)
              else if phase == Creating then Some(PodConfig(c.containerRule, View(pod)))
              else None
            case None => At(files, key, uid)
  {
    hide At, Apply, Takes, PodUid, MeantFor, View;
    if pods != [] {
      var init, pod := pods[..|pods| - 1], pods[|pods| - 1];
      TakesExactly(c, pod, key.namespace, host);
      CollectorAt(files, key, phase, c, init, host, uid);
      var ops := CollectorOps(phase, c, init, key.namespace, host);
      if Takes(c, pod, key.namespace, host) {
        ApplySnoc(files, key, ops, OpFor(phase, c, pod));
        ApplyAt(ApplyAll(files, key, ops), key, OpFor(phase, c, pod), key, uid);
      }
      if pod.uid == uid {
        PodWithOrigin(init, uid);
      }
    }
  }

  lemma {:induction false} ApplySnoc(files: Files, key: Key, ops: seq<Op>, op: Op)
    ensures ApplyAll(files, key, ops + [op]) == Apply(ApplyAll(files, key, ops), key, op)
  {
    assert (ops + [op])[..|ops|] == ops;
  }

  /**
   A finished deleteEvent leaves the rule no file for the pods of the specification; a finished
   createEvent leaves each of them what a rebuild would hold.  Other pods keep what they had.
   */
  lemma {:induction false} SpecAt(files: Files, key: Key, phase: Phase, spec: Spec, cl: Cluster, uid: string)
    requires ValidKey(key) && ValidPods(cl.pods) && PodUid(uid)
    ensures At(ApplyAll(files, key, SpecOps(phase, spec, cl, key.namespace)), key, uid) ==
            if Reaches(spec, cl, key.namespace, uid)
            then (if phase == Creating then Expected(spec, cl, key.namespace, uid) else None)
            else At(files, key, uid)
  {
    hide At, CollectorOps, Takes, MeantFor, PodWith;
    if spec != [] {
      var init, c := spec[..|spec| - 1], spec[|spec| - 1];
      if PodWith(cl.pods, uid).Some? {
        TakesExactly(c, PodWith(cl.pods, uid).value, key.namespace, cl.host);
      }
      var ops := SpecOps(phase, init, cl, key.namespace);
      SpecAt(files, key, phase, init, cl, uid);
      ApplyAppend(files, key, ops, CollectorOps(phase, c, cl.pods, key.namespace, cl.host));
      CollectorAt(ApplyAll(files, key, ops), key, phase, c, cl.pods, cl.host, uid);
    }
  }

  /** Every operation is for a pod the specification reaches. */
  lemma {:induction false} SpecOpsReach(phase: Phase, spec: Spec, cl: Cluster, namespace: string)
    requires ValidPods(cl.pods)
    ensures ValidOps(SpecOps(phase, spec, cl, namespace))
    ensures forall op :: op in SpecOps(phase, spec, cl, namespace) ==> Reaches(spec, cl, namespace, op.uid)
  {
    hide CollectorOps, Takes, PodWith;
    if spec != [] {
      var init, c := spec[..|spec| - 1], spec[|spec| - 1];
      SpecOpsReach(phase, init, cl, namespace);
      CollectorOpsValid(phase, c, cl.pods, namespace, cl.host);
      forall op | op in CollectorOps(phase, c, cl.pods, namespace, cl.host)
        ensures Reaches(spec, cl, namespace, op.uid)
      {
        var i :| 0 <= i < |cl.pods| && cl.pods[i].uid == op.uid && Takes(c, cl.pods[i], namespace, cl.host);
        PodWithMember(cl.pods, i);
      }
    }
  }

  // ---- No stray files ----

  // ---- Which pods get a file ----

  /** An enabled collector with the labels of a pod of the namespace that runs on the node. */
  ghost predicate MeantFor(c: Collector, pod: Pod, namespace: string, host: string) {
    && c.enable && pod.nodeName == host && pod.namespace == namespace
    && c.matchLabels.Items <= pod.labels.Items
  }

  /** The last collector that is meant for the pod. */
  ghost predicate LastMeant(spec: Spec, i: int, pod: Pod, namespace: string, host: string) {
    && 0 <= i < |spec| && MeantFor(spec[i], pod, namespace, host)
    && forall j :: i < j < |spec| ==> !MeantFor(spec[j], pod, namespace, host)
  }

  lemma {:induction false} TakesExactly(c: Collector, pod: Pod, namespace: string, host: string)
    ensures Takes(c, pod, namespace, host) <==> MeantFor(c, pod, namespace, host)
  {
    SelectsExactly(c.matchLabels, pod.labels);
  }

  lemma {:induction false} TakerAt(spec: Spec, pod: Pod, namespace: string, host: string) returns (i: int)
    ensures LastTaker(spec, pod, namespace, host).None? ==>
              forall j :: 0 <= j < |spec| ==> !MeantFor(spec[j], pod, namespace, host)
    ensures LastTaker(spec, pod, namespace, host).Some? ==>
              LastMeant(spec, i, pod, namespace, host) && LastTaker(spec, pod, namespace, host) == Some(spec[i])
  {
    hide MeantFor, Takes;
    i := |spec| - 1;
    if spec != [] {
      TakesExactly(spec[i], pod, namespace, host);
      if !Takes(spec[i], pod, namespace, host) {
        i := TakerAt(spec[..i], pod, namespace, host);
      }
    }
  }

  /** A collector takes a pod exactly when one is meant for it, and it is the last one. */
  lemma {:induction false} TakerExactly(spec: Spec, pod: Pod, namespace: string, host: string)
    ensures LastTaker(spec, pod, namespace, host).Some? <==>
            exists i :: 0 <= i < |spec| && MeantFor(spec[i], pod, namespace, host)
    ensures LastTaker(spec, pod, namespace, host).Some? ==> exists i :: LastMeant(spec, i, pod, namespace, host)
    ensures forall i :: LastMeant(spec, i, pod, namespace, host) ==>
                        LastTaker(spec, pod, namespace, host) == Some(spec[i])
  {
    hide MeantFor, LastTaker;
    var i := TakerAt(spec, pod, namespace, host);
  }

  /** The specification asks for this content for pod p: that of collector i, the last one meant for it. */
  ghost predicate AsksFor(spec: Spec, cl: Cluster, namespace: string, p: int, i: int, uid: string, content: Content) {
    && 0 <= p < |cl.pods| && cl.pods[p].uid == uid
    && LastMeant(spec, i, cl.pods[p], namespace, cl.host)
    && content == PodConfig(spec[i].containerRule, View(cl.pods[p]))
  }

  /** What a rebuild would hold for a pod is what the specification asks for. */
  lemma {:induction false} ExpectedExactly(spec: Spec, cl: Cluster, namespace: string, uid: string, content: Content)
    requires ValidPods(cl.pods)
    ensures Expected(spec, cl, namespace, uid) == Some(content) <==>
            exists p, i :: AsksFor(spec, cl, namespace, p, i, uid, content)
  {
    hide MeantFor, Takes, PodUid, LastTaker, View;
    PodWithOrigin(cl.pods, uid);
    if Expected(spec, cl, namespace, uid) == Some(content) {
      var p :| 0 <= p < |cl.pods| && cl.pods[p] == PodWith(cl.pods, uid).value;
      TakerExactly(spec, cl.pods[p], namespace, cl.host);
      var i :| LastMeant(spec, i, cl.pods[p], namespace, cl.host);
      assert AsksFor(spec, cl, namespace, p, i, uid, content);
    }
    if p, i :| AsksFor(spec, cl, namespace, p, i, uid, content) {
      PodWithMember(cl.pods, p);
      TakerExactly(spec, cl.pods[p], namespace, cl.host);
    }
  }

  /** The operation for collector i and pod p. */
  ghost predicate OpOf(phase: Phase, spec: Spec, cl: Cluster, namespace: string, p: int, i: int, op: Op) {
    && 0 <= p < |cl.pods| && 0 <= i < |spec| && MeantFor(spec[i], cl.pods[p], namespace, cl.host)
    && op == if phase == Creating then Put(cl.pods[p].uid, PodConfig(spec[i].containerRule, View(cl.pods[p])))
             else Remove(cl.pods[p].uid)
  }

  lemma {:induction false} CollectorOpsExactly(phase: Phase, c: Collector, pods: seq<Pod>, namespace: string,
                                               host: string, op: Op)
    ensures op in CollectorOps(phase, c, pods, namespace, host) <==>
            exists p :: OpOf(phase, [c], Cluster(pods, host), namespace, p, 0, op)
  {
    hide MeantFor, Takes, View;
    if pods != [] {
      var n := |pods| - 1;
      CollectorOpsExactly(phase, c, pods[..n], namespace, host, op);
      TakesExactly(c, pods[n], namespace, host);
      if p :| OpOf(phase, [c], Cluster(pods[..n], host), namespace, p, 0, op) {
        assert OpOf(phase, [c], Cluster(pods, host), namespace, p, 0, op);
      }
      if p :| OpOf(phase, [c], Cluster(pods, host), namespace, p, 0, op) {
        assert p < n ==> OpOf(phase, [c], Cluster(pods[..n], host), namespace, p, 0, op);
      }
      if Takes(c, pods[n], namespace, host) && op == OpFor(phase, c, pods[n]) {
        assert OpOf(phase, [c], Cluster(pods, host), namespace, n, 0, op);
      }
    }
  }

  /** The operations of a pass are those for a pod and an enabled collector meant for it, and no others. */
  lemma {:induction false} OpsExactly(phase: Phase, spec: Spec, cl: Cluster, namespace: string, op: Op)
    ensures op in SpecOps(phase, spec, cl, namespace) <==>
            exists p, i :: OpOf(phase, spec, cl, namespace, p, i, op)
  {
    hide MeantFor, CollectorOps, View;
    if spec != [] {
      var n := |spec| - 1;
      OpsExactly(phase, spec[..n], cl, namespace, op);
      CollectorOpsExactly(phase, spec[n], cl.pods, namespace, cl.host, op);
      if p, i :| OpOf(phase, spec[..n], cl, namespace, p, i, op) {
        assert OpOf(phase, spec, cl, namespace, p, i, op);
      }
      if p :| OpOf(phase, [spec[n]], Cluster(cl.pods, cl.host), namespace, p, 0, op) {
        assert OpOf(phase, spec, cl, namespace, p, n, op);
      }
      if p, i :| OpOf(phase, spec, cl, namespace, p, i, op) {
        if i < n {
          assert OpOf(phase, spec[..n], cl, namespace, p, i, op);
        } else {
          assert OpOf(phase, [spec[n]], Cluster(cl.pods, cl.host), namespace, p, 0, op);
        }
      }
    }
  }

  // ---- The directory ----

  /** Every file is some rule's file for some pod. */
  ghost predicate Accounted(files: Files) {
    forall f :: f in files ==>
      exists key: Key, uid :: PodUid(uid) && f == PodFile(key.namespace, uid, key.name) && ValidKey(key)
  }

  lemma {:induction false} ApplyAccounted(files: Files, key: Key, ops: seq<Op>)
    requires Accounted(files) && ValidOps(ops) && ValidKey(key)
    ensures Accounted(ApplyAll(files, key, ops))
  {
    if ops != [] {
      var init, op := ops[..|ops| - 1], ops[|ops| - 1];
      ApplyAccounted(files, key, init);
      ApplyOneAccounted(ApplyAll(files, key, init), key, op);
    }
  }

  lemma {:induction false} ApplyOneAccounted(files: Files, key: Key, op: Op)
    requires Accounted(files) && PodUid(op.uid) && ValidKey(key)
    ensures Accounted(Apply(files, key, op))
  {
    hide PodUid, ValidKey, ConfigName;
  }
}
