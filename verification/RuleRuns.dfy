/**
 Runs of the rule reconciler on one node, as seen by its cache and its files.  The pods are fixed.
 What a pass reads of a rule is arbitrary, so every user edit and every stale read is covered, and
 a pass may fail after any number of file operations.
 */
module RuleRuns {
  import opened Wrappers
  import opened Rules
  import opened ConfigFiles
  import opened RuleOps

  /** The cache holds the specification last applied to each rule. */
  datatype State = State(cache: map<Key, Spec>, files: Files)

  /** A pass finishes its file operations, or stops after some; the next write may be left torn. */
  datatype Cut = Done | Broken(after: nat, torn: bool)

  /** A pass over a live rule, with the specification it read and the one it writes, or over a deleted one. */
  datatype Action =
    | Sync(key: Key, seen: Spec, filled: Spec, cut: Cut)
    | Drop(key: Key, seen: Spec, cut: Cut)

  /** The operations of an update, a creation or a deletion. */
  function Plan(s: State, a: Action, cl: Cluster): seq<Op> {
    match a
    case Sync(key, seen, filled, _) =>
      (if key in s.cache then SpecOps(Deleting, s.cache[key], cl, key.namespace) else []) +
      SpecOps(Creating, filled, cl, key.namespace)
    case Drop(key, seen, _) => SpecOps(Deleting, seen, cl, key.namespace)
  }

  /** An interrupted plan. */
  function CutOps(ops: seq<Op>, cut: Cut): seq<Op> {
    match cut
    case Done => ops
    case Broken(n, torn) =>
      if n >= |ops| then ops
      else if torn && ops[n].Put? then ops[..n] + [Put(ops[n].uid, Torn)]
      else ops[..n]
  }

  /** A specification equal to the cached one is skipped. */
  predicate Skips(s: State, a: Action) {
    a.Sync? && a.key in s.cache && a.seen == s.cache[a.key]
  }

  function Do(s: State, a: Action, cl: Cluster): State {
    if Skips(s, a) then s
    else
      var files := ApplyAll(s.files, a.key, CutOps(Plan(s, a, cl), a.cut));
      if a.cut != Done then s.(files := files)
      else if a.Sync? then State(s.cache[a.key := a.filled], files)
      else State(s.cache - {a.key}, files)
  }

  function Run(s: State, actions: seq<Action>, cl: Cluster): State {
    if actions == [] then s
    else Do(Run(s, actions[..|actions| - 1], cl), actions[|actions| - 1], cl)
  }

  // ---- The invariant ----

  /** What the rule's file for a pod should be: as a rebuild from the cached specification. */
  function Target(s: State, key: Key, cl: Cluster, uid: string): Option<Content> {
    if key in s.cache then Expected(s.cache[key], cl, key.namespace, uid) else None
  }

  function PlanReach(s: State, a: Action, cl: Cluster): set<string> {
    set i | 0 <= i < |cl.pods| &&
      ((a.key in s.cache && a.Sync? && Reaches(s.cache[a.key], cl, a.key.namespace, cl.pods[i].uid))
       || Reaches(if a.Sync? then a.filled else a.seen, cl, a.key.namespace, cl.pods[i].uid)) :: cl.pods[i].uid
  }

  function CacheReach(s: State, key: Key, cl: Cluster): set<string> {
    set i | 0 <= i < |cl.pods| && key in s.cache && Reaches(s.cache[key], cl, key.namespace, cl.pods[i].uid) ::
      cl.pods[i].uid
  }

  /**
   The pods whose file for a rule may be out of step with the cache.  A failed pass adds the pods
   of its plan; a finished one settles the pods of its plan.  A deletion goes by the specification
   it reads, so pods only the cached one reaches are left over.
   */
  function Pending(s: State, key: Key, pending: set<string>, a: Action, cl: Cluster): set<string> {
    if a.key != key || Skips(s, a) then pending
    else if a.cut != Done then pending + PlanReach(s, a, cl)
    else if a.Sync? then pending - PlanReach(s, a, cl)
    else (pending + CacheReach(s, key, cl)) - PlanReach(s, a, cl)
  }

  /** Outside the pending pods, the rule's files are those of a rebuild from the cache. */
  ghost predicate InStep(s: State, key: Key, pending: set<string>, cl: Cluster) {
    forall uid :: PodUid(uid) && uid !in pending ==> At(s.files, key, uid) == Target(s, key, cl, uid)
  }

  ghost predicate ValidAction(a: Action) {
    ValidKey(a.key)
  }

  lemma {:induction false} ReachedPod(spec: Spec, cl: Cluster, namespace: string, uid: string) returns (i: nat)
    requires Reaches(spec, cl, namespace, uid)
    ensures i < |cl.pods| && cl.pods[i].uid == uid
  {
    PodWithOrigin(cl.pods, uid);
    i :| 0 <= i < |cl.pods| && cl.pods[i] == PodWith(cl.pods, uid).value;
  }

  lemma {:induction false} PlanFacts(s: State, a: Action, cl: Cluster)
    requires ValidPods(cl.pods)
    ensures ValidOps(CutOps(Plan(s, a, cl), a.cut))
    ensures forall op :: op in CutOps(Plan(s, a, cl), a.cut) ==> op.uid in PlanReach(s, a, cl)
  {
    hide SpecOps, Expected, PodUid;
    var spec := if a.Sync? then a.filled else a.seen;
    var phase := if a.Sync? then Creating else Deleting;
    SpecOpsReach(phase, spec, cl, a.key.namespace);
    if a.Sync? && a.key in s.cache {
      SpecOpsReach(Deleting, s.cache[a.key], cl, a.key.namespace);
    }
    forall op | op in Plan(s, a, cl)
      ensures op.uid in PlanReach(s, a, cl)
    {
      if Reaches(spec, cl, a.key.namespace, op.uid) {
        var i := ReachedPod(spec, cl, a.key.namespace, op.uid);
      } else {
        var i := ReachedPod(s.cache[a.key], cl, a.key.namespace, op.uid);
      }
    }
  }

  /** What a finished pass leaves for a pod. */
  lemma {:induction false} PlanAt(s: State, a: Action, cl: Cluster, uid: string)
    requires ValidKey(a.key) && ValidPods(cl.pods) && PodUid(uid)
    ensures At(ApplyAll(s.files, a.key, Plan(s, a, cl)), a.key, uid) ==
            if a.Sync? && Reaches(a.filled, cl, a.key.namespace, uid) then Expected(a.filled, cl, a.key.namespace, uid)
            else if uid in PlanReach(s, a, cl) then None
            else At(s.files, a.key, uid)
  {
    hide SpecOps, Expected, At, PodUid;
    var spec := if a.Sync? then a.filled else a.seen;
    if Reaches(spec, cl, a.key.namespace, uid) {
      var i := ReachedPod(spec, cl, a.key.namespace, uid);
    }
    if a.Drop? {
      SpecAt(s.files, a.key, Deleting, a.seen, cl, uid);
    } else {
      var first := if a.key in s.cache then SpecOps(Deleting, s.cache[a.key], cl, a.key.namespace) else [];
      ApplyAppend(s.files, a.key, first, SpecOps(Creating, a.filled, cl, a.key.namespace));
      SpecAt(ApplyAll(s.files, a.key, first), a.key, Creating, a.filled, cl, uid);
      if a.key in s.cache {
        SpecAt(s.files, a.key, Deleting, s.cache[a.key], cl, uid);
        if Reaches(s.cache[a.key], cl, a.key.namespace, uid) {
          var i := ReachedPod(s.cache[a.key], cl, a.key.namespace, uid);
        }
      }
    }
  }

  /** Every pass keeps the files of every rule in step with the cache, outside the pending pods. */
  lemma {:induction false} StepInStep(s: State, key: Key, pending: set<string>, a: Action, cl: Cluster)
    requires ValidPods(cl.pods) && ValidAction(a) && ValidKey(key)
    requires InStep(s, key, pending, cl)
    ensures InStep(Do(s, a, cl), key, Pending(s, key, pending, a, cl), cl)
  {
    hide SpecOps, Expected, At, PodUid, ApplyAll, Plan, PlanReach, CacheReach, CutOps;
    if !Skips(s, a) {
      PlanFacts(s, a, cl);
      var t, still := Do(s, a, cl), Pending(s, key, pending, a, cl);
      forall uid | PodUid(uid) && uid !in still
        ensures At(t.files, key, uid) == Target(t, key, cl, uid)
      {
        StepAt(s, key, pending, a, cl, uid);
      }
    }
  }

  lemma {:induction false} StepAt(s: State, key: Key, pending: set<string>, a: Action, cl: Cluster, uid: string)
    requires ValidPods(cl.pods) && ValidAction(a) && ValidKey(key) && !Skips(s, a)
    requires InStep(s, key, pending, cl) && PodUid(uid) && uid !in Pending(s, key, pending, a, cl)
    ensures At(Do(s, a, cl).files, key, uid) == Target(Do(s, a, cl), key, cl, uid)
  {
    hide SpecOps, Expected, At, PodUid, ApplyAll, Plan;
    PlanFacts(s, a, cl);
    if a.key != key || uid !in PlanReach(s, a, cl) || a.cut != Done {
      ApplyElsewhere(s.files, a.key, CutOps(Plan(s, a, cl), a.cut), key, uid);
    }
    if a.key == key && a.cut == Done {
      PlanAt(s, a, cl, uid);
      NotReached(s, a, cl, uid);
    }
  }

  /** A pod outside the plan is reached by neither specification. */
  lemma {:induction false} NotReached(s: State, a: Action, cl: Cluster, uid: string)
    ensures uid !in PlanReach(s, a, cl) ==>
              && !Reaches(if a.Sync? then a.filled else a.seen, cl, a.key.namespace, uid)
              && (a.Sync? && a.key in s.cache ==> !Reaches(s.cache[a.key], cl, a.key.namespace, uid))
    ensures uid !in CacheReach(s, a.key, cl) ==> a.key in s.cache ==> !Reaches(s.cache[a.key], cl, a.key.namespace, uid)
  {
    hide Expected;
    var spec := if a.Sync? then a.filled else a.seen;
    if Reaches(spec, cl, a.key.namespace, uid) {
      var i := ReachedPod(spec, cl, a.key.namespace, uid);
    }
    if a.key in s.cache && Reaches(s.cache[a.key], cl, a.key.namespace, uid) {
      var i := ReachedPod(s.cache[a.key], cl, a.key.namespace, uid);
    }
  }

  // ---- Whole runs ----

  /** The pending pods after a run that starts with none. */
  function PendingAfter(s: State, key: Key, actions: seq<Action>, cl: Cluster): set<string> {
    if actions == [] then {}
    else
      var init := actions[..|actions| - 1];
      Pending(Run(s, init, cl), key, PendingAfter(s, key, init, cl), actions[|actions| - 1], cl)
  }

  ghost predicate ValidActions(actions: seq<Action>) {
    forall i :: 0 <= i < |actions| ==> ValidAction(actions[i])
  }

  /** Whatever is edited, misread or interrupted, only pending pods are ever out of step. */
  lemma {:induction false} RunInStep(s: State, key: Key, actions: seq<Action>, cl: Cluster)
    requires ValidPods(cl.pods) && ValidActions(actions) && ValidKey(key) && InStep(s, key, {}, cl)
    ensures InStep(Run(s, actions, cl), key, PendingAfter(s, key, actions, cl), cl)
  {
    if actions != [] {
      var init := actions[..|actions| - 1];
      RunInStep(s, key, init, cl);
      StepInStep(Run(s, init, cl), key, PendingAfter(s, key, init, cl), actions[|actions| - 1], cl);
    }
  }

  /** A deletion that reads a specification reaching every pod the cached one reaches. */
  predicate Covers(s: State, a: Action, cl: Cluster) {
    a.Drop? ==> CacheReach(s, a.key, cl) <= PlanReach(s, a, cl)
  }

  /** No pass fails, and deletions reach what was cached. */
  ghost predicate Smooth(s: State, actions: seq<Action>, cl: Cluster) {
    actions == [] ||
    (var init, last := actions[..|actions| - 1], actions[|actions| - 1];
     Smooth(s, init, cl) && last.cut == Done && Covers(Run(s, init, cl), last, cl))
  }

  lemma {:induction false} SmoothLeavesNonePending(s: State, key: Key, actions: seq<Action>, cl: Cluster)
    requires Smooth(s, actions, cl)
    ensures PendingAfter(s, key, actions, cl) == {}
  {
    if actions != [] {
      SmoothLeavesNonePending(s, key, actions[..|actions| - 1], cl);
    }
  }

  lemma {:induction false} RunAccounted(s: State, actions: seq<Action>, cl: Cluster)
    requires ValidPods(cl.pods) && ValidActions(actions) && Accounted(s.files)
    ensures Accounted(Run(s, actions, cl).files)
  {
    if actions != [] {
      var init, a := actions[..|actions| - 1], actions[|actions| - 1];
      RunAccounted(s, init, cl);
      var t := Run(s, init, cl);
      PlanFacts(t, a, cl);
      ApplyAccounted(t.files, a.key, CutOps(Plan(t, a, cl), a.cut));
    }
  }

  const START := State(map[], map[])

  /**
   After every smooth run the directory holds exactly one file for each cached rule and each local
   pod an enabled collector of it selects, with the content of the last such collector.
   */
  lemma {:induction false} WholeRunAgreement(actions: seq<Action>, cl: Cluster, f: FileId, content: Content)
    requires ValidPods(cl.pods) && ValidActions(actions) && Smooth(START, actions, cl)
    ensures var s := Run(START, actions, cl);
            f in s.files && s.files[f] == content <==>
            exists key: Key, uid :: FileOf(s, cl, key, uid, f, content)
  {
    var s := Run(START, actions, cl);
    assert Accounted(START.files);
    RunAccounted(START, actions, cl);
    if f in s.files && s.files[f] == content {
      var key: Key, uid :| PodUid(uid) && f == PodFile(key.namespace, uid, key.name) && ValidKey(key);
      InStepAfterSmooth(actions, key, cl);
      FileOfExactly(s, cl, key, uid, f, content);
      assert FileOf(s, cl, key, uid, f, content);
    }
    if key: Key, uid :| FileOf(s, cl, key, uid, f, content) {
      InStepAfterSmooth(actions, key, cl);
      FileOfExactly(s, cl, key, uid, f, content);
      assert At(s.files, key, uid) == Some(content);
    }
  }

  /** The file that the cached specification of a rule asks for, for a pod of the cluster. */
  ghost predicate FileOf(s: State, cl: Cluster, key: Key, uid: string, f: FileId, content: Content) {
    && ValidKey(key) && PodUid(uid) && f == FileId(key.namespace, uid + "-by-" + key.name + ".yml")
    && key in s.cache && exists p, i :: AsksFor(s.cache[key], cl, key.namespace, p, i, uid, content)
  }

  lemma {:induction false} FileOfExactly(s: State, cl: Cluster, key: Key, uid: string, f: FileId, content: Content)
    requires ValidPods(cl.pods)
    ensures FileOf(s, cl, key, uid, f, content) <==>
            && ValidKey(key) && PodUid(uid) && f == PodFile(key.namespace, uid, key.name)
            && Target(s, key, cl, uid) == Some(content)
  {
    hide PodUid, ValidKey, Expected;
    if key in s.cache {
      ExpectedExactly(s.cache[key], cl, key.namespace, uid, content);
    }
  }

  lemma {:induction false} InStepAfterSmooth(actions: seq<Action>, key: Key, cl: Cluster)
    requires ValidPods(cl.pods) && ValidActions(actions) && Smooth(START, actions, cl) && ValidKey(key)
    ensures InStep(Run(START, actions, cl), key, {}, cl)
  {
    assert InStep(START, key, {}, cl);
    RunInStep(START, key, actions, cl);
    SmoothLeavesNonePending(START, key, actions, cl);
  }

  // ---- Retries ----

  /** A failed attempt at a rule, aiming at pods that the cached or the final specification reaches. */
  ghost predicate Attempt(s: State, key: Key, a: Action, final: Action, cl: Cluster) {
    && a.Sync? && a.key == key && a.cut != Done && !Skips(s, a)
    && PlanReach(s, a, cl) <= PlanReach(s, final, cl)
  }

  lemma {:induction false} AttemptsPend(s: State, key: Key, attempts: seq<Action>, final: Action, cl: Cluster)
    requires final.key == key
    requires forall i :: 0 <= i < |attempts| ==> attempts[i].key != key || Attempt(s, key, attempts[i], final, cl)
    ensures var t := Run(s, attempts, cl);
            && (key in t.cache <==> key in s.cache) && (key in s.cache ==> t.cache[key] == s.cache[key])
    ensures PendingAfter(s, key, attempts, cl) <= PlanReach(s, final, cl)
  {
    hide ApplyAll, Plan, CutOps;
    if attempts != [] {
      var init, a := attempts[..|attempts| - 1], attempts[|attempts| - 1];
      AttemptsPend(s, key, init, final, cl);
      if a.key == key {
        SamePlanReach(s, Run(s, init, cl), a, cl);
      }
    }
  }

  lemma {:induction false} SamePlanReach(s: State, t: State, a: Action, cl: Cluster)
    requires a.key in t.cache <==> a.key in s.cache
    requires a.key in s.cache ==> t.cache[a.key] == s.cache[a.key]
    ensures PlanReach(t, a, cl) == PlanReach(s, a, cl)
    ensures Skips(t, a) <==> Skips(s, a)
  {
    hide Reaches;
  }

  /**
   Any number of attempts that fail anywhere, with passes over other rules between them, followed
   by a pass that finishes, leave exactly the files of a rebuild from the new specification.
   */
  lemma {:induction false} RetryConverges(s: State, attempts: seq<Action>, final: Action, cl: Cluster)
    requires ValidPods(cl.pods) && ValidActions(attempts) && ValidAction(final) && InStep(s, final.key, {}, cl)
    requires final.Sync? && final.cut == Done && !Skips(s, final)
    requires forall i :: 0 <= i < |attempts| ==>
               attempts[i].key != final.key || Attempt(s, final.key, attempts[i], final, cl)
    ensures var t := Run(s, attempts + [final], cl);
            && final.key in t.cache && t.cache[final.key] == final.filled
            && InStep(t, final.key, {}, cl)
  {
    var actions := attempts + [final];
    assert actions[..|attempts|] == attempts;
    var u := Run(s, attempts, cl);
    AttemptsPend(s, final.key, attempts, final, cl);
    SamePlanReach(s, u, final, cl);
    RunInStep(s, final.key, actions, cl);
    assert PendingAfter(s, final.key, actions, cl) == {};
  }

  /** Passes over one rule leave the files of another as they are. */
  lemma {:induction false} OtherRulesUntouched(s: State, a: Action, cl: Cluster, other: Key, uid: string)
    requires ValidPods(cl.pods) && ValidAction(a) && ValidKey(other) && PodUid(uid) && other != a.key
    ensures At(Do(s, a, cl).files, other, uid) == At(s.files, other, uid)
  {
    PlanFacts(s, a, cl);
    ApplyElsewhere(s.files, a.key, CutOps(Plan(s, a, cl), a.cut), other, uid);
  }

  // ---- What goes wrong otherwise ----

  /** A finished update is a rebuild exactly when no file was left at a pod outside its plan. */
  lemma {:induction false} SuccessExact(s: State, a: Action, cl: Cluster)
    requires ValidPods(cl.pods) && ValidAction(a) && a.Sync? && a.cut == Done && !Skips(s, a)
    ensures (forall uid :: PodUid(uid) ==>
               At(Do(s, a, cl).files, a.key, uid) == Expected(a.filled, cl, a.key.namespace, uid)) <==>
            (forall uid :: PodUid(uid) && uid !in PlanReach(s, a, cl) ==> At(s.files, a.key, uid) == None)
  {
    hide PlanReach, Expected, ApplyAll, Plan, At, PodUid;
    forall uid | PodUid(uid)
      ensures uid in PlanReach(s, a, cl) ==>
                At(Do(s, a, cl).files, a.key, uid) == Expected(a.filled, cl, a.key.namespace, uid)
      ensures uid !in PlanReach(s, a, cl) ==>
                && At(Do(s, a, cl).files, a.key, uid) == At(s.files, a.key, uid)
                && Expected(a.filled, cl, a.key.namespace, uid) == None
    {
      PlanAt(s, a, cl, uid);
      NotReached(s, a, cl, uid);
    }
  }

  /** With two edits, a file the first, failed update wrote for a pod only it reaches stays behind. */
  lemma {:induction false} OrphanAfterTwoEdits(s: State, first: Action, second: Action, cl: Cluster, uid: string)
    requires ValidPods(cl.pods) && ValidAction(first) && ValidAction(second) && second.key == first.key && PodUid(uid)
    requires first.Sync? && first.cut != Done && !Skips(s, first)
    requires second.Sync? && second.cut == Done && !Skips(s, second)
    requires uid !in PlanReach(s, second, cl) && At(Do(s, first, cl).files, first.key, uid).Some?
    ensures var t := Run(s, [first, second], cl);
            && At(t.files, first.key, uid).Some?
            && t.cache[first.key] == second.filled && !Reaches(second.filled, cl, first.key.namespace, uid)
  {
    var t := Do(s, first, cl);
    assert [first, second][..1] == [first] && [first][..0] == [];
    assert Run(s, [first], cl) == Do(Run(s, [], cl), first, cl);
    assert Run(s, [first, second], cl) == Do(Run(s, [first], cl), second, cl);
    SamePlanReach(s, t, second, cl);
    PlanAt(t, second, cl, uid);
    NotReached(t, second, cl, uid);
  }

  /**
   An update that fails after its deletions, followed by a return to the cached specification, is
   skipped: the deleted files are not written again.
   */
  lemma {:induction false} RevertSkips(s: State, key: Key, edited: Action, reverted: Action, cl: Cluster, uid: string)
    requires ValidPods(cl.pods) && ValidKey(key) && key in s.cache && PodUid(uid)
    requires edited.Sync? && edited.key == key && !Skips(s, edited)
    requires edited.cut == Broken(|SpecOps(Deleting, s.cache[key], cl, key.namespace)|, false)
    requires reverted.Sync? && reverted.key == key && reverted.seen == s.cache[key]
    requires Reaches(s.cache[key], cl, key.namespace, uid)
    ensures var t := Run(s, [edited, reverted], cl);
            && t.cache == s.cache && At(t.files, key, uid) == None
            && Target(t, key, cl, uid).Some?
  {
    var deletes := SpecOps(Deleting, s.cache[key], cl, key.namespace);
    assert [edited, reverted][..1] == [edited] && [edited][..0] == [];
    assert Run(s, [edited], cl) == Do(Run(s, [], cl), edited, cl);
    assert Run(s, [edited, reverted], cl) == Do(Run(s, [edited], cl), reverted, cl);
    assert CutOps(Plan(s, edited, cl), edited.cut) == deletes;
    SpecAt(s.files, key, Deleting, s.cache[key], cl, uid);
  }

  /** The last operation on a pod. */
  function LastOn(ops: seq<Op>, uid: string): Option<Op> {
    if ops == [] then None
    else if ops[|ops| - 1].uid == uid then Some(ops[|ops| - 1])
    else LastOn(ops[..|ops| - 1], uid)
  }

  function Leaves(op: Op): Option<Content> {
    if op.Put? then Some(op.content) else None
  }

  lemma {:induction false} LastOnAt(files: Files, key: Key, ops: seq<Op>, uid: string)
    requires ValidKey(key) && ValidOps(ops) && PodUid(uid)
    ensures At(ApplyAll(files, key, ops), key, uid) ==
            if LastOn(ops, uid).Some? then Leaves(LastOn(ops, uid).value) else At(files, key, uid)
  {
    hide At, Apply, PodUid;
    if ops != [] {
      var init, op := ops[..|ops| - 1], ops[|ops| - 1];
      LastOnAt(files, key, init, uid);
      ApplyAt(ApplyAll(files, key, init), key, op, key, uid);
    }
  }

  /** No operation was done on the pod, or the last one left what the cached specification asks for. */
  predicate Spared(s: State, a: Action, cl: Cluster, uid: string) {
    var last := LastOn(CutOps(Plan(s, a, cl), a.cut), uid);
    last.None? || Leaves(last.value) == Target(s, a.key, cl, uid)
  }

  lemma {:induction false} RunTwo(s: State, a: Action, b: Action, cl: Cluster)
    ensures Run(s, [a, b], cl) == Do(Do(s, a, cl), b, cl)
  {
    assert [a, b][..1] == [a] && [a][..0] == [];
    assert Run(s, [a], cl) == Do(Run(s, [], cl), a, cl);
  }

  /**
   A return to the cached specification after an update interrupted anywhere is in step exactly when
   the interruption spared every pod.
   */
  lemma {:induction false} RevertExact(s: State, key: Key, edited: Action, reverted: Action, cl: Cluster)
    requires ValidPods(cl.pods) && ValidKey(key) && key in s.cache && InStep(s, key, {}, cl)
    requires edited.Sync? && edited.key == key && edited.cut != Done && !Skips(s, edited)
    requires reverted.Sync? && reverted.key == key && reverted.seen == s.cache[key]
    ensures InStep(Run(s, [edited, reverted], cl), key, {}, cl) <==>
            forall uid :: PodUid(uid) ==> Spared(s, edited, cl, uid)
  {
    hide At, PodUid, Plan, CutOps, ApplyAll, LastOn, Expected, Reaches;
    RunTwo(s, edited, reverted, cl);
    var t := Run(s, [edited, reverted], cl);
    PlanFacts(s, edited, cl);
    var ops := CutOps(Plan(s, edited, cl), edited.cut);
    forall uid | PodUid(uid)
      ensures At(t.files, key, uid) == Target(t, key, cl, uid) <==> Spared(s, edited, cl, uid)
    {
      LastOnAt(s.files, key, ops, uid);
      assert At(s.files, key, uid) == Target(s, key, cl, uid);
    }
  }

  lemma {:induction false} DeletionsRemove(spec: Spec, cl: Cluster, namespace: string)
    ensures forall op :: op in SpecOps(Deleting, spec, cl, namespace) ==> op.Remove?
  {
    if spec != [] {
      DeletionsRemove(spec[..|spec| - 1], cl, namespace);
      CollectorDeletionsRemove(spec[|spec| - 1], cl.pods, namespace, cl.host);
    }
  }

  lemma {:induction false} CollectorDeletionsRemove(c: Collector, pods: seq<Pod>, namespace: string, host: string)
    ensures forall op :: op in CollectorOps(Deleting, c, pods, namespace, host) ==> op.Remove?
  {
    if pods != [] {
      CollectorDeletionsRemove(c, pods[..|pods| - 1], namespace, host);
    }
  }

  lemma {:induction false} LastOnMember(ops: seq<Op>, uid: string)
    ensures LastOn(ops, uid).Some? ==> LastOn(ops, uid).value in ops && LastOn(ops, uid).value.uid == uid
    ensures LastOn(ops, uid).None? ==> forall op :: op in ops ==> op.uid != uid
  {
    if ops != [] {
      LastOnMember(ops[..|ops| - 1], uid);
    }
  }

  /** Interrupted during its deletions, the update has to have stopped before the first one. */
  lemma {:induction false} RevertAfterDeletions(s: State, key: Key, edited: Action, reverted: Action, cl: Cluster)
    requires ValidPods(cl.pods) && ValidKey(key) && key in s.cache && InStep(s, key, {}, cl)
    requires edited.Sync? && edited.key == key && edited.cut.Broken? && !Skips(s, edited)
    requires var n := |SpecOps(Deleting, s.cache[key], cl, key.namespace)|;
             edited.cut.after < n || (edited.cut.after == n && !edited.cut.torn)
    requires reverted.Sync? && reverted.key == key && reverted.seen == s.cache[key]
    ensures InStep(Run(s, [edited, reverted], cl), key, {}, cl) <==> edited.cut.after == 0
  {
    hide At, PodUid, ApplyAll, SpecOps, InStep, Run, Expected, Reaches;
    var deletes, n := SpecOps(Deleting, s.cache[key], cl, key.namespace), edited.cut.after;
    var ops := CutOps(Plan(s, edited, cl), edited.cut);
    DeletionsRemove(s.cache[key], cl, key.namespace);
    SpecOpsReach(Deleting, s.cache[key], cl, key.namespace);
    CutInFirst(deletes, SpecOps(Creating, edited.filled, cl, key.namespace), edited.cut);
    assert ops == deletes[..n];
    RevertExact(s, key, edited, reverted, cl);
    if n > 0 {
      var op := deletes[0];
      assert op in ops && op in deletes;
      LastOnMember(ops, op.uid);
      assert Target(s, key, cl, op.uid).Some? by {
        assert Reaches(s.cache[key], cl, key.namespace, op.uid);
        ReachedIsExpected(s.cache[key], cl, key.namespace, op.uid);
      }
      var last := LastOn(ops, op.uid);
      assert last.Some? && last.value in deletes;
      assert Leaves(last.value) == None;
      assert PodUid(op.uid) && !Spared(s, edited, cl, op.uid);
    }
  }

  lemma {:induction false} ReachedIsExpected(spec: Spec, cl: Cluster, namespace: string, uid: string)
    ensures Reaches(spec, cl, namespace, uid) <==> Expected(spec, cl, namespace, uid).Some?
  {
  }

  lemma {:induction false} CutInFirst(first: seq<Op>, later: seq<Op>, cut: Cut)
    requires cut.Broken? && (cut.after < |first| || (cut.after == |first| && !cut.torn))
    requires forall op :: op in first ==> op.Remove?
    ensures CutOps(first + later, cut) == first[..cut.after]
  {
    var n := cut.after;
    assert (first + later)[..n] == first[..n];
    if n < |first| {
      assert (first + later)[n] == first[n];
      assert first[n] in first;
    } else {
      assert first[..n] == first;
      assert |later| == 0 ==> first + later == first;
    }
  }

  /** Interrupted after all its operations, it has to ask for what was asked for before. */
  lemma {:induction false} RevertAfterAll(s: State, key: Key, edited: Action, reverted: Action, cl: Cluster)
    requires ValidPods(cl.pods) && ValidKey(key) && key in s.cache && InStep(s, key, {}, cl)
    requires edited.Sync? && edited.key == key && edited.cut.Broken? && !Skips(s, edited)
    requires edited.cut.after >= |Plan(s, edited, cl)|
    requires reverted.Sync? && reverted.key == key && reverted.seen == s.cache[key]
    ensures InStep(Run(s, [edited, reverted], cl), key, {}, cl) <==>
            forall uid :: PodUid(uid) ==>
              Expected(edited.filled, cl, key.namespace, uid) == Expected(s.cache[key], cl, key.namespace, uid)
  {
    hide At, PodUid, ApplyAll, Plan, PlanReach, Expected;
    RunTwo(s, edited, reverted, cl);
    var t := Run(s, [edited, reverted], cl);
    forall uid | PodUid(uid)
      ensures At(t.files, key, uid) == Target(t, key, cl, uid) <==>
              Expected(edited.filled, cl, key.namespace, uid) == Expected(s.cache[key], cl, key.namespace, uid)
    {
      PlanAt(s, edited, cl, uid);
      NotReached(s, edited, cl, uid);
      ReachedIsExpected(edited.filled, cl, key.namespace, uid);
      ReachedIsExpected(s.cache[key], cl, key.namespace, uid);
      assert At(s.files, key, uid) == Target(s, key, cl, uid);
    }
  }

  // ---- Runs that go wrong ----

  const SOME_UID := "00000000-0000-0000-0000-000000000000"

  function SomePod(key: Key, host: string): Pod {
    Pod(key.namespace, "p", SOME_UID, host, map[], false, [], [], [], [], [])
  }

  /** A collector for every pod. */
  const TAKES_ALL := [Collector(true, map[], [])]

  lemma {:induction false} SomePodTaken(key: Key, host: string)
    ensures var cl := Cluster([SomePod(key, host)], host);
            && PodUid(SOME_UID) && ValidPods(cl.pods)
            && Expected(TAKES_ALL, cl, key.namespace, SOME_UID) == Some(PodConfig([], View(SomePod(key, host))))
            && SpecOps(Deleting, TAKES_ALL, cl, key.namespace) == [Remove(SOME_UID)]
            && SpecOps(Creating, TAKES_ALL, cl, key.namespace) ==
               [Put(SOME_UID, PodConfig([], View(SomePod(key, host))))]
            && forall phase :: SpecOps(phase, [], cl, key.namespace) == []
  {
    var pod := SomePod(key, host);
    var cl := Cluster([pod], host);
    assert [pod][..0] == [] && TAKES_ALL[..0] == [];
    assert PodWith([pod], SOME_UID) == Some(pod);
    assert Takes(TAKES_ALL[0], pod, key.namespace, host);
    assert LastTaker(TAKES_ALL, pod, key.namespace, host) == Some(TAKES_ALL[0]);
    forall phase
      ensures CollectorOps(phase, TAKES_ALL[0], [pod], key.namespace, host) == [OpFor(phase, TAKES_ALL[0], pod)]
      ensures SpecOps(phase, [], cl, key.namespace) == []
    {
      assert CollectorOps(phase, TAKES_ALL[0], [], key.namespace, host) == [];
    }
  }

  /** Create, fail behind the deletions of an edit, edit back: every pod of the specification is left without a file. */
  lemma {:induction false} RevertFromStart(key: Key, spec: Spec, edit: Spec, cl: Cluster, uid: string)
    requires ValidKey(key) && ValidPods(cl.pods) && spec != edit
    requires PodUid(uid) && Reaches(spec, cl, key.namespace, uid)
    ensures var n := |SpecOps(Deleting, spec, cl, key.namespace)|;
            var t := Run(START, [Sync(key, spec, spec, Done), Sync(key, edit, edit, Broken(n, false)),
                                 Sync(key, spec, spec, Done)], cl);
            At(t.files, key, uid) == None && Target(t, key, cl, uid).Some?
  {
    hide SpecOps, Reaches, At, PodUid, ApplyAll, ValidPods, Run, Target;
    var n := |SpecOps(Deleting, spec, cl, key.namespace)|;
    var create, edited := Sync(key, spec, spec, Done), Sync(key, edit, edit, Broken(n, false));
    RunThree(START, create, edited, create, cl);
    var s := Do(START, create, cl);
    assert s.cache == map[key := spec];
    RevertSkips(s, key, edited, create, cl, uid);
  }

  /** On any node and for any rule there is such a run. */
  lemma {:induction false} RevertRun(key: Key, host: string)
    requires ValidKey(key)
    ensures var cl := Cluster([SomePod(key, host)], host);
            var actions := [Sync(key, TAKES_ALL, TAKES_ALL, Done), Sync(key, [], [], Broken(1, false)),
                            Sync(key, TAKES_ALL, TAKES_ALL, Done)];
            var t := Run(START, actions, cl);
            && ValidPods(cl.pods) && ValidActions(actions)
            && At(t.files, key, SOME_UID) == None && Target(t, key, cl, SOME_UID).Some?
  {
    SomePodTaken(key, host);
    hide SpecOps, Expected, At, PodUid, ApplyAll, Run, Target, SomePod;
    RevertFromStart(key, TAKES_ALL, [], Cluster([SomePod(key, host)], host), SOME_UID);
  }

  lemma {:induction false} RunThree(s: State, a: Action, b: Action, c: Action, cl: Cluster)
    ensures Run(s, [a, b, c], cl) == Run(Do(s, a, cl), [b, c], cl)
  {
    assert [a, b, c][..2] == [a, b];
    RunTwo(s, a, b, cl);
    RunTwo(Do(s, a, cl), b, c, cl);
  }

  /** A first edit that fails in a write and a second one that takes no pod leave a torn file behind. */
  lemma {:induction false} OrphanRun(key: Key, host: string)
    requires ValidKey(key)
    ensures var cl := Cluster([SomePod(key, host)], host);
            var actions := [Sync(key, TAKES_ALL, TAKES_ALL, Broken(0, true)), Sync(key, [], [], Done)];
            var t := Run(START, actions, cl);
            && ValidPods(cl.pods) && ValidActions(actions)
            && At(t.files, key, SOME_UID) == Some(Torn) && Target(t, key, cl, SOME_UID) == None
  {
    var cl := Cluster([SomePod(key, host)], host);
    var first, second := Sync(key, TAKES_ALL, TAKES_ALL, Broken(0, true)), Sync(key, [], [], Done);
    SomePodTaken(key, host);
    hide SpecOps, PodUid;
    RunTwo(START, first, second, cl);
    assert Plan(START, first, cl)[..0] + [Put(SOME_UID, Torn)] == [Put(SOME_UID, Torn)];
    assert [Put(SOME_UID, Torn)][..0] == [];
    assert ApplyAll(map[], key, []) == map[];
    assert ApplyAll(map[], key, [Put(SOME_UID, Torn)]) == map[PodFile(key.namespace, SOME_UID, key.name) := Torn];
  }

  /** A finished deletion leaves the rule no file exactly when it reaches every pod the cache reached. */
  lemma {:induction false} DropExact(s: State, a: Action, cl: Cluster)
    requires ValidPods(cl.pods) && ValidAction(a) && a.Drop? && a.cut == Done && InStep(s, a.key, {}, cl)
    ensures (forall uid :: PodUid(uid) ==> At(Do(s, a, cl).files, a.key, uid) == None) <==> Covers(s, a, cl)
  {
    hide PlanReach, CacheReach, Expected, ApplyAll, Plan, At, PodUid;
    forall uid | PodUid(uid)
      ensures At(Do(s, a, cl).files, a.key, uid) == None <==>
              uid in PlanReach(s, a, cl) || uid !in CacheReach(s, a.key, cl)
    {
      PlanAt(s, a, cl, uid);
      NotReached(s, a, cl, uid);
      InCacheReach(s, a.key, cl, uid);
    }
    forall uid | uid in CacheReach(s, a.key, cl)
      ensures PodUid(uid)
    {
      CacheReachPods(s, a.key, cl, uid);
    }
  }

  lemma {:induction false} InCacheReach(s: State, key: Key, cl: Cluster, uid: string)
    ensures uid in CacheReach(s, key, cl) <==> Target(s, key, cl, uid).Some?
  {
    if key in s.cache && Reaches(s.cache[key], cl, key.namespace, uid) {
      var i := ReachedPod(s.cache[key], cl, key.namespace, uid);
    }
  }

  lemma {:induction false} CacheReachPods(s: State, key: Key, cl: Cluster, uid: string)
    requires ValidPods(cl.pods) && uid in CacheReach(s, key, cl)
    ensures PodUid(uid)
  {
  }
}
