/**
 The event filter: pod updates rewrite, and pod deletions remove, configuration files without a
 pass of the reconciler.  The label test is a loop of its own here.
 */
module PodEvents {
  import opened Wrappers
  import opened Strings
  import opened Rules
  import opened ConfigFiles
  import opened RuleOps
  import opened RuleRuns
  import opened Uids
  import RuleController

  /** A rule as listed from the API server. */
  datatype Item = Item(key: Key, spec: Spec)

  // ---- The loops of the filter ----

  /** The label loop stops at the first label that is missing or different. */
  method MatchesLabels(matchLabels: map<string, string>, podLabels: map<string, string>) returns (find: bool)
    ensures find <==> Selects(matchLabels, podLabels)
  {
    var rest := matchLabels.Keys;
    while rest != {}
      invariant rest <= matchLabels.Keys
      invariant forall k :: k in matchLabels && k !in rest ==> k in podLabels && podLabels[k] == matchLabels[k]
      decreases rest
    {
      var k :| k in rest;
      if k in podLabels {
        if podLabels[k] == matchLabels[k] {
          rest := rest - {k};
          continue;
        }
        return false;
      } else {
        return false;
      }
    }
    return true;
  }

  /** A running init container or any container has been created. */
  predicate Ready(pod: Pod) {
    || (exists s | s in pod.initStatuses :: s.containerID != "" && s.running)
    || (exists s | s in pod.statuses :: s.containerID != "")
  }

  method IsContainerReady(pod: Pod) returns (ready: bool)
    ensures ready <==> Ready(pod)
  {
    if |pod.statuses| == 0 && |pod.initStatuses| == 0 {
      return false;
    }
    for i := 0 to |pod.initStatuses|
      invariant forall k :: 0 <= k < i ==> !(pod.initStatuses[k].containerID != "" && pod.initStatuses[k].running)
    {
      if pod.initStatuses[i].containerID != "" && pod.initStatuses[i].running {
        return true;
      }
    }
    for i := 0 to |pod.statuses|
      invariant forall k :: 0 <= k < i ==> pod.statuses[k].containerID == ""
    {
      if pod.statuses[i].containerID != "" {
        return true;
      }
    }
    return false;
  }

  predicate Restarted(now: ContainerStatus, before: ContainerStatus) {
    now.name == before.name && now.containerID != before.containerID
  }

  predicate AnyRestarted(now: seq<ContainerStatus>, before: seq<ContainerStatus>) {
    exists i, j | 0 <= i < |now| && 0 <= j < |before| :: Restarted(now[i], before[j])
  }

  /** Some container has another ID than before; containers that are new do not count. */
  method ContainerChanged(now: seq<ContainerStatus>, before: seq<ContainerStatus>) returns (needUpdate: bool)
    ensures needUpdate <==> AnyRestarted(now, before)
  {
    needUpdate := false;
    for i := 0 to |now|
      invariant needUpdate <==> exists k, j :: 0 <= k < i && 0 <= j < |before| && Restarted(now[k], before[j])
    {
      ghost var earlier := needUpdate;
      for j := 0 to |before|
        invariant needUpdate <==> earlier || exists l :: 0 <= l < j && Restarted(now[i], before[l])
      {
        if now[i].name != before[j].name {
          continue;
        }
        if now[i].containerID != before[j].containerID {
          assert Restarted(now[i], before[j]);
          needUpdate := true;
          break;
        }
      }
    }
  }

  // ---- What the events do to the files ----

  /** The writes of one rule for the pod: one for each enabled collector that selects it, in order. */
  function PodOps(spec: Spec, pod: Pod): seq<Op> {
    if spec == [] then []
    else
      var init, c := PodOps(spec[..|spec| - 1], pod), spec[|spec| - 1];
      if c.enable && Selects(c.matchLabels, pod.labels)
      then init + [Put(pod.uid, PodConfig(c.containerRule, View(pod)))]
      else init
  }

  function UpdatedFiles(files: Files, items: seq<Item>, pod: Pod): Files {
    if items == [] then files
    else
      var last := items[|items| - 1];
      ApplyAll(UpdatedFiles(files, items[..|items| - 1], pod), last.key, PodOps(last.spec, pod))
  }

  /** An event is handled to its end, or stops at a listed rule, in the middle of its writes. */
  datatype Stop = Finished | Stopped(item: nat, cut: Cut)

  function RewrittenFiles(files: Files, items: seq<Item>, pod: Pod, stop: Stop): Files {
    if stop.Finished? || stop.item >= |items| then UpdatedFiles(files, items, pod)
    else
      var item := items[stop.item];
      ApplyAll(UpdatedFiles(files, items[..stop.item], pod), item.key, CutOps(PodOps(item.spec, pod), stop.cut))
  }

  /** What an event does: write the pod's files again, remove them, or nothing. */
  datatype Handling = Rewrites | Removes | Ignores

  predicate SelectedBy(spec: Spec, pod: Pod) {
    exists c | c in spec :: c.enable && Selects(c.matchLabels, pod.labels)
  }

  predicate SelectedByAny(items: seq<Item>, pod: Pod) {
    exists item | item in items :: SelectedBy(item.spec, pod)
  }

  predicate NoneReady(pod: Pod) {
    forall s | s in pod.statuses :: !s.ready
  }

  /** A pod that goes loses its files if an enabled collector of a listed rule selects it. */
  function DeletionHandling(pod: Pod, items: seq<Item>, host: string): Handling {
    if pod.nodeName == host && SelectedByAny(items, pod) then Removes else Ignores
  }

  /** A pod being deleted is treated so once none of its containers is ready; a live one is written again. */
  function UpdateHandling(pod: Pod, before: Pod, items: seq<Item>, host: string): Handling {
    if pod.nodeName != host then Ignores
    else if pod.deleting then (if NoneReady(pod) then DeletionHandling(pod, items, host) else Ignores)
    else if Ready(pod) && AnyRestarted(pod.statuses, before.statuses) then Rewrites
    else Ignores
  }

  function HandledFiles(files: Files, h: Handling, items: seq<Item>, pod: Pod, stop: Stop): Files {
    match h
    case Ignores => files
    case Removes =>
      if stop.Stopped? && stop.item == 0 then files else Kept(files, pod.namespace, pod.uid)
    case Rewrites => RewrittenFiles(files, items, pod, stop)
  }

  // ---- The handling of events ----

  /** The file has the name of some rule's file for the pod. */
  predicate OfPod(f: FileId, pod: Pod) {
    f.dir == pod.namespace && pod.uid + "-by-" <= f.name
  }

  /** No file but the pod's own has changed. */
  ghost predicate OnlyPod(before: Files, after: Files, pod: Pod) {
    forall f :: !OfPod(f, pod) ==> (f in before <==> f in after) && (f in before ==> before[f] == after[f])
  }

  lemma {:induction false} PutOnlyPod(before: Files, files: Files, key: Key, pod: Pod, content: Content)
    requires OnlyPod(before, files, pod) && key.namespace == pod.namespace
    ensures OnlyPod(before, Apply(files, key, Put(pod.uid, content)), pod)
  {
    assert OfPod(PodFile(key.namespace, pod.uid, key.name), pod);
  }

  /** The collector loop of a pod update for one listed rule; an error ends the handling of the event. */
  method RewriteRule(r: RuleController.Reconciler, item: Item, pod: Pod) returns (err: bool, ghost cut: Cut)
    requires item.key.namespace == pod.namespace
    modifies r.store
    ensures err <==> cut != Done
    ensures r.store.files == ApplyAll(old(r.store.files), item.key, CutOps(PodOps(item.spec, pod), cut))
    ensures OnlyPod(old(r.store.files), r.store.files, pod)
  {
    ghost var all := PodOps(item.spec, pod);
    ghost var done: seq<Op> := [];
    for i := 0 to |item.spec|
      invariant done == PodOps(item.spec[..i], pod)
      invariant r.store.files == ApplyAll(old(r.store.files), item.key, done)
      invariant OnlyPod(old(r.store.files), r.store.files, pod)
    {
      hide ApplyAll, Apply, OnlyPod, PodOps, CutOps;
      var c := item.spec[i];
      PodOpsStep(item.spec, i, pod);
      if !c.enable {
        continue;
      }
      var find := MatchesLabels(c.matchLabels, pod.labels);
      if !find {
        continue;
      }
      ghost var op := Put(pod.uid, PodConfig(c.containerRule, View(pod)));
      PodOpsPrefix(item.spec, i, pod);
      PodOpsPrefix(item.spec, i + 1, pod);
      PutOnlyPod(old(r.store.files), r.store.files, item.key, pod, op.content);
      PutOnlyPod(old(r.store.files), r.store.files, item.key, pod, Torn);
      var failed;
      ghost var torn;
      failed, torn := r.NewInput(c.containerRule, pod, item.key);
      if failed {
        RuleController.CutAfter(all, done);
        RuleController.CutDuring(all, done, pod.uid, op.content);
        ApplySnoc(old(r.store.files), item.key, done, Put(pod.uid, Torn));
        return true, Broken(|done|, torn);
      }
      ApplySnoc(old(r.store.files), item.key, done, op);
      done := done + [op];
    }
    assert item.spec[..|item.spec|] == item.spec;
    return false, Done;
  }

  lemma {:induction false} PodOpsStep(spec: Spec, i: nat, pod: Pod)
    requires i < |spec|
    ensures PodOps(spec[..i + 1], pod) ==
            if spec[i].enable && Selects(spec[i].matchLabels, pod.labels)
            then PodOps(spec[..i], pod) + [Put(pod.uid, PodConfig(spec[i].containerRule, View(pod)))]
            else PodOps(spec[..i], pod)
  {
    assert spec[..i + 1][..i] == spec[..i];
  }

  lemma {:induction false} PodOpsPrefix(spec: Spec, n: nat, pod: Pod)
    requires n <= |spec|
    ensures PodOps(spec[..n], pod) <= PodOps(spec, pod)
    decreases |spec|
  {
    if n == |spec| {
      assert spec[..n] == spec;
    } else {
      PodOpsPrefix(spec[..|spec| - 1], n, pod);
      assert spec[..|spec| - 1][..n] == spec[..n];
    }
  }

  lemma {:induction false} NotChanged(files: Files, pod: Pod)
    ensures OnlyPod(files, files, pod)
  {
  }

  lemma {:induction false} OnlyPodTwice(a: Files, b: Files, c: Files, pod: Pod)
    requires OnlyPod(a, b, pod) && OnlyPod(b, c, pod)
    ensures OnlyPod(a, c, pod)
  {
  }

  method RewriteAll(r: RuleController.Reconciler, pod: Pod, items: seq<Item>) returns (err: bool, ghost stop: Stop)
    requires forall item :: item in items ==> item.key.namespace == pod.namespace
    modifies r.store
    ensures err <==> stop != Finished
    ensures r.store.files == RewrittenFiles(old(r.store.files), items, pod, stop)
    ensures OnlyPod(old(r.store.files), r.store.files, pod)
  {
    NotChanged(r.store.files, pod);
    hide OnlyPod;
    for i := 0 to |items|
      invariant r.store.files == UpdatedFiles(old(r.store.files), items[..i], pod)
      invariant OnlyPod(old(r.store.files), r.store.files, pod)
    {
      hide ApplyAll, PodOps, CutOps;
      ghost var now := r.store.files;
      assert items[..i + 1][..i] == items[..i];
      ghost var cut;
      err, cut := RewriteRule(r, items[i], pod);
      OnlyPodTwice(old(r.store.files), now, r.store.files, pod);
      if err {
        return true, Stopped(i, cut);
      }
    }
    assert items[..|items|] == items;
    return false, Finished;
  }

  /** A pod deletion removes all files of the pod, if an enabled collector of some rule selects it. */
  method PodDeleted(r: RuleController.Reconciler, pod: Pod, items: seq<Item>) returns (err: bool, ghost stop: Stop)
    modifies r.store
    ensures err <==> stop != Finished
    ensures r.store.files ==
            HandledFiles(old(r.store.files), DeletionHandling(pod, items, r.hostName), items, pod, stop)
  {
    hide Kept;
    if pod.nodeName != r.hostName {
      return false, Finished;
    }
    ghost var start := r.store.files;
    for i := 0 to |items|
      invariant r.store.files ==
                if SelectedByAny(items[..i], pod) then Kept(start, pod.namespace, pod.uid) else start
    {
      assert items[..i + 1] == items[..i] + [items[i]];
      ghost var earlier := SelectedByAny(items[..i], pod);
      var spec := items[i].spec;
      for j := 0 to |spec|
        invariant r.store.files ==
                  if earlier || SelectedBy(spec[..j], pod) then Kept(start, pod.namespace, pod.uid) else start
      {
        assert spec[..j + 1] == spec[..j] + [spec[j]];
        if !spec[j].enable {
          continue;
        }
        var find := MatchesLabels(spec[j].matchLabels, pod.labels);
        if !find {
          continue;
        }
        err := *;
        if err {
          assert SelectedBy(spec, pod);
          return true, Stopped(if earlier || SelectedBy(spec[..j], pod) then 1 else 0, Done);
        }
        r.store.DeleteConfig(pod.namespace, pod.uid, "");
        KeptTwice(start, pod.namespace, pod.uid);
      }
      assert spec[..|spec|] == spec;
    }
    assert items[..|items|] == items;
    return false, Finished;
  }

  /** A pod being deleted loses its files once none of its containers is ready. */
  method DealPodDeleted(r: RuleController.Reconciler, pod: Pod, items: seq<Item>)
    returns (err: bool, ghost stop: Stop)
    requires pod.nodeName == r.hostName
    modifies r.store
    ensures err <==> stop != Finished
    ensures r.store.files ==
            if NoneReady(pod)
            then HandledFiles(old(r.store.files), DeletionHandling(pod, items, r.hostName), items, pod, stop)
            else old(r.store.files)
  {
    for i := 0 to |pod.statuses|
      invariant forall k :: 0 <= k < i ==> !pod.statuses[k].ready
    {
      if pod.statuses[i].ready {
        return false, Finished;
      }
    }
    err, stop := PodDeleted(r, pod, items);
  }

  /** A pod update with the rules listed for its namespace. */
  method PodUpdated(r: RuleController.Reconciler, pod: Pod, before: Pod, items: seq<Item>)
    returns (err: bool, ghost stop: Stop)
    requires forall item :: item in items ==> item.key.namespace == pod.namespace
    modifies r.store
    ensures err <==> stop != Finished
    ensures r.store.files ==
            HandledFiles(old(r.store.files), UpdateHandling(pod, before, items, r.hostName), items, pod, stop)
    ensures UpdateHandling(pod, before, items, r.hostName).Rewrites? ==>
              OnlyPod(old(r.store.files), r.store.files, pod)
  {
    hide AnyRestarted, NoneReady, OnlyPod, Kept;
    if pod.nodeName != r.hostName {
      return false, Finished;
    }
    if pod.deleting {
      err, stop := DealPodDeleted(r, pod, items);
      return;
    }
    var ready := IsContainerReady(pod);
    if !ready {
      return false, Finished;
    }
    var needUpdate := ContainerChanged(pod.statuses, before.statuses);
    if !needUpdate {
      return false, Finished;
    }
    err, stop := RewriteAll(r, pod, items);
  }

  lemma {:induction false} KeptTwice(files: Files, dir: string, pattern: string)
    ensures Kept(Kept(files, dir, pattern), dir, pattern) == Kept(files, dir, pattern)
  {
    hide Contains;
  }

  // ---- What an event leaves of one rule's file ----

  ghost predicate ValidItems(items: seq<Item>, namespace: string) {
    forall i :: 0 <= i < |items| ==> ValidKey(items[i].key) && items[i].key.namespace == namespace
  }

  /** What the last enabled collector that selects the pod writes. */
  function Writes(spec: Spec, pod: Pod): Option<Content> {
    if spec == [] then None
    else
      var c := spec[|spec| - 1];
      if c.enable && Selects(c.matchLabels, pod.labels) then Some(PodConfig(c.containerRule, View(pod)))
      else Writes(spec[..|spec| - 1], pod)
  }

  /** What a finished event writes for a rule: nothing when the rule is not listed or does not select the pod. */
  function Written(items: seq<Item>, key: Key, pod: Pod): Option<Content> {
    if items == [] then None
    else
      var last := items[|items| - 1];
      if last.key == key && Writes(last.spec, pod).Some? then Writes(last.spec, pod)
      else Written(items[..|items| - 1], key, pod)
  }

  /** A rule's file for the pod after an event: as before, with known content or absent, or unknown. */
  datatype Trace = Untouched | Left(content: Option<Content>) | Unsure

  function TraceOf(h: Handling, items: seq<Item>, key: Key, pod: Pod, stop: Stop): Trace {
    match h
    case Ignores => Untouched
    case Removes =>
      if key.namespace != pod.namespace then Untouched else if stop.Finished? then Left(None) else Unsure
    case Rewrites =>
      if Written(items, key, pod).None? then Untouched
      else if stop.Finished? then Left(Written(items, key, pod))
      else Unsure
  }

  lemma {:induction false} PodOpsValid(spec: Spec, pod: Pod)
    requires PodUid(pod.uid)
    ensures ValidOps(PodOps(spec, pod))
    ensures forall op :: op in PodOps(spec, pod) ==> op.uid == pod.uid
    ensures Writes(spec, pod).None? ==> PodOps(spec, pod) == []
  {
    hide PodUid;
    if spec != [] {
      PodOpsValid(spec[..|spec| - 1], pod);
    }
  }

  lemma {:induction false} PodOpsAt(files: Files, key: Key, spec: Spec, pod: Pod)
    requires ValidKey(key) && PodUid(pod.uid) && key.namespace == pod.namespace
    ensures At(ApplyAll(files, key, PodOps(spec, pod)), key, pod.uid) ==
            if Writes(spec, pod).Some? then Writes(spec, pod) else At(files, key, pod.uid)
  {
    hide At, Apply, PodUid;
    if spec != [] {
      var init, c := spec[..|spec| - 1], spec[|spec| - 1];
      PodOpsAt(files, key, init, pod);
      if c.enable && Selects(c.matchLabels, pod.labels) {
        var op := Put(pod.uid, PodConfig(c.containerRule, View(pod)));
        ApplySnoc(files, key, PodOps(init, pod), op);
        ApplyAt(ApplyAll(files, key, PodOps(init, pod)), key, op, key, pod.uid);
      }
    }
  }

  /** The writes of an event, rule by rule. */
  lemma {:induction false} UpdatedAt(files: Files, items: seq<Item>, key: Key, pod: Pod, uid: string)
    requires ValidItems(items, pod.namespace) && ValidKey(key) && PodUid(pod.uid) && PodUid(uid)
    ensures At(UpdatedFiles(files, items, pod), key, uid) ==
            if uid == pod.uid && Written(items, key, pod).Some? then Written(items, key, pod)
            else At(files, key, uid)
  {
    hide At, PodUid, PodOps, Writes, ApplyAll;
    if items != [] {
      var init, last := items[..|items| - 1], items[|items| - 1];
      UpdatedAt(files, init, key, pod, uid);
      var done := UpdatedFiles(files, init, pod);
      PodOpsValid(last.spec, pod);
      if uid == pod.uid && last.key == key {
        PodOpsAt(done, key, last.spec, pod);
      } else {
        ApplyElsewhere(done, last.key, PodOps(last.spec, pod), key, uid);
      }
    }
  }

  lemma {:induction false} WrittenNone(items: seq<Item>, key: Key, pod: Pod, n: nat)
    requires Written(items, key, pod).None? && n < |items|
    ensures Written(items[..n], key, pod).None?
    ensures items[n].key == key ==> Writes(items[n].spec, pod).None?
    decreases |items|
  {
    if n < |items| - 1 {
      WrittenNone(items[..|items| - 1], key, pod, n);
      assert items[..|items| - 1][..n] == items[..n];
    }
  }

  /** An event that stops touches no other pod, and no rule it has nothing to write for. */
  lemma {:induction false} StoppedAt(files: Files, items: seq<Item>, key: Key, pod: Pod, stop: Stop, uid: string)
    requires ValidItems(items, pod.namespace) && ValidKey(key) && PodUid(pod.uid) && PodUid(uid)
    requires stop.Stopped? && stop.item < |items|
    requires uid != pod.uid || Written(items, key, pod).None?
    ensures At(RewrittenFiles(files, items, pod, stop), key, uid) == At(files, key, uid)
  {
    hide At, PodUid, PodOps, Writes, ApplyAll, Written, UpdatedFiles;
    var item := items[stop.item];
    UpdatedAt(files, items[..stop.item], key, pod, uid);
    PodOpsValid(item.spec, pod);
    if uid == pod.uid {
      WrittenNone(items, key, pod, stop.item);
    }
    ApplyElsewhere(UpdatedFiles(files, items[..stop.item], pod), item.key, CutOps(PodOps(item.spec, pod), stop.cut),
                   key, uid);
  }

  /** What an event leaves of the files of a rule: other pods' as they were, the pod's own by its trace. */
  lemma {:induction false} HandledAt(files: Files, h: Handling, items: seq<Item>, key: Key, pod: Pod, stop: Stop,
                                     uid: string)
    requires ValidItems(items, pod.namespace) && ValidKey(key) && !Contains(key.name, pod.uid)
    requires PodUid(pod.uid) && PodUid(uid)
    ensures var after := At(HandledFiles(files, h, items, pod, stop), key, uid);
            if uid != pod.uid then after == At(files, key, uid)
            else
              match TraceOf(h, items, key, pod, stop)
              case Untouched => after == At(files, key, uid)
              case Left(content) => after == content
              case Unsure => true
  {
    hide At, PodUid, Kept, Contains, Written, UpdatedFiles;
    match h
    case Ignores =>
    case Removes =>
      KeptAt(files, pod, key, uid);
    case Rewrites =>
      UpdatedAt(files, items, key, pod, uid);
      if stop.Stopped? && stop.item < |items| && (uid != pod.uid || Written(items, key, pod).None?) {
        StoppedAt(files, items, key, pod, stop, uid);
      }
  }

  /** Removing the files of a pod takes all of them and nothing else. */
  lemma {:induction false} KeptAt(files: Files, pod: Pod, key: Key, uid: string)
    requires PodUid(pod.uid) && PodUid(uid) && !Contains(key.name, pod.uid)
    ensures At(Kept(files, pod.namespace, pod.uid), key, uid) ==
            if key.namespace == pod.namespace && uid == pod.uid then None else At(files, key, uid)
  {
    DeletedByUid(pod.uid, uid, key.name);
  }

  // ---- The event path against the reconcile path ----

  lemma {:induction false} WritesIsTaker(spec: Spec, pod: Pod, host: string)
    requires pod.nodeName == host
    ensures var taker := LastTaker(spec, pod, pod.namespace, host);
            Writes(spec, pod) == if taker.Some? then Some(PodConfig(taker.value.containerRule, View(pod))) else None
  {
    if spec != [] {
      WritesIsTaker(spec[..|spec| - 1], pod, host);
    }
  }

  lemma {:induction false} WrittenFor(items: seq<Item>, n: nat, pod: Pod)
    requires n < |items| && forall i, j :: 0 <= i < j < |items| ==> items[i].key != items[j].key
    ensures Written(items, items[n].key, pod) == Writes(items[n].spec, pod)
  {
    if n < |items| - 1 {
      WrittenFor(items[..|items| - 1], n, pod);
    } else {
      NotListed(items[..|items| - 1], items[n].key, pod);
    }
  }

  lemma {:induction false} NotListed(items: seq<Item>, key: Key, pod: Pod)
    requires forall i :: 0 <= i < |items| ==> items[i].key != key
    ensures Written(items, key, pod) == None
  {
    if items != [] {
      NotListed(items[..|items| - 1], key, pod);
    }
  }

  /** For every listed rule, a pod update leaves what the loops of createEvent leave for that pod. */
  lemma {:induction false} EventLoopsAgree(files: Files, items: seq<Item>, n: nat, i: nat, cl: Cluster, uid: string)
    requires ValidPods(cl.pods) && i < |cl.pods| && cl.pods[i].nodeName == cl.host && PodUid(uid)
    requires ValidItems(items, cl.pods[i].namespace) && n < |items|
    requires forall i, j :: 0 <= i < j < |items| ==> items[i].key != items[j].key
    ensures var pod, key := cl.pods[i], items[n].key;
            var looped := ApplyAll(files, key, SpecOps(Creating, items[n].spec, cl, key.namespace));
            At(UpdatedFiles(files, items, pod), key, uid) ==
            if uid == pod.uid then At(looped, key, uid) else At(files, key, uid)
  {
    hide At, SpecOps, ApplyAll, UpdatedFiles, PodUid, LastTaker, Writes, Written;
    var pod, key := cl.pods[i], items[n].key;
    PodWithMember(cl.pods, i);
    UpdatedAt(files, items, key, pod, uid);
    if uid == pod.uid {
      WrittenFor(items, n, pod);
      WritesIsTaker(items[n].spec, pod, cl.host);
      SpecAt(files, key, Creating, items[n].spec, cl, uid);
    }
  }

  /**
   A pod update writes the listed specification as it is, while createEvent fills its UIDs first.  The
   file of a listed rule is the one createEvent would write for the pod exactly when no collector takes
   the pod or the rules of the last one that does have all their UIDs.
   */
  lemma {:induction false} EventPathAgrees(files: Files, items: seq<Item>, n: nat, i: nat, cl: Cluster, supply: Supply)
    requires ValidPods(cl.pods) && i < |cl.pods| && cl.pods[i].nodeName == cl.host && GoodSupply(supply)
    requires ValidItems(items, cl.pods[i].namespace) && n < |items|
    requires forall i, j :: 0 <= i < j < |items| ==> items[i].key != items[j].key
    ensures var pod, key, spec := cl.pods[i], items[n].key, items[n].spec;
            var created := ApplyAll(files, key, SpecOps(Creating, Fill(spec, supply), cl, key.namespace));
            var taker := LastTaker(spec, pod, key.namespace, cl.host);
            At(UpdatedFiles(files, items, pod), key, pod.uid) == At(created, key, pod.uid) <==>
            taker.None? || !ContainerRulesNeedUid(taker.value.containerRule)
  {
    hide At, SpecOps, ApplyAll, UpdatedFiles, LastTaker, Writes, Written, Fill, ContainerRulesNeedUid;
    var pod, key, spec := cl.pods[i], items[n].key, items[n].spec;
    PodWithMember(cl.pods, i);
    UpdatedAt(files, items, key, pod, pod.uid);
    WrittenFor(items, n, pod);
    WritesIsTaker(spec, pod, cl.host);
    SpecAt(files, key, Creating, Fill(spec, supply), cl, pod.uid);
    TakerOfFilled(spec, supply, pod, key.namespace, cl.host);
  }

  // ---- When an event does what ----

  /** Collector i of listed rule n is enabled and has no label that the pod lacks. */
  ghost predicate MeantBy(items: seq<Item>, pod: Pod, n: int, i: int) {
    && 0 <= n < |items| && 0 <= i < |items[n].spec|
    && items[n].spec[i].enable && items[n].spec[i].matchLabels.Items <= pod.labels.Items
  }

  ghost predicate MeantByAny(items: seq<Item>, pod: Pod) {
    exists n, i :: MeantBy(items, pod, n, i)
  }

  lemma {:induction false} SelectedExactly(items: seq<Item>, pod: Pod)
    ensures SelectedByAny(items, pod) <==> MeantByAny(items, pod)
  {
    hide Selects;
    if SelectedByAny(items, pod) {
      var item :| item in items && SelectedBy(item.spec, pod);
      var c :| c in item.spec && c.enable && Selects(c.matchLabels, pod.labels);
      SelectsExactly(c.matchLabels, pod.labels);
      var n :| 0 <= n < |items| && items[n] == item;
      var i :| 0 <= i < |item.spec| && item.spec[i] == c;
      assert MeantBy(items, pod, n, i);
    }
    if n, i :| MeantBy(items, pod, n, i) {
      SelectsExactly(items[n].spec[i].matchLabels, pod.labels);
      assert items[n].spec[i] in items[n].spec && items[n] in items;
    }
  }

  /** Statuses k now and l before are of one container and have different IDs. */
  ghost predicate NewId(pod: Pod, before: Pod, k: int, l: int) {
    && 0 <= k < |pod.statuses| && 0 <= l < |before.statuses|
    && pod.statuses[k].name == before.statuses[l].name
    && pod.statuses[k].containerID != before.statuses[l].containerID
  }

  /**
   An update rewrites the files of a local, live pod when a container has been created or an init container
   runs, and a container has another ID than before.  It removes those of a local pod being deleted that has
   no ready container, if an enabled collector of a listed rule is meant for it.
   */
  lemma {:induction false} HandlingExactly(pod: Pod, before: Pod, items: seq<Item>, host: string)
    ensures var h := UpdateHandling(pod, before, items, host);
            && (h.Rewrites? <==>
                  && pod.nodeName == host && !pod.deleting
                  && ((exists k :: 0 <= k < |pod.initStatuses| && pod.initStatuses[k].running &&
                         pod.initStatuses[k].containerID != "")
                      || (exists k :: 0 <= k < |pod.statuses| && pod.statuses[k].containerID != ""))
                  && exists k, l :: NewId(pod, before, k, l))
            && (h.Removes? <==>
                  && pod.nodeName == host && pod.deleting
                  && (forall k :: 0 <= k < |pod.statuses| ==> !pod.statuses[k].ready)
                  && MeantByAny(items, pod))
    ensures var h := DeletionHandling(pod, items, host);
            !h.Rewrites? && (h.Removes? <==> pod.nodeName == host && MeantByAny(items, pod))
  {
    hide SelectedByAny, MeantByAny;
    SelectedExactly(items, pod);
    assert (exists k, l :: NewId(pod, before, k, l)) <==> AnyRestarted(pod.statuses, before.statuses) by {
      if k, l :| NewId(pod, before, k, l) {
        assert Restarted(pod.statuses[k], before.statuses[l]);
      }
      if k, l :| 0 <= k < |pod.statuses| && 0 <= l < |before.statuses| &&
                 Restarted(pod.statuses[k], before.statuses[l])
      {
        assert NewId(pod, before, k, l);
      }
    }
  }

  /** The last enabled collector of the specification without a label that the pod lacks. */
  ghost predicate LastSelecting(spec: Spec, i: int, pod: Pod) {
    && 0 <= i < |spec| && spec[i].enable && spec[i].matchLabels.Items <= pod.labels.Items
    && forall j :: i < j < |spec| ==> !(spec[j].enable && spec[j].matchLabels.Items <= pod.labels.Items)
  }

  /** What an event writes for a rule: the rules of the last collector meant for the pod, with what is read of it. */
  lemma {:induction false} WritesExactly(spec: Spec, pod: Pod, content: Content)
    ensures Writes(spec, pod) == Some(content) <==>
            exists i :: LastSelecting(spec, i, pod) && content == PodConfig(spec[i].containerRule, View(pod))
  {
    hide Selects, View;
    if spec != [] {
      var n := |spec| - 1;
      SelectsExactly(spec[n].matchLabels, pod.labels);
      WritesExactly(spec[..n], pod, content);
      if spec[n].enable && Selects(spec[n].matchLabels, pod.labels) {
        assert LastSelecting(spec, n, pod);
      } else {
        assert forall i :: LastSelecting(spec[..n], i, pod) <==> LastSelecting(spec, i, pod) by {
          assert forall j :: 0 <= j < n ==> spec[..n][j] == spec[j];
        }
      }
    }
  }
}
