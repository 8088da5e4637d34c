/**
 Several node controllers and one rule object.  A pass reads a copy of the rule, possibly an old
 one, fills the missing UIDs, writes the rule back by compare-and-swap on its version, and only then
 writes configurations.  The handling of a pod update writes configurations from a listed copy as
 it is, without filling anything.  Nobody edits the specification.
 */
module UidProtocol {
  import opened Rules
  import opened Uids

  /** What a pass of a controller is doing: nothing, holding a copy of a version, or writing from one. */
  datatype Phase = Idle | Holding(version: nat) | Writing(version: nat)

  /** A configuration entry written by a node for a rule slot, from a version, in a pass or for a pod event. */
  datatype Entry = Entry(node: nat, version: nat, event: bool, i: nat, j: nat, k: nat, uid: string)

  /** All versions of the rule the server has had, the current one last. */
  datatype Global = Global(history: seq<Spec>, phase: map<nat, Phase>, written: set<Entry>)

  datatype Step =
    | Read(node: nat, version: nat)
    | Fill(node: nat, supply: Supply)
    | LoseReply(node: nat, supply: Supply)
    | SetFinalizer(node: nat)
    | Write(node: nat, i: nat, j: nat, k: nat)
    | EventWrite(node: nat, version: nat, i: nat, j: nat, k: nat)
    | Stop(node: nat)

  function PhaseOf(g: Global, node: nat): Phase {
    if node in g.phase then g.phase[node] else Idle
  }

  predicate IsCurrent(g: Global, version: nat) {
    version + 1 == |g.history|
  }

  function WriteFrom(g: Global, n: nat, v: nat, event: bool, i: nat, j: nat, k: nat): Global {
    if v < |g.history| && Slot(g.history[v], i, j, k) then
      g.(written := g.written + {Entry(n, v, event, i, j, k, UidAt(g.history[v], i, j, k))})
    else g
  }

  /** A step that is not possible in a state leaves it as it is. */
  function Next(g: Global, s: Step): Global {
    match s
    case Read(n, v) =>
      if v < |g.history| then g.(phase := g.phase[n := Holding(v)]) else g
    case Fill(n, supply) =>
      if !PhaseOf(g, n).Holding? || PhaseOf(g, n).version >= |g.history| then g
      else
        var v := PhaseOf(g, n).version;
        var filled := Uids.Fill(g.history[v], supply);
        if filled == g.history[v] then g.(phase := g.phase[n := Writing(v)])
        else if IsCurrent(g, v) then g.(history := g.history + [filled], phase := g.phase[n := Writing(v + 1)])
        else g.(phase := g.phase[n := Idle])
    case LoseReply(n, supply) =>
      if !PhaseOf(g, n).Holding? || !IsCurrent(g, PhaseOf(g, n).version) then g
      else
        g.(history := g.history + [Uids.Fill(g.history[PhaseOf(g, n).version], supply)], phase := g.phase[n := Idle])
    case SetFinalizer(n) =>
      if !PhaseOf(g, n).Holding? || !IsCurrent(g, PhaseOf(g, n).version) then g
      else g.(history := g.history + [g.history[PhaseOf(g, n).version]], phase := g.phase[n := Idle])
    case Write(n, i, j, k) =>
      if PhaseOf(g, n).Writing? then WriteFrom(g, n, PhaseOf(g, n).version, false, i, j, k) else g
    case EventWrite(n, v, i, j, k) => WriteFrom(g, n, v, true, i, j, k)
    case Stop(n) => g.(phase := g.phase[n := Idle])
  }

  function Run(g: Global, steps: seq<Step>): Global {
    if steps == [] then g else Next(Run(g, steps[..|steps| - 1]), steps[|steps| - 1])
  }

  function Begin(spec: Spec): Global {
    Global([spec], map[], {})
  }

  ghost predicate GoodSteps(steps: seq<Step>) {
    forall i :: 0 <= i < |steps| ==> GoodStep(steps[i])
  }

  /** uuid.New never returns the empty string. */
  ghost predicate GoodStep(s: Step) {
    (s.Fill? || s.LoseReply?) ==> GoodSupply(s.supply)
  }

  // ---- The invariant ----

  /** The later specification has the same slots and keeps every UID the earlier one has. */
  ghost predicate Keeps(early: Spec, late: Spec) {
    forall i: nat, j: nat, k: nat :: (Slot(early, i, j, k) <==> Slot(late, i, j, k)) &&
      (Slot(early, i, j, k) && UidAt(early, i, j, k) != "" ==> UidAt(late, i, j, k) == UidAt(early, i, j, k))
  }

  ghost predicate Monotone(history: seq<Spec>) {
    forall v, w :: 0 <= v <= w < |history| ==> Keeps(history[v], history[w])
  }

  /** A version without empty UIDs. */
  ghost predicate Complete(history: seq<Spec>, v: nat) {
    v < |history| && !NeedsUid(history[v])
  }

  /** The entry has the UID of its slot in the version it was written from; a pass writes from a complete one. */
  ghost predicate Faithful(history: seq<Spec>, e: Entry) {
    && e.version < |history| && Slot(history[e.version], e.i, e.j, e.k)
    && e.uid == UidAt(history[e.version], e.i, e.j, e.k)
    && (!e.event ==> Complete(history, e.version))
  }

  ghost predicate Inv(g: Global) {
    && g.history != [] && Monotone(g.history)
    && (forall n :: n in g.phase && g.phase[n].Writing? ==> Complete(g.history, g.phase[n].version))
    && (forall e :: e in g.written ==> Faithful(g.history, e))
  }

  lemma {:induction false} KeepsTransitive(a: Spec, b: Spec, c: Spec)
    requires Keeps(a, b) && Keeps(b, c)
    ensures Keeps(a, c)
  {
    forall i: nat, j: nat, k: nat
      ensures (Slot(a, i, j, k) <==> Slot(c, i, j, k)) &&
              (Slot(a, i, j, k) && UidAt(a, i, j, k) != "" ==> UidAt(c, i, j, k) == UidAt(a, i, j, k))
    {
      assert Slot(a, i, j, k) <==> Slot(b, i, j, k);
      assert Slot(b, i, j, k) <==> Slot(c, i, j, k);
    }
  }

  lemma {:induction false} FillKeeps(spec: Spec, supply: Supply)
    ensures Keeps(spec, Uids.Fill(spec, supply))
  {
    forall i: nat, j: nat, k: nat
      ensures Slot(spec, i, j, k) <==> Slot(Uids.Fill(spec, supply), i, j, k)
      ensures Slot(spec, i, j, k) && UidAt(spec, i, j, k) != "" ==>
                UidAt(Uids.Fill(spec, supply), i, j, k) == UidAt(spec, i, j, k)
    {
      FillAt(spec, supply, i, j, k);
    }
  }

  /** A version that keeps the current one can be added; what was complete or faithful stays so. */
  lemma {:induction false} AddVersion(history: seq<Spec>, spec: Spec)
    requires history != [] && Monotone(history) && Keeps(history[|history| - 1], spec)
    ensures Monotone(history + [spec])
    ensures forall v :: Complete(history, v) ==> Complete(history + [spec], v)
    ensures forall e :: Faithful(history, e) ==> Faithful(history + [spec], e)
  {
    hide Keeps, NeedsUid, Slot, UidAt;
    var more := history + [spec];
    forall v, w | 0 <= v <= w < |more|
      ensures Keeps(more[v], more[w])
    {
      if w == |history| {
        if v < w {
          KeepsTransitive(history[v], history[|history| - 1], spec);
        } else {
          KeepsSelf(spec);
        }
      }
    }
    assert forall v :: 0 <= v < |history| ==> more[v] == history[v];
  }

  lemma {:induction false} KeepsSelf(spec: Spec)
    ensures Keeps(spec, spec)
  {
  }

  /** Every step of every node keeps the invariant. */
  lemma {:induction false} NextKeepsInv(g: Global, s: Step)
    requires Inv(g) && GoodStep(s)
    ensures Inv(Next(g, s))
    ensures g.history <= Next(g, s).history
  {
    hide Keeps, NeedsUid, Monotone, Slot, UidAt;
    var last := g.history[|g.history| - 1];
    match s
    case Fill(n, supply) =>
      if PhaseOf(g, n).Holding? && PhaseOf(g, n).version < |g.history| {
        var v := PhaseOf(g, n).version;
        var filled := Uids.Fill(g.history[v], supply);
        FillLeavesNone(g.history[v], supply);
        if filled != g.history[v] && IsCurrent(g, v) {
          FillKeeps(last, supply);
          AddVersion(g.history, filled);
        }
      }
    case LoseReply(n, supply) =>
      FillKeeps(last, supply);
      AddVersion(g.history, Uids.Fill(last, supply));
    case SetFinalizer(n) =>
      KeepsSelf(last);
      AddVersion(g.history, last);
    case _ =>
  }

  lemma {:induction false} RunKeepsInv(g: Global, steps: seq<Step>)
    requires Inv(g) && GoodSteps(steps)
    ensures Inv(Run(g, steps)) && g.history <= Run(g, steps).history
  {
    if steps != [] {
      RunKeepsInv(g, steps[..|steps| - 1]);
      NextKeepsInv(Run(g, steps[..|steps| - 1]), steps[|steps| - 1]);
    }
  }

  lemma {:induction false} BeginInv(spec: Spec)
    ensures Inv(Begin(spec))
  {
    KeepsSelf(spec);
  }

  // ---- Agreement ----

  /** Once a version of the rule has a UID in a slot, every later version has the same one there. */
  lemma {:induction false} CommittedUidNeverChanges(spec: Spec, steps: seq<Step>, more: seq<Step>, v: nat, w: nat,
                                                    i: nat, j: nat, k: nat)
    requires GoodSteps(steps) && GoodSteps(more)
    requires var early := Run(Begin(spec), steps).history;
             v < |early| && Slot(early[v], i, j, k) && UidAt(early[v], i, j, k) != ""
    requires v <= w < |Run(Begin(spec), steps + more).history|
    ensures var early, late := Run(Begin(spec), steps).history, Run(Begin(spec), steps + more).history;
            Slot(late[w], i, j, k) && UidAt(late[w], i, j, k) == UidAt(early[v], i, j, k)
  {
    hide Inv, Next;
    BeginInv(spec);
    RunKeepsInv(Begin(spec), steps);
    RunAppend(Begin(spec), steps, more);
    RunKeepsInv(Run(Begin(spec), steps), more);
    var early, late := Run(Begin(spec), steps).history, Run(Begin(spec), steps + more).history;
    assert early[v] == late[v];
    assert Keeps(late[v], late[w]) by {
      InvMonotone(Run(Begin(spec), steps + more));
    }
    assert Slot(late[v], i, j, k) <==> Slot(late[w], i, j, k);
  }

  lemma {:induction false} InvMonotone(g: Global)
    requires Inv(g)
    ensures Monotone(g.history)
  {
  }

  lemma {:induction false} RunAppend(g: Global, a: seq<Step>, b: seq<Step>)
    ensures Run(g, a + b) == Run(Run(g, a), b)
  {
    if b == [] {
      assert a + b == a;
    } else {
      assert (a + b)[..|a + b| - 1] == a + b[..|b| - 1];
      RunAppend(g, a, b[..|b| - 1]);
    }
  }

  predicate SameSlot(e: Entry, f: Entry) {
    e.i == f.i && e.j == f.j && e.k == f.k
  }

  lemma {:induction false} FaithfulAgree(history: seq<Spec>, e: Entry, f: Entry)
    requires Monotone(history) && Faithful(history, e) && Faithful(history, f) && SameSlot(e, f)
    ensures e.uid == f.uid <==> (e.uid == "" <==> f.uid == "")
  {
    var v, w := e.version, f.version;
    if v <= w {
      assert Keeps(history[v], history[w]);
    } else {
      assert Keeps(history[w], history[v]);
    }
  }

  lemma {:induction false} CompleteSlot(spec: Spec, i: nat, j: nat, k: nat)
    requires !NeedsUid(spec) && Slot(spec, i, j, k)
    ensures UidAt(spec, i, j, k) != ""
  {
  }

  /** The slot has no UID in that version. */
  ghost predicate EmptyIn(history: seq<Spec>, v: nat, e: Entry) {
    v < |history| && Slot(history[v], e.i, e.j, e.k) && UidAt(history[v], e.i, e.j, e.k) == ""
  }

  /**
   Whatever the nodes do and however stale their copies are: an entry is empty exactly when its slot
   was empty in the version it was written from, which is never so in a pass; and two entries of one
   slot have the same UID exactly when both or neither were written from a version with the slot empty.
   */
  lemma {:induction false} NodesAgree(spec: Spec, steps: seq<Step>, e: Entry, f: Entry)
    requires GoodSteps(steps)
    requires e in Run(Begin(spec), steps).written && f in Run(Begin(spec), steps).written && SameSlot(e, f)
    ensures var h := Run(Begin(spec), steps).history;
            && (e.uid == "" <==> EmptyIn(h, e.version, e))
            && (!e.event ==> e.uid != "")
            && (e.uid == f.uid <==> (EmptyIn(h, e.version, e) <==> EmptyIn(h, f.version, f)))
  {
    BeginInv(spec);
    RunKeepsInv(Begin(spec), steps);
    var h := Run(Begin(spec), steps).history;
    FaithfulAgree(h, e, f);
    if !e.event {
      CompleteSlot(h[e.version], e.i, e.j, e.k);
    }
  }

  /** Entries that passes write for one slot have one UID. */
  lemma {:induction false} PassesAgree(spec: Spec, steps: seq<Step>, e: Entry, f: Entry)
    requires GoodSteps(steps)
    requires e in Run(Begin(spec), steps).written && f in Run(Begin(spec), steps).written && SameSlot(e, f)
    requires !e.event && !f.event
    ensures e.uid == f.uid && e.uid != ""
  {
    NodesAgree(spec, steps, e, f);
    NodesAgree(spec, steps, f, e);
  }

  /**
   A pod update handled before any pass has filled the slot writes an entry without a UID, and a pass
   on another node then writes another one.
   */
  lemma {:induction false} EventWritesEmpty(spec: Spec, supply: Supply, i: nat, j: nat, k: nat)
    returns (steps: seq<Step>)
    requires GoodSupply(supply) && Slot(spec, i, j, k) && UidAt(spec, i, j, k) == ""
    ensures steps == [EventWrite(1, 0, i, j, k), Read(2, 0), Fill(2, supply), Write(2, i, j, k)]
    ensures && GoodSteps(steps)
            && Entry(1, 0, true, i, j, k, "") in Run(Begin(spec), steps).written
            && Entry(2, 1, false, i, j, k, supply(i, j, k)) in Run(Begin(spec), steps).written
            && supply(i, j, k) != ""
  {
    hide Run, Uids.Fill, Slot, UidAt;
    FillAt(spec, supply, i, j, k);
    var filled := Uids.Fill(spec, supply);
    var a, b, c, d := EventWrite(1, 0, i, j, k), Step.Read(2, 0), Step.Fill(2, supply), Step.Write(2, i, j, k);
    var e := Entry(1, 0, true, i, j, k, "");
    var f := Entry(2, 1, false, i, j, k, supply(i, j, k));
    var g := Begin(spec);
    var g1 := Global([spec], map[], {e});
    var g2 := Global([spec], map[2 := Holding(0)], {e});
    var g3 := Global([spec, filled], map[2 := Writing(1)], {e});
    OneStep(g, [], a);
    OneStep(g, [a], b);
    OneStep(g, [a, b], c);
    OneStep(g, [a, b, c], d);
    NoSteps(g);
    assert [a, b] == [a] + [b] && [a, b, c] == [a, b] + [c] && [a, b, c, d] == [a, b, c] + [d] && [a] == [] + [a];
    assert Next(g, a) == g1;
    assert Next(g1, b) == g2;
    assert [spec] + [filled] == [spec, filled];
    assert Next(g2, c) == g3;
    steps := [a, b, c, d];
    assert f in Next(g3, d).written && e in Next(g3, d).written;
    EachGood(a, b, c, d);
  }

  lemma {:induction false} EachGood(a: Step, b: Step, c: Step, d: Step)
    requires GoodStep(a) && GoodStep(b) && GoodStep(c) && GoodStep(d)
    ensures GoodSteps([a, b, c, d])
  {
  }

  lemma {:induction false} NoSteps(g: Global)
    ensures Run(g, []) == g
  {
  }

  lemma {:induction false} OneStep(g: Global, steps: seq<Step>, s: Step)
    ensures Run(g, steps + [s]) == Next(Run(g, steps), s)
  {
    assert (steps + [s])[..|steps|] == steps;
  }
}
