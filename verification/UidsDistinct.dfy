/** The UIDs of the slots of a rule stay different, if those drawn are new. */
module UidsDistinct {
  import opened Rules
  import opened Uids
  import opened UidProtocol

  /** No two slots have the same UID, empty ones apart. */
  ghost predicate DistinctUids(spec: Spec) {
    forall i: nat, j: nat, k: nat, l: nat, m: nat, n: nat ::
      (Slot(spec, i, j, k) && Slot(spec, l, m, n) && UidAt(spec, i, j, k) != "" &&
       UidAt(spec, i, j, k) == UidAt(spec, l, m, n)) ==> (i, j, k) == (l, m, n)
  }

  /** Drawn UIDs repeat neither each other nor one the specification has. */
  ghost predicate FreshSupply(spec: Spec, supply: Supply) {
    && GoodSupply(supply)
    && (forall i: nat, j: nat, k: nat, l: nat, m: nat, n: nat ::
          supply(i, j, k) == supply(l, m, n) ==> (i, j, k) == (l, m, n))
    && (forall i: nat, j: nat, k: nat, l: nat, m: nat, n: nat :: Slot(spec, l, m, n) ==>
          supply(i, j, k) != UidAt(spec, l, m, n))
  }

  /** Every filling in the run draws UIDs that are fresh for the version it fills. */
  ghost predicate FreshSteps(g: Global, steps: seq<Step>) {
    steps == [] ||
    (var init, s := steps[..|steps| - 1], steps[|steps| - 1];
     FreshSteps(g, init) && GoodStep(s) &&
     ((s.Fill? || s.LoseReply?) ==> var h := Run(g, init).history; h != [] ==> FreshSupply(h[|h| - 1], s.supply)))
  }

  lemma {:induction false} FillDistinct(spec: Spec, supply: Supply)
    requires DistinctUids(spec) && FreshSupply(spec, supply)
    ensures DistinctUids(Uids.Fill(spec, supply))
  {
    hide Uids.Fill;
    var filled := Uids.Fill(spec, supply);
    forall i: nat, j: nat, k: nat, l: nat, m: nat, n: nat |
      Slot(filled, i, j, k) && Slot(filled, l, m, n) && UidAt(filled, i, j, k) != "" &&
      UidAt(filled, i, j, k) == UidAt(filled, l, m, n)
      ensures (i, j, k) == (l, m, n)
    {
      FillAt(spec, supply, i, j, k);
      FillAt(spec, supply, l, m, n);
    }
  }

  /** A step adds nothing to the history, the current version again, or the current version filled. */
  lemma {:induction false} NextHistory(g: Global, s: Step)
    requires g.history != []
    ensures var last, h := g.history[|g.history| - 1], Next(g, s).history;
            || h == g.history
            || h == g.history + [last]
            || ((s.Fill? || s.LoseReply?) && h == g.history + [Uids.Fill(last, s.supply)])
  {
    hide Uids.Fill;
  }

  /** With fresh draws, the slots of the current version never come to share a UID. */
  lemma {:induction false} UidsStayDistinct(spec: Spec, steps: seq<Step>)
    requires DistinctUids(spec) && FreshSteps(Begin(spec), steps)
    ensures var h := Run(Begin(spec), steps).history; h != [] && DistinctUids(h[|h| - 1])
  {
    hide DistinctUids, FreshSupply, GoodStep, Next;
    if steps != [] {
      var init, s := steps[..|steps| - 1], steps[|steps| - 1];
      UidsStayDistinct(spec, init);
      var g := Run(Begin(spec), init);
      NextHistory(g, s);
      if s.Fill? || s.LoseReply? {
        FillDistinct(g.history[|g.history| - 1], s.supply);
      }
    }
  }
}
