/** mustSetUID: every rule slot of a specification gets a UID once. */
module Uids {
  import opened Wrappers
  import opened Rules
  import opened RuleOps

  /** uuid.New, for the slot it is drawn for. */
  type Supply = (nat, nat, nat) -> string

  predicate Slot(spec: Spec, i: nat, j: nat, k: nat) {
    i < |spec| && j < |spec[i].containerRule| && k < |spec[i].containerRule[j].rules|
  }

  function UidAt(spec: Spec, i: nat, j: nat, k: nat): string
    requires Slot(spec, i, j, k)
  {
    spec[i].containerRule[j].rules[k].uid
  }

  function FillRules(rules: seq<CollectionRule>, supply: Supply, i: nat, j: nat): (r: seq<CollectionRule>)
    ensures |r| == |rules|
  {
    seq(|rules|, k requires 0 <= k < |rules| =>
      if rules[k].uid != "" then rules[k] else rules[k].(uid := supply(i, j, k)))
  }

  function FillContainerRules(rules: seq<ContainerRule>, supply: Supply, i: nat): (r: seq<ContainerRule>)
    ensures |r| == |rules|
  {
    seq(|rules|, j requires 0 <= j < |rules| => rules[j].(rules := FillRules(rules[j].rules, supply, i, j)))
  }

  function Fill(spec: Spec, supply: Supply): (r: Spec)
    ensures |r| == |spec|
  {
    seq(|spec|, i requires 0 <= i < |spec| =>
      spec[i].(containerRule := FillContainerRules(spec[i].containerRule, supply, i)))
  }

  ghost predicate NeedsUid(spec: Spec) {
    exists i: nat, j: nat, k: nat :: Slot(spec, i, j, k) && UidAt(spec, i, j, k) == ""
  }

  ghost predicate RulesNeedUid(rules: seq<CollectionRule>) {
    exists k :: 0 <= k < |rules| && rules[k].uid == ""
  }

  ghost predicate ContainerRulesNeedUid(rules: seq<ContainerRule>) {
    exists j :: 0 <= j < |rules| && RulesNeedUid(rules[j].rules)
  }

  method SetInRules(rules: seq<CollectionRule>, supply: Supply, i: nat, j: nat)
    returns (filled: seq<CollectionRule>, needUpdate: bool)
    ensures filled == FillRules(rules, supply, i, j)
    ensures needUpdate <==> RulesNeedUid(rules)
  {
    filled, needUpdate := rules, false;
    for k := 0 to |rules|
      invariant |filled| == |rules|
      invariant forall m :: 0 <= m < k ==> filled[m] == FillRules(rules, supply, i, j)[m]
      invariant forall m :: k <= m < |rules| ==> filled[m] == rules[m]
      invariant needUpdate <==> exists m :: 0 <= m < k && rules[m].uid == ""
    {
      if rules[k].uid != "" {
        continue;
      }
      filled := filled[k := filled[k].(uid := supply(i, j, k))];
      needUpdate := true;
    }
  }

  method SetInContainerRules(rules: seq<ContainerRule>, supply: Supply, i: nat)
    returns (filled: seq<ContainerRule>, needUpdate: bool)
    ensures filled == FillContainerRules(rules, supply, i)
    ensures needUpdate <==> ContainerRulesNeedUid(rules)
  {
    hide FillRules, RulesNeedUid;
    filled, needUpdate := rules, false;
    for j := 0 to |rules|
      invariant |filled| == |rules|
      invariant forall m :: 0 <= m < j ==> filled[m] == FillContainerRules(rules, supply, i)[m]
      invariant forall m :: j <= m < |rules| ==> filled[m] == rules[m]
      invariant needUpdate <==> exists m :: 0 <= m < j && RulesNeedUid(rules[m].rules)
    {
      var rulesFilled, changed := SetInRules(rules[j].rules, supply, i, j);
      filled := filled[j := filled[j].(rules := rulesFilled)];
      needUpdate := needUpdate || changed;
    }
  }

  method MustSetUID(spec: Spec, supply: Supply) returns (filled: Spec, needUpdate: bool)
    ensures filled == Fill(spec, supply)
    ensures needUpdate <==> NeedsUid(spec)
  {
    filled, needUpdate := spec, false;
    for i := 0 to |spec|
      invariant |filled| == |spec|
      invariant forall m :: 0 <= m < i ==> filled[m] == Fill(spec, supply)[m]
      invariant forall m :: i <= m < |spec| ==> filled[m] == spec[m]
      invariant needUpdate <==> exists m :: 0 <= m < i && ContainerRulesNeedUid(spec[m].containerRule)
    {
      hide FillContainerRules, ContainerRulesNeedUid;
      var rulesFilled, changed := SetInContainerRules(spec[i].containerRule, supply, i);
      filled := filled[i := filled[i].(containerRule := rulesFilled)];
      needUpdate := needUpdate || changed;
    }
    NeedsUidNested(spec);
  }

  lemma {:induction false} NeedsUidNested(spec: Spec)
    ensures NeedsUid(spec) <==> exists i :: 0 <= i < |spec| && ContainerRulesNeedUid(spec[i].containerRule)
  {
    if i: nat, j: nat, k: nat :| Slot(spec, i, j, k) && UidAt(spec, i, j, k) == "" {
      assert spec[i].containerRule[j].rules[k].uid == "";
      assert RulesNeedUid(spec[i].containerRule[j].rules);
      assert ContainerRulesNeedUid(spec[i].containerRule);
    }
    if i :| 0 <= i < |spec| && ContainerRulesNeedUid(spec[i].containerRule) {
      var j :| 0 <= j < |spec[i].containerRule| && RulesNeedUid(spec[i].containerRule[j].rules);
      var k :| 0 <= k < |spec[i].containerRule[j].rules| && spec[i].containerRule[j].rules[k].uid == "";
      assert Slot(spec, i, j, k) && UidAt(spec, i, j, k) == "";
    }
  }

  ghost predicate GoodSupply(supply: Supply) {
    forall i: nat, j: nat, k: nat :: supply(i, j, k) != ""
  }

  /** Filling keeps the slots and the UIDs already set, and leaves none empty. */
  lemma {:induction false} FillAt(spec: Spec, supply: Supply, i: nat, j: nat, k: nat)
    ensures Slot(Fill(spec, supply), i, j, k) <==> Slot(spec, i, j, k)
    ensures Slot(spec, i, j, k) ==>
              UidAt(Fill(spec, supply), i, j, k) ==
              if UidAt(spec, i, j, k) != "" then UidAt(spec, i, j, k) else supply(i, j, k)
  {
  }

  lemma {:induction false} FillLeavesNone(spec: Spec, supply: Supply)
    requires GoodSupply(supply)
    ensures !NeedsUid(Fill(spec, supply))
  {
    var filled := Fill(spec, supply);
    forall i: nat, j: nat, k: nat | Slot(filled, i, j, k)
      ensures UidAt(filled, i, j, k) != ""
    {
      FillAt(spec, supply, i, j, k);
    }
  }

  /** A specification with all its UIDs is not changed. */
  lemma {:induction false} FillOfFilled(spec: Spec, supply: Supply)
    requires !NeedsUid(spec)
    ensures Fill(spec, supply) == spec
  {
    forall i | 0 <= i < |spec|
      ensures FillContainerRules(spec[i].containerRule, supply, i) == spec[i].containerRule
    {
      forall j | 0 <= j < |spec[i].containerRule|
        ensures FillRules(spec[i].containerRule[j].rules, supply, i, j) == spec[i].containerRule[j].rules
      {
        forall k | 0 <= k < |spec[i].containerRule[j].rules|
          ensures spec[i].containerRule[j].rules[k].uid != ""
        {
          assert Slot(spec, i, j, k) && UidAt(spec, i, j, k) != "";
        }
      }
    }
  }

  /** Filling changes no selector, so the same pods are reached. */
  lemma {:induction false} FillReaches(spec: Spec, supply: Supply, cl: Cluster, namespace: string, uid: string)
    ensures Reaches(Fill(spec, supply), cl, namespace, uid) <==> Reaches(spec, cl, namespace, uid)
  {
    var pod := PodWith(cl.pods, uid);
    if pod.Some? {
      SameTakers(spec, Fill(spec, supply), pod.value, namespace, cl.host);
    }
  }

  lemma {:induction false} SameTakers(a: Spec, b: Spec, pod: Pod, namespace: string, host: string)
    requires |a| == |b|
    requires forall i :: 0 <= i < |a| ==> a[i].enable == b[i].enable && a[i].matchLabels == b[i].matchLabels
    ensures LastTaker(a, pod, namespace, host).Some? <==> LastTaker(b, pod, namespace, host).Some?
  {
    if a != [] {
      SameTakers(a[..|a| - 1], b[..|b| - 1], pod, namespace, host);
    }
  }

  /** Filling changes container rules exactly when one of their UIDs is empty. */
  lemma {:induction false} FillChanges(rules: seq<ContainerRule>, supply: Supply, i: nat)
    requires GoodSupply(supply)
    ensures FillContainerRules(rules, supply, i) == rules <==> !ContainerRulesNeedUid(rules)
  {
    var filled := FillContainerRules(rules, supply, i);
    if ContainerRulesNeedUid(rules) {
      var j :| 0 <= j < |rules| && RulesNeedUid(rules[j].rules);
      var k :| 0 <= k < |rules[j].rules| && rules[j].rules[k].uid == "";
      assert filled[j].rules[k].uid != rules[j].rules[k].uid;
    } else {
      forall j | 0 <= j < |rules|
        ensures filled[j] == rules[j]
      {
        assert !RulesNeedUid(rules[j].rules);
        assert FillRules(rules[j].rules, supply, i, j) == rules[j].rules;
      }
    }
  }

  /** The same collector takes a pod before and after filling; its rules change if a UID of theirs is empty. */
  lemma {:induction false} TakerOfFilled(spec: Spec, supply: Supply, pod: Pod, namespace: string, host: string)
    requires GoodSupply(supply)
    ensures var a, b := LastTaker(spec, pod, namespace, host), LastTaker(Fill(spec, supply), pod, namespace, host);
            && (a.Some? <==> b.Some?)
            && (a.Some? ==> (a.value.containerRule == b.value.containerRule <==>
                             !ContainerRulesNeedUid(a.value.containerRule)))
  {
    hide FillContainerRules, ContainerRulesNeedUid;
    if spec != [] {
      var n := |spec| - 1;
      assert Fill(spec, supply)[..n] == Fill(spec[..n], supply);
      TakerOfFilled(spec[..n], supply, pod, namespace, host);
      FillChanges(spec[n].containerRule, supply, n);
    }
  }

  /** Filling touches nothing but the UIDs: the collectors, their container rules and all else of the rules stay. */
  lemma {:induction false} FillExactly(spec: Spec, supply: Supply)
    ensures var filled := Fill(spec, supply);
            && |filled| == |spec|
            && (forall i :: 0 <= i < |spec| ==>
                  && filled[i] == spec[i].(containerRule := filled[i].containerRule)
                  && SameButUids(spec[i].containerRule, filled[i].containerRule))
  {
    forall i | 0 <= i < |spec|
      ensures SameButUids(spec[i].containerRule, Fill(spec, supply)[i].containerRule)
    {
      forall j | 0 <= j < |spec[i].containerRule|
        ensures SameRulesButUids(spec[i].containerRule[j].rules, Fill(spec, supply)[i].containerRule[j].rules)
      {
      }
    }
  }

  ghost predicate SameButUids(rules: seq<ContainerRule>, filled: seq<ContainerRule>) {
    && |filled| == |rules|
    && forall j :: 0 <= j < |rules| ==>
         && filled[j] == rules[j].(rules := filled[j].rules)
         && SameRulesButUids(rules[j].rules, filled[j].rules)
  }

  ghost predicate SameRulesButUids(rules: seq<CollectionRule>, filled: seq<CollectionRule>) {
    |filled| == |rules| && forall k :: 0 <= k < |rules| ==> filled[k] == rules[k].(uid := filled[k].uid)
  }
}
