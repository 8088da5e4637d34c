/**
 MergeDuplicateKeys on node objects.  A shape is a ghost picture of the pointers below a node; the
 value of a shape is the tree as a value, and the method is proved against Yaml.Merge.
 */
module YamlHeap {
  import opened Yaml

  class YamlNode {
    const kind: Kind
    const tag: string
    const value: string
    var content: seq<YamlNode>

    constructor (kind: Kind, tag: string, value: string, content: seq<YamlNode>)
      ensures this.kind == kind && this.tag == tag && this.value == value && this.content == content
    {
      this.kind, this.tag, this.value, this.content := kind, tag, value, content;
    }
  }

  datatype Shape = Shape(node: YamlNode, kids: seq<Shape>)

  ghost function NodeSet(s: Shape): set<YamlNode>
    decreases s
  {
    {s.node} + SetOf(s.kids)
  }

  ghost function SetOf(ss: seq<Shape>): set<YamlNode>
    decreases ss
  {
    set i, x | 0 <= i < |ss| && x in NodeSet(ss[i]) :: x
  }

  ghost function Roots(ss: seq<Shape>): (r: seq<YamlNode>)
    ensures |r| == |ss|
  {
    seq(|ss|, i requires 0 <= i < |ss| => ss[i].node)
  }

  /** The tree as a value. */
  ghost function Val(s: Shape): Node
    decreases s
  {
    Node(s.node.kind, s.node.tag, s.node.value, Vals(s.kids))
  }

  ghost function Vals(ss: seq<Shape>): (r: seq<Node>)
    ensures |r| == |ss|
    ensures forall i :: 0 <= i < |ss| ==> r[i] == Val(ss[i])
    decreases ss
  {
    seq(|ss|, i requires 0 <= i < |ss| => Val(ss[i]))
  }

  /** The pointers on the heap are those of the shape. */
  ghost predicate Linked(s: Shape)
    reads NodeSet(s)
    decreases s
  {
    && s.node.content == Roots(s.kids)
    && forall i :: 0 <= i < |s.kids| ==> (assert NodeSet(s.kids[i]) <= SetOf(s.kids); Linked(s.kids[i]))
  }

  /** No node is reached twice. */
  ghost predicate Tree(s: Shape)
    decreases s
  {
    s.node !in SetOf(s.kids) && Apart(s.kids) && forall i :: 0 <= i < |s.kids| ==> Tree(s.kids[i])
  }

  ghost predicate Apart(ss: seq<Shape>) {
    forall i, j :: 0 <= i < j < |ss| ==> NodeSet(ss[i]) !! NodeSet(ss[j])
  }

  /** A list of separate linked trees. */
  ghost predicate Forest(ss: seq<Shape>)
    reads SetOf(ss)
  {
    Apart(ss) && forall i :: 0 <= i < |ss| ==> Tree(ss[i]) && (assert NodeSet(ss[i]) <= SetOf(ss); Linked(ss[i]))
  }

  /** Mappings have as many values as keys, at every depth. */
  ghost predicate Even(n: Node)
    decreases n
  {
    (n.kind == Mapping ==> |n.content| % 2 == 0) && forall i :: 0 <= i < |n.content| ==> Even(n.content[i])
  }

  lemma {:induction false} Member(ss: seq<Shape>, i: int)
    requires 0 <= i < |ss|
    ensures NodeSet(ss[i]) <= SetOf(ss)
  {
  }

  lemma {:induction false} Below(s: Shape)
    ensures s.node in NodeSet(s) && NodeSet(s) == {s.node} + SetOf(s.kids)
    ensures Val(s).kind == s.node.kind && Val(s).content == Vals(s.kids)
  {
  }

  /** A linked tree is a node and the forest of its children. */
  lemma {:induction false} TreeForest(s: Shape)
    ensures Tree(s) && Linked(s) <==>
            s.node !in SetOf(s.kids) && s.node.content == Roots(s.kids) && Forest(s.kids)
  {
  }

  lemma {:induction false} SetOfReplace(ss: seq<Shape>, i: int, t: Shape)
    requires 0 <= i < |ss|
    ensures SetOf(ss[i := t]) <= SetOf(ss) + NodeSet(t)
  {
    hide NodeSet;
    var next := ss[i := t];
    forall j | 0 <= j < |next|
      ensures NodeSet(next[j]) <= SetOf(ss) + NodeSet(t)
    {
      Member(ss, j);
    }
  }

  lemma {:induction false} ForestReplace(ss: seq<Shape>, i: int, t: Shape)
    requires 0 <= i < |ss| && Apart(ss)
    requires forall j :: 0 <= j < |ss| && j != i ==> NodeSet(t) !! NodeSet(ss[j])
    requires forall j :: 0 <= j < |ss| && j != i ==> Tree(ss[j]) && Linked(ss[j])
    requires Tree(t) && Linked(t)
    ensures Forest(ss[i := t])
  {
    hide NodeSet, Tree, Linked;
  }

  method MergeDuplicateKeys(node: YamlNode, ghost s: Shape) returns (r: YamlNode, ghost t: Shape)
    requires s.node == node && Tree(s) && Linked(s) && Even(Val(s))
    modifies NodeSet(s)
    ensures t.node == r && Tree(t) && Linked(t)
    ensures Val(t) == Merge(Val(s))
    ensures forall x :: x in NodeSet(t) ==> x in NodeSet(s) || fresh(x)
    decreases s, 4
  {
    hide NodeSet, SetOf, Val, Vals, Tree, Linked, Even;
    Below(s);
    match node.kind
    case Document =>
      t := MergeItems(node, s);
      r := node;
    case Sequence =>
      t := MergeItems(node, s);
      r := node;
    case Mapping =>
      r, t := MergeMapping(node, s);
    case _ =>
      r, t := node, s;
  }

  /** Documents and sequences: every item is replaced by its merged form. */
  method MergeItems(node: YamlNode, ghost s: Shape) returns (ghost t: Shape)
    requires s.node == node && Tree(s) && Linked(s) && Even(Val(s))
    modifies NodeSet(s)
    ensures t.node == node && Tree(t) && Linked(t)
    ensures Val(t) == Val(s).(content := MergeAll(Val(s).content))
    ensures forall x :: x in NodeSet(t) ==> x in NodeSet(s) || fresh(x)
    decreases s, 1
  {
    hide NodeSet, SetOf, Val, Vals, Tree, Linked, Even;
    ghost var cur := s.kids;
    Below(s);
    TreeForest(s);
    for i := 0 to |node.content|
      invariant |cur| == |s.kids| == |node.content| && node.content == Roots(cur)
      invariant Forest(cur) && node !in SetOf(cur)
      invariant forall x :: x in SetOf(cur) ==> x in NodeSet(s) || fresh(x)
      invariant forall k :: 0 <= k < i ==> Val(cur[k]) == Merge(Val(s.kids[k]))
      invariant forall k :: i <= k < |cur| ==> cur[k] == s.kids[k]
    {
      Member(s.kids, i);
      EvenKid(s, i);
      cur := MergeItem(node, s, cur, i);
    }
    t := Shape(node, cur);
    TreeForest(t);
    Below(t);
    ValueOf(s, t);
  }

  lemma {:induction false} EvenKid(s: Shape, i: int)
    requires Even(Val(s)) && 0 <= i < |s.kids|
    ensures Even(Val(s.kids[i]))
  {
    assert Even(Val(s).content[i]);
  }

  lemma {:induction false} ValueOf(s: Shape, t: Shape)
    requires t.node == s.node && |t.kids| == |s.kids|
    requires forall k :: 0 <= k < |s.kids| ==> Val(t.kids[k]) == Merge(Val(s.kids[k]))
    ensures Val(t) == Val(s).(content := MergeAll(Val(s).content))
  {
    assert Vals(t.kids) == MergeAll(Vals(s.kids));
  }

  method MergeItem(node: YamlNode, ghost s: Shape, ghost cur: seq<Shape>, i: nat) returns (ghost next: seq<Shape>)
    requires s.node == node && i < |cur| == |s.kids| == |node.content| && node.content == Roots(cur)
    requires Forest(cur) && node !in SetOf(cur) && cur[i] == s.kids[i] && Even(Val(cur[i]))
    modifies NodeSet(cur[i]), node
    ensures |next| == |cur| == |node.content| && node.content == Roots(next)
    ensures Forest(next) && node !in SetOf(next)
    ensures forall x :: x in SetOf(next) ==> x in SetOf(cur) || fresh(x)
    ensures forall k :: 0 <= k < |cur| && k != i ==> next[k] == cur[k]
    ensures Val(next[i]) == Merge(Val(cur[i]))
    decreases s, 0
  {
    hide NodeSet, SetOf, Val, Vals, Tree, Linked, Even, Merge;
    Member(cur, i);
    assert forall j :: 0 <= j < |cur| ==> allocated(cur[j]) && allocated(NodeSet(cur[j]));
    ghost var t;
    var merged;
    merged, t := MergeDuplicateKeys(node.content[i], cur[i]);
    node.content := node.content[i := merged];
    next := cur[i := t];
    forall j | 0 <= j < |cur| && j != i
      ensures NodeSet(t) !! NodeSet(cur[j]) && Tree(cur[j]) && Linked(cur[j])
    {
      Member(cur, j);
      assert NodeSet(cur[i]) !! NodeSet(cur[j]);
    }
    SetOfReplace(cur, i, t);
    ForestReplace(cur, i, t);
  }

  // ---- Mappings ----

  ghost function PoolSet(pool: map<string, Shape>): set<YamlNode> {
    set k, x | k in pool && x in NodeSet(pool[k]) :: x
  }

  /** The trees collected so far, one for each key, all separate. */
  ghost predicate Pool(pool: map<string, Shape>)
    reads PoolSet(pool)
  {
    && (forall k :: k in pool ==> Tree(pool[k]) && (assert NodeSet(pool[k]) <= PoolSet(pool); Linked(pool[k])))
    && (forall k, l :: k in pool && l in pool && k != l ==> NodeSet(pool[k]) !! NodeSet(pool[l]))
  }

  ghost predicate Names(merged: map<string, YamlNode>, pool: map<string, Shape>) {
    merged.Keys == pool.Keys && forall k :: k in merged ==> merged[k] == pool[k].node
  }

  /** The pool as values. */
  ghost predicate Means(pool: map<string, Shape>, m: map<string, Node>) {
    pool.Keys == m.Keys && forall k :: k in pool ==> Val(pool[k]) == m[k]
  }

  ghost function Joint(first: Shape, later: Shape): Shape {
    if first.node.kind == Sequence && later.node.kind == Sequence then Shape(first.node, first.kids + later.kids)
    else first
  }

  lemma {:induction false} SetOfAppend(a: seq<Shape>, b: seq<Shape>)
    ensures SetOf(a + b) == SetOf(a) + SetOf(b)
  {
    hide NodeSet;
    forall i | 0 <= i < |b|
      ensures NodeSet(b[i]) <= SetOf(a + b)
    {
      assert (a + b)[|a| + i] == b[i];
    }
    forall i | 0 <= i < |a|
      ensures NodeSet(a[i]) <= SetOf(a + b)
    {
      assert (a + b)[i] == a[i];
    }
  }

  lemma {:induction false} ForestAppend(a: seq<Shape>, b: seq<Shape>)
    requires Forest(a) && Forest(b) && SetOf(a) !! SetOf(b)
    ensures Forest(a + b)
  {
    hide NodeSet, SetOf, Tree, Linked;
    forall i, j | 0 <= i < j < |a + b|
      ensures NodeSet((a + b)[i]) !! NodeSet((a + b)[j])
    {
      if i < |a| {
        Member(a, i);
      }
      if j >= |a| {
        Member(b, j - |a|);
      }
      if i >= |a| {
        assert NodeSet(b[i - |a|]) !! NodeSet(b[j - |a|]);
      }
    }
  }

  lemma {:induction false} JointFacts(first: Shape, later: Shape)
    ensures Joint(first, later).node == first.node
    ensures Val(Joint(first, later)) == Extend(Val(first), Val(later))
    ensures NodeSet(Joint(first, later)) <= NodeSet(first) + NodeSet(later)
  {
    Below(first);
    Below(later);
    Below(Joint(first, later));
    SetOfAppend(first.kids, later.kids);
    assert Vals(first.kids + later.kids) == Vals(first.kids) + Vals(later.kids);
  }

  /** A repeated key: the items of a later sequence are appended to the first one, in place. */
  method ExtendNode(existing: YamlNode, later: YamlNode, ghost first: Shape, ghost t: Shape)
    returns (ghost joint: Shape)
    requires first.node == existing && t.node == later && NodeSet(first) !! NodeSet(t)
    requires Tree(first) && Linked(first) && Tree(t) && Linked(t)
    modifies existing
    ensures joint == Joint(first, t) && Tree(joint) && Linked(joint)
  {
    hide NodeSet, SetOf, Tree, Linked;
    joint := Joint(first, t);
    if existing.kind == Sequence && later.kind == Sequence {
      Below(first);
      Below(t);
      TreeForest(first);
      TreeForest(t);
      existing.content := existing.content + later.content;
      SetOfAppend(first.kids, t.kids);
      ForestAppend(first.kids, t.kids);
      assert Roots(first.kids + t.kids) == Roots(first.kids) + Roots(t.kids);
      TreeForest(joint);
    }
  }

  lemma {:induction false} PoolMember(pool: map<string, Shape>, k: string)
    requires k in pool
    ensures NodeSet(pool[k]) <= PoolSet(pool) && pool[k].node in NodeSet(pool[k])
  {
  }

  lemma {:induction false} PoolSetUpdate(pool: map<string, Shape>, key: string, t: Shape)
    ensures PoolSet(pool[key := t]) <= PoolSet(pool) + NodeSet(t)
  {
    hide NodeSet;
  }

  /** A pool stays one when a key gets a tree that shares nothing with the other keys. */
  lemma {:induction false} PoolUpdate(pool: map<string, Shape>, key: string, t: Shape)
    requires forall k :: k in pool && k != key ==> Tree(pool[k]) && Linked(pool[k]) && NodeSet(pool[k]) !! NodeSet(t)
    requires forall k, l :: k in pool && l in pool && k != l ==> NodeSet(pool[k]) !! NodeSet(pool[l])
    requires Tree(t) && Linked(t)
    ensures Pool(pool[key := t])
  {
    hide NodeSet, Tree, Linked;
  }

  method AddEntry(merged: map<string, YamlNode>, key: string, value: YamlNode, ghost pool: map<string, Shape>,
                  ghost t: Shape, ghost m: map<string, Node>)
    returns (more: map<string, YamlNode>, ghost pool': map<string, Shape>)
    requires Names(merged, pool) && Pool(pool) && Means(pool, m)
    requires t.node == value && Tree(t) && Linked(t) && NodeSet(t) !! PoolSet(pool)
    modifies PoolSet(pool)
    ensures Names(more, pool') && Pool(pool')
    ensures Means(pool', if key in m then m[key := Extend(m[key], Val(t))] else m[key := Val(t)])
    ensures PoolSet(pool') <= PoolSet(pool) + NodeSet(t)
  {
    hide NodeSet, SetOf, Tree, Linked, PoolSet, Joint, Extend, Val;
    assert forall k :: k in pool ==> allocated(pool[k]) && allocated(NodeSet(pool[k]));
    ghost var now := t;
    more := merged;
    if key in merged {
      PoolMember(pool, key);
      now := ExtendNode(merged[key], value, pool[key], t);
      JointFacts(pool[key], t);
    } else {
      more := merged[key := value];
    }
    forall k | k in pool && k != key
      ensures Tree(pool[k]) && Linked(pool[k]) && NodeSet(pool[k]) !! NodeSet(now)
    {
      PoolMember(pool, k);
    }
    pool' := pool[key := now];
    PoolUpdate(pool, key, now);
    PoolSetUpdate(pool, key, now);
  }

  /** The inner loop of the second pass. */
  method IsListed(order: seq<string>, key: string) returns (found: bool)
    ensures found <==> key in order
  {
    for k := 0 to |order|
      invariant key !in order[..k]
    {
      if order[k] == key {
        return true;
      }
    }
    return false;
  }

  /** The second pass: each key of the mapping at its first occurrence. */
  method FirstOccurrences(node: YamlNode, ghost s: Shape) returns (order: seq<string>)
    requires s.node == node && node.content == Roots(s.kids) && |s.kids| % 2 == 0
    ensures order == Order(MergedEntries(Vals(s.kids)))
  {
    hide Order, MergedEntries, Vals;
    order := [];
    ghost var entries := MergedEntries(Vals(s.kids));
    assert Order(entries[..0]) == [] by {
      OrderOfNone();
    }
    var i := 0;
    while i < |node.content|
      invariant i % 2 == 0 && i <= |node.content|
      invariant order == Order(entries[..i / 2])
    {
      var key := node.content[i].value;
      KeyAt(s, i / 2);
      assert entries[..i / 2 + 1] == entries[..i / 2] + [entries[i / 2]];
      OrderSnoc(entries[..i / 2], entries[i / 2]);
      var listed := IsListed(order, key);
      if !listed {
        order := order + [key];
      }
      i := i + 2;
    }
    assert entries[..|entries|] == entries;
  }

  lemma {:induction false} KeyAt(s: Shape, i: int)
    requires 0 <= i < |s.kids| / 2
    ensures |MergedEntries(Vals(s.kids))| == |s.kids| / 2
    ensures MergedEntries(Vals(s.kids))[i] == Entry(s.kids[2 * i].node.value, Merge(Val(s.kids[2 * i + 1])))
  {
    assert Vals(s.kids)[2 * i].value == s.kids[2 * i].node.value;
  }

  lemma {:induction false} ForestPair(a: Shape, b: Shape)
    ensures SetOf([a, b]) == NodeSet(a) + NodeSet(b)
    ensures Tree(a) && Linked(a) && Tree(b) && Linked(b) && NodeSet(a) !! NodeSet(b) ==> Forest([a, b])
  {
    hide NodeSet, Tree, Linked;
    Member([a, b], 0);
    Member([a, b], 1);
  }

  lemma {:induction false} Leaf(node: YamlNode)
    requires node.content == []
    ensures Tree(Shape(node, [])) && Linked(Shape(node, [])) && NodeSet(Shape(node, [])) == {node}
    ensures Val(Shape(node, [])) == Node(node.kind, node.tag, node.value, [])
  {
  }

  lemma {:induction false} EmptyForest(m: map<string, Node>)
    ensures SetOf([]) == {} && Forest([]) && Vals([]) == Emit([], m)
  {
  }

  lemma {:induction false} EmitSnoc(order: seq<string>, m: map<string, Node>, j: int)
    requires 0 <= j < |order| && forall k :: k in order ==> k in m
    ensures Emit(order[..j + 1], m) == Emit(order[..j], m) + [KeyNode(order[j]), m[order[j]]]
  {
    assert order[..j + 1][..j] == order[..j];
  }

  lemma {:induction false} ValsAppend(a: seq<Shape>, b: seq<Shape>)
    ensures Vals(a + b) == Vals(a) + Vals(b) && Roots(a + b) == Roots(a) + Roots(b)
  {
    hide Val;
    assert Roots(a + b) == Roots(a) + Roots(b);
    assert Vals(a + b) == Vals(a) + Vals(b);
  }

  /** A key node and a value node are appended to the new mapping. */
  method AppendPair(r: YamlNode, key: string, value: YamlNode, ghost kids: seq<Shape>, ghost v: Shape)
    returns (ghost more: seq<Shape>)
    requires v.node == value && Tree(v) && Linked(v)
    requires Forest(kids) && r.content == Roots(kids)
    requires r !in SetOf(kids) && r !in NodeSet(v) && SetOf(kids) !! NodeSet(v)
    modifies r
    ensures Forest(more) && r.content == Roots(more) && r !in SetOf(more)
    ensures Vals(more) == Vals(kids) + [KeyNode(key), Val(v)]
    ensures forall x :: x in SetOf(more) ==> x in SetOf(kids) || x in NodeSet(v) || fresh(x)
  {
    hide NodeSet, SetOf, Tree, Linked, Vals, Val;
    assert allocated(SetOf(kids)) && allocated(NodeSet(v));
    var newKey := new YamlNode(Scalar, "!!str", key, []);
    r.content := r.content + [newKey, value];
    ghost var leaf := Shape(newKey, []);
    more := kids + [leaf, v];
    Leaf(newKey);
    ForestPair(leaf, v);
    SetOfAppend(kids, [leaf, v]);
    ForestAppend(kids, [leaf, v]);
    ValsAppend(kids, [leaf, v]);
    assert Vals([leaf, v]) == [Val(leaf), Val(v)] by {
      ValsPair(leaf, v);
    }
  }

  lemma {:induction false} ValsPair(a: Shape, b: Shape)
    ensures Vals([a, b]) == [Val(a), Val(b)]
  {
    hide Val;
  }

  /** The new mapping: a new key node and the collected value node for each key. */
  method Assemble(tag: string, order: seq<string>, merged: map<string, YamlNode>, ghost pool: map<string, Shape>,
                  ghost m: map<string, Node>)
    returns (r: YamlNode, ghost t: Shape)
    requires Names(merged, pool) && Pool(pool) && Means(pool, m)
    requires Unique(order) && forall k :: k in order ==> k in m
    ensures fresh(r) && t.node == r && Tree(t) && Linked(t)
    ensures Val(t) == Node(Mapping, tag, "", Emit(order, m))
    ensures forall x :: x in NodeSet(t) ==> x in PoolSet(pool) || fresh(x)
  {
    hide NodeSet, SetOf, Tree, Linked, PoolSet, Emit, Vals, Val;
    assert allocated(PoolSet(pool));
    r := new YamlNode(Mapping, tag, "", []);
    ghost var kids: seq<Shape> := [];
    EmptyForest(m);
    for j := 0 to |order|
      invariant fresh(r) && r !in SetOf(kids) && Pool(pool)
      invariant Forest(kids) && r.content == Roots(kids)
      invariant Vals(kids) == Emit(order[..j], m)
      invariant forall x :: x in SetOf(kids) ==> fresh(x) || From(pool, order[..j], x)
    {
      var key := order[j];
      PoolMember(pool, key);
      NotFromEarlier(pool, order, j);
      ghost var more := AppendPair(r, key, merged[key], kids, pool[key]);
      EmitSnoc(order, m, j);
      assert order[..j + 1] == order[..j] + [key];
      kids := more;
    }
    assert order[..|order|] == order;
    t := Shape(r, kids);
    TreeForest(t);
    Below(t);
    assert Val(t) == Node(Mapping, tag, "", Vals(kids)) by {
      ValOf(t);
    }
    forall x | x in SetOf(kids) && !fresh(x)
      ensures x in PoolSet(pool)
    {
      var k :| k in order && x in NodeSet(pool[k]);
      PoolMember(pool, k);
    }
  }

  lemma {:induction false} ValOf(s: Shape)
    ensures Val(s) == Node(s.node.kind, s.node.tag, s.node.value, Vals(s.kids))
  {
  }

  /** The node belongs to the tree collected for one of these keys. */
  ghost predicate From(pool: map<string, Shape>, keys: seq<string>, x: YamlNode) {
    exists k :: k in keys && k in pool && x in NodeSet(pool[k])
  }

  lemma {:induction false} NotFromEarlier(pool: map<string, Shape>, order: seq<string>, j: int)
    requires Unique(order) && 0 <= j < |order| && order[j] in pool
    requires forall k, l :: k in pool && l in pool && k != l ==> NodeSet(pool[k]) !! NodeSet(pool[l])
    ensures forall x :: x in NodeSet(pool[order[j]]) ==> !From(pool, order[..j], x)
  {
    hide NodeSet;
  }

  /** The values not yet visited are linked trees that share nothing with the pool. */
  ghost predicate Waiting(s: Shape, i: nat, pool: map<string, Shape>)
    reads SetOf(s.kids)
  {
    forall k {:trigger s.kids[k]} :: i <= k < |s.kids| ==>
      NodeSet(s.kids[k]) !! PoolSet(pool) && (assert NodeSet(s.kids[k]) <= SetOf(s.kids); Linked(s.kids[k]))
  }

  /** One turn of the first pass. */
  method MergeEntry(node: YamlNode, ghost s: Shape, i: nat, merged: map<string, YamlNode>,
                    ghost pool: map<string, Shape>, ghost m: map<string, Node>)
    returns (more: map<string, YamlNode>, ghost pool': map<string, Shape>)
    requires s.node == node && i + 1 < |s.kids| && node.content == Roots(s.kids)
    requires Tree(s) && Even(Val(s)) && Waiting(s, i, pool)
    requires Names(merged, pool) && Pool(pool) && Means(pool, m)
    modifies NodeSet(s.kids[i + 1]) + PoolSet(pool)
    ensures Names(more, pool') && Pool(pool')
    ensures var key, v := s.kids[i].node.value, Merge(Val(s.kids[i + 1]));
            Means(pool', if key in m then m[key := Extend(m[key], v)] else m[key := v])
    ensures Waiting(s, i + 2, pool')
    ensures forall x :: x in PoolSet(pool') ==> x in PoolSet(pool) || x in NodeSet(s.kids[i + 1]) || fresh(x)
    decreases s, 0
  {
    hide NodeSet, SetOf, Tree, Linked, PoolSet, Vals, Val, Even, Extend, Merge;
    var keyNode := node.content[i];
    var valueNode := node.content[i + 1];
    ghost var child := s.kids[i + 1];
    TreeKids(s);
    EvenKid(s, i + 1);
    assert allocated(PoolSet(pool)) && allocated(SetOf(s.kids));
    var mergedValue;
    ghost var t;
    mergedValue, t := MergeDuplicateKeys(valueNode, child);
    assert Pool(pool) by {
      forall k | k in pool
        ensures Linked(pool[k])
      {
        PoolMember(pool, k);
      }
    }
    more, pool' := AddEntry(merged, keyNode.value, mergedValue, pool, t, m);
    forall k | i + 2 <= k < |s.kids|
      ensures NodeSet(s.kids[k]) !! PoolSet(pool') && Linked(s.kids[k])
    {
      Member(s.kids, k);
      assert NodeSet(s.kids[i + 1]) !! NodeSet(s.kids[k]);
    }
  }

  lemma {:induction false} TreeKids(s: Shape)
    requires Tree(s)
    ensures s.node !in SetOf(s.kids) && Apart(s.kids)
    ensures forall k :: 0 <= k < |s.kids| ==> Tree(s.kids[k])
  {
  }

  lemma {:induction false} EntriesFacts(s: Shape, i: nat)
    requires i < |s.kids| / 2
    ensures var entries := MergedEntries(Vals(s.kids));
            && |entries| == |s.kids| / 2
            && Collect(entries[..i + 1]) ==
               var m, e := Collect(entries[..i]), Entry(s.kids[2 * i].node.value, Merge(Val(s.kids[2 * i + 1])));
               if e.key in m then m[e.key := Extend(m[e.key], e.value)] else m[e.key := e.value]
  {
    hide Collect, Extend, Merge;
    var entries := MergedEntries(Vals(s.kids));
    KeyAt(s, i);
    assert entries[..i + 1] == entries[..i] + [entries[i]];
    CollectSnoc(entries[..i], entries[i]);
  }

  /** The state of the first pass after n entries. */
  ghost predicate Passed(s: Shape, n: nat, merged: map<string, YamlNode>, pool: map<string, Shape>)
    reads NodeSet(s), PoolSet(pool)
  {
    && 2 * n <= |s.kids| && s.node.content == Roots(s.kids)
    && Names(merged, pool) && Pool(pool)
    && (assert SetOf(s.kids) <= NodeSet(s); Waiting(s, 2 * n, pool)) && s.node !in PoolSet(pool)
    && n <= |MergedEntries(Vals(s.kids))|
    && Means(pool, Collect(MergedEntries(Vals(s.kids))[..n]))
  }

  method PassNext(node: YamlNode, ghost s: Shape, ghost n: nat, i: nat, merged: map<string, YamlNode>,
                  ghost pool: map<string, Shape>)
    returns (more: map<string, YamlNode>, ghost pool': map<string, Shape>)
    requires s.node == node && Tree(s) && Even(Val(s)) && |s.kids| % 2 == 0
    requires i == 2 * n < |s.kids| && Passed(s, n, merged, pool)
    modifies SetOf(s.kids) + PoolSet(pool)
    ensures Passed(s, n + 1, more, pool')
    ensures forall x :: x in PoolSet(pool') ==> x in PoolSet(pool) || x in SetOf(s.kids) || fresh(x)
    decreases s, 1
  {
    hide NodeSet, SetOf, Tree, Linked, PoolSet, Vals, Val, Even, Merge, Collect, MergedEntries, Extend;
    Member(s.kids, i + 1);
    TreeKids(s);
    EntriesFacts(s, n);
    more, pool' := MergeEntry(node, s, i, merged, pool, Collect(MergedEntries(Vals(s.kids))[..n]));
  }

  /** The first pass: the values are merged in place and collected under their keys. */
  method FirstPass(node: YamlNode, ghost s: Shape)
    returns (merged: map<string, YamlNode>, ghost pool: map<string, Shape>)
    requires s.node == node && node.kind == Mapping && Tree(s) && Linked(s) && Even(Val(s))
    modifies NodeSet(s)
    ensures Names(merged, pool) && Pool(pool) && Means(pool, Collect(MergedEntries(Vals(s.kids))))
    ensures node.content == Roots(s.kids)
    ensures forall x :: x in PoolSet(pool) ==> x in NodeSet(s) || fresh(x)
    decreases s, 2
  {
    hide NodeSet, SetOf, Tree, Linked, PoolSet, Vals, Val, Even, Collect, MergedEntries, Waiting, Pool;
    Below(s);
    EvenMapping(s);
    KeyCount(s);
    TreeForest(s);
    pool, merged := map[], map[];
    EmptyPool(MergedEntries(Vals(s.kids)));
    StartWaiting(s);
    ghost var n := 0;
    var i := 0;
    while i < |node.content|
      invariant i == 2 * n && Passed(s, n, merged, pool)
      invariant forall x :: x in PoolSet(pool) ==> x in NodeSet(s) || fresh(x)
    {
      merged, pool := PassNext(node, s, n, i, merged, pool);
      i, n := i + 2, n + 1;
    }
    ghost var entries := MergedEntries(Vals(s.kids));
    assert entries[..|entries|] == entries;
  }

  lemma {:induction false} StartWaiting(s: Shape)
    requires Linked(s)
    ensures Waiting(s, 0, map[])
  {
    hide NodeSet;
  }

  /** Mappings: a new node with each key once and the collected values. */
  method MergeMapping(node: YamlNode, ghost s: Shape) returns (r: YamlNode, ghost t: Shape)
    requires s.node == node && node.kind == Mapping && Tree(s) && Linked(s) && Even(Val(s))
    modifies NodeSet(s)
    ensures t.node == r && Tree(t) && Linked(t)
    ensures Val(t) == Merge(Val(s))
    ensures forall x :: x in NodeSet(t) ==> x in NodeSet(s) || fresh(x)
    decreases s, 3
  {
    hide NodeSet, SetOf, Tree, Linked, PoolSet, Vals, Val, Even, Merge, Collect, Order, MergedEntries;
    EvenMapping(s);
    ghost var entries := MergedEntries(Vals(s.kids));
    var merged;
    ghost var pool;
    merged, pool := FirstPass(node, s);
    assert allocated(PoolSet(pool));
    var order := FirstOccurrences(node, s);
    OrderByFirstOccurrence(entries);
    r, t := Assemble(node.tag, order, merged, pool, Collect(entries));
    MergeOfMapping(s);
  }

  lemma {:induction false} EvenMapping(s: Shape)
    requires Even(Val(s)) && s.node.kind == Mapping
    ensures |s.kids| % 2 == 0
  {
  }

  lemma {:induction false} KeyCount(s: Shape)
    ensures |MergedEntries(Vals(s.kids))| == |s.kids| / 2
  {
  }

  lemma {:induction false} EmptyPool(entries: seq<Entry>)
    ensures PoolSet(map[]) == {} && Pool(map[]) && Collect(entries[..0]) == map[]
  {
  }

  lemma {:induction false} MergeOfMapping(s: Shape)
    requires s.node.kind == Mapping
    ensures var entries := MergedEntries(Vals(s.kids));
            Merge(Val(s)) == Node(Mapping, s.node.tag, "", Emit(Order(entries), Collect(entries)))
  {
  }
}
