/**
 MergeDuplicateKeys on trees as values: mapping keys become unique, and the sequences found under
 a repeated key are concatenated.  The keys of a mapping stand at its even positions.
 */
module Yaml {

  datatype Kind = Document | Sequence | Mapping | Scalar | Alias

  datatype Node = Node(kind: Kind, tag: string, value: string, content: seq<Node>)

  datatype Entry = Entry(key: string, value: Node)

  function KeyNode(key: string): Node {
    Node(Scalar, "!!str", key, [])
  }

  function Extend(first: Node, later: Node): Node {
    if first.kind == Sequence && later.kind == Sequence then first.(content := first.content + later.content) else first
  }

  /** The first pass over a mapping: the value collected for each key. */
  function Collect(entries: seq<Entry>): (m: map<string, Node>)
    ensures forall k :: k in m <==> k in Order(entries)
  {
    if entries == [] then map[]
    else
      var m := Collect(entries[..|entries| - 1]);
      var e := entries[|entries| - 1];
      if e.key in m then m[e.key := Extend(m[e.key], e.value)] else m[e.key := e.value]
  }

  /** The second pass: the keys, each at its first occurrence. */
  function Order(entries: seq<Entry>): seq<string> {
    if entries == [] then []
    else
      var order := Order(entries[..|entries| - 1]);
      var key := entries[|entries| - 1].key;
      if key in order then order else order + [key]
  }

  function Emit(order: seq<string>, m: map<string, Node>): (content: seq<Node>)
    requires forall k :: k in order ==> k in m
    ensures |content| == 2 * |order|
  {
    if order == [] then []
    else
      var key := order[|order| - 1];
      Emit(order[..|order| - 1], m) + [KeyNode(key), m[key]]
  }

  function Merge(n: Node): Node
    decreases n
  {
    match n.kind
    case Document => n.(content := MergeAll(n.content))
    case Sequence => n.(content := MergeAll(n.content))
    case Mapping => MappingOf(n.tag, MergedEntries(n.content))
    case _ => n
  }

  function MergeAll(nodes: seq<Node>): (r: seq<Node>)
    ensures |r| == |nodes|
    ensures forall i :: 0 <= i < |nodes| ==> r[i] == Merge(nodes[i])
    decreases nodes
  {
    seq(|nodes|, i requires 0 <= i < |nodes| => Merge(nodes[i]))
  }

  /** The entries of a mapping with their values merged; keys stand at the even positions. */
  function MergedEntries(content: seq<Node>): (r: seq<Entry>)
    ensures |r| == |content| / 2
    ensures forall i :: 0 <= i < |r| ==> r[i] == Entry(content[2 * i].value, Merge(content[2 * i + 1]))
    decreases content
  {
    seq(|content| / 2, i requires 0 <= i < |content| / 2 => Entry(content[2 * i].value, Merge(content[2 * i + 1])))
  }

  function MappingOf(tag: string, entries: seq<Entry>): Node {
    Node(Mapping, tag, "", Emit(Order(entries), Collect(entries)))
  }

  // ---- What the passes compute ----

  /** The values found under a key, in order. */
  function Values(entries: seq<Entry>, key: string): seq<Node> {
    if entries == [] then []
    else
      var init := Values(entries[..|entries| - 1], key);
      var e := entries[|entries| - 1];
      if e.key == key then init + [e.value] else init
  }

  /** The items of all sequences among the values, one after the other. */
  function Items(values: seq<Node>): seq<Node> {
    if values == [] then []
    else
      var last := values[|values| - 1];
      Items(values[..|values| - 1]) + if last.kind == Sequence then last.content else []
  }

  /** The first value, with the items of all later sequences if it is a sequence itself. */
  function Joined(values: seq<Node>): Node
    requires values != []
  {
    if values[0].kind == Sequence then values[0].(content := Items(values)) else values[0]
  }

  lemma {:induction false} JoinedSnoc(values: seq<Node>, v: Node)
    requires values != []
    ensures Joined(values + [v]) == Extend(Joined(values), v)
  {
    assert (values + [v])[..|values|] == values;
  }

  lemma {:induction false} JoinedSingle(v: Node)
    ensures Joined([v]) == v
  {
    assert [v][..0] == [];
    assert Items([]) == [];
    assert Items([v]) == if v.kind == Sequence then v.content else [];
  }

  /** The collected value of a key is the joined sequence of all values found under it. */
  lemma {:induction false} CollectedValue(entries: seq<Entry>, key: string)
    ensures key in Collect(entries) <==> Values(entries, key) != []
    ensures key in Collect(entries) ==> Collect(entries)[key] == Joined(Values(entries, key))
  {
    if entries != [] {
      var init, e := entries[..|entries| - 1], entries[|entries| - 1];
      CollectedValue(init, key);
      if e.key == key {
        if Values(init, key) == [] {
          JoinedSingle(e.value);
        } else {
          JoinedSnoc(Values(init, key), e.value);
        }
      }
    }
  }

  ghost predicate Unique(keys: seq<string>) {
    forall i, j :: 0 <= i < j < |keys| ==> keys[i] != keys[j]
  }

  /** Where a key occurs first; the length when it does not. */
  function FirstIndex(entries: seq<Entry>, key: string): (r: nat)
    ensures r <= |entries|
    ensures r < |entries| ==> entries[r].key == key
    ensures forall i :: 0 <= i < r ==> entries[i].key != key
  {
    if entries == [] || entries[0].key == key then 0 else 1 + FirstIndex(entries[1..], key)
  }

  lemma {:induction false} OrderSnoc(entries: seq<Entry>, e: Entry)
    ensures Order(entries + [e]) == if e.key in Order(entries) then Order(entries) else Order(entries) + [e.key]
  {
    assert (entries + [e])[..|entries|] == entries;
  }

  /** The order lists every key once, by first occurrence. */
  lemma {:induction false} OrderByFirstOccurrence(entries: seq<Entry>)
    ensures Unique(Order(entries))
    ensures forall k :: k in Order(entries) <==> FirstIndex(entries, k) < |entries|
    ensures forall i, j :: 0 <= i < j < |Order(entries)| ==>
              FirstIndex(entries, Order(entries)[i]) < FirstIndex(entries, Order(entries)[j])
  {
    hide FirstIndex, Order;
    if entries != [] {
      var init, e := entries[..|entries| - 1], entries[|entries| - 1];
      assert entries == init + [e];
      OrderByFirstOccurrence(init);
      OrderSnoc(init, e);
      forall k
        ensures FirstIndex(entries, k) ==
                if FirstIndex(init, k) < |init| then FirstIndex(init, k)
                else if e.key == k then |init|
                else |entries|
      {
        FirstIndexSnoc(init, e, k);
      }
    } else {
      OrderOfNone();
    }
  }

  lemma {:induction false} OrderOfNone()
    ensures Order([]) == []
  {
  }

  lemma {:induction false} FirstIndexSnoc(entries: seq<Entry>, e: Entry, k: string)
    ensures FirstIndex(entries + [e], k) ==
            if FirstIndex(entries, k) < |entries| then FirstIndex(entries, k)
            else if e.key == k then |entries|
            else |entries| + 1
  {
    hide FirstIndex;
    var more := entries + [e];
    var r := FirstIndex(more, k);
    assert forall i :: 0 <= i < |entries| ==> more[i] == entries[i];
    assert more[|entries|] == e;
  }

  // ---- Canonical trees ----

  function KeysOf(content: seq<Node>): (r: seq<string>)
    ensures |r| == |content| / 2
  {
    seq(|content| / 2, i requires 0 <= i < |content| / 2 => content[2 * i].value)
  }

  /** At every depth, mappings have plain string keys, each once. */
  ghost predicate Canonical(n: Node)
    decreases n
  {
    match n.kind
    case Document => AllCanonical(n.content)
    case Sequence => AllCanonical(n.content)
    case Mapping =>
      && n.value == "" && |n.content| % 2 == 0 && Unique(KeysOf(n.content))
      && (forall i :: 0 <= i < |n.content| / 2 ==>
            n.content[2 * i] == KeyNode(n.content[2 * i].value) && Canonical(n.content[2 * i + 1]))
    case _ => true
  }

  ghost predicate AllCanonical(nodes: seq<Node>)
    decreases nodes
  {
    forall i :: 0 <= i < |nodes| ==> Canonical(nodes[i])
  }

  ghost predicate CanonicalEntries(entries: seq<Entry>) {
    forall i :: 0 <= i < |entries| ==> Canonical(entries[i].value)
  }

  lemma {:induction false} ExtendCanonical(first: Node, later: Node)
    requires Canonical(first) && Canonical(later)
    ensures Canonical(Extend(first, later))
  {
  }

  lemma {:induction false} CollectCanonical(entries: seq<Entry>)
    requires CanonicalEntries(entries)
    ensures forall k :: k in Collect(entries) ==> Canonical(Collect(entries)[k])
  {
    if entries != [] {
      var init, e := entries[..|entries| - 1], entries[|entries| - 1];
      CollectCanonical(init);
      if e.key in Collect(init) {
        ExtendCanonical(Collect(init)[e.key], e.value);
      }
    }
  }

  lemma {:induction false} EmitAt(order: seq<string>, m: map<string, Node>, i: int)
    requires (forall k :: k in order ==> k in m) && 0 <= i < |order|
    ensures Emit(order, m)[2 * i] == KeyNode(order[i]) && Emit(order, m)[2 * i + 1] == m[order[i]]
  {
    if i < |order| - 1 {
      EmitAt(order[..|order| - 1], m, i);
    }
  }

  lemma {:induction false} EmitKeys(order: seq<string>, m: map<string, Node>)
    requires forall k :: k in order ==> k in m
    ensures KeysOf(Emit(order, m)) == order
  {
    forall i | 0 <= i < |order| {
      EmitAt(order, m, i);
    }
  }

  lemma {:induction false} MappingCanonical(tag: string, entries: seq<Entry>)
    requires CanonicalEntries(entries)
    ensures Canonical(MappingOf(tag, entries))
  {
    var order, m := Order(entries), Collect(entries);
    OrderByFirstOccurrence(entries);
    CollectCanonical(entries);
    EmitKeys(order, m);
    forall i | 0 <= i < |order| {
      EmitAt(order, m, i);
    }
  }

  /** Merging makes keys unique at every depth. */
  lemma {:induction false} MergeIsCanonical(n: Node)
    ensures Canonical(Merge(n))
    decreases n
  {
    match n.kind
    case Mapping =>
      forall i | 0 <= i < |n.content| / 2
        ensures Canonical(MergedEntries(n.content)[i].value)
      {
        MergeIsCanonical(n.content[2 * i + 1]);
      }
      MappingCanonical(n.tag, MergedEntries(n.content));
    case _ =>
      forall i | 0 <= i < |n.content|
        ensures Canonical(MergeAll(n.content)[i])
      {
        MergeIsCanonical(n.content[i]);
      }
  }

  function EntryKeys(entries: seq<Entry>): (r: seq<string>)
    ensures |r| == |entries|
  {
    seq(|entries|, i requires 0 <= i < |entries| => entries[i].key)
  }

  lemma {:induction false} OrderUnique(entries: seq<Entry>)
    requires Unique(EntryKeys(entries))
    ensures Order(entries) == EntryKeys(entries)
  {
    if entries != [] {
      var init, keys := entries[..|entries| - 1], EntryKeys(entries);
      assert EntryKeys(init) == keys[..|entries| - 1];
      OrderUnique(init);
      assert keys == EntryKeys(init) + [keys[|entries| - 1]];
    }
  }

  lemma {:induction false} CollectUnique(entries: seq<Entry>, i: int)
    requires Unique(EntryKeys(entries)) && 0 <= i < |entries|
    ensures entries[i].key in Collect(entries) && Collect(entries)[entries[i].key] == entries[i].value
  {
    hide Extend, Collect, Order;
    var n := |entries| - 1;
    var init := entries[..n];
    assert entries == init + [entries[n]];
    CollectSnoc(init, entries[n]);
    assert EntryKeys(init) == EntryKeys(entries)[..n];
    if i < n {
      CollectUnique(init, i);
      assert EntryKeys(entries)[i] != EntryKeys(entries)[n];
    } else {
      OrderUnique(init);
      assert forall k :: 0 <= k < n ==> EntryKeys(entries)[k] != EntryKeys(entries)[n];
    }
  }

  /** A canonical tree is left as it is. */
  lemma {:induction false} MergeKeepsCanonical(n: Node)
    requires Canonical(n)
    ensures Merge(n) == n
    decreases n
  {
    match n.kind
    case Mapping =>
      forall i | 0 <= i < |n.content| / 2
        ensures MergedEntries(n.content)[i] == Entry(n.content[2 * i].value, n.content[2 * i + 1])
      {
        MergeKeepsCanonical(n.content[2 * i + 1]);
      }
      EmitCanonical(n);
    case Document =>
      forall i | 0 <= i < |n.content| { MergeKeepsCanonical(n.content[i]); }
      assert MergeAll(n.content) == n.content;
    case Sequence =>
      forall i | 0 <= i < |n.content| { MergeKeepsCanonical(n.content[i]); }
      assert MergeAll(n.content) == n.content;
    case _ =>
  }

  lemma {:induction false} EmitCanonical(n: Node)
    requires n.kind == Mapping && Canonical(n)
    requires forall i :: 0 <= i < |n.content| / 2 ==>
               MergedEntries(n.content)[i] == Entry(n.content[2 * i].value, n.content[2 * i + 1])
    ensures MappingOf(n.tag, MergedEntries(n.content)) == n
  {
    var entries := MergedEntries(n.content);
    assert EntryKeys(entries) == KeysOf(n.content);
    EmitEntries(entries, n.content);
  }

  lemma {:induction false} EmitExactly(order: seq<string>, m: map<string, Node>, content: seq<Node>)
    requires (forall k :: k in order ==> k in m) && |content| == 2 * |order|
    requires forall i :: 0 <= i < |order| ==> content[2 * i] == KeyNode(order[i]) && content[2 * i + 1] == m[order[i]]
    ensures Emit(order, m) == content
  {
    hide Emit, KeyNode;
    if order == [] {
      EmitNone(m);
    } else {
      var n := |order| - 1;
      var init, last := order[..n], order[n];
      assert order == init + [last];
      EmitExactly(init, m, content[..2 * n]);
      EmitLast(init, last, m);
      assert content == content[..2 * n] + [content[2 * n], content[2 * n + 1]];
    }
  }

  lemma {:induction false} EmitNone(m: map<string, Node>)
    ensures Emit([], m) == []
  {
  }

  lemma {:induction false} EmitLast(order: seq<string>, key: string, m: map<string, Node>)
    requires forall k :: k in order + [key] ==> k in m
    ensures Emit(order + [key], m) == Emit(order, m) + [KeyNode(key), m[key]]
  {
    assert (order + [key])[..|order|] == order;
  }

  /** Entries with different keys are emitted as they stand. */
  lemma {:induction false} EmitEntries(entries: seq<Entry>, content: seq<Node>)
    requires Unique(EntryKeys(entries)) && |content| == 2 * |entries|
    requires forall i :: 0 <= i < |entries| ==>
               content[2 * i] == KeyNode(entries[i].key) && content[2 * i + 1] == entries[i].value
    ensures Emit(Order(entries), Collect(entries)) == content
  {
    hide Order, Collect, Emit;
    OrderUnique(entries);
    forall i | 0 <= i < |entries|
      ensures entries[i].key in Collect(entries) && content[2 * i + 1] == Collect(entries)[entries[i].key]
    {
      CollectUnique(entries, i);
    }
    EmitExactly(Order(entries), Collect(entries), content);
  }

  /** Merging twice is merging once. */
  lemma {:induction false} MergeIdempotent(n: Node)
    ensures Merge(Merge(n)) == Merge(n)
  {
    MergeIsCanonical(n);
    MergeKeepsCanonical(Merge(n));
  }

  // ---- Merging part of a mapping first ----

  lemma {:induction false} CollectSnoc(entries: seq<Entry>, e: Entry)
    ensures Collect(entries + [e]) ==
            var m := Collect(entries);
            if e.key in m then m[e.key := Extend(m[e.key], e.value)] else m[e.key := e.value]
  {
    assert (entries + [e])[..|entries|] == entries;
  }

  /** The passes go on from what they have collected so far. */
  lemma {:induction false} PassesGoOn(x: seq<Entry>, y: seq<Entry>, more: seq<Entry>)
    requires Collect(x) == Collect(y) && Order(x) == Order(y)
    ensures Collect(x + more) == Collect(y + more) && Order(x + more) == Order(y + more)
  {
    hide Collect, Order;
    if more == [] {
      assert x + more == x && y + more == y;
    } else {
      var init, e := more[..|more| - 1], more[|more| - 1];
      PassesGoOn(x, y, init);
      assert x + more == (x + init) + [e] && y + more == (y + init) + [e];
      CollectSnoc(x + init, e);
      CollectSnoc(y + init, e);
      OrderSnoc(x + init, e);
      OrderSnoc(y + init, e);
    }
  }

  /** One entry for each key, with its collected value. */
  function Compact(entries: seq<Entry>): (r: seq<Entry>)
    ensures |r| == |Order(entries)|
  {
    seq(|Order(entries)|, i requires 0 <= i < |Order(entries)| =>
      Entry(Order(entries)[i], Collect(entries)[Order(entries)[i]]))
  }

  lemma {:induction false} CompactKeys(entries: seq<Entry>)
    ensures EntryKeys(Compact(entries)) == Order(entries)
  {
    hide Order, Collect;
  }

  lemma {:induction false} CompactCollectsTheSame(entries: seq<Entry>)
    ensures Order(Compact(entries)) == Order(entries) && Collect(Compact(entries)) == Collect(entries)
  {
    hide Order, Collect, EntryKeys;
    var c := Compact(entries);
    OrderByFirstOccurrence(entries);
    CompactKeys(entries);
    OrderUnique(c);
    forall k | k in Order(entries)
      ensures k in Collect(c) && Collect(c)[k] == Collect(entries)[k]
    {
      var i :| 0 <= i < |c| && Order(entries)[i] == k;
      CollectUnique(c, i);
    }
    assert Collect(c).Keys == Collect(entries).Keys;
  }

  /** Merging the emitted mapping again reads one entry for each key. */
  lemma {:induction false} EntriesOfEmitted(entries: seq<Entry>)
    requires CanonicalEntries(entries)
    ensures MergedEntries(Emit(Order(entries), Collect(entries))) == Compact(entries)
  {
    var emitted := Emit(Order(entries), Collect(entries));
    CollectCanonical(entries);
    forall i | 0 <= i < |Order(entries)|
      ensures MergedEntries(emitted)[i] == Compact(entries)[i]
    {
      EmitAt(Order(entries), Collect(entries), i);
      MergeKeepsCanonical(emitted[2 * i + 1]);
    }
  }

  lemma {:induction false} MergedEntriesAppend(a: seq<Node>, b: seq<Node>)
    requires |a| % 2 == 0
    ensures MergedEntries(a + b) == MergedEntries(a) + MergedEntries(b)
  {
    var left, right := MergedEntries(a + b), MergedEntries(a) + MergedEntries(b);
    hide Merge, MergedEntries;
    assert |left| == |right|;
    forall i | 0 <= i < |left|
      ensures left[i] == right[i]
    {
      if i >= |a| / 2 {
        var k := i - |a| / 2;
        assert 2 * i == |a| + 2 * k;
        assert (a + b)[2 * i] == b[2 * k] && (a + b)[2 * i + 1] == b[2 * k + 1];
      }
    }
  }

  lemma {:induction false} MergedEntriesCanonical(content: seq<Node>)
    ensures CanonicalEntries(MergedEntries(content))
  {
    forall i | 0 <= i < |content| / 2 {
      MergeIsCanonical(content[2 * i + 1]);
    }
  }

  /** The content of a mapping after merging. */
  function MergedContent(content: seq<Node>): seq<Node> {
    Emit(Order(MergedEntries(content)), Collect(MergedEntries(content)))
  }

  /** A mapping can be merged as it grows: what has been merged once need not be kept unmerged. */
  lemma {:induction false} MergeLeftIncremental(a: seq<Node>, b: seq<Node>)
    requires |a| % 2 == 0
    ensures MergedContent(a + b) == MergedContent(MergedContent(a) + b)
  {
    hide MergedEntries, Order, Collect, Emit, Compact, CanonicalEntries;
    var x, y := MergedEntries(a), MergedEntries(b);
    MergedEntriesAppend(a, b);
    MergedEntriesAppend(MergedContent(a), b);
    MergedEntriesCanonical(a);
    EntriesOfEmitted(x);
    CompactCollectsTheSame(x);
    PassesGoOn(x, Compact(x), y);
  }

  // ---- Merging the later part first ----

  lemma {:induction false} ValuesAppend(x: seq<Entry>, y: seq<Entry>, key: string)
    ensures Values(x + y, key) == Values(x, key) + Values(y, key)
  {
    if y == [] {
      assert x + y == x;
    } else {
      assert (x + y)[..|x + y| - 1] == x + y[..|y| - 1];
      ValuesAppend(x, y[..|y| - 1], key);
    }
  }

  lemma {:induction false} ItemsAppend(x: seq<Node>, y: seq<Node>)
    ensures Items(x + y) == Items(x) + Items(y)
  {
    if y == [] {
      assert x + y == x;
    } else {
      assert (x + y)[..|x + y| - 1] == x + y[..|y| - 1];
      ItemsAppend(x, y[..|y| - 1]);
    }
  }

  lemma {:induction false} ValuesOfUnique(entries: seq<Entry>, i: int)
    requires Unique(EntryKeys(entries)) && 0 <= i < |entries|
    ensures Values(entries, entries[i].key) == [entries[i].value]
  {
    var n := |entries| - 1;
    var init := entries[..n];
    assert EntryKeys(init) == EntryKeys(entries)[..n];
    if i < n {
      ValuesOfUnique(init, i);
      assert EntryKeys(entries)[i] != EntryKeys(entries)[n];
    } else {
      assert forall k :: 0 <= k < n ==> EntryKeys(entries)[k] != EntryKeys(entries)[n];
      NoValues(init, entries[n].key);
    }
  }

  lemma {:induction false} NoValues(entries: seq<Entry>, key: string)
    requires forall i :: 0 <= i < |entries| ==> EntryKeys(entries)[i] != key
    ensures Values(entries, key) == []
  {
    if entries != [] {
      var n := |entries| - 1;
      assert EntryKeys(entries[..n]) == EntryKeys(entries)[..n];
      NoValues(entries[..n], key);
      assert EntryKeys(entries)[n] == entries[n].key;
    }
  }

  /** The values of a key after the entries have been compacted: the joined one. */
  lemma {:induction false} ValuesOfCompact(entries: seq<Entry>, key: string)
    ensures Values(entries, key) != [] ==> Values(Compact(entries), key) == [Joined(Values(entries, key))]
    ensures Values(entries, key) == [] ==> Values(Compact(entries), key) == []
  {
    var c := Compact(entries);
    CollectedValue(entries, key);
    OrderByFirstOccurrence(entries);
    CompactKeys(entries);
    hide EntryKeys, Order, Collect, Values, Joined;
    if key in Order(entries) {
      var i :| 0 <= i < |c| && Order(entries)[i] == key;
      ValuesOfUnique(c, i);
    } else {
      NoValues(c, key);
    }
  }

  /** Compacting the later entries loses items for this key. */
  ghost predicate LosesItems(x: seq<Entry>, y: seq<Entry>, key: string) {
    && Values(x, key) != [] && Values(x, key)[0].kind == Sequence
    && Values(y, key) != [] && Values(y, key)[0].kind != Sequence
    && Items(Values(y, key)) != []
  }

  lemma {:induction false} JoinedAfterCompact(x: seq<Entry>, y: seq<Entry>, key: string)
    requires Values(x, key) + Values(y, key) != []
    ensures Values(x, key) + Values(Compact(y), key) != []
    ensures Joined(Values(x, key) + Values(y, key)) == Joined(Values(x, key) + Values(Compact(y), key)) <==>
            !LosesItems(x, y, key)
  {
    var v, w := Values(x, key), Values(y, key);
    ValuesOfCompact(y, key);
    if w == [] {
    } else if v == [] {
      assert v + w == w && v + [Joined(w)] == [Joined(w)];
      JoinedSingle(Joined(w));
    } else {
      ItemsAppend(v, w);
      ItemsAppend(v, [Joined(w)]);
      JoinedSingle(Joined(w));
      assert Items([Joined(w)]) == (if w[0].kind == Sequence then Items(w) else []) by {
        assert [Joined(w)][..0] == [];
        assert Items([]) == [];
      }
    }
  }

  lemma {:induction false} OrderAfterCompact(x: seq<Entry>, y: seq<Entry>)
    ensures Order(x + Compact(y)) == Order(x + y)
  {
    OrderAppend(x, y);
    OrderAppend(x, Compact(y));
    CompactCollectsTheSame(y);
  }

  function Without(order: seq<string>, seen: seq<string>): seq<string> {
    if order == [] then []
    else
      var init := Without(order[..|order| - 1], seen);
      var last := order[|order| - 1];
      if last in seen then init else init + [last]
  }

  lemma {:induction false} WithoutMembers(order: seq<string>, seen: seq<string>)
    ensures forall k :: k in Without(order, seen) <==> k in order && k !in seen
    ensures order == [] ==> Without(order, seen) == []
  {
    if order != [] {
      WithoutMembers(order[..|order| - 1], seen);
    }
  }

  lemma {:induction false} WithoutSnoc(order: seq<string>, key: string, seen: seq<string>)
    ensures Without(order + [key], seen) == if key in seen then Without(order, seen) else Without(order, seen) + [key]
  {
    assert (order + [key])[..|order|] == order;
  }

  /** Later keys are added in their own order, unless they are there already. */
  lemma {:induction false} OrderAppend(x: seq<Entry>, y: seq<Entry>)
    ensures Order(x + y) == Order(x) + Without(Order(y), Order(x))
  {
    hide Order, Without;
    if y == [] {
      assert x + y == x;
      OrderOfNone();
      assert Without([], Order(x)) == [] by {
        WithoutMembers([], Order(x));
      }
    } else {
      var init, e := y[..|y| - 1], y[|y| - 1];
      OrderAppend(x, init);
      assert x + y == (x + init) + [e] && y == init + [e];
      OrderSnoc(x + init, e);
      OrderSnoc(init, e);
      WithoutMembers(Order(init), Order(x));
      WithoutSnoc(Order(init), e.key, Order(x));
      assert e.key in Order(x) + Without(Order(init), Order(x)) <==>
             e.key in Order(x) || e.key in Without(Order(init), Order(x));
    }
  }

  lemma {:induction false} EmitInjective(order: seq<string>, m: map<string, Node>, n: map<string, Node>)
    requires forall k :: k in order ==> k in m && k in n
    ensures Emit(order, m) == Emit(order, n) <==> forall k :: k in order ==> m[k] == n[k]
  {
    if order != [] {
      EmitInjective(order[..|order| - 1], m, n);
      var last := order[|order| - 1];
      var a, b := Emit(order[..|order| - 1], m), Emit(order[..|order| - 1], n);
      assert (a + [KeyNode(last), m[last]])[..|a|] == a && (b + [KeyNode(last), n[last]])[..|b|] == b;
      assert (a + [KeyNode(last), m[last]])[|a| + 1] == m[last] && (b + [KeyNode(last), n[last]])[|b| + 1] == n[last];
    }
  }

  /**
   Merging the later part first changes the result exactly when some key has a sequence first in
   the earlier part, and in the later part a value that is no sequence before one with items.
   */
  lemma {:induction false} MergeRightFirst(a: seq<Node>, b: seq<Node>)
    requires |a| % 2 == 0
    ensures MergedContent(a + MergedContent(b)) == MergedContent(a + b) <==>
            forall key :: !LosesItems(MergedEntries(a), MergedEntries(b), key)
  {
    var x, y := MergedEntries(a), MergedEntries(b);
    var c := Compact(y);
    MergedEntriesAppend(a, b);
    MergedEntriesAppend(a, MergedContent(b));
    MergedEntriesCanonical(b);
    EntriesOfEmitted(y);
    OrderAfterCompact(x, y);
    var m, n := Collect(x + c), Collect(x + y);
    EmitInjective(Order(x + y), m, n);
    forall key
      ensures key in Order(x + y) ==> (m[key] == n[key] <==> !LosesItems(x, y, key))
      ensures key !in Order(x + y) ==> !LosesItems(x, y, key)
    {
      hide Joined, Collect, Order, Values;
      CollectedValue(x + c, key);
      CollectedValue(x + y, key);
      ValuesAppend(x, c, key);
      ValuesAppend(x, y, key);
      if key in Order(x + y) {
        JoinedAfterCompact(x, y, key);
      }
    }
  }

  lemma {:induction false} SingleValue(e: Entry)
    ensures Values([e], e.key) == [e.value]
  {
    assert [e][..0] == [];
    assert Values([], e.key) == [];
  }

  /** A key with a scalar before a sequence. */
  lemma {:induction false} ScalarThenSequence(e: Entry, f: Entry)
    requires e.key == f.key && e.value.kind == Scalar && f.value.kind == Sequence
    ensures Values([e, f], e.key) == [e.value, f.value] && Items([e.value, f.value]) == f.value.content
  {
    assert [e, f] == [e] + [f] && [e.value, f.value] == [e.value] + [f.value];
    ValuesAppend([e], [f], e.key);
    SingleValue(e);
    SingleValue(f);
    ItemsAppend([e.value], [f.value]);
    assert [e.value][..0] == [] && [f.value][..0] == [] && Items([]) == [];
    assert Items([e.value]) == [] && Items([f.value]) == f.value.content;
  }

  /** k: [p] followed by k: s and k: [q] keeps q; merging the last two first drops it. */
  lemma {:induction false} MergeRightFirstLoses(p: Node, q: Node, s: Node)
    requires s.kind == Scalar
    ensures var k := KeyNode("k");
            var a, b := [k, Node(Sequence, "", "", [p])], [k, s, k, Node(Sequence, "", "", [q])];
            MergedContent(a + MergedContent(b)) != MergedContent(a + b)
  {
    var k := KeyNode("k");
    var a, b := [k, Node(Sequence, "", "", [p])], [k, s, k, Node(Sequence, "", "", [q])];
    var x, y := MergedEntries(a), MergedEntries(b);
    assert MergedEntries(a)[0] == Entry("k", Merge(a[1]));
    assert MergedEntries(b)[0] == Entry("k", s) && MergedEntries(b)[1] == Entry("k", Merge(b[3]));
    assert x == [x[0]] && y == [y[0], y[1]];
    assert |MergeAll([q])| == 1;
    hide MergedContent, Merge, MergeAll;
    SingleValue(x[0]);
    ScalarThenSequence(y[0], y[1]);
    assert LosesItems(x, y, "k");
    MergeRightFirst(a, b);
  }

  /**
   A merged mapping in full: its keys are the different keys of the mapping by first occurrence, and
   each value is the first merged value, with the items of all later merged sequences if it is one.
   */
  lemma {:induction false} MergedMapping(n: Node, i: int)
    requires n.kind == Mapping && 0 <= i < |Order(MergedEntries(n.content))|
    ensures var entries, merged := MergedEntries(n.content), Merge(n);
            && merged == Node(Mapping, n.tag, "", merged.content) && |merged.content| == 2 * |Order(entries)|
            && KeysOf(merged.content) == Order(entries) && Unique(KeysOf(merged.content))
            && Values(entries, Order(entries)[i]) != []
            && merged.content[2 * i] == Node(Scalar, "!!str", Order(entries)[i], [])
            && merged.content[2 * i + 1] == Joined(Values(entries, Order(entries)[i]))
  {
    hide Order, Collect, Emit, Joined, Values, MergedEntries;
    var entries := MergedEntries(n.content);
    OrderByFirstOccurrence(entries);
    CollectedValue(entries, Order(entries)[i]);
    EmitKeys(Order(entries), Collect(entries));
    EmitAt(Order(entries), Collect(entries), i);
  }

  /** Documents and sequences keep everything but their items, each of which is merged; all other nodes stay. */
  lemma {:induction false} MergedOther(n: Node, i: int)
    requires n.kind != Mapping
    ensures Merge(n) == n.(content := Merge(n).content) && |Merge(n).content| == |n.content|
    ensures 0 <= i < |n.content| ==>
              Merge(n).content[i] ==
              if n.kind == Document || n.kind == Sequence then Merge(n.content[i]) else n.content[i]
  {
  }
}
