/**
 The directory of configuration files: how files are named, and which of them a deletion removes.
 Deletion takes every file of a directory whose name contains a pattern.
 */
module ConfigFiles {
  import opened Strings
  import opened Rules

  datatype FileId = FileId(dir: string, name: string)

  type Files = map<FileId, Content>

  function ConfigName(owner: string, rule: string): string {
    owner + "-by-" + rule + ".yml"
  }

  function PodFile(namespace: string, uid: string, rule: string): FileId {
    FileId(namespace, ConfigName(uid, rule))
  }

  function HostFile(node: string, rule: string): FileId {
    FileId(node, ConfigName(node, rule))
  }

  /** The files a deletion leaves. */
  function Kept(files: Files, dir: string, pattern: string): Files {
    map f | f in files && !(f.dir == dir && Contains(f.name, pattern)) :: files[f]
  }

  /** The pattern of DeleteConfig: one rule's file of the pod, or without a rule all of them. */
  function PodPattern(uid: string, rule: string): string {
    if rule == "" then uid else ConfigName(uid, rule)
  }

  class ConfigStore {
    var files: Files

    constructor ()
      ensures files == map[]
    {
      files := map[];
    }

    /** The loop shared by DeleteConfig and DeleteConfigForHost; removals succeed. */
    method DeleteMatching(dir: string, pattern: string)
      modifies this
      ensures files == Kept(old(files), dir, pattern)
    {
      var rest := set f | f in files && f.dir == dir;
      while rest != {}
        invariant files.Keys <= old(files).Keys && rest <= files.Keys
        invariant forall f :: f in files ==> files[f] == old(files)[f]
        invariant forall f :: f in old(files) ==>
                    (f in files <==> f in rest || !(f.dir == dir && Contains(f.name, pattern)))
        invariant forall f :: f in rest ==> f.dir == dir
        decreases rest
      {
        var f :| f in rest;
        rest := rest - {f};
        if Contains(f.name, pattern) {
          files := files - {f};
        }
      }
    }

    method DeleteConfig(namespace: string, uid: string, rule: string)
      modifies this
      ensures files == Kept(old(files), namespace, PodPattern(uid, rule))
    {
      var pattern := uid;
      if rule != "" {
        pattern := uid + "-by-" + rule + ".yml";
      }
      DeleteMatching(namespace, pattern);
    }

    method DeleteConfigForHost(node: string, rule: string)
      modifies this
      ensures files == Kept(old(files), node, ConfigName(node, rule))
    {
      DeleteMatching(node, node + "-by-" + rule + ".yml");
    }

    method Write(f: FileId, content: Content)
      modifies this
      ensures files == old(files)[f := content]
    {
      files := files[f := content];
    }
  }

  /** Exactly the files of the directory with the pattern somewhere in their names go; the others stay as they are. */
  lemma {:induction false} KeptExactly(files: Files, dir: string, pattern: string, f: FileId)
    ensures f in Kept(files, dir, pattern) <==>
            f in files &&
            (f.dir == dir ==> !exists before: string, after: string :: f.name == before + pattern + after)
    ensures f in Kept(files, dir, pattern) ==> Kept(files, dir, pattern)[f] == files[f]
  {
    hide Contains;
    ContainsExactly(f.name, pattern);
  }

  // ---- Names of pod files ----

  predicate IsHex(c: char) {
    '0' <= c <= '9' || 'a' <= c <= 'f' || 'A' <= c <= 'F'
  }

  /** The textual form of RFC 4122, section 3: 36 characters, dashes at four places. */
  predicate PodUid(u: string) {
    |u| == 36 && forall i | 0 <= i < 36 :: if i == 8 || i == 13 || i == 18 || i == 23 then u[i] == '-' else IsHex(u[i])
  }

  lemma {:induction false} Shifted(prefix: string, s: string, pattern: string)
    requires Contains(s, pattern)
    ensures Contains(prefix + s, pattern)
  {
    var i :| 0 <= i <= |s| && OccursAt(s, pattern, i);
    assert (prefix + s)[|prefix| + i..|prefix| + i + |pattern|] == s[i..i + |pattern|];
    assert OccursAt(prefix + s, pattern, |prefix| + i);
  }

  lemma {:induction false} OccursChar(s: string, pattern: string, i: int, k: int)
    requires OccursAt(s, pattern, i) && 0 <= k < |pattern|
    ensures s[i + k] == pattern[k]
  {
    assert s[i..i + |pattern|][k] == s[i + k];
  }

  /** A UID that stands in a file name is the pod's own, or stands in the rule name. */
  lemma {:induction false} UidPosition(v: string, tail: string, pattern: string, u: string, i: int)
    requires PodUid(u) && PodUid(v) && u <= pattern
    requires OccursAt(v + "-by-" + tail, pattern, i)
    ensures i == 0 || i >= 40
    ensures i == 0 ==> u == v
    ensures i >= 40 ==> OccursAt(tail, pattern, i - 40)
  {
    var name := v + "-by-" + tail;
    assert name[36] == '-' && name[38] == 'y' && name[39] == '-';
    if i == 0 {
      assert name[..36] == v && pattern[..36] == u;
      assert name[..36] == name[..|pattern|][..36];
    } else if i <= 2 {
      OccursChar(name, pattern, i, 36 - i);
    } else if i <= 38 {
      OccursChar(name, pattern, i, 38 - i);
    } else if i == 39 {
      OccursChar(name, pattern, i, 0);
    } else {
      assert name[i..i + |pattern|] == tail[i - 40..i - 40 + |pattern|];
    }
  }

  lemma {:induction false} SuffixedPrefix(r: string, s: string)
    ensures r + ".yml" <= s + ".yml" <==> r == s || r + ".yml" <= s
  {
    var a, b := r + ".yml", s + ".yml";
    if a <= s {
      assert b[..|a|] == s[..|a|];
    }
    if |r| < |s| < |r| + 4 {
      assert b[|s|] == '.' && a[|s|] == ".yml"[|s| - |r|];
    } else if a <= b {
      assert a == b[..|a|];
      if |r| == |s| {
        assert a[..|r|] == r && b[..|s|] == s;
      } else {
        assert b[..|a|] == s[..|a|];
      }
    }
  }

  /**
   Which files the pattern of pod u and rule r takes, for all rule names: the file of u and r, files
   of u whose rule name begins with r.yml, and files whose rule name holds the whole pattern.
   */
  lemma {:induction false} DeletedByPattern(u: string, r: string, v: string, s: string)
    requires PodUid(u) && PodUid(v)
    ensures Contains(ConfigName(v, s), ConfigName(u, r)) <==>
            (u == v && (r == s || r + ".yml" <= s)) || Contains(s + ".yml", ConfigName(u, r))
  {
    var name, pattern := ConfigName(v, s), ConfigName(u, r);
    var tail := s + ".yml";
    assert name == v + "-by-" + tail;
    assert pattern == u + "-by-" + (r + ".yml");
    SuffixedPrefix(r, s);
    if i :| 0 <= i <= |name| && OccursAt(name, pattern, i) {
      UidPosition(v, tail, pattern, u, i);
      if i == 0 {
        assert r + ".yml" == pattern[40..] == name[..|pattern|][40..] == tail[..|pattern| - 40];
      } else {
        assert OccursAt(tail, pattern, i - 40);
      }
    }
    if u == v && r + ".yml" <= tail {
      assert name[..|pattern|] == pattern;
      assert OccursAt(name, pattern, 0);
    }
    if Contains(tail, pattern) {
      Shifted(v + "-by-", tail, pattern);
    }
  }

  /** Which files the pattern of a whole pod takes: its own, and files whose rule name holds its UID. */
  lemma {:induction false} DeletedByUid(u: string, v: string, s: string)
    requires PodUid(u) && PodUid(v)
    ensures Contains(ConfigName(v, s), u) <==> u == v || Contains(s, u)
  {
    var name, tail := ConfigName(v, s), s + ".yml";
    assert name == v + "-by-" + tail;
    if i :| 0 <= i <= |name| && OccursAt(name, u, i) {
      UidPosition(v, tail, u, u, i);
      if i >= 40 {
        var k := i - 40;
        if k + 36 > |s| {
          if k <= |s| {
            OccursChar(tail, u, k, |s| - k);
          }
          assert false;
        }
        assert tail[k..k + 36] == s[k..k + 36];
        assert OccursAt(s, u, k);
      }
    }
    if u == v {
      assert name[..36] == v;
      assert OccursAt(name, u, 0);
    }
    if Contains(s, u) {
      Shifted(v + "-by-", s, u);
      var i :| 0 <= i <= |v + "-by-" + s| && OccursAt(v + "-by-" + s, u, i);
      assert name[i..i + |u|] == (v + "-by-" + s)[i..i + |u|];
      assert OccursAt(name, u, i);
    }
  }

  // ---- Separable rule names ----

  /** A pod UID followed by the mark that ends it in a file name. */
  predicate MarkAt(rule: string, i: int) {
    0 <= i <= |rule| - 40 && PodUid(rule[i..i + 36]) && rule[i + 36..i + 40] == "-by-"
  }

  /** A suffix after a name that a rule can have. */
  predicate HoldsSuffix(rule: string) {
    exists i | 0 < i <= |rule| :: OccursAt(rule, ".yml", i)
  }

  /** A pod's mark before a name that a rule can have. */
  predicate HoldsPodMark(rule: string) {
    exists i | 0 <= i < |rule| - 40 :: MarkAt(rule, i)
  }

  /** Rule names for which the deletion of pod files is exact. */
  predicate SafePodRule(rule: string) {
    !HoldsSuffix(rule) && !HoldsPodMark(rule)
  }

  lemma {:induction false} Inner(t: string, i: int, n: int, a: int, b: int)
    requires 0 <= i <= i + n <= |t| && 0 <= a <= b <= n
    ensures t[i..i + n][a..b] == t[i + a..i + b]
  {
    var x, y := t[i..i + n][a..b], t[i + a..i + b];
    forall k | 0 <= k < b - a
      ensures x[k] == y[k]
    {
      assert x[k] == t[i..i + n][a + k] == t[i + a + k];
    }
  }

  lemma {:induction false} PatternInside(u: string, r: string, s: string)
    requires PodUid(u) && r != "" && Contains(s + ".yml", ConfigName(u, r))
    ensures HoldsPodMark(s)
  {
    var tail, pattern := s + ".yml", ConfigName(u, r);
    assert |u| == 36 && |pattern| == 44 + |r|;
    assert pattern[0..36] == u && pattern[36..40] == "-by-";
    var i :| 0 <= i <= |tail| && OccursAt(tail, pattern, i);
    hide PodUid, Contains, ConfigName;
    assert tail[0..|s|] == s;
    Inner(tail, i, |pattern|, 0, 36);
    Inner(tail, i, |pattern|, 36, 40);
    Inner(tail, 0, |s|, i, i + 36);
    Inner(tail, 0, |s|, i + 36, i + 40);
    assert MarkAt(s, i);
  }

  /** For a stored rule with a safe name, the pattern of a pod and a rule takes exactly that file. */
  lemma {:induction false} DeletionIsExact(u: string, r: string, v: string, s: string)
    requires PodUid(u) && PodUid(v) && SafePodRule(s) && r != ""
    ensures Contains(ConfigName(v, s), PodPattern(u, r)) <==> u == v && r == s
  {
    hide PodUid, Contains, ConfigName, HoldsPodMark;
    DeletedByPattern(u, r, v, s);
    SuffixInside(r, s);
    if Contains(s + ".yml", ConfigName(u, r)) {
      PatternInside(u, r, s);
    }
  }

  /**
   The pattern of a pod and a rule takes the stored rule's file for exactly that pod and rule.  The
   pattern without a rule is for all files of the pod and does not count here.
   */
  ghost predicate PodExact(s: string) {
    forall u, r, v :: PodUid(u) && PodUid(v) && r != "" ==>
      (Contains(ConfigName(v, s), PodPattern(u, r)) <==> u == v && r == s)
  }

  /** An unsafe name, and a pod and a rule whose pattern takes the file of another rule with that name. */
  lemma {:induction false} UnsafeIsTaken(s: string) returns (u: string, r: string)
    requires !SafePodRule(s)
    ensures PodUid(u) && r != s && r != "" && Contains(ConfigName(u, s), PodPattern(u, r))
  {
    if HoldsSuffix(s) {
      var i :| 0 < i <= |s| && OccursAt(s, ".yml", i);
      u, r := "00000000-0000-0000-0000-000000000000", s[..i];
      assert r + ".yml" <= s;
      DeletedByPattern(u, r, u, s);
    } else {
      var i :| 0 <= i < |s| - 40 && MarkAt(s, i);
      u, r := s[i..i + 36], s[i + 40..];
      assert s[i..] == u + "-by-" + r;
      assert ConfigName(u, s)[40 + i..] == ConfigName(u, r);
      assert OccursAt(ConfigName(u, s), ConfigName(u, r), 40 + i);
    }
  }

  /** The safe names are all for which the deletion of pod files is exact. */
  lemma {:induction false} ExactForSafe(s: string)
    ensures PodExact(s) <==> SafePodRule(s)
  {
    hide Contains, ConfigName, PodUid, SafePodRule;
    if SafePodRule(s) {
      forall u, r, v | PodUid(u) && PodUid(v) && r != ""
        ensures Contains(ConfigName(v, s), PodPattern(u, r)) <==> u == v && r == s
      {
        DeletionIsExact(u, r, v, s);
      }
    } else {
      var u, r := UnsafeIsTaken(s);
    }
  }

  lemma {:induction false} SuffixInside(r: string, s: string)
    ensures r + ".yml" <= s ==> OccursAt(s, ".yml", |r|)
  {
    if r + ".yml" <= s {
      assert s[|r|..|r| + 4] == ".yml";
    }
  }

  /** Rule a on a pod also takes the file of rule a.yml. */
  lemma {:induction false} DottedRuleIsTaken(u: string)
    requires PodUid(u)
    ensures Contains(ConfigName(u, "a.yml"), ConfigName(u, "a"))
  {
    assert "a" + ".yml" <= "a.yml";
    DeletedByPattern(u, "a", u, "a.yml");
  }

  lemma {:induction false} PodFileInjective(n: string, u: string, r: string, m: string, v: string, s: string)
    requires PodUid(u) && PodUid(v) && PodFile(n, u, r) == PodFile(m, v, s)
    ensures n == m && u == v && r == s
  {
    var a, b := ConfigName(u, r), ConfigName(v, s);
    assert a[..36] == u && b[..36] == v;
    assert a[40..|a| - 4] == r && b[40..|b| - 4] == s;
  }

  // ---- Names of host files ----

  predicate SafeHostRule(rule: string) {
    !Contains(rule, "-by-") && !Contains(rule, ".yml") && !("by-" <= rule)
  }

  lemma {:induction false} NoByInTail(rule: string)
    requires !Contains(rule, "-by-")
    ensures !Contains(rule + ".yml", "-by-")
  {
    var tail := rule + ".yml";
    forall i | 0 <= i <= |tail|
      ensures !OccursAt(tail, "-by-", i)
    {
      if OccursAt(tail, "-by-", i) {
        if i + 4 <= |rule| {
          assert tail[i..i + 4] == rule[i..i + 4];
          assert OccursAt(rule, "-by-", i);
        } else {
          assert tail[|rule|] == '.';
          if i <= |rule| {
            OccursChar(tail, "-by-", i, |rule| - i);
          }
        }
        assert false;
      }
    }
  }

  /** With separable rule names, a host pattern can only stand at the front of a host file's name. */
  lemma {:induction false} HostPosition(node: string, r: string, s: string, i: int)
    requires SafeHostRule(s)
    requires OccursAt(ConfigName(node, s), ConfigName(node, r), i)
    ensures i == 0
  {
    var name, pattern, tail, n := ConfigName(node, s), ConfigName(node, r), s + ".yml", |node|;
    assert name == node + "-by-" + tail && pattern == node + "-by-" + (r + ".yml");
    NoByInTail(s);
    StartsWithBy(s);
    assert !OccursAt(tail, "-by-", i - 4);
    OccursChar(name, pattern, i, n);
    OccursChar(name, pattern, i, n + 1);
    OccursChar(name, pattern, i, n + 2);
    OccursChar(name, pattern, i, n + 3);
  }

  lemma {:induction false} StartsWithBy(s: string)
    requires !("by-" <= s)
    ensures |s + ".yml"| >= 3 && (s + ".yml")[..3] != "by-"
  {
    var tail := s + ".yml";
    if |s| >= 3 {
      assert tail[..3] == s[..3];
    } else {
      assert tail[|s|] == '.';
    }
  }

  /** A node name may be anything: the rule names alone make deletion exact. */
  lemma {:induction false} HostDeletionIsExact(node: string, r: string, s: string)
    requires SafeHostRule(s)
    ensures Contains(ConfigName(node, s), ConfigName(node, r)) <==> r == s
  {
    var name, pattern, n := ConfigName(node, s), ConfigName(node, r), |node| + 4;
    assert name[n..] == s + ".yml" && pattern[n..] == r + ".yml";
    if r == s {
      assert OccursAt(name, pattern, 0);
    }
    if i :| 0 <= i <= |name| && OccursAt(name, pattern, i) {
      HostPosition(node, r, s, i);
      assert pattern[n..] == name[..|pattern|][n..] == name[n..][..|pattern| - n];
      SuffixedPrefix(r, s);
      SuffixInside(r, s);
    }
  }

  /** The pattern of a node and a rule takes the stored rule's file on the same node for exactly that rule. */
  ghost predicate HostExact(s: string) {
    forall node, r :: Contains(ConfigName(node, s), ConfigName(node, r)) <==> r == s
  }

  /** An unsafe name, and a node and a rule whose pattern takes the file of another rule with that name. */
  lemma {:induction false} UnsafeHostIsTaken(s: string) returns (node: string, r: string)
    requires !SafeHostRule(s)
    ensures r != s && Contains(ConfigName(node, s), ConfigName(node, r))
  {
    if Contains(s, ".yml") {
      var i :| 0 <= i <= |s| && OccursAt(s, ".yml", i);
      node, r := "n", s[..i];
      assert s == r + ".yml" + s[i + 4..];
      assert ConfigName(node, s)[..|ConfigName(node, r)|] == ConfigName(node, r);
      assert OccursAt(ConfigName(node, s), ConfigName(node, r), 0);
    } else if Contains(s, "-by-") {
      var i :| 0 <= i <= |s| && OccursAt(s, "-by-", i);
      node, r := s[..i], s[i + 4..];
      assert s == node + "-by-" + r;
      assert ConfigName(node, s)[i + 4..] == ConfigName(node, r);
      assert OccursAt(ConfigName(node, s), ConfigName(node, r), i + 4);
    } else {
      node, r := "y", s[3..];
      assert s == "by-" + r;
      assert ConfigName(node, s)[3..] == ConfigName(node, r);
      assert OccursAt(ConfigName(node, s), ConfigName(node, r), 3);
    }
  }

  /** The safe names are all for which the deletion of host files is exact on every node. */
  lemma {:induction false} HostExactForSafe(s: string)
    ensures HostExact(s) <==> SafeHostRule(s)
  {
    hide Contains, ConfigName, SafeHostRule;
    if SafeHostRule(s) {
      forall node, r
        ensures Contains(ConfigName(node, s), ConfigName(node, r)) <==> r == s
      {
        HostDeletionIsExact(node, r, s);
      }
    } else {
      var node, r := UnsafeHostIsTaken(s);
    }
  }

  /** On a node called y, deleting the file of rule r also takes that of rule by-r. */
  lemma {:induction false} ByPrefixIsTaken()
    ensures Contains(ConfigName("y", "by-r"), ConfigName("y", "r"))
  {
    var name, pattern := ConfigName("y", "by-r"), ConfigName("y", "r");
    assert name == "y-b" + pattern;
    assert name[3..3 + |pattern|] == pattern;
    assert OccursAt(name, pattern, 3);
  }
}
