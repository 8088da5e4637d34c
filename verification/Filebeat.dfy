/** NewConfig: from the models of a pod's containers to the entries of its configuration file. */
module Filebeat {
  import opened Strings
  import opened Paths
  import opened Env
  import opened Mounts
  import opened Rules

  datatype RootValue = Text(text: string) | Flag(flag: bool)

  datatype LogConfig = LogConfig(
    filestreamID: string,
    fields: map<string, string>,
    format: string,
    tags: seq<string>,
    excludeFiles: seq<string>,
    hostDir: map<string, seq<string>>,
    stdout: bool,
    rootConfigurations: map<string, RootValue>,
    parsers: map<string, RootValue>)

  /** The file pattern of a log path; a path ending in a slash means every .log file. */
  function LogFile(path: string): string {
    if FileName(path) == "" then "*.log" else FileName(path)
  }

  /** The file patterns of the paths whose directory is dir, in order. */
  function FilesUnder(paths: seq<string>, dir: string): seq<string> {
    if paths == [] then []
    else
      var init := FilesUnder(paths[..|paths| - 1], dir);
      var last := paths[|paths| - 1];
      if Dir(last) == dir then init + [LogFile(last)] else init
  }

  /** Every directory with the files of its paths. */
  ghost predicate Grouped(groups: map<string, seq<string>>, paths: seq<string>) {
    && (forall d :: d in groups <==> FilesUnder(paths, d) != [])
    && (forall d :: d in groups ==> groups[d] == FilesUnder(paths, d))
  }

  lemma {:induction false} GroupedNone()
    ensures Grouped(map[], [])
  {
  }

  lemma {:induction false} GroupedSnoc(groups: map<string, seq<string>>, paths: seq<string>, path: string)
    requires Grouped(groups, paths)
    ensures var before := if Dir(path) in groups then groups[Dir(path)] else [];
            Grouped(groups[Dir(path) := before + [LogFile(path)]], paths + [path])
  {
    hide Dir, LogFile;
    assert (paths + [path])[..|paths|] == paths;
  }

  method GroupByDir(paths: seq<string>) returns (groups: map<string, seq<string>>)
    ensures Grouped(groups, paths)
  {
    hide Grouped, Dir, FileName;
    groups := map[];
    GroupedNone();
    for i := 0 to |paths|
      invariant Grouped(groups, paths[..i])
    {
      GroupedSnoc(groups, paths[..i], paths[i]);
      assert paths[..i + 1] == paths[..i] + [paths[i]];
      var dir := Dir(paths[i]);
      var file := FileName(paths[i]);
      if file == "" {
        file := "*.log";
      }
      if dir in groups {
        groups := groups[dir := groups[dir] + [file]];
      } else {
        assert [] + [file] == [file];
        groups := groups[dir := [file]];
      }
    }
    assert paths[..|paths|] == paths;
  }

  // ---- Host directories ----

  predicate Contributes(paths: seq<string>, m: Mount) {
    m.destination == STDOUT || FilesUnder(paths, m.destination) != []
  }

  function HostKey(m: Mount): string {
    if m.destination == STDOUT then Dir(m.source) else m.source
  }

  function HostFiles(paths: seq<string>, m: Mount): seq<string> {
    if m.destination == STDOUT then [Base(m.source) + "*"] else FilesUnder(paths, m.destination)
  }

  /** The last mount for a host directory decides its files. */
  function HostDirs(paths: seq<string>, mounts: seq<Mount>): map<string, seq<string>> {
    if mounts == [] then map[]
    else
      var init := HostDirs(paths, mounts[..|mounts| - 1]);
      var m := mounts[|mounts| - 1];
      if Contributes(paths, m) then init[HostKey(m) := HostFiles(paths, m)] else init
  }

  predicate OnClaim(paths: seq<string>, m: Mount) {
    m.destination != STDOUT && FilesUnder(paths, m.destination) != [] && m.isPVC
  }

  predicate AnyOnClaim(paths: seq<string>, mounts: seq<Mount>) {
    exists i | 0 <= i < |mounts| :: OnClaim(paths, mounts[i])
  }

  method MapHostDirs(paths: seq<string>, mounts: seq<Mount>)
    returns (hostDir: map<string, seq<string>>, stdout: bool, needCleanRemove: bool)
    ensures hostDir == HostDirs(paths, mounts)
    ensures stdout <==> exists i :: 0 <= i < |mounts| && mounts[i].destination == STDOUT
    ensures needCleanRemove <==> !AnyOnClaim(paths, mounts)
  {
    hide FilesUnder, Dir, Base;
    var groups := GroupByDir(paths);
    hostDir, stdout, needCleanRemove := map[], false, true;
    for i := 0 to |mounts|
      invariant hostDir == HostDirs(paths, mounts[..i])
      invariant stdout <==> exists k :: 0 <= k < i && mounts[k].destination == STDOUT
      invariant needCleanRemove <==> forall k :: 0 <= k < i ==> !OnClaim(paths, mounts[k])
    {
      var m := mounts[i];
      assert mounts[..i + 1][..i] == mounts[..i];
      if m.destination == STDOUT {
        hostDir := hostDir[Dir(m.source) := [Base(m.source) + "*"]];
        stdout := true;
        continue;
      }
      if m.destination in groups {
        hostDir := hostDir[m.source := groups[m.destination]];
        if m.isPVC {
          needCleanRemove := false;
        }
      }
    }
    assert mounts[..|mounts|] == mounts;
  }

  // ---- Root configurations ----

  /** parseRule's reading of a root configuration value. */
  function ReadRoot(v: string): RootValue {
    if v == "true" then Flag(true) else if v == "false" then Flag(false) else Text(v)
  }

  predicate IsMultiline(key: string) {
    Contains(key, "multiline")
  }

  /** multiline.x sets the parser option x; any other number of dots is skipped. */
  predicate SetsParser(key: string, option: string) {
    IsMultiline(key) && |Split(key, '.')| == 2 && Split(key, '.')[1] == option
  }

  /**
   Go visits the map in no fixed order, so when two keys set the same parser option either may win.
   */
  method SplitRoot(root: map<string, string>)
    returns (kept: map<string, RootValue>, parsers: map<string, RootValue>)
    ensures kept == map k | k in root && !IsMultiline(k) :: ReadRoot(root[k])
    ensures forall option :: option in parsers <==> exists k :: k in root && SetsParser(k, option)
    ensures forall option :: option in parsers ==>
              exists k :: k in root && SetsParser(k, option) && parsers[option] == ReadRoot(root[k])
  {
    var rest := root.Keys;
    kept, parsers := map[], map[];
    while rest != {}
      invariant rest <= root.Keys
      invariant kept == map k | k in root && k !in rest && !IsMultiline(k) :: ReadRoot(root[k])
      invariant forall option :: option in parsers <==> exists k :: k in root && k !in rest && SetsParser(k, option)
      invariant forall option :: option in parsers ==>
                  exists k :: k in root && SetsParser(k, option) && parsers[option] == ReadRoot(root[k])
      decreases rest
    {
      var k :| k in rest;
      rest := rest - {k};
      if IsMultiline(k) {
        var ss := Split(k, '.');
        if |ss| != 2 {
          continue;
        }
        assert SetsParser(k, ss[1]);
        parsers := parsers[ss[1] := ReadRoot(root[k])];
      } else {
        kept := kept[k := ReadRoot(root[k])];
      }
    }
  }

  // ---- Fields ----

  method LastIndex(s: string, c: char) returns (i: int)
    ensures i == -1 ==> c !in s
    ensures i != -1 ==> 0 <= i < |s| && s[i] == c && c !in s[i + 1..]
  {
    i := |s| - 1;
    while i >= 0 && s[i] != c
      invariant -1 <= i < |s| && c !in s[i + 1..]
    {
      assert s[i..] == [s[i]] + s[i + 1..];
      i := i - 1;
    }
  }

  datatype Resource = Resource(kind: string, name: string)

  /** The name before the dash of a replica set is that of its deployment. */
  ghost predicate DeploymentName(name: string, deployment: string) {
    exists suffix: string :: name == deployment + "-" + suffix && '-' !in suffix
  }

  /**
   The last owner decides.  A replica set without a dash in its name makes a deployment with the name
   that an owner before it has given.
   */
  ghost predicate ResourceOf(owners: seq<Owner>, r: Resource) {
    if owners == [] then r == Resource("", "")
    else
      var o := owners[|owners| - 1];
      if o.kind != "ReplicaSet" then r == Resource(o.kind, o.name)
      else
        && r.kind == "Deployment"
        && if '-' in o.name then DeploymentName(o.name, r.name)
           else exists before :: ResourceOf(owners[..|owners| - 1], before) && r.name == before.name
  }

  method FindTargetResource(owners: seq<Owner>) returns (kind: string, name: string)
    ensures ResourceOf(owners, Resource(kind, name))
  {
    kind, name := "", "";
    for i := 0 to |owners|
      invariant ResourceOf(owners[..i], Resource(kind, name))
    {
      ghost var before := Resource(kind, name);
      var o := owners[i];
      assert owners[..i + 1][..i] == owners[..i];
      if o.kind == "ReplicaSet" {
        kind := "Deployment";
        var k := LastIndex(o.name, '-');
        if k != -1 {
          name := o.name[..k];
          assert o.name == name + "-" + o.name[k + 1..];
          assert DeploymentName(o.name, name);
        }
      } else {
        kind, name := o.kind, o.name;
      }
    }
    assert owners[..|owners|] == owners;
  }

  datatype Field = Field(name: string, value: string)

  function FieldsOf(list: seq<Field>): map<string, string> {
    if list == [] then map[]
    else FieldsOf(list[..|list| - 1])[list[|list| - 1].name := list[|list| - 1].value]
  }

  /** The fields that describe where an entry comes from. */
  function FieldList(rule: CollectionRule, container: string, pod: PodView, r: Resource): seq<Field> {
    (if rule.index != "" then [Field("index", rule.index)] else []) +
    [Field("k8s_resource_type", r.kind), Field("k8s_resource_name", r.name), Field("k8s_pod_uid", pod.uid),
     Field("k8s_container_name", container), Field("docker_container", container), Field("k8s_pod", pod.name),
     Field("k8s_node_name", pod.nodeName), Field("k8s_pod_namespace", pod.namespace)] +
    (if rule.topic != "" then [Field("topic", rule.topic)] else [])
  }

  function Described(rule: CollectionRule, container: string, pod: PodView, r: Resource): map<string, string> {
    FieldsOf(FieldList(rule, container, pod, r))
  }

  const FORMAT := "format"

  /** The rule's own fields win, and format is not a field. */
  method AddFields(base: map<string, string>, user: map<string, string>)
    returns (fields: map<string, string>, format: string)
    ensures forall k :: k in fields <==> k in base || (k in user && k != FORMAT)
    ensures forall k :: k in fields ==> fields[k] == if k in user && k != FORMAT then user[k] else base[k]
    ensures format == if FORMAT in user then user[FORMAT] else ""
  {
    fields, format := base, "";
    var rest := user.Keys;
    while rest != {}
      invariant rest <= user.Keys
      invariant forall k :: k in fields <==> k in base || (k in user && k !in rest && k != FORMAT)
      invariant forall k :: k in fields ==>
                  fields[k] == if k in user && k !in rest && k != FORMAT then user[k] else base[k]
      invariant format == if FORMAT in user && FORMAT !in rest then user[FORMAT] else ""
      decreases rest
    {
      var k :| k in rest;
      rest := rest - {k};
      if k == FORMAT {
        format := user[k];
      } else {
        fields := fields[k := user[k]];
      }
    }
  }

  // ---- Entries ----

  /** The entry of one model: its fields, its host directories and its configuration. */
  ghost predicate EntryIs(c: LogConfig, uid: string, container: string, rule: CollectionRule, user: map<string, string>,
                          paths: seq<string>, mounts: seq<Mount>, pod: PodView)
  {
    && c.filestreamID == uid && c.tags == rule.tags && c.excludeFiles == rule.excludeFiles
    && c.format == (if FORMAT in user then user[FORMAT] else "")
    && (exists r :: ResourceOf(pod.owners, r) && FieldsAre(c.fields, Described(rule, container, pod, r), user))
    && c.hostDir == HostDirs(paths, mounts)
    && (c.stdout <==> exists i :: 0 <= i < |mounts| && mounts[i].destination == STDOUT)
    && RootIs(c.rootConfigurations, rule.rootConfigurations, AnyOnClaim(paths, mounts))
    && ParsersAre(c.parsers, rule.rootConfigurations)
  }

  ghost predicate FieldsAre(fields: map<string, string>, base: map<string, string>, user: map<string, string>) {
    && (forall k :: k in fields <==> k in base || (k in user && k != FORMAT))
    && (forall k :: k in fields ==> fields[k] == if k in user && k != FORMAT then user[k] else base[k])
  }

  /** clean_removed wins over what the rule says, and is off when some found path is on a claim. */
  ghost predicate RootIs(kept: map<string, RootValue>, root: map<string, string>, onClaim: bool) {
    && (forall k :: k in kept <==> k == CLEAN_REMOVED || (k in root && !IsMultiline(k)))
    && (forall k :: k in kept ==> kept[k] == if k == CLEAN_REMOVED then Flag(!onClaim) else ReadRoot(root[k]))
  }

  ghost predicate ParsersAre(parsers: map<string, RootValue>, root: map<string, string>) {
    && (forall option :: option in parsers <==> exists k :: k in root && SetsParser(k, option))
    && (forall option :: option in parsers ==>
          exists k :: k in root && SetsParser(k, option) && parsers[option] == ReadRoot(root[k]))
  }

  lemma {:induction false} OneDeployment(name: string, a: string, b: string)
    requires DeploymentName(name, a) && DeploymentName(name, b)
    ensures a == b
  {
    var s: string :| name == a + "-" + s && '-' !in s;
    var t: string :| name == b + "-" + t && '-' !in t;
    assert forall k :: |a| < k < |name| ==> name[k] == s[k - |a| - 1];
    assert forall k :: |b| < k < |name| ==> name[k] == t[k - |b| - 1];
    assert name[|a|] == '-' && name[|b|] == '-';
    assert name[..|a|] == a && name[..|b|] == b;
  }

  lemma {:induction false} OneResource(owners: seq<Owner>, r: Resource, q: Resource)
    requires ResourceOf(owners, r) && ResourceOf(owners, q)
    ensures r == q
  {
    if owners != [] {
      var init, o := owners[..|owners| - 1], owners[|owners| - 1];
      if o.kind == "ReplicaSet" {
        if '-' in o.name {
          OneDeployment(o.name, r.name, q.name);
        } else {
          var s :| ResourceOf(init, s) && r.name == s.name;
          var t :| ResourceOf(init, t) && q.name == t.name;
          OneResource(init, s, t);
        }
      }
    }
  }

  lemma {:induction false} FieldsDecided(f: map<string, string>, g: map<string, string>, base: map<string, string>,
                                         user: map<string, string>)
    requires FieldsAre(f, base, user) && FieldsAre(g, base, user)
    ensures f == g
  {
    assert f.Keys == g.Keys;
  }

  lemma {:induction false} RootDecided(f: map<string, RootValue>, g: map<string, RootValue>, root: map<string, string>,
                                       onClaim: bool)
    requires RootIs(f, root, onClaim) && RootIs(g, root, onClaim)
    ensures f == g
  {
    hide IsMultiline;
    assert f.Keys == g.Keys;
  }

  lemma {:induction false} ParsersDecided(f: map<string, RootValue>, g: map<string, RootValue>,
                                          root: map<string, string>)
    requires ParsersAre(f, root) && ParsersAre(g, root)
    ensures f.Keys == g.Keys
  {
    hide SetsParser;
  }

  /** The entry is decided by its model and the view of the pod, but for options that two keys set. */
  lemma {:induction false} EntryDecided(c: LogConfig, d: LogConfig, uid: string, container: string,
                                        rule: CollectionRule, user: map<string, string>, paths: seq<string>,
                                        mounts: seq<Mount>, pod: PodView)
    requires EntryIs(c, uid, container, rule, user, paths, mounts, pod)
    requires EntryIs(d, uid, container, rule, user, paths, mounts, pod)
    ensures c == d.(parsers := c.parsers) && c.parsers.Keys == d.parsers.Keys
  {
    hide ResourceOf, Described, HostDirs, AnyOnClaim, FieldsAre, RootIs, ParsersAre;
    var r :| ResourceOf(pod.owners, r) && FieldsAre(c.fields, Described(rule, container, pod, r), user);
    var q :| ResourceOf(pod.owners, q) && FieldsAre(d.fields, Described(rule, container, pod, q), user);
    OneResource(pod.owners, r, q);
    FieldsDecided(c.fields, d.fields, Described(rule, container, pod, r), user);
    RootDecided(c.rootConfigurations, d.rootConfigurations, rule.rootConfigurations, AnyOnClaim(paths, mounts));
    ParsersDecided(c.parsers, d.parsers, rule.rootConfigurations);
  }

  const CLEAN_REMOVED := "clean_removed"

  /** clean_removed is written last. */
  method BuildLogConfig(uid: string, container: string, rule: CollectionRule, user: map<string, string>,
                        paths: seq<string>, mounts: seq<Mount>, pod: PodView)
    returns (c: LogConfig)
    ensures EntryIs(c, uid, container, rule, user, paths, mounts, pod)
  {
    hide HostDirs, AnyOnClaim, ResourceOf, Described, IsMultiline, SetsParser;
    var kind, name := FindTargetResource(pod.owners);
    var fields, format := AddFields(Described(rule, container, pod, Resource(kind, name)), user);
    var hostDir, stdout, needCleanRemove := MapHostDirs(paths, mounts);
    var kept, parsers := SplitRoot(rule.rootConfigurations);
    c := LogConfig(uid, fields, format, rule.tags, rule.excludeFiles, hostDir, stdout,
                   kept[CLEAN_REMOVED := Flag(needCleanRemove)], parsers);
    assert FieldsAre(fields, Described(rule, container, pod, Resource(kind, name)), user);
  }

  // ---- What the host directories hold ----

  /** Mounts that share a host directory list the same files in it. */
  ghost predicate Consistent(paths: seq<string>, mounts: seq<Mount>) {
    forall m, n | m in mounts && n in mounts ::
      (Contributes(paths, m) && Contributes(paths, n) && HostKey(m) == HostKey(n))
      ==> HostFiles(paths, m) == HostFiles(paths, n)
  }

  /** Without collisions, nothing is lost: every mount's files are there, and nothing else is. */
  lemma {:induction false} HostDirsHold(paths: seq<string>, mounts: seq<Mount>)
    requires Consistent(paths, mounts)
    ensures forall m :: m in mounts && Contributes(paths, m) ==>
              && HostKey(m) in HostDirs(paths, mounts)
              && HostDirs(paths, mounts)[HostKey(m)] == HostFiles(paths, m)
    ensures forall d :: d in HostDirs(paths, mounts) ==>
              exists m :: m in mounts && Contributes(paths, m) && HostKey(m) == d
  {
    if mounts != [] {
      var init := mounts[..|mounts| - 1];
      HostDirsHold(paths, init);
      assert forall m :: m in mounts <==> m in init || m == mounts[|mounts| - 1];
    }
  }

  /** When several mounts have one host directory, the last that lists files there decides. */
  lemma {:induction false} LastMountDecides(paths: seq<string>, mounts: seq<Mount>, i: int)
    requires 0 <= i < |mounts| && Contributes(paths, mounts[i])
    requires forall j :: i < j < |mounts| && Contributes(paths, mounts[j]) ==> HostKey(mounts[j]) != HostKey(mounts[i])
    ensures HostKey(mounts[i]) in HostDirs(paths, mounts)
    ensures HostDirs(paths, mounts)[HostKey(mounts[i])] == HostFiles(paths, mounts[i])
  {
    if i < |mounts| - 1 {
      LastMountDecides(paths, mounts[..|mounts| - 1], i);
    }
  }

  /** The last mount that lists files under this host directory. */
  ghost predicate LastFor(paths: seq<string>, mounts: seq<Mount>, i: int, d: string) {
    && 0 <= i < |mounts| && Contributes(paths, mounts[i]) && HostKey(mounts[i]) == d
    && forall j :: i < j < |mounts| && Contributes(paths, mounts[j]) ==> HostKey(mounts[j]) != d
  }

  lemma {:induction false} SomeMountIsLast(paths: seq<string>, mounts: seq<Mount>, d: string) returns (i: nat)
    requires d in HostDirs(paths, mounts)
    ensures LastFor(paths, mounts, i, d)
  {
    var init, m := mounts[..|mounts| - 1], mounts[|mounts| - 1];
    if Contributes(paths, m) && HostKey(m) == d {
      i := |init|;
    } else {
      i := SomeMountIsLast(paths, init, d);
    }
  }

  /** What is listed, with or without collisions: the files of the last mount of each host directory. */
  lemma {:induction false} HostDirsExactly(paths: seq<string>, mounts: seq<Mount>, d: string, f: string)
    ensures d in HostDirs(paths, mounts) && f in HostDirs(paths, mounts)[d] <==>
            exists i :: LastFor(paths, mounts, i, d) && f in HostFiles(paths, mounts[i])
  {
    if d in HostDirs(paths, mounts) {
      var i := SomeMountIsLast(paths, mounts, d);
      LastMountDecides(paths, mounts, i);
    }
    if i :| LastFor(paths, mounts, i, d) && f in HostFiles(paths, mounts[i]) {
      LastMountDecides(paths, mounts, i);
    }
  }

  /** The claim marks play no part in the host directories. */
  lemma {:induction false} HostDirsUnmarked(paths: seq<string>, mounts: seq<Mount>, marked: seq<Mount>)
    requires |marked| == |mounts|
    requires forall i :: 0 <= i < |mounts| ==>
               marked[i].source == mounts[i].source && marked[i].destination == mounts[i].destination
    ensures HostDirs(paths, marked) == HostDirs(paths, mounts)
  {
    if mounts != [] {
      HostDirsUnmarked(paths, mounts[..|mounts| - 1], marked[..|marked| - 1]);
    }
  }

  lemma {:induction false} FilesUnderMember(paths: seq<string>, k: int)
    requires 0 <= k < |paths|
    ensures LogFile(paths[k]) in FilesUnder(paths, Dir(paths[k]))
  {
    if k < |paths| - 1 {
      FilesUnderMember(paths[..|paths| - 1], k);
    }
  }

  lemma {:induction false} FilesUnderOrigin(paths: seq<string>, dir: string)
    ensures forall f :: f in FilesUnder(paths, dir) ==>
              exists k :: 0 <= k < |paths| && Dir(paths[k]) == dir && LogFile(paths[k]) == f
  {
    if paths != [] {
      var init := paths[..|paths| - 1];
      FilesUnderOrigin(init, dir);
      forall f | f in FilesUnder(init, dir)
        ensures exists k :: 0 <= k < |paths| && Dir(paths[k]) == dir && LogFile(paths[k]) == f
      {
        var k :| 0 <= k < |init| && Dir(init[k]) == dir && LogFile(init[k]) == f;
        assert paths[k] == init[k];
      }
      assert Dir(paths[|paths| - 1]) == dir ==> paths[|paths| - 1] == paths[|init|];
    }
  }

  // ---- Files, options and fields, one by one ----

  function CountUnder(paths: seq<string>, dir: string): nat {
    if paths == [] then 0
    else CountUnder(paths[..|paths| - 1], dir) + if Dir(paths[|paths| - 1]) == dir then 1 else 0
  }

  /** The files of a directory are listed in the order of their paths, each as often as it occurs. */
  lemma {:induction false} FilesUnderAt(paths: seq<string>, dir: string, i: int)
    requires 0 <= i < |paths| && Dir(paths[i]) == dir
    ensures |FilesUnder(paths, dir)| == CountUnder(paths, dir)
    ensures CountUnder(paths[..i], dir) < |FilesUnder(paths, dir)|
    ensures FilesUnder(paths, dir)[CountUnder(paths[..i], dir)] == LogFile(paths[i])
  {
    hide Dir, LogFile;
    var init := paths[..|paths| - 1];
    CountIsLength(paths, dir);
    CountIsLength(init, dir);
    if i < |init| {
      FilesUnderAt(init, dir, i);
      assert init[..i] == paths[..i];
    }
  }

  lemma {:induction false} CountIsLength(paths: seq<string>, dir: string)
    ensures |FilesUnder(paths, dir)| == CountUnder(paths, dir)
  {
    hide Dir, LogFile;
    if paths != [] {
      CountIsLength(paths[..|paths| - 1], dir);
    }
  }

  /** A path stands for its file name, and with a slash at its end for every log file. */
  lemma {:induction false} LogFileExactly(dir: string, file: string)
    requires SLASH !in file
    ensures LogFile(dir + [SLASH] + file) == if file == "" then "*.log" else file
    ensures LogFile(file) == if file == "" then "*.log" else file
  {
    hide Split;
    SplitAppend(dir, SLASH, file);
    SplitWhole(file, SLASH);
  }

  /** The output of a container is found as all files that begin with .log in the directory of its log file. */
  lemma {:induction false} StdoutListed(info: ContainerInfo, base: string)
    ensures HostKey(StdoutMount(info, base)) == Clean(base + Dir(info.logPath))
    ensures forall paths :: HostFiles(paths, StdoutMount(info, base)) == ["*.log*"]
  {
    hide Dir, Clean, Base;
    DirIsClean(info.logPath);
    NotEmpty(info.logPath);
    assert base + Dir(info.logPath) + "/*.log" == base + Dir(info.logPath) + [SLASH] + "*.log";
    BehindSlash(base + Dir(info.logPath), "*.log");
    BaseOfFile(base + Dir(info.logPath), "*.log");
    assert "*.log" + "*" == "*.log*";
  }

  lemma {:induction false} NotEmpty(p: string)
    ensures Dir(p) != ""
  {
    hide Dir;
    DirIsClean(p);
    EmptyIsUnclean();
  }

  /** A key sets a parser option exactly when it mentions multiline and has one dot, in front of the option. */
  lemma {:induction false} SetsParserExactly(key: string, option: string)
    ensures SetsParser(key, option) <==>
            Contains(key, "multiline") &&
            exists front: string :: key == front + "." + option && '.' !in front && '.' !in option
  {
    hide Contains;
    var parts := Split(key, '.');
    SplitFree(key, '.');
    JoinSplit(key, '.');
    if |parts| == 2 && parts[1] == option {
      assert parts[1..] == [option];
      assert key == parts[0] + "." + option;
    }
    if front: string :| key == front + "." + option && '.' !in front && '.' !in option {
      SplitWhole(front, '.');
      SplitWhole(option, '.');
      SplitAppend(front, '.', option);
      assert key == front + ['.'] + option;
    }
  }

  /** What a rule's root configuration becomes. */
  lemma {:induction false} RootExactly(kept: map<string, RootValue>, root: map<string, string>, onClaim: bool,
                                       k: string)
    requires RootIs(kept, root, onClaim)
    ensures "clean_removed" in kept && kept["clean_removed"] == Flag(!onClaim)
    ensures k != "clean_removed" ==> (k in kept <==> k in root && !Contains(k, "multiline"))
    ensures k != "clean_removed" && k in kept ==>
              && (root[k] == "true" ==> kept[k] == Flag(true))
              && (root[k] == "false" ==> kept[k] == Flag(false))
              && (root[k] != "true" && root[k] != "false" ==> kept[k] == Text(root[k]))
  {
    hide Contains;
  }

  ghost predicate DistinctNames(list: seq<Field>) {
    forall i, j :: 0 <= i < j < |list| ==> list[i].name != list[j].name
  }

  lemma {:induction false} FieldsOfAt(list: seq<Field>, name: string, value: string)
    requires DistinctNames(list)
    ensures name in FieldsOf(list) && FieldsOf(list)[name] == value <==> Field(name, value) in list
  {
    if list != [] {
      FieldsOfAt(list[..|list| - 1], name, value);
    }
  }

  lemma {:induction false} FieldNamesDiffer(rule: CollectionRule, container: string, pod: PodView, r: Resource)
    ensures DistinctNames(FieldList(rule, container, pod, r))
  {
    assert |"index"| == 5 && |"topic"| == 5 && |"k8s_pod"| == 7 && |"k8s_pod_uid"| == 11 && |"k8s_node_name"| == 13;
    assert |"docker_container"| == 16 && |"k8s_container_name"| == 18;
    assert |"k8s_pod_namespace"| == |"k8s_resource_type"| == |"k8s_resource_name"| == 17;
    assert "index"[0] == 'i' && "topic"[0] == 't';
    assert "k8s_pod_namespace"[4] == 'p' && "k8s_resource_type"[4] == 'r' && "k8s_resource_name"[4] == 'r';
    assert "k8s_resource_type"[13] == 't' && "k8s_resource_name"[13] == 'n';
  }

  /** The fields that describe an entry: what of the pod and the rule each of them holds, and no others. */
  lemma {:induction false} DescribedExactly(rule: CollectionRule, container: string, pod: PodView, r: Resource,
                                            name: string, value: string)
    ensures var d := Described(rule, container, pod, r);
            name in d && d[name] == value <==>
            || (name == "index" && value == rule.index != "") || (name == "topic" && value == rule.topic != "")
            || (name == "k8s_pod" && value == pod.name) || (name == "k8s_pod_uid" && value == pod.uid)
            || (name == "k8s_pod_namespace" && value == pod.namespace)
            || (name == "k8s_node_name" && value == pod.nodeName)
            || (name == "k8s_container_name" && value == container)
            || (name == "docker_container" && value == container)
            || (name == "k8s_resource_type" && value == r.kind) || (name == "k8s_resource_name" && value == r.name)
  {
    hide FieldsOf;
    FieldNamesDiffer(rule, container, pod, r);
    FieldsOfAt(FieldList(rule, container, pod, r), name, value);
  }

  /** The resource of a pod by its last owner. */
  lemma {:induction false} ResourceExactly(owners: seq<Owner>, o: Owner, before: Resource, r: Resource)
    requires ResourceOf(owners, before)
    ensures ResourceOf([], r) <==> r == Resource("", "")
    ensures o.kind != "ReplicaSet" ==> (ResourceOf(owners + [o], r) <==> r == Resource(o.kind, o.name))
    ensures o.kind == "ReplicaSet" && '-' !in o.name ==>
              (ResourceOf(owners + [o], r) <==> r == Resource("Deployment", before.name))
    ensures forall name: string, suffix: string ::
              o.kind == "ReplicaSet" && o.name == name + "-" + suffix && '-' !in suffix ==>
                (ResourceOf(owners + [o], r) <==> r == Resource("Deployment", name))
  {
    assert (owners + [o])[..|owners|] == owners;
    if o.kind == "ReplicaSet" && '-' !in o.name && ResourceOf(owners + [o], r) {
      var b :| ResourceOf(owners, b) && r.name == b.name;
      OneResource(owners, before, b);
    }
    forall name: string, suffix: string |
      o.kind == "ReplicaSet" && o.name == name + "-" + suffix && '-' !in suffix
      ensures ResourceOf(owners + [o], r) <==> r == Resource("Deployment", name)
    {
      assert DeploymentName(o.name, name);
      assert o.name[|name|] == '-';
      if ResourceOf(owners + [o], r) {
        OneDeployment(o.name, name, r.name);
      }
    }
  }
}
