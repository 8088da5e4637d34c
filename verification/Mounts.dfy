/**
 Where a container's log directories live on the host: FindMount of the containerd runtime.
 The container's status (its variables, mounts, writable layer and log file) is an input.
 */
module Mounts {
  import opened Wrappers
  import opened Strings
  import opened Paths
  import opened Env
  import opened Rules

  datatype Mount = Mount(source: string, destination: string, isPVC: bool)

  datatype ContainerMount = ContainerMount(containerPath: string, hostPath: string)

  datatype ContainerInfo = ContainerInfo(
    envs: seq<EnvVar>, mounts: seq<ContainerMount>, upperDir: string, logPath: string)

  const STDOUT := "stdout"

  // ---- One directory of the upward walk ----

  /** The test the inner loop makes of one mount. */
  predicate Hits(m: ContainerMount, dir: string, dest: string) {
    && Rel(m.containerPath, dest).Some?
    && Rel(m.containerPath, dest).value != ""
    && Clean(m.containerPath) == dir
  }

  function FirstHit(mounts: seq<ContainerMount>, dir: string, dest: string): (r: Option<nat>)
    ensures r.Some? ==> r.value < |mounts| && Hits(mounts[r.value], dir, dest)
    ensures r.Some? ==> forall j :: 0 <= j < r.value ==> !Hits(mounts[j], dir, dest)
    ensures r.None? ==> forall j :: 0 <= j < |mounts| ==> !Hits(mounts[j], dir, dest)
  {
    if mounts == [] then None
    else if Hits(mounts[0], dir, dest) then Some(0)
    else
      match FirstHit(mounts[1..], dir, dest)
      case None => None
      case Some(i) => Some(i + 1)
  }

  /** The whole walk: the mount found from dir upwards, or None when "/" or "." is reached. */
  function Walk(mounts: seq<ContainerMount>, dir: string, dest: string): (r: Option<nat>)
    ensures r.Some? ==> r.value < |mounts|
    decreases |Segments(dir)|
  {
    var hit := FirstHit(mounts, dir, dest);
    if hit.Some? then hit
    else
      DirShrinks(dir);
      if Dir(dir) == "/" || Dir(dir) == "." then None
      else Walk(mounts, Dir(dir), dest)
  }

  function MountSource(base: string, m: ContainerMount, dest: string): string
    requires Rel(m.containerPath, dest).Some?
  {
    var rel := Rel(m.containerPath, dest).value;
    if rel == "." then JoinPath([base, m.hostPath]) else JoinPath([base, m.hostPath, rel])
  }

  /** The directory of a path that is looked up among the mounts. */
  function Destination(info: ContainerInfo, path: string): string {
    SubstPath(info.envs, Dir(path))
  }

  lemma {:induction false} WalkHits(mounts: seq<ContainerMount>, dir: string, dest: string)
    requires Walk(mounts, dir, dest).Some?
    ensures Rel(mounts[Walk(mounts, dir, dest).value].containerPath, dest).Some?
    decreases |Segments(dir)|
  {
    if FirstHit(mounts, dir, dest).None? {
      DirShrinks(dir);
      WalkHits(mounts, Dir(dir), dest);
    }
  }

  /** The source found for a directory: below a mount, in the writable layer, or none. */
  function SourceOf(info: ContainerInfo, base: string, dest: string): Option<string> {
    match Walk(info.mounts, dest, dest)
    case Some(i) =>
      WalkHits(info.mounts, dest, dest);
      Some(MountSource(base, info.mounts[i], dest))
    case None =>
      if info.upperDir == "" then None else Some(base + info.upperDir + dest)
  }

  predicate Listed(found: seq<Mount>, dest: string, source: string) {
    exists i | 0 <= i < |found| :: found[i].destination == dest && found[i].source == source
  }

  function StdoutMount(info: ContainerInfo, base: string): Mount {
    Mount(base + Dir(info.logPath) + "/*.log", STDOUT, false)
  }

  /** One turn of the loop over the log paths: a mount found twice is listed once. */
  function AddMount(info: ContainerInfo, base: string, found: seq<Mount>, path: string): seq<Mount> {
    if path == STDOUT then found + [StdoutMount(info, base)]
    else
      var dest := Destination(info, path);
      match SourceOf(info, base, dest)
      case None => found
      case Some(source) =>
        if Walk(info.mounts, dest, dest).Some? && Listed(found, dest, source) then found
        else found + [Mount(source, dest, false)]
  }

  function MountsOf(info: ContainerInfo, base: string, paths: seq<string>): seq<Mount> {
    if paths == [] then []
    else AddMount(info, base, MountsOf(info, base, paths[..|paths| - 1]), paths[|paths| - 1])
  }

  /** stdout stays; every other path is substituted. */
  function NewPath(info: ContainerInfo, path: string): string {
    if path == STDOUT then path else SubstPath(info.envs, path)
  }

  function NewPaths(info: ContainerInfo, paths: seq<string>): (r: seq<string>)
    ensures |r| == |paths|
  {
    seq(|paths|, i requires 0 <= i < |paths| => NewPath(info, paths[i]))
  }

  function NewFields(info: ContainerInfo, fields: map<string, string>): map<string, string> {
    map k | k in fields :: Subst(info.envs, fields[k])
  }

  // ---- The method ----

  /** The fields of a rule, one map object for all containers of the rule. */
  class FieldMap {
    var m: map<string, string>
    constructor (m: map<string, string>)
      ensures this.m == m
    {
      this.m := m;
    }
  }

  /** ContainerLogModel: what FindMount reads and writes of it. */
  class LogModel {
    const uid: string
    const container: string
    const logPath: array<string>
    const fields: FieldMap
    const rule: CollectionRule
    var mount: seq<Mount>

    constructor (uid: string, container: string, logPath: array<string>, fields: FieldMap,
                 rule: CollectionRule)
      ensures this.uid == uid && this.container == container && this.logPath == logPath
      ensures this.fields == fields && this.rule == rule && mount == []
    {
      this.uid, this.container, this.logPath, this.fields := uid, container, logPath, fields;
      this.rule, mount := rule, [];
    }
  }

  /** The upward walk of FindMount for one directory. */
  method WalkUp(mounts: seq<ContainerMount>, dest: string) returns (hit: Option<nat>)
    ensures hit == Walk(mounts, dest, dest)
  {
    hide Rel, Clean, Dir;
    var dir := dest;
    while true
      invariant Walk(mounts, dest, dest) == Walk(mounts, dir, dest)
      decreases |Segments(dir)|
    {
      for i := 0 to |mounts|
        invariant forall j :: 0 <= j < i ==> !Hits(mounts[j], dir, dest)
      {
        var rel := Rel(mounts[i].containerPath, dest);
        if rel.None? || rel.value == "" {
          continue;
        }
        if Clean(mounts[i].containerPath) == dir {
          assert Hits(mounts[i], dir, dest);
          return Some(i);
        }
      }
      DirShrinks(dir);
      dir := Dir(dir);
      if dir == "/" || dir == "." {
        return None;
      }
    }
  }

  method SubstFields(envs: seq<EnvVar>, fields: FieldMap)
    modifies fields`m
    ensures fields.m == map k | k in old(fields.m) :: Subst(envs, old(fields.m)[k])
  {
    var keys := fields.m.Keys;
    while keys != {}
      invariant fields.m.Keys == old(fields.m).Keys && keys <= fields.m.Keys
      invariant forall k :: k in fields.m ==>
                  fields.m[k] == if k in keys then old(fields.m)[k] else Subst(envs, old(fields.m)[k])
      decreases keys
    {
      var k :| k in keys;
      var v := ParseEnv(envs, fields.m[k]);
      fields.m := fields.m[k := v];
      keys := keys - {k};
    }
  }

  /** One turn of the loop over the log paths. */
  method LookUp(info: ContainerInfo, base: string, found: seq<Mount>, path: string)
    returns (newPath: string, more: seq<Mount>)
    ensures newPath == NewPath(info, path)
    ensures more == AddMount(info, base, found, path)
  {
    if path == STDOUT {
      return path, found + [Mount(base + Dir(info.logPath) + "/*.log", STDOUT, false)];
    }
    newPath := ParsePath(info.envs, path);
    more := found;
    var dest := ParsePath(info.envs, Dir(path));
    var hit := WalkUp(info.mounts, dest);
    if hit.Some? {
      WalkHits(info.mounts, dest, dest);
      var m := info.mounts[hit.value];
      var rel := Rel(m.containerPath, dest).value;
      var source := JoinPath([base, m.hostPath, rel]);
      if rel == "." {
        source := JoinPath([base, m.hostPath]);
      }
      if !Listed(found, dest, source) {
        more := found + [Mount(source, dest, false)];
      }
    } else if info.upperDir != "" {
      more := found + [Mount(base + info.upperDir + dest, dest, false)];
    }
  }

  method FindMount(info: ContainerInfo, logModel: LogModel, base: string) returns (found: seq<Mount>)
    modifies logModel.logPath, logModel.fields`m
    ensures found == MountsOf(info, base, old(logModel.logPath[..]))
    ensures logModel.logPath[..] == NewPaths(info, old(logModel.logPath[..]))
    ensures logModel.fields.m == NewFields(info, old(logModel.fields.m))
  {
    SubstFields(info.envs, logModel.fields);
    found := [];
    var paths := logModel.logPath;
    ghost var was := paths[..];
    for i := 0 to paths.Length
      invariant found == MountsOf(info, base, was[..i])
      invariant forall k :: 0 <= k < i ==> paths[k] == NewPath(info, was[k])
      invariant forall k :: i <= k < paths.Length ==> paths[k] == was[k]
      invariant logModel.fields.m == NewFields(info, old(logModel.fields.m))
    {
      assert was[..i + 1][..i] == was[..i];
      paths[i], found := LookUp(info, base, found, paths[i]);
    }
    assert was[..paths.Length] == was;
    assert paths[..] == NewPaths(info, was);
  }

  // ---- Deepest mount ----

  /** The mounts that can be chosen for a directory: "/" only for "/" itself. */
  predicate Candidate(m: ContainerMount, dest: string) {
    && IsAbs(m.containerPath)
    && Names(m.containerPath) <= Names(dest)
    && (Names(m.containerPath) == [] ==> Names(dest) == [])
  }

  /** From an ancestor of dest, the walk meets exactly the mounts at that ancestor. */
  lemma {:induction false} HitsAtAncestor(m: ContainerMount, dir: string, dest: string)
    requires IsAbs(dest) && Clean(dest) == dest && IsAbs(dir) && Clean(dir) == dir
    requires Names(dir) <= Names(dest)
    ensures Hits(m, dir, dest) <==> IsAbs(m.containerPath) && Names(m.containerPath) == Names(dir)
  {
    CleanEqual(m.containerPath, dir);
    if IsAbs(m.containerPath) && Names(m.containerPath) == Names(dir) {
      RelBelow(m.containerPath, dest);
    }
  }

  lemma {:induction false} CommonPrefixOfPrefix(a: seq<string>, b: seq<string>)
    requires a <= b
    ensures CommonPrefix(a, b) == |a|
  {
    if a != [] {
      CommonPrefixOfPrefix(a[1..], b[1..]);
    }
  }

  /** The relative path from a directory down to one at or below it. */
  lemma {:induction false} RelBelow(base: string, target: string)
    requires IsAbs(base) && IsAbs(target) && Names(base) <= Names(target)
    ensures Rel(base, target) ==
            Some(if Names(base) == Names(target) then "." else Join(Names(target)[|Names(base)|..], SLASH))
    ensures Rel(base, target).value != ""
  {
    var b, t := Names(base), Names(target);
    CleanEqual(base, target);
    CommonPrefixOfPrefix(b, t);
    assert seq(0, _ => "..") + t[|b|..] == t[|b|..];
    NamesAreProper(target);
    if b != t {
      assert t[|b|..][0] == t[|b|];
      assert t[|b|] != "";
    }
  }

  /**
   The walk chooses, among the mounts at an ancestor of the directory or at the directory itself,
   the first-listed one of the deepest; it finds none exactly when there is none.
   */
  lemma {:induction false} WalkIsDeepest(mounts: seq<ContainerMount>, dir: string, dest: string)
    requires IsAbs(dest) && Clean(dest) == dest && IsAbs(dir) && Clean(dir) == dir
    requires Names(dir) <= Names(dest) && (Names(dir) == [] ==> Names(dest) == [])
    requires forall j :: 0 <= j < |mounts| && Candidate(mounts[j], dest) ==>
               |Names(mounts[j].containerPath)| <= |Names(dir)|
    ensures var r := Walk(mounts, dir, dest);
            && (r.None? <==> forall j :: 0 <= j < |mounts| ==> !Candidate(mounts[j], dest))
            && (r.Some? ==>
                && Candidate(mounts[r.value], dest)
                && forall j :: 0 <= j < |mounts| && Candidate(mounts[j], dest) ==>
                     var mine, other := |Names(mounts[r.value].containerPath)|, |Names(mounts[j].containerPath)|;
                     other < mine || (other == mine && r.value <= j))
    decreases |Segments(dir)|
  {
    forall j | 0 <= j < |mounts|
      ensures Hits(mounts[j], dir, dest) <==>
              Candidate(mounts[j], dest) && |Names(mounts[j].containerPath)| == |Names(dir)|
    {
      HitsAtAncestor(mounts[j], dir, dest);
      if Candidate(mounts[j], dest) && |Names(mounts[j].containerPath)| == |Names(dir)| {
        assert Names(mounts[j].containerPath) == Names(dest)[..|Names(dir)|] == Names(dir);
      }
    }
    if FirstHit(mounts, dir, dest).None? {
      DirOfClean(dir);
      DirShrinks(dir);
      NamesOfSlash(Dir(dir));
      if Dir(dir) != "/" {
        assert IsAbs(Dir(dir)) && !IsAbs(".");
        WalkIsDeepest(mounts, Dir(dir), dest);
      }
    }
  }

  lemma {:induction false} NamesOfSlash(p: string)
    requires IsAbs(p) && Clean(p) == p
    ensures p == "/" <==> Names(p) == []
  {
    RenderReadBack(true, []);
    NamesAreProper(p);
    RenderReadBack(true, Names(p));
  }

  /** The deepest-mount rule for the directory FindMount starts from. */
  lemma {:induction false} DeepestMount(mounts: seq<ContainerMount>, dest: string)
    requires IsAbs(dest) && Clean(dest) == dest
    ensures var r := Walk(mounts, dest, dest);
            && (r.None? <==> forall j :: 0 <= j < |mounts| ==> !Candidate(mounts[j], dest))
            && (r.Some? ==>
                && Candidate(mounts[r.value], dest)
                && forall j :: 0 <= j < |mounts| && Candidate(mounts[j], dest) ==>
                     var mine, other := |Names(mounts[r.value].containerPath)|, |Names(mounts[j].containerPath)|;
                     other < mine || (other == mine && r.value <= j))
  {
    WalkIsDeepest(mounts, dest, dest);
  }

  /** A mount at "/" is passed over for every other directory. */
  lemma {:induction false} RootMountIsPassedOver(m: ContainerMount, dest: string)
    requires IsAbs(dest) && Clean(dest) == dest && dest != "/"
    requires Clean(m.containerPath) == "/"
    ensures Walk([m], dest, dest) == None
  {
    CleanIdempotent(m.containerPath);
    NamesOfSlash("/");
    NamesOfSlash(dest);
    DeepestMount([m], dest);
  }

  /** A mount is listed twice only for stdout or out of the writable layer. */
  lemma {:induction false} MountListedOnce(info: ContainerInfo, base: string, paths: seq<string>, i: int, j: int)
    requires 0 <= i < j < |MountsOf(info, base, paths)|
    requires MountsOf(info, base, paths)[i] == MountsOf(info, base, paths)[j]
    ensures var dest := MountsOf(info, base, paths)[i].destination;
            dest == STDOUT || Walk(info.mounts, dest, dest).None?
  {
    hide SourceOf, Destination, Walk;
    var init := MountsOf(info, base, paths[..|paths| - 1]);
    if j < |init| {
      MountListedOnce(info, base, paths[..|paths| - 1], i, j);
    } else {
      assert i < |init| && init[i] == MountsOf(info, base, paths)[i];
    }
  }

  lemma {:induction false} NonEmptyParts(base: string, host: string, rel: string)
    requires base + host != "" && rel != ""
    ensures NonEmpty([base, host]) != []
    ensures NonEmpty([base, host, rel]) == NonEmpty([base, host]) + [rel]
  {
    assert [base, host][1..] == [host] && [host][1..] == [];
    assert [base, host, rel][1..] == [host, rel] && [host, rel][1..] == [rel] && [rel][1..] == [];
    assert NonEmpty([]) == [];
    assert NonEmpty([rel]) == [rel];
    assert NonEmpty([host]) == if host == "" then [] else [host];
  }

  /** Below a mount, the source is the host directory of the mount followed by the same names. */
  lemma {:induction false} MountSourceNames(base: string, m: ContainerMount, dest: string)
    requires Candidate(m, dest) && IsAbs(dest)
    requires base + m.hostPath != ""
    ensures Rel(m.containerPath, dest).Some?
    ensures var host := JoinPath([base, m.hostPath]);
            && IsAbs(MountSource(base, m, dest)) == IsAbs(host)
            && Clean(MountSource(base, m, dest)) == MountSource(base, m, dest)
            && Names(MountSource(base, m, dest)) == Names(host) + Names(dest)[|Names(m.containerPath)|..]
  {
    RelBelow(m.containerPath, dest);
    var rest := Names(dest)[|Names(m.containerPath)|..];
    var kept := NonEmpty([base, m.hostPath]);
    var prefix := Join(kept, SLASH);
    CleanIdempotent(prefix);
    NonEmptyParts(base, m.hostPath, "x");
    if rest == [] {
      assert Names(dest) == Names(m.containerPath);
      assert MountSource(base, m, dest) == Clean(prefix);
    } else {
      NamesAreProper(dest);
      var rel := Join(rest, SLASH);
      NonEmptyParts(base, m.hostPath, rel);
      JoinAppend(kept, [rel], SLASH);
      var whole := prefix + [SLASH] + rel;
      assert rel != "." by {
        SplitJoin(rest, SLASH);
        SplitWhole(".", SLASH);
      }
      assert MountSource(base, m, dest) == Clean(whole);
      JoinedBelow(prefix, rest);
    }
  }

  /** Joining proper names below a nonempty path keeps its names and adds them. */
  lemma {:induction false} JoinedBelow(prefix: string, rest: seq<string>)
    requires prefix != "" && rest != [] && Proper(true, rest)
    ensures var whole := prefix + [SLASH] + Join(rest, SLASH);
            && IsAbs(Clean(whole)) == IsAbs(prefix)
            && Clean(Clean(whole)) == Clean(whole)
            && Names(Clean(whole)) == Names(prefix) + rest
  {
    var whole := prefix + [SLASH] + Join(rest, SLASH);
    SplitAppend(prefix, SLASH, Join(rest, SLASH));
    SplitJoin(rest, SLASH);
    NormAppend(IsAbs(whole), Segments(prefix), rest);
    CleanIdempotent(whole);
  }

  /** A directory has a source below the deepest mount, or else in the writable layer if there is one. */
  lemma {:induction false} SourceExactly(info: ContainerInfo, base: string, dest: string)
    requires IsAbs(dest) && Clean(dest) == dest
    ensures var mounted := exists j :: 0 <= j < |info.mounts| && Candidate(info.mounts[j], dest);
            && (SourceOf(info, base, dest).None? <==> !mounted && info.upperDir == "")
            && (!mounted && info.upperDir != "" ==> SourceOf(info, base, dest) == Some(base + info.upperDir + dest))
            && (mounted ==>
                  exists i :: 0 <= i < |info.mounts| && Candidate(info.mounts[i], dest) &&
                    Rel(info.mounts[i].containerPath, dest).Some? &&
                    SourceOf(info, base, dest) == Some(MountSource(base, info.mounts[i], dest)))
  {
    hide Rel, Clean, Names, MountSource;
    DeepestMount(info.mounts, dest);
    if Walk(info.mounts, dest, dest).Some? {
      WalkHits(info.mounts, dest, dest);
    }
  }

  // ---- What FindMount leaves of paths and fields ----

  /** Each field keeps its name, and its value is substituted if it is a reference to a variable. */
  lemma {:induction false} FieldsExactly(info: ContainerInfo, fields: map<string, string>, k: string)
    requires k in fields
    ensures NewFields(info, fields).Keys == fields.Keys
    ensures forall i :: RefersTo(info.envs, fields[k], i) ==> NewFields(info, fields)[k] == info.envs[i].value
    ensures (forall i :: !RefersTo(info.envs, fields[k], i)) ==> NewFields(info, fields)[k] == fields[k]
  {
    hide Subst, RefersTo;
    SubstExactly(info.envs, fields[k]);
  }

  /** The word stdout stays, and every other path is substituted segment by segment. */
  lemma {:induction false} PathsExactly(info: ContainerInfo, paths: seq<string>, k: int, parts: seq<string>,
                                        values: seq<string>)
    requires 0 <= k < |paths| && parts != [] && Free(parts, SLASH) && paths[k] == Join(parts, SLASH)
    requires |values| == |parts| && forall i :: 0 <= i < |parts| ==> values[i] == Subst(info.envs, parts[i])
    ensures |NewPaths(info, paths)| == |paths|
    ensures NewPaths(info, paths)[k] == if paths[k] == "stdout" then "stdout" else Join(values, SLASH)
  {
    hide Subst, Join;
    SubstPathExactly(info.envs, parts, values);
  }

  /** The source of stdout: every log file of the directory of the container's log file. */
  lemma {:induction false} StdoutExactly(info: ContainerInfo, base: string)
    ensures var m := StdoutMount(info, base);
            && m.source == base + Dir(info.logPath) + "/*.log" && m.destination == "stdout" && !m.isPVC
    ensures MountsOf(info, base, ["stdout"]) == [StdoutMount(info, base)]
  {
    hide Dir;
    assert ["stdout"][..0] == [];
    assert MountsOf(info, base, []) == [];
  }
}
