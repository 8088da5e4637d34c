/**
 The claims of a pod, and the log paths of one container from end to end: getPVCPath, setIfPVC, and
 which files are listed under which host directory for the paths that FindMount and NewConfig treat.
 */
module LogPipeline {
  import opened Wrappers
  import opened Strings
  import opened Paths
  import opened Env
  import opened Mounts
  import opened Filebeat
  import opened Rules

  // ---- Persistent volume claims ----

  predicate ClaimVolume(pod: Pod, name: string) {
    exists v | v in pod.volumes :: v.name == name && v.claimName.Some? && v.claimName.value != ""
  }

  /** Where containers of that name mount a claim. */
  function ClaimPaths(pod: Pod, container: string): set<string> {
    set c, m | c in pod.containers && m in c.volumeMounts && c.name == container && ClaimVolume(pod, m.name) ::
      m.mountPath
  }

  function AsSet(s: seq<string>): set<string> {
    set p | p in s
  }

  method GetPVCPath(pod: Pod, container: string) returns (paths: seq<string>)
    ensures AsSet(paths) == ClaimPaths(pod, container)
  {
    var pvc: set<string> := {};
    for i := 0 to |pod.volumes|
      invariant forall n :: n in pvc <==>
                  exists v :: v in pod.volumes[..i] && v.name == n && v.claimName.Some? && v.claimName.value != ""
    {
      var v := pod.volumes[i];
      if v.claimName.Some? && v.claimName.value != "" {
        pvc := pvc + {v.name};
      }
    }
    assert pod.volumes[..|pod.volumes|] == pod.volumes;
    assert forall n :: n in pvc <==> ClaimVolume(pod, n);
    paths := [];
    for i := 0 to |pod.containers|
      invariant forall p :: p in paths <==>
                  exists c :: c in pod.containers[..i] && c.name == container &&
                    exists m :: m in c.volumeMounts && m.mountPath == p && m.name in pvc
    {
      var c := pod.containers[i];
      if c.name != container {
        continue;
      }
      ghost var before := paths;
      for j := 0 to |c.volumeMounts|
        invariant forall p :: p in paths <==>
                    p in before || exists m :: m in c.volumeMounts[..j] && m.mountPath == p && m.name in pvc
      {
        if c.volumeMounts[j].name in pvc {
          paths := paths + [c.volumeMounts[j].mountPath];
        }
      }
      assert c.volumeMounts[..|c.volumeMounts|] == c.volumeMounts;
    }
    assert pod.containers[..|pod.containers|] == pod.containers;
  }

  /** setIfPVC's test: the relative path does not start with two dots. */
  predicate Under(claim: string, dest: string) {
    Rel(claim, dest).Some? && !(".." <= Rel(claim, dest).value)
  }

  predicate OnAClaim(dest: string, claims: set<string>) {
    exists c | c in claims :: Under(c, dest)
  }

  function Mark(m: Mount, claims: set<string>): Mount {
    if OnAClaim(m.destination, claims) then m.(isPVC := true) else m
  }

  function MarkAll(mounts: seq<Mount>, claims: set<string>): (r: seq<Mount>)
    ensures |r| == |mounts|
  {
    seq(|mounts|, i requires 0 <= i < |mounts| => Mark(mounts[i], claims))
  }

  lemma {:induction false} MarkNone(m: Mount)
    ensures Mark(m, AsSet([])) == m
  {
  }

  lemma {:induction false} MarkNext(m: Mount, claims: seq<string>, j: nat)
    requires j < |claims|
    ensures var before := Mark(m, AsSet(claims[..j]));
            before.destination == m.destination &&
            Mark(m, AsSet(claims[..j + 1])) ==
            if Rel(claims[j], m.destination).Some? && !(".." <= Rel(claims[j], m.destination).value)
            then before.(isPVC := true) else before
  {
    hide Rel;
    assert claims[..j + 1] == claims[..j] + [claims[j]];
    assert Under(claims[j], m.destination) ==> OnAClaim(m.destination, AsSet(claims[..j + 1]));
  }

  method SetIfPVC(mountPoint: array<Mount>, pvcPath: seq<string>)
    modifies mountPoint
    ensures mountPoint[..] == MarkAll(old(mountPoint[..]), AsSet(pvcPath))
  {
    hide Mark, Rel, Under;
    ghost var was := mountPoint[..];
    ghost var claims := AsSet(pvcPath);
    for i := 0 to mountPoint.Length
      invariant forall k :: 0 <= k < i ==> mountPoint[k] == Mark(was[k], claims)
      invariant forall k :: i <= k < mountPoint.Length ==> mountPoint[k] == was[k]
    {
      MarkNone(was[i]);
      assert pvcPath[..0] == [];
      for j := 0 to |pvcPath|
        invariant forall k :: 0 <= k < i ==> mountPoint[k] == Mark(was[k], claims)
        invariant forall k :: i < k < mountPoint.Length ==> mountPoint[k] == was[k]
        invariant mountPoint[i] == Mark(was[i], AsSet(pvcPath[..j]))
      {
        MarkNext(was[i], pvcPath, j);
        var rel := Rel(pvcPath[j], mountPoint[i].destination);
        if rel.None? || ".." <= rel.value {
          continue;
        }
        mountPoint[i] := mountPoint[i].(isPVC := true);
      }
      assert pvcPath[..|pvcPath|] == pvcPath;
    }
    assert mountPoint[..] == MarkAll(was, claims);
  }

  lemma {:induction false} NotAPrefix(a: seq<string>, b: seq<string>)
    ensures CommonPrefix(a, b) == |a| <==> a <= b
  {
    if a != [] && b != [] && a[0] == b[0] {
      NotAPrefix(a[1..], b[1..]);
      assert a == [a[0]] + a[1..] && b == [b[0]] + b[1..];
    }
  }

  lemma {:induction false} JoinStarts(parts: seq<string>, more: seq<string>)
    requires parts != []
    ensures parts[0] <= Join(parts + more, SLASH)
    ensures |parts + more| > 1 ==> parts[0] + [SLASH] <= Join(parts + more, SLASH)
  {
  }

  /** At or below a claim, but not under a name right below it that begins with two dots. */
  predicate AtOrBelow(claim: string, dest: string) {
    && Names(claim) <= Names(dest)
    && (|Names(claim)| < |Names(dest)| ==> !(".." <= Names(dest)[|Names(claim)|]))
  }

  /**
   On absolute paths, setIfPVC accepts exactly the directories at or below the claim, except those
   whose first name below it begins with two dots.
   */
  lemma {:induction false} UnderExactly(claim: string, dest: string)
    requires IsAbs(claim) && IsAbs(dest)
    ensures Under(claim, dest) <==> AtOrBelow(claim, dest)
  {
    var c, d := Names(claim), Names(dest);
    CleanEqual(claim, dest);
    NamesAreProper(claim);
    NamesAreProper(dest);
    NotAPrefix(c, d);
    if c <= d {
      RelBelow(claim, dest);
      if c != d {
        var rest := d[|c|..];
        assert rest[0] == d[|c|] && Proper(true, rest);
        JoinStarts(rest, []);
        assert rest + [] == rest;
        var joined := Join(rest, SLASH);
        if |rest[0]| == 1 {
          assert |rest| > 1 ==> joined[1] == SLASH;
        } else {
          assert joined[..2] == rest[0][..2];
        }
      }
    } else {
      var n := CommonPrefix(c, d);
      var up := seq(|c| - n, _ => "..");
      JoinStarts(up, d[n..]);
    }
  }

  /** A directory below a claim that setIfPVC takes for one outside it: /data/..logs below /data. */
  lemma {:induction false} DottedNameEscapes(claim: string, name: string)
    requires IsAbs(claim) && ".." < name && SLASH !in name
    ensures var dest := Render(true, Names(claim) + [name]);
            IsAbs(dest) && Names(claim) < Names(dest) && !Under(claim, dest)
  {
    hide Under;
    NamesAreProper(claim);
    var dest := Render(true, Names(claim) + [name]);
    RenderReadBack(true, Names(claim) + [name]);
    UnderExactly(claim, dest);
  }

  // ---- Key agreement and the translated paths ----

  /** The two computations of the directory give the same string. */
  predicate KeyAgrees(info: ContainerInfo, path: string) {
    Dir(SubstPath(info.envs, path)) == Destination(info, path)
  }

  /** Every log path is stdout or has an absolute directory that is looked up successfully. */
  ghost predicate AllAgree(info: ContainerInfo, paths: seq<string>) {
    forall i :: 0 <= i < |paths| && paths[i] != STDOUT ==>
      KeyAgrees(info, paths[i]) && IsAbs(Destination(info, paths[i]))
  }

  /** The mounts found, as a set: one for stdout, one for each directory with a source. */
  predicate FoundFor(info: ContainerInfo, base: string, path: string, m: Mount) {
    if path == STDOUT then m == StdoutMount(info, base)
    else
      var dest := Destination(info, path);
      SourceOf(info, base, dest).Some? && m == Mount(SourceOf(info, base, dest).value, dest, false)
  }

  lemma {:induction false} MountsOfExactly(info: ContainerInfo, base: string, paths: seq<string>)
    ensures forall m :: m in MountsOf(info, base, paths) ==>
              exists k :: 0 <= k < |paths| && FoundFor(info, base, paths[k], m)
    ensures forall k, m :: 0 <= k < |paths| && FoundFor(info, base, paths[k], m) ==> m in MountsOf(info, base, paths)
  {
    if paths != [] {
      var init := paths[..|paths| - 1];
      MountsOfExactly(info, base, init);
      assert forall k :: 0 <= k < |init| ==> init[k] == paths[k];
      AddMountExactly(info, base, MountsOf(info, base, init), paths[|paths| - 1]);
    }
  }

  lemma {:induction false} AddMountExactly(info: ContainerInfo, base: string, found: seq<Mount>, path: string)
    requires forall m :: m in found ==> !m.isPVC
    ensures forall m :: m in AddMount(info, base, found, path) <==> m in found || FoundFor(info, base, path, m)
    ensures forall m :: m in AddMount(info, base, found, path) ==> !m.isPVC
  {
  }

  // ---- End to end ----

  lemma {:induction false} FilesUnderAgreement(info: ContainerInfo, paths: seq<string>, dest: string)
    requires AllAgree(info, paths) && IsAbs(dest)
    ensures forall k :: 0 <= k < |paths| && paths[k] != STDOUT && Destination(info, paths[k]) == dest ==>
              LogFile(SubstPath(info.envs, paths[k])) in FilesUnder(NewPaths(info, paths), dest)
    ensures forall f :: f in FilesUnder(NewPaths(info, paths), dest) ==>
              exists k :: 0 <= k < |paths| && paths[k] != STDOUT && Destination(info, paths[k]) == dest &&
                LogFile(SubstPath(info.envs, paths[k])) == f
  {
    var after := NewPaths(info, paths);
    forall k | 0 <= k < |paths| && paths[k] != STDOUT && Destination(info, paths[k]) == dest
      ensures LogFile(SubstPath(info.envs, paths[k])) in FilesUnder(after, dest)
    {
      assert KeyAgrees(info, paths[k]);
      FilesUnderMember(after, k);
    }
    FilesUnderOrigin(after, dest);
    forall f | f in FilesUnder(after, dest)
      ensures exists k :: 0 <= k < |paths| && paths[k] != STDOUT && Destination(info, paths[k]) == dest &&
                LogFile(SubstPath(info.envs, paths[k])) == f
    {
      var k :| 0 <= k < |after| && Dir(after[k]) == dest && LogFile(after[k]) == f;
      if paths[k] == STDOUT {
        DirIsClean(STDOUT);
        assert false;
      }
      assert KeyAgrees(info, paths[k]);
    }
  }

  lemma {:induction false} OriginOf(info: ContainerInfo, base: string, paths: seq<string>, m: Mount) returns (k: nat)
    requires m in MountsOf(info, base, paths)
    ensures k < |paths| && FoundFor(info, base, paths[k], m)
  {
    MountsOfExactly(info, base, paths);
    k :| 0 <= k < |paths| && FoundFor(info, base, paths[k], m);
  }

  /** No two directories share a source, the directory of the stdout files included. */
  ghost predicate DistinctSources(mounts: seq<Mount>) {
    forall m, n | m in mounts && n in mounts :: HostKey(m) == HostKey(n) ==> m.destination == n.destination
  }

  /** No directory is taken for stdout. */
  ghost predicate RealDirectories(info: ContainerInfo, paths: seq<string>) {
    forall i :: 0 <= i < |paths| && paths[i] != STDOUT ==> Destination(info, paths[i]) != STDOUT
  }

  lemma {:induction false} DistinctIsConsistent(info: ContainerInfo, base: string, paths: seq<string>)
    requires RealDirectories(info, paths) && DistinctSources(MountsOf(info, base, paths))
    ensures Consistent(NewPaths(info, paths), MountsOf(info, base, paths))
  {
    hide Destination, SourceOf, FilesUnder, MountsOf;
    var found := MountsOf(info, base, paths);
    forall m, n | m in found && n in found && HostKey(m) == HostKey(n)
      ensures HostFiles(NewPaths(info, paths), m) == HostFiles(NewPaths(info, paths), n)
    {
      var k := OriginOf(info, base, paths, m);
      var l := OriginOf(info, base, paths, n);
      assert m.destination == n.destination;
    }
  }

  lemma {:induction false} EndToEndConsistent(info: ContainerInfo, base: string, paths: seq<string>)
    requires AllAgree(info, paths) && DistinctSources(MountsOf(info, base, paths))
    ensures Consistent(NewPaths(info, paths), MountsOf(info, base, paths))
  {
    assert !IsAbs(STDOUT);
    DistinctIsConsistent(info, base, paths);
  }

  /**
   What is listed, with or without agreement and collisions: the files of the last mount found that lists
   any under the host directory.  The claim marks of setIfPVC do not matter here.
   */
  lemma {:induction false} ListedExactly(info: ContainerInfo, base: string, paths: seq<string>, claims: set<string>,
                                         d: string, f: string)
    ensures var found, after := MountsOf(info, base, paths), NewPaths(info, paths);
            var host := HostDirs(after, MarkAll(found, claims));
            d in host && f in host[d] <==>
            exists i :: LastFor(after, found, i, d) && f in HostFiles(after, found[i])
  {
    hide MountsOf, LastFor, HostDirs, HostFiles;
    var found, after := MountsOf(info, base, paths), NewPaths(info, paths);
    HostDirsUnmarked(after, found, MarkAll(found, claims));
    HostDirsExactly(after, found, d, f);
  }

  /** Without collisions of host directories, the files of the mount found for any path are listed. */
  lemma {:induction false} ListedWithoutCollisions(info: ContainerInfo, base: string, paths: seq<string>,
                                                   claims: set<string>, d: string, f: string)
    requires Consistent(NewPaths(info, paths), MountsOf(info, base, paths))
    ensures var after := NewPaths(info, paths);
            var host := HostDirs(after, MarkAll(MountsOf(info, base, paths), claims));
            d in host && f in host[d] <==> exists k, m :: ListsAs(info, base, paths, k, m, d, f)
  {
    hide MountsOf, FilesUnder, HostDirs, FoundFor, Consistent;
    var found, after := MountsOf(info, base, paths), NewPaths(info, paths);
    var host := HostDirs(after, MarkAll(found, claims));
    HostDirsUnmarked(after, found, MarkAll(found, claims));
    HostDirsHold(after, found);
    MountsOfExactly(info, base, paths);
    if d in host && f in host[d] {
      var m :| m in found && Contributes(after, m) && HostKey(m) == d;
      var k :| 0 <= k < |paths| && FoundFor(info, base, paths[k], m);
      assert ListsAs(info, base, paths, k, m, d, f);
    }
    if k, m :| ListsAs(info, base, paths, k, m, d, f) {
      assert m in found && Contributes(after, m);
    }
  }

  /** The mount found for path k is for host directory d, and file f is among its files. */
  ghost predicate ListsAs(info: ContainerInfo, base: string, paths: seq<string>, k: int, m: Mount, d: string,
                          f: string) {
    0 <= k < |paths| && FoundFor(info, base, paths[k], m) && HostKey(m) == d && f in HostFiles(NewPaths(info, paths), m)
  }

  /** What one path contributes to the host directories. */
  lemma {:induction false} PathIsListed(info: ContainerInfo, base: string, paths: seq<string>, claims: set<string>,
                                        k: int, m: Mount)
    requires AllAgree(info, paths) && DistinctSources(MountsOf(info, base, paths))
    requires 0 <= k < |paths| && FoundFor(info, base, paths[k], m)
    ensures var host := HostDirs(NewPaths(info, paths), MarkAll(MountsOf(info, base, paths), claims));
            && HostKey(m) in host
            && (paths[k] == STDOUT ==> host[HostKey(m)] == [Base(m.source) + "*"])
            && (paths[k] != STDOUT ==>
                  && HostKey(m) == m.source
                  && host[m.source] == FilesUnder(NewPaths(info, paths), m.destination)
                  && LogFile(SubstPath(info.envs, paths[k])) in host[m.source])
  {
    var found := MountsOf(info, base, paths);
    var after := NewPaths(info, paths);
    assert m in found by {
      MountsOfExactly(info, base, paths);
    }
    if paths[k] != STDOUT {
      FilesUnderAgreement(info, paths, m.destination);
      assert !IsAbs(STDOUT);
    }
    HostDirsUnmarked(after, found, MarkAll(found, claims));
    EndToEndConsistent(info, base, paths);
    HostDirsHold(after, found);
  }

  /** Every host directory is that of the mount found for some path. */
  lemma {:induction false} NothingElse(info: ContainerInfo, base: string, paths: seq<string>, claims: set<string>,
                                       d: string)
    returns (k: nat, m: Mount)
    requires d in HostDirs(NewPaths(info, paths), MarkAll(MountsOf(info, base, paths), claims))
    ensures k < |paths| && FoundFor(info, base, paths[k], m) && HostKey(m) == d
  {
    hide MountsOf, HostDirs, FoundFor, Contributes;
    var found, after := MountsOf(info, base, paths), NewPaths(info, paths);
    HostDirsUnmarked(after, found, MarkAll(found, claims));
    var i := SomeMountIsLast(after, found, d);
    m := found[i];
    k := OriginOf(info, base, paths, m);
  }

  /** The directory and file pattern that one log path with a source should give. */
  ghost predicate Wanted(info: ContainerInfo, base: string, paths: seq<string>, k: int, m: Mount, d: string,
                         f: string) {
    && 0 <= k < |paths| && FoundFor(info, base, paths[k], m)
    && d == (if paths[k] == STDOUT then Dir(m.source) else m.source)
    && f == if paths[k] == STDOUT then Base(m.source) + "*" else LogFile(SubstPath(info.envs, paths[k]))
  }

  /**
   The files listed in the host directories are exactly those wanted by a log path that has a
   source.  The claim marks of setIfPVC do not matter here.
   */
  lemma {:induction false} EndToEnd(info: ContainerInfo, base: string, paths: seq<string>, claims: set<string>,
                                    d: string, f: string)
    requires AllAgree(info, paths) && DistinctSources(MountsOf(info, base, paths))
    ensures var host := HostDirs(NewPaths(info, paths), MarkAll(MountsOf(info, base, paths), claims));
            d in host && f in host[d] <==> exists k, m :: Wanted(info, base, paths, k, m, d, f)
  {
    hide MountsOf, FilesUnder, HostDirs, Consistent, Dir, LogFile, SourceOf, Destination, IsAbs, KeyAgrees;
    EndToEndConsistent(info, base, paths);
    ListedWithoutCollisions(info, base, paths, claims, d, f);
    if k, m :| Wanted(info, base, paths, k, m, d, f) {
      WantedIsListed(info, base, paths, k, m, d, f);
    }
    if k, m :| ListsAs(info, base, paths, k, m, d, f) {
      var l := ListedIsWanted(info, base, paths, k, m, d, f);
    }
  }

  lemma {:induction false} WantedIsListed(info: ContainerInfo, base: string, paths: seq<string>, k: int, m: Mount,
                                          d: string, f: string)
    requires AllAgree(info, paths) && Wanted(info, base, paths, k, m, d, f)
    ensures ListsAs(info, base, paths, k, m, d, f)
  {
    hide FilesUnder, Dir, LogFile, SourceOf, Destination, KeyAgrees;
    assert !IsAbs(STDOUT);
    if paths[k] != STDOUT {
      FilesUnderAgreement(info, paths, m.destination);
    }
  }

  lemma {:induction false} ListedIsWanted(info: ContainerInfo, base: string, paths: seq<string>, k: int, m: Mount,
                                          d: string, f: string)
    returns (l: nat)
    requires AllAgree(info, paths) && ListsAs(info, base, paths, k, m, d, f)
    ensures Wanted(info, base, paths, l, m, d, f)
  {
    hide FilesUnder, Dir, LogFile, SourceOf, Destination, KeyAgrees;
    assert !IsAbs(STDOUT);
    l := k;
    if paths[k] != STDOUT {
      FilesUnderAgreement(info, paths, m.destination);
      l :| 0 <= l < |paths| && paths[l] != STDOUT && Destination(info, paths[l]) == m.destination &&
        LogFile(SubstPath(info.envs, paths[l])) == f;
    }
  }

  /**
   The source of a path below a mount: the host directory of the deepest mount above the path's
   directory, followed by the names that lead from the mount to the directory.
   */
  lemma {:induction false} PathTranslation(info: ContainerInfo, base: string, path: string, i: int)
    requires KeyAgrees(info, path) && IsAbs(Destination(info, path))
    requires Walk(info.mounts, Destination(info, path), Destination(info, path)) == Some(i)
    requires base + info.mounts[i].hostPath != ""
    ensures var m, dir := info.mounts[i], Dir(SubstPath(info.envs, path));
            var source := SourceOf(info, base, Destination(info, path)).value;
            && Candidate(m, dir)
            && Names(dir) == Names(m.containerPath) + Names(dir)[|Names(m.containerPath)|..]
            && Clean(source) == source
            && IsAbs(source) == IsAbs(JoinPath([base, m.hostPath]))
            && Names(source) == Names(JoinPath([base, m.hostPath])) + Names(dir)[|Names(m.containerPath)|..]
  {
    var dest := Destination(info, path);
    DirIsClean(SubstPath(info.envs, path));
    DeepestMount(info.mounts, dest);
    MountSourceNames(base, info.mounts[i], dest);
  }

  /** The directory looked up for path k has a source at or below claim c, and path l has it for its parent. */
  ghost predicate Protects(info: ContainerInfo, base: string, paths: seq<string>, k: int, l: int, c: string) {
    && 0 <= k < |paths| && 0 <= l < |paths| && paths[k] != STDOUT
    && SourceOf(info, base, Destination(info, paths[k])).Some?
    && AtOrBelow(c, Destination(info, paths[k]))
    && Dir(NewPath(info, paths[l])) == Destination(info, paths[k])
  }

  /**
   clean_removed is switched off exactly when a directory with a source, looked up for one path and
   found again by the parent of one, is at or below a claim of the container.
   */
  lemma {:induction false} ClaimProtectionExactly(info: ContainerInfo, base: string, paths: seq<string>,
                                                  claims: set<string>)
    requires forall i :: 0 <= i < |paths| && paths[i] != STDOUT ==> IsAbs(Destination(info, paths[i]))
    requires forall c :: c in claims ==> IsAbs(c)
    ensures AnyOnClaim(NewPaths(info, paths), MarkAll(MountsOf(info, base, paths), claims)) <==>
            exists k, l, c :: c in claims && Protects(info, base, paths, k, l, c)
  {
    if AnyOnClaim(NewPaths(info, paths), MarkAll(MountsOf(info, base, paths), claims)) {
      var k, l, c := ClaimOrigin(info, base, paths, claims);
    }
    if k, l, c :| c in claims && Protects(info, base, paths, k, l, c) {
      ProtectsMarks(info, base, paths, claims, k, l, c);
    }
  }

  lemma {:induction false} ClaimOrigin(info: ContainerInfo, base: string, paths: seq<string>, claims: set<string>)
    returns (k: nat, l: nat, c: string)
    requires forall i :: 0 <= i < |paths| && paths[i] != STDOUT ==> IsAbs(Destination(info, paths[i]))
    requires forall c :: c in claims ==> IsAbs(c)
    requires AnyOnClaim(NewPaths(info, paths), MarkAll(MountsOf(info, base, paths), claims))
    ensures c in claims && Protects(info, base, paths, k, l, c)
  {
    hide Under, MountsOf, SourceOf, Destination, FilesUnder, IsAbs, AtOrBelow, Dir, LogFile;
    var found, after := MountsOf(info, base, paths), NewPaths(info, paths);
    MountsOfExactly(info, base, paths);
    var i :| 0 <= i < |found| && OnClaim(after, MarkAll(found, claims)[i]);
    var dest := found[i].destination;
    assert found[i] in found;
    k :| 0 <= k < |paths| && FoundFor(info, base, paths[k], found[i]);
    assert !found[i].isPVC;
    c :| c in claims && Under(c, dest);
    UnderExactly(c, dest);
    var f := FilesUnder(after, dest)[0];
    FilesUnderExactly(after, dest, f);
    l :| 0 <= l < |after| && Dir(after[l]) == dest && LogFile(after[l]) == f;
  }

  lemma {:induction false} ProtectsMarks(info: ContainerInfo, base: string, paths: seq<string>, claims: set<string>,
                                         k: int, l: int, c: string)
    requires c in claims && Protects(info, base, paths, k, l, c)
    requires IsAbs(Destination(info, paths[k])) && IsAbs(c)
    ensures AnyOnClaim(NewPaths(info, paths), MarkAll(MountsOf(info, base, paths), claims))
  {
    hide Under, MountsOf, SourceOf, Destination, FilesUnder, AtOrBelow, Dir, LogFile;
    var found, after := MountsOf(info, base, paths), NewPaths(info, paths);
    var dest := Destination(info, paths[k]);
    var m := Mount(SourceOf(info, base, dest).value, dest, false);
    MountsOfExactly(info, base, paths);
    assert FoundFor(info, base, paths[k], m) && m in found;
    var i :| 0 <= i < |found| && found[i] == m;
    UnderExactly(c, dest);
    FilesUnderExactly(after, dest, LogFile(after[l]));
    assert OnClaim(after, MarkAll(found, claims)[i]);
  }

  /**
   When the two computations agree for every path, that is exactly when a looked-up directory with a
   source is at or below a claim.
   */
  lemma {:induction false} ClaimProtection(info: ContainerInfo, base: string, paths: seq<string>, claims: set<string>)
    requires AllAgree(info, paths)
    requires forall c :: c in claims ==> IsAbs(c)
    ensures AnyOnClaim(NewPaths(info, paths), MarkAll(MountsOf(info, base, paths), claims)) <==>
            exists k, c :: 0 <= k < |paths| && paths[k] != STDOUT && c in claims &&
              SourceOf(info, base, Destination(info, paths[k])).Some? && AtOrBelow(c, Destination(info, paths[k]))
  {
    hide MountsOf, SourceOf, Destination, AtOrBelow, AnyOnClaim, Dir, IsAbs;
    ClaimProtectionExactly(info, base, paths, claims);
    forall k, c | 0 <= k < |paths| && paths[k] != STDOUT && c in claims &&
      SourceOf(info, base, Destination(info, paths[k])).Some? && AtOrBelow(c, Destination(info, paths[k]))
      ensures Protects(info, base, paths, k, k, c)
    {
      assert KeyAgrees(info, paths[k]);
    }
  }

  /** The mount lists the file that log path k stands for: as a file of stdout, or by the parent of some path. */
  ghost predicate Keeps(after: seq<string>, m: Mount, k: int) {
    0 <= k < |after| &&
    if m.destination == STDOUT then LogFile(after[k]) == Base(m.source) + "*"
    else exists l :: 0 <= l < |after| && Dir(after[l]) == m.destination && LogFile(after[l]) == LogFile(after[k])
  }

  /** The file name of path k is listed under the source of the directory looked up for it. */
  ghost predicate IsListed(info: ContainerInfo, base: string, paths: seq<string>, claims: set<string>, k: int)
    requires 0 <= k < |paths| && SourceOf(info, base, Destination(info, paths[k])).Some?
  {
    var source := SourceOf(info, base, Destination(info, paths[k])).value;
    var host := HostDirs(NewPaths(info, paths), MarkAll(MountsOf(info, base, paths), claims));
    source in host && LogFile(NewPath(info, paths[k])) in host[source]
  }

  /**
   A log path with a source is listed under it exactly when the last mount found that lists files there
   keeps its file: for every container, and for every list of paths.
   */
  lemma {:induction false} DroppedUnlessKept(info: ContainerInfo, base: string, paths: seq<string>,
                                             claims: set<string>, k: int)
    requires 0 <= k < |paths| && SourceOf(info, base, Destination(info, paths[k])).Some?
    ensures var found, after := MountsOf(info, base, paths), NewPaths(info, paths);
            var source := SourceOf(info, base, Destination(info, paths[k])).value;
            IsListed(info, base, paths, claims, k) <==>
            exists i :: LastFor(after, found, i, source) && Keeps(after, found[i], k)
  {
    hide MountsOf, FilesUnder, HostDirs, Dir, LogFile, SourceOf, Destination, Base, Contributes;
    var found, after := MountsOf(info, base, paths), NewPaths(info, paths);
    var source := SourceOf(info, base, Destination(info, paths[k])).value;
    var f := LogFile(after[k]);
    ListedExactly(info, base, paths, claims, source, f);
    forall i | LastFor(after, found, i, source)
      ensures f in HostFiles(after, found[i]) <==> Keeps(after, found[i], k)
    {
      FilesUnderExactly(after, found[i].destination, f);
    }
  }

  /** Path j has the source of path k, and the parent and file name that keep the file of path k come from path l. */
  ghost predicate Rescues(info: ContainerInfo, base: string, paths: seq<string>, j: int, l: int, k: int)
    requires 0 <= k < |paths|
  {
    && 0 <= j < |paths| && 0 <= l < |paths| && paths[j] != STDOUT
    && SourceOf(info, base, Destination(info, paths[j])) == SourceOf(info, base, Destination(info, paths[k]))
    && Dir(NewPath(info, paths[l])) == Destination(info, paths[j])
    && LogFile(NewPath(info, paths[l])) == LogFile(NewPath(info, paths[k]))
  }

  /**
   Without collisions and apart from the directory of stdout, that is exactly when some log path with the
   same source has a directory that is found again by a path with the same file name.
   */
  lemma {:induction false} DroppedUnlessRescued(info: ContainerInfo, base: string, paths: seq<string>,
                                                claims: set<string>, k: int)
    requires RealDirectories(info, paths) && Consistent(NewPaths(info, paths), MountsOf(info, base, paths))
    requires 0 <= k < |paths| && paths[k] != STDOUT && SourceOf(info, base, Destination(info, paths[k])).Some?
    requires SourceOf(info, base, Destination(info, paths[k])).value != HostKey(StdoutMount(info, base))
    ensures IsListed(info, base, paths, claims, k) <==> exists j, l :: Rescues(info, base, paths, j, l, k)
  {
    hide MountsOf, FilesUnder, HostDirs, Consistent, Dir, LogFile, SourceOf, Destination;
    var after := NewPaths(info, paths);
    var source := SourceOf(info, base, Destination(info, paths[k])).value;
    var f := LogFile(after[k]);
    ListedWithoutCollisions(info, base, paths, claims, source, f);
    if j, m :| ListsAs(info, base, paths, j, m, source, f) {
      FilesUnderExactly(after, m.destination, f);
      var l :| 0 <= l < |after| && Dir(after[l]) == m.destination && LogFile(after[l]) == f;
      assert Rescues(info, base, paths, j, l, k);
    }
    if j, l :| Rescues(info, base, paths, j, l, k) {
      var dest := Destination(info, paths[j]);
      FilesUnderExactly(after, dest, f);
      assert after[l] == NewPath(info, paths[l]) && f in FilesUnder(after, dest);
      assert dest != STDOUT && FoundFor(info, base, paths[j], Mount(source, dest, false));
      assert ListsAs(info, base, paths, j, Mount(source, dest, false), source, f);
    }
  }

  /** With a source of its own for each directory, only its own directory can be found again for it. */
  lemma {:induction false} DroppedUnlessAgreed(info: ContainerInfo, base: string, paths: seq<string>,
                                               claims: set<string>, k: int)
    requires RealDirectories(info, paths) && DistinctSources(MountsOf(info, base, paths))
    requires 0 <= k < |paths| && paths[k] != STDOUT && SourceOf(info, base, Destination(info, paths[k])).Some?
    ensures IsListed(info, base, paths, claims, k) <==>
            exists l :: Rescues(info, base, paths, k, l, k)
    ensures KeyAgrees(info, paths[k]) <==> Rescues(info, base, paths, k, k, k)
  {
    hide MountsOf, FilesUnder, HostDirs, Consistent, Dir, LogFile, SourceOf, Destination;
    var dest, after := Destination(info, paths[k]), NewPaths(info, paths);
    var m := Mount(SourceOf(info, base, dest).value, dest, false);
    var f := LogFile(after[k]);
    DistinctIsConsistent(info, base, paths);
    ListedWithoutCollisions(info, base, paths, claims, m.source, f);
    MountsOfExactly(info, base, paths);
    assert FoundFor(info, base, paths[k], m);
    if k', m' :| ListsAs(info, base, paths, k', m', m.source, f) {
      assert m' in MountsOf(info, base, paths) && HostKey(m') == HostKey(m);
      assert f in FilesUnder(after, dest);
    }
    if f in FilesUnder(after, dest) {
      assert ListsAs(info, base, paths, k, m, m.source, f);
    }
    FilesUnderExactly(after, dest, f);
    if l :| 0 <= l < |after| && Dir(after[l]) == dest && LogFile(after[l]) == f {
      assert Rescues(info, base, paths, k, l, k);
    }
    if l :| Rescues(info, base, paths, k, l, k) {
      assert after[l] == NewPath(info, paths[l]);
    }
  }

  lemma {:induction false} FilesUnderExactly(paths: seq<string>, dir: string, f: string)
    ensures f in FilesUnder(paths, dir) <==>
            exists l :: 0 <= l < |paths| && Dir(paths[l]) == dir && LogFile(paths[l]) == f
  {
    hide FilesUnder, Dir, LogFile;
    FilesUnderOrigin(paths, dir);
    if l :| 0 <= l < |paths| && Dir(paths[l]) == dir && LogFile(paths[l]) == f {
      FilesUnderMember(paths, l);
    }
  }

  /** For a rule with one log path, that gives a host directory exactly when the two computations agree. */
  lemma {:induction false} DroppedAlone(info: ContainerInfo, base: string, path: string)
    requires path != STDOUT && Destination(info, path) != STDOUT
    requires SourceOf(info, base, Destination(info, path)).Some?
    ensures var host := HostDirs(NewPaths(info, [path]), MountsOf(info, base, [path]));
            host != map[] <==> KeyAgrees(info, path)
  {
    hide Dir, Destination, SourceOf, SubstPath, Walk, FilesUnder, HostDirs;
    var dest := Destination(info, path);
    var m := Mount(SourceOf(info, base, dest).value, dest, false);
    var after := SubstPath(info.envs, path);
    assert [path][..0] == [];
    assert MountsOf(info, base, [path]) == AddMount(info, base, MountsOf(info, base, []), path) == [m];
    assert NewPaths(info, [path]) == [after];
    FilesOfOne(after, dest);
    HostDirsOfOne([after], m);
  }

  lemma {:induction false} FilesOfOne(path: string, dir: string)
    ensures FilesUnder([path], dir) != [] <==> Dir(path) == dir
  {
    hide Dir;
    assert [path][..0] == [];
    assert FilesUnder([], dir) == [];
  }

  lemma {:induction false} HostDirsOfOne(paths: seq<string>, m: Mount)
    ensures HostDirs(paths, [m]) != map[] <==> Contributes(paths, m)
  {
    hide Contributes, HostFiles, HostKey;
    assert [m][..0] == [];
    assert HostDirs(paths, []) == map[];
    if Contributes(paths, m) {
      assert HostKey(m) in HostDirs(paths, [m]);
    }
  }

  /** One mount of /v on the host directory /h, no writable layer, and the variable D with the value /v/. */
  function BelowV(): ContainerInfo {
    ContainerInfo([EnvVar("D", "/v/")], [ContainerMount("/v", "/h")], "", "")
  }

  lemma {:induction false} LookupsBelowV()
    ensures var info := BelowV();
            && Destination(info, "$(D)/a") == "/v/" && Destination(info, "/v/b") == "/v"
            && Dir(SubstPath(info.envs, "$(D)/a")) == "/v" && Dir(SubstPath(info.envs, "/v/b")) == "/v"
  {
    hide Dir, Clean, SubstPath, Segments;
    var envs, ref := BelowV().envs, "$(D)";
    ReferencePath();
    PathsBelowV();
    assert IsReference(ref) && Referenced(ref) == "D" && Subst(envs, ref) == "/v/";
    SubstSingle(envs, ref);
    assert !IsReference("") && !IsReference("v") && !IsReference("b");
    Unchanged(envs, "/v");
    Unchanged(envs, "/v/b");
    assert FileName("$(D)/a") == "a" && !IsReference("a");
    PlainFileNameAgreement(envs, "$(D)/a");
  }

  lemma {:induction false} SourcesBelowV()
    ensures var info := BelowV();
            && Walk(info.mounts, "/v/", "/v/") == Some(0) && Walk(info.mounts, "/v", "/v") == Some(0)
            && SourceOf(info, "", "/v/").Some? && SourceOf(info, "", "/v") == SourceOf(info, "", "/v/")
  {
    hide Dir, Clean, Segments, Names, JoinPath;
    PathsBelowV();
    var mounts := BelowV().mounts;
    assert Hits(mounts[0], "/v", "/v/") && Hits(mounts[0], "/v", "/v") && !Hits(mounts[0], "/v/", "/v/");
    assert FirstHit(mounts, "/v", "/v/") == Some(0) && FirstHit(mounts, "/v", "/v") == Some(0);
    assert FirstHit(mounts, "/v/", "/v/") == None;
  }

  /**
   The paths $(D)/a and /v/b: the two computations of the directory of the first differ, and no path has the
   directory looked up for its parent, but its file is listed: the second path shares the host directory.
   */
  lemma {:induction false} CollisionRescues()
    ensures var info, paths := BelowV(), ["$(D)/a", "/v/b"];
            && SourceOf(info, "", Destination(info, paths[0])).Some? && !KeyAgrees(info, paths[0])
            && (forall l :: 0 <= l < 2 ==> Dir(NewPath(info, paths[l])) != Destination(info, paths[0]))
            && IsListed(info, "", paths, {}, 0)
  {
    hide Dir, SubstPath, SourceOf, Destination, Walk, LogFile, FilesUnder;
    var info, paths := BelowV(), ["$(D)/a", "/v/b"];
    LookupsBelowV();
    SourcesBelowV();
    var source := SourceOf(info, "", "/v/").value;
    var first, second := Mount(source, "/v/", false), Mount(source, "/v", false);
    var after := NewPaths(info, paths);
    assert paths[..1] == ["$(D)/a"] && paths[..1][..0] == [];
    assert MountsOf(info, "", paths[..1][..0]) == [];
    assert MountsOf(info, "", paths[..1]) == AddMount(info, "", [], "$(D)/a") == [first];
    assert MountsOf(info, "", paths) == AddMount(info, "", [first], "/v/b") == [first, second];
    FilesUnderMember(after, 1);
    DroppedUnlessKept(info, "", paths, {}, 0);
    assert Keeps(after, second, 0) by {
      assert Dir(after[0]) == second.destination;
    }
    assert LastFor(after, [first, second], 1, source);
  }

  /** The paths at which a container mounts a volume that claims storage. */
  lemma {:induction false} ClaimPathsExactly(pod: Pod, container: string, path: string)
    ensures path in ClaimPaths(pod, container) <==>
            exists c, m, v :: ClaimedAt(pod, container, path, c, m, v)
  {
    if path in ClaimPaths(pod, container) {
      var c, m :| c in pod.containers && m in c.volumeMounts && c.name == container && ClaimVolume(pod, m.name) &&
        m.mountPath == path;
      var v :| v in pod.volumes && v.name == m.name && v.claimName.Some? && v.claimName.value != "";
      var i :| 0 <= i < |pod.containers| && pod.containers[i] == c;
      var j :| 0 <= j < |c.volumeMounts| && c.volumeMounts[j] == m;
      var k :| 0 <= k < |pod.volumes| && pod.volumes[k] == v;
      assert ClaimedAt(pod, container, path, i, j, k);
    }
    if i, j, k :| ClaimedAt(pod, container, path, i, j, k) {
      assert pod.containers[i] in pod.containers && pod.volumes[k] in pod.volumes;
      assert pod.containers[i].volumeMounts[j] in pod.containers[i].volumeMounts;
    }
  }

  /** Volume v has a claim, and mount m of container c mounts it at the path. */
  ghost predicate ClaimedAt(pod: Pod, container: string, path: string, c: int, m: int, v: int) {
    && 0 <= c < |pod.containers| && pod.containers[c].name == container
    && 0 <= m < |pod.containers[c].volumeMounts| && 0 <= v < |pod.volumes|
    && pod.containers[c].volumeMounts[m] == VolumeMount(pod.volumes[v].name, path)
    && pod.volumes[v].claimName != None && pod.volumes[v].claimName != Some("")
  }
}
