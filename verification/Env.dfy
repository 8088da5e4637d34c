/**
 Container environment variables in log paths and field values.  A path segment, or a whole
 field value, of the form $(NAME) is replaced by the first variable of that name.
 */
module Env {
  import opened Wrappers
  import opened Strings
  import opened Paths

  datatype EnvVar = EnvVar(key: string, value: string)

  /** What the regular expression ^\$\((.*?)\)$ accepts; its dot does not match a line feed. */
  predicate IsReference(s: string) {
    && |s| >= 3
    && s[0] == '$' && s[1] == '(' && s[|s| - 1] == ')'
    && '\n' !in s[2..|s| - 1]
  }

  function Referenced(s: string): string
    requires IsReference(s)
  {
    s[2..|s| - 1]
  }

  function Lookup(envs: seq<EnvVar>, key: string): Option<string> {
    if envs == [] then None
    else if envs[0].key == key then Some(envs[0].value)
    else Lookup(envs[1..], key)
  }

  function Subst(envs: seq<EnvVar>, s: string): string {
    if IsReference(s) then
      match Lookup(envs, Referenced(s))
      case Some(v) => v
      case None => s
    else s
  }

  function SubstAll(envs: seq<EnvVar>, parts: seq<string>): (r: seq<string>)
    ensures |r| == |parts|
  {
    seq(|parts|, i requires 0 <= i < |parts| => Subst(envs, parts[i]))
  }

  function SubstPath(envs: seq<EnvVar>, path: string): string {
    Join(SubstAll(envs, Segments(path)), SLASH)
  }

  /** The search loop shared by ParsePath and ParseEnv. */
  method FindEnv(envs: seq<EnvVar>, key: string) returns (r: Option<string>)
    ensures r == Lookup(envs, key)
  {
    for i := 0 to |envs|
      invariant Lookup(envs, key) == Lookup(envs[i..], key)
    {
      if envs[i].key == key {
        return Some(envs[i].value);
      }
    }
    return None;
  }

  method ParseEnv(envs: seq<EnvVar>, v: string) returns (r: string)
    ensures r == Subst(envs, v)
  {
    if !IsReference(v) {
      return v;
    }
    var found := FindEnv(envs, Referenced(v));
    return if found.Some? then found.value else v;
  }

  method ParsePath(envs: seq<EnvVar>, path: string) returns (r: string)
    ensures r == SubstPath(envs, path)
  {
    var parts := Segments(path);
    var split := new string[|parts|](i requires 0 <= i < |parts| => parts[i]);
    for i := 0 to split.Length
      invariant forall k :: 0 <= k < i ==> split[k] == Subst(envs, parts[k])
      invariant forall k :: i <= k < split.Length ==> split[k] == parts[k]
    {
      if !IsReference(split[i]) {
        continue;
      }
      var found := FindEnv(envs, Referenced(split[i]));
      if found.Some? {
        split[i] := found.value;
      }
    }
    assert split[..] == SubstAll(envs, parts);
    r := Join(split[..], SLASH);
  }

  // ---- Segments of a substituted path ----

  /** The segments of the values that replace the given parts, in order. */
  function Flat(envs: seq<EnvVar>, parts: seq<string>): seq<string> {
    if parts == [] then []
    else Flat(envs, parts[..|parts| - 1]) + Segments(Subst(envs, parts[|parts| - 1]))
  }

  lemma {:induction false} FlatNone(envs: seq<EnvVar>)
    ensures Flat(envs, []) == []
  {
  }

  lemma {:induction false} FlatSnoc(envs: seq<EnvVar>, parts: seq<string>, part: string)
    ensures Flat(envs, parts + [part]) == Flat(envs, parts) + Segments(Subst(envs, part))
  {
    assert (parts + [part])[..|parts|] == parts;
  }

  lemma {:induction false} FlatAppend(envs: seq<EnvVar>, a: seq<string>, b: seq<string>)
    ensures Flat(envs, a + b) == Flat(envs, a) + Flat(envs, b)
  {
    hide Flat, Subst, Split;
    if b == [] {
      assert a + b == a;
      FlatNone(envs);
    } else {
      var init, last := b[..|b| - 1], b[|b| - 1];
      FlatAppend(envs, a, init);
      assert a + b == (a + init) + [last] && b == init + [last];
      FlatSnoc(envs, a + init, last);
      FlatSnoc(envs, init, last);
    }
  }

  lemma {:induction false} SegmentsOfSubst(envs: seq<EnvVar>, parts: seq<string>)
    requires parts != []
    ensures Segments(Join(SubstAll(envs, parts), SLASH)) == Flat(envs, parts)
  {
    hide Split, Subst, Flat;
    var n := |parts| - 1;
    var front, last := parts[..n], Subst(envs, parts[n]);
    if n == 0 {
      FlatSingle(envs, parts[0]);
      assert parts == [parts[0]];
    } else {
      SegmentsOfSubst(envs, front);
      FlatSnoc(envs, front, parts[n]);
      assert parts == front + [parts[n]];
      assert SubstAll(envs, parts) == SubstAll(envs, front) + [last];
      JoinAppend(SubstAll(envs, front), [last], SLASH);
      SplitAppend(Join(SubstAll(envs, front), SLASH), SLASH, last);
    }
  }

  lemma {:induction false} SubstSingle(envs: seq<EnvVar>, part: string)
    requires SLASH !in part
    ensures SubstPath(envs, part) == Subst(envs, part)
  {
    SplitWhole(part, SLASH);
    assert SubstAll(envs, [part]) == [Subst(envs, part)];
  }

  lemma {:induction false} NormCongruence(rooted: bool, a: seq<string>, b: seq<string>, c: seq<string>)
    requires Norm(rooted, a) == Norm(rooted, b)
    ensures Norm(rooted, a + c) == Norm(rooted, b + c)
  {
    hide Norm, Push;
    if c == [] {
      assert a + c == a && b + c == b;
    } else {
      var init, last := c[..|c| - 1], c[|c| - 1];
      NormCongruence(rooted, a, b, init);
      assert a + c == (a + init) + [last] && b + c == (b + init) + [last];
      NormSnoc(rooted, a + init, last);
      NormSnoc(rooted, b + init, last);
    }
  }

  ghost predicate NoDots(parts: seq<string>) {
    forall i :: 0 <= i < |parts| ==> parts[i] != "." && parts[i] != ".."
  }

  lemma {:induction false} NormStart(rooted: bool, parts: seq<string>)
    requires NoDots(parts) && parts != [] && parts[0] != ""
    ensures Norm(rooted, parts) != [] && Norm(rooted, parts)[0] == parts[0]
  {
    if |parts| == 1 {
      NormSingle(rooted, parts[0]);
      assert parts == [parts[0]];
    } else {
      NormStart(rooted, parts[..|parts| - 1]);
    }
  }

  /** A value that stands for one name. */
  predicate OneName(value: string) {
    value != "" && value != "." && value != ".." && SLASH !in value
  }

  /** Every name that ".." cancels is replaced by one name. */
  predicate Steady(envs: seq<EnvVar>, rooted: bool, parts: seq<string>) {
    parts == [] ||
    (var init, last := parts[..|parts| - 1], parts[|parts| - 1];
     var kept := Norm(rooted, init);
     Steady(envs, rooted, init) &&
     (last == ".." && kept != [] && kept[|kept| - 1] != ".." ==> OneName(Subst(envs, kept[|kept| - 1]))))
  }

  lemma {:induction false} NoDotsSteady(envs: seq<EnvVar>, rooted: bool, parts: seq<string>)
    requires NoDots(parts)
    ensures Steady(envs, rooted, parts)
  {
    if parts != [] {
      NoDotsSteady(envs, rooted, parts[..|parts| - 1]);
    }
  }

  lemma {:induction false} ProperSteady(envs: seq<EnvVar>, rooted: bool, names: seq<string>)
    requires Proper(rooted, names)
    ensures Steady(envs, rooted, names)
  {
    if names != [] {
      ProperSteady(envs, rooted, names[..|names| - 1]);
      NormOfProper(rooted, names[..|names| - 1]);
    }
  }

  /** In a clean path ".." cancels nothing. */
  lemma {:induction false} CleanSteady(envs: seq<EnvVar>, path: string)
    requires Clean(path) == path
    ensures Steady(envs, IsAbs(path), Leading(path))
  {
    hide Norm, Split, Render, Steady, Clean;
    var rooted, names := IsAbs(path), Names(path);
    NamesAreProper(path);
    assert path == Render(rooted, names) by {
      RenderedNames(path);
    }
    RenderReadBack(rooted, names);
    if names == [] || rooted {
      assert names != [] ==> Leading(path) == [""] + names[..|names| - 1];
      NoDotsSteady(envs, rooted, Leading(path));
    } else {
      assert [] + names == names && Leading(path) == names[..|names| - 1];
      ProperSteady(envs, rooted, Leading(path));
    }
  }

  lemma {:induction false} RenderedNames(path: string)
    ensures Clean(path) == Render(IsAbs(path), Names(path))
  {
  }

  /** Cleaning before the substitution makes no difference after it, if every ".." cancels one name. */
  lemma {:induction false} FlatOfNorm(envs: seq<EnvVar>, rooted: bool, rooted0: bool, parts: seq<string>)
    requires Steady(envs, rooted0, parts) && (rooted0 ==> rooted)
    ensures Norm(rooted, Flat(envs, parts)) == Norm(rooted, Flat(envs, Norm(rooted0, parts)))
  {
    if parts != [] {
      hide Norm, Flat, Subst, Segments, Steady, OneName, Push;
      var init, last := parts[..|parts| - 1], parts[|parts| - 1];
      assert parts == init + [last];
      SteadyLast(envs, rooted0, parts);
      FlatOfNorm(envs, rooted, rooted0, init);
      FlatOfLast(envs, rooted, rooted0, init, last);
    } else {
      NormNone(rooted0);
    }
  }

  lemma {:induction false} FlatOfLast(envs: seq<EnvVar>, rooted: bool, rooted0: bool, init: seq<string>, last: string)
    requires var kept := Norm(rooted0, init);
             last == ".." && kept != [] && kept[|kept| - 1] != ".." ==> OneName(Subst(envs, kept[|kept| - 1]))
    requires rooted0 ==> rooted
    requires Norm(rooted, Flat(envs, init)) == Norm(rooted, Flat(envs, Norm(rooted0, init)))
    ensures Norm(rooted, Flat(envs, init + [last])) == Norm(rooted, Flat(envs, Norm(rooted0, init + [last])))
  {
    hide Norm, Flat, Subst, Segments, OneName, Push;
    var kept := Norm(rooted0, init);
    if rooted0 {
      NoDotsAtRoot(init);
    }
    NormSnoc(rooted0, init, last);
    FlatSnoc(envs, init, last);
    NormCongruence(rooted, Flat(envs, init), Flat(envs, kept), Segments(Subst(envs, last)));
    FlatOfPush(envs, rooted, rooted0, kept, last);
  }

  lemma {:induction false} SteadyLast(envs: seq<EnvVar>, rooted: bool, parts: seq<string>)
    requires Steady(envs, rooted, parts) && parts != []
    ensures var init, last := parts[..|parts| - 1], parts[|parts| - 1];
            var kept := Norm(rooted, init);
            && Steady(envs, rooted, init)
            && (last == ".." && kept != [] && kept[|kept| - 1] != ".." ==> OneName(Subst(envs, kept[|kept| - 1])))
  {
  }

  lemma {:induction false} NoDotsAtRoot(parts: seq<string>)
    ensures ".." !in Norm(true, parts)
  {
    if parts != [] {
      NoDotsAtRoot(parts[..|parts| - 1]);
    }
  }

  /** One more segment on top of the names that are kept. */
  lemma {:induction false} FlatOfPush(envs: seq<EnvVar>, rooted: bool, rooted0: bool, kept: seq<string>, last: string)
    requires last == ".." && kept != [] && kept[|kept| - 1] != ".." ==> OneName(Subst(envs, kept[|kept| - 1]))
    requires rooted0 ==> rooted && ".." !in kept
    ensures Norm(rooted, Flat(envs, kept) + Segments(Subst(envs, last))) ==
            Norm(rooted, Flat(envs, Push(rooted0, kept, last)))
  {
    hide Norm, Flat, Subst, Split;
    SubstDots(envs);
    if last == "" || last == "." {
      NormSnoc(rooted, Flat(envs, kept), last);
    } else if last == ".." && kept != [] && kept[|kept| - 1] != ".." {
      Cancelled(envs, rooted, kept);
    } else if last == ".." && kept == [] && rooted0 {
      FlatNone(envs);
      NormNone(rooted);
      NormSnoc(rooted, [], "..");
    } else {
      FlatSnoc(envs, kept, last);
    }
  }

  lemma {:induction false} Cancelled(envs: seq<EnvVar>, rooted: bool, kept: seq<string>)
    requires kept != [] && OneName(Subst(envs, kept[|kept| - 1]))
    ensures Norm(rooted, Flat(envs, kept) + [".."]) == Norm(rooted, Flat(envs, kept[..|kept| - 1]))
  {
    hide Norm, Flat, Subst, Split;
    var front, top := kept[..|kept| - 1], kept[|kept| - 1];
    assert kept == front + [top];
    FlatSnoc(envs, front, top);
    SplitWhole(Subst(envs, top), SLASH);
    NormSnoc(rooted, Flat(envs, front), Subst(envs, top));
    NormSnoc(rooted, Flat(envs, kept), "..");
  }

  lemma {:induction false} NormNone(rooted: bool)
    ensures Norm(rooted, []) == []
  {
  }

  lemma {:induction false} SubstDots(envs: seq<EnvVar>)
    ensures Segments(Subst(envs, "")) == [""] && Segments(Subst(envs, ".")) == ["."]
    ensures Segments(Subst(envs, "..")) == [".."]
  {
    SplitWhole("", SLASH);
    SplitWhole(".", SLASH);
    SplitWhole("..", SLASH);
  }

  /** The segments of a substituted clean path. */
  lemma {:induction false} SegmentsOfSubstRendered(envs: seq<EnvVar>, rooted: bool, names: seq<string>)
    requires Proper(rooted, names) && names != []
    ensures Segments(SubstPath(envs, Render(rooted, names))) ==
            (if rooted then [""] else []) + Flat(envs, names)
  {
    hide Render, Split;
    var parts := if rooted then [""] + names else names;
    RenderReadBack(rooted, names);
    assert Segments(Render(rooted, names)) == parts;
    SegmentsOfSubst(envs, parts);
    if rooted {
      FlatAppend(envs, [""], names);
      FlatSingle(envs, "");
      SplitWhole("", SLASH);
    }
  }

  lemma {:induction false} FlatSingle(envs: seq<EnvVar>, part: string)
    ensures Flat(envs, [part]) == Segments(Subst(envs, part))
  {
    assert [part][..0] == [];
  }

  lemma {:induction false} FlatStart(envs: seq<EnvVar>, parts: seq<string>)
    requires parts != []
    ensures Flat(envs, parts) != [] && Flat(envs, parts)[0] == Segments(Subst(envs, parts[0]))[0]
  {
    FlatAppend(envs, [parts[0]], parts[1..]);
    FlatSingle(envs, parts[0]);
    assert [parts[0]] + parts[1..] == parts;
  }

  /** Whether a path is absolute can be read off its segments, except for the empty path. */
  lemma {:induction false} AbsBySegments(p: string)
    ensures p != "" ==> (IsAbs(p) <==> Segments(p)[0] == "")
    ensures |Segments(p)| > 1 ==> p != ""
    ensures p == "" <==> Segments(p) == [""]
  {
    SegmentsFacts(p);
    JoinSplit(p, SLASH);
  }

  /** What stands before the last segment. */
  function Leading(path: string): seq<string> {
    Segments(path)[..|Segments(path)| - 1]
  }

  lemma {:induction false} SegmentsOfWhole(envs: seq<EnvVar>, path: string)
    ensures Segments(SubstPath(envs, path)) == Flat(envs, Leading(path)) + Segments(Subst(envs, FileName(path)))
  {
    hide Subst, SubstAll, Split, Join, Flat;
    var parts := Segments(path);
    assert parts == Leading(path) + [FileName(path)];
    SegmentsOfSubst(envs, parts);
    FlatSnoc(envs, Leading(path), FileName(path));
  }

  /**
   The directory that FindMount looks up is the substituted parent of the log path, the one
   NewConfig groups by is the parent of the substituted path.  For every path and all variables, the
   two strings are equal exactly when the first is clean, the same of the two is absolute, and cleaning
   the substituted segments before the file name leads to it.
   */
  lemma {:induction false} DirectoryKeyExactly(envs: seq<EnvVar>, path: string)
    ensures var whole, parent := SubstPath(envs, path), SubstPath(envs, Dir(path));
            Dir(whole) == parent <==>
            && Clean(parent) == parent && IsAbs(whole) == IsAbs(parent)
            && Norm(IsAbs(parent), Flat(envs, Leading(path)) + Leading(Subst(envs, FileName(path)))) == Names(parent)
  {
    hide SubstPath, Subst, Split, Norm, Flat, Dir;
    var whole, parent := SubstPath(envs, path), SubstPath(envs, Dir(path));
    SegmentsOfWhole(envs, path);
    var value := Segments(Subst(envs, FileName(path)));
    ParentOfConcat(whole, Flat(envs, Leading(path)), value, value[..|value| - 1]);
    DirIsClean(whole);
    CleanIdempotent(parent);
    CleanEqual(parent, Dir(whole));
  }

  /** From the substituted parent, what stands before the last slash of the file name's value leads back to it. */
  predicate LeadsBack(envs: seq<EnvVar>, path: string) {
    var whole, parent := SubstPath(envs, path), SubstPath(envs, Dir(path));
    && IsAbs(whole) == IsAbs(parent)
    && Norm(IsAbs(parent), Names(parent) + Leading(Subst(envs, FileName(path)))) == Names(parent)
  }

  /**
   For a path in which every ".." cancels one name, as in every clean path, the two strings are equal
   exactly when the substituted parent is clean and the value of the file name leads back to it.
   */
  lemma {:induction false} DirectoryKeyAgreement(envs: seq<EnvVar>, path: string)
    requires Steady(envs, IsAbs(path), Leading(path))
    ensures var parent := SubstPath(envs, Dir(path));
            && (Dir(SubstPath(envs, path)) == parent <==> Clean(parent) == parent && LeadsBack(envs, path))
            && (LeadsBack(envs, path) ==> Dir(SubstPath(envs, path)) == Clean(parent))
  {
    hide SubstPath, Subst, Split, Norm, Flat, Dir, Steady;
    var whole, parent := SubstPath(envs, path), SubstPath(envs, Dir(path));
    var front, own := Flat(envs, Leading(path)), Leading(Subst(envs, FileName(path)));
    DirectoryKeyExactly(envs, path);
    SubstParentNames(envs, path);
    NamesAreProper(parent);
    NormOfProper(IsAbs(parent), Names(parent));
    NormCongruence(IsAbs(parent), front, Names(parent), own);
    SegmentsOfWhole(envs, path);
    ParentOfConcat(whole, front, Segments(Subst(envs, FileName(path))), own);
    DirIsClean(whole);
    CleanEqual(parent, Dir(whole));
  }

  /** Without dot segments, and with one segment for the file name, only the parent has to be clean. */
  lemma {:induction false} PlainFileNameAgreement(envs: seq<EnvVar>, path: string)
    requires NoDots(Segments(path)) && SLASH !in Subst(envs, FileName(path))
    ensures Dir(SubstPath(envs, path)) == SubstPath(envs, Dir(path)) <==>
            Clean(SubstPath(envs, Dir(path))) == SubstPath(envs, Dir(path))
    ensures SubstPath(envs, Dir(path)) != "" ==>
            Dir(SubstPath(envs, path)) == Clean(SubstPath(envs, Dir(path)))
  {
    NoDotsSteady(envs, IsAbs(path), Leading(path));
    SubstParentRoot(envs, path);
    hide SubstPath, Subst, Split, Norm, Dir, Steady, Clean;
    var parent := SubstPath(envs, Dir(path));
    DirectoryKeyAgreement(envs, path);
    SplitWhole(Subst(envs, FileName(path)), SLASH);
    assert Leading(Subst(envs, FileName(path))) == [];
    assert Names(parent) + [] == Names(parent);
    NamesAreProper(parent);
    NormOfProper(IsAbs(parent), Names(parent));
    if parent == "" {
      EmptyIsUnclean();
    }
  }

  lemma {:induction false} EmptyIsUnclean()
    ensures Clean("") != ""
  {
    NormSingle(false, "");
  }

  /** The names of a substituted clean path. */
  lemma {:induction false} NamesOfSubstRendered(envs: seq<EnvVar>, rooted: bool, names: seq<string>)
    requires Proper(rooted, names)
    ensures var p := SubstPath(envs, Render(rooted, names)); Names(p) == Norm(IsAbs(p), Flat(envs, names))
  {
    hide SubstPath, Render, Split, Norm;
    var p := SubstPath(envs, Render(rooted, names));
    if names == [] {
      SubstOfRoot(envs, rooted);
      EmptyFlat(envs, IsAbs(p));
    } else {
      SegmentsOfSubstRendered(envs, rooted, names);
      if rooted {
        NormSkipEmptyFront(IsAbs(p), Flat(envs, names));
      } else {
        assert Segments(p) == Flat(envs, names);
      }
    }
  }

  /** The names of the substituted parent are those of its segments before any cleaning. */
  lemma {:induction false} SubstParentNames(envs: seq<EnvVar>, path: string)
    requires Steady(envs, IsAbs(path), Leading(path))
    ensures var parent := SubstPath(envs, Dir(path));
            Names(parent) == Norm(IsAbs(parent), Flat(envs, Leading(path)))
  {
    hide Steady, Flat;
    var init := Leading(path);
    SegmentsFacts(path);
    if IsAbs(path) {
      AbsoluteParent(envs, path);
    }
    NormIsProper(IsAbs(path), init);
    FlatOfNorm(envs, IsAbs(SubstPath(envs, Dir(path))), IsAbs(path), init);
    NamesOfSubstRendered(envs, IsAbs(path), Norm(IsAbs(path), init));
  }

  /** An absolute path has an absolute parent, before and after substitution. */
  lemma {:induction false} AbsoluteParent(envs: seq<EnvVar>, path: string)
    requires IsAbs(path)
    ensures IsAbs(SubstPath(envs, Dir(path)))
  {
    hide Norm, SubstAll, Join, Render, Split, Subst;
    var init := Leading(path);
    SegmentsFacts(path);
    NormIsProper(true, init);
    var names := Norm(true, init);
    if names == [] {
      SubstOfRoot(envs, true);
      RenderReadBack(true, []);
    } else {
      SubstStartRendered(envs, true, names);
      AbsBySegments(SubstPath(envs, Dir(path)));
    }
  }

  lemma {:induction false} EmptyFlat(envs: seq<EnvVar>, rooted: bool)
    ensures Norm(rooted, Flat(envs, [])) == []
  {
  }

  lemma {:induction false} SubstOfRoot(envs: seq<EnvVar>, rooted: bool)
    ensures SubstPath(envs, Render(rooted, [])) == Render(rooted, [])
    ensures Names(Render(rooted, [])) == []
  {
    RenderReadBack(rooted, []);
    var p := Render(rooted, []);
    assert SubstAll(envs, Segments(p)) == Segments(p);
    JoinSplit(p, SLASH);
  }

  /** The start of a substituted path is the start of what replaces its first segment. */
  lemma {:induction false} SubstStart(envs: seq<EnvVar>, path: string)
    ensures Segments(SubstPath(envs, path))[0] == Segments(Subst(envs, Segments(path)[0]))[0]
    ensures |Segments(path)| > 1 ==> |Segments(SubstPath(envs, path))| > 1
  {
    hide Flat, SubstAll, Subst, Join, Split;
    var parts := Segments(path);
    SegmentsOfSubst(envs, parts);
    FlatStart(envs, parts);
    if |parts| > 1 {
      FlatAppend(envs, [parts[0]], parts[1..]);
      FlatSingle(envs, parts[0]);
      FlatStart(envs, parts[1..]);
      assert parts == [parts[0]] + parts[1..];
    }
  }

  lemma {:induction false} SubstStartRendered(envs: seq<EnvVar>, rooted: bool, names: seq<string>)
    requires Proper(rooted, names) && names != []
    ensures Segments(SubstPath(envs, Render(rooted, names)))[0] ==
            if rooted then "" else Segments(Subst(envs, names[0]))[0]
    ensures rooted ==> |Segments(SubstPath(envs, Render(rooted, names)))| > 1
  {
    hide Flat, SubstAll, Subst, Join, Split, Render;
    SegmentsOfSubstRendered(envs, rooted, names);
    FlatStart(envs, names);
    if !rooted {
      assert [] + Flat(envs, names) == Flat(envs, names);
    }
  }

  /** The substituted parent and the substituted path are both absolute or both relative. */
  lemma {:induction false} SubstParentRoot(envs: seq<EnvVar>, path: string)
    requires NoDots(Segments(path))
    requires |Segments(path)| == 1 ==> SLASH !in Subst(envs, FileName(path))
    ensures SubstPath(envs, Dir(path)) != "" ==> IsAbs(SubstPath(envs, Dir(path))) == IsAbs(SubstPath(envs, path))
    ensures SubstPath(envs, Dir(path)) == "" ==> IsAbs(SubstPath(envs, path))
  {
    var parts := Segments(path);
    var init := parts[..|parts| - 1];
    var rooted := IsAbs(path);
    SegmentsFacts(path);
    NormIsProper(rooted, init);
    var names := Norm(rooted, init);
    if init != [] && init[0] != "" {
      NormStart(rooted, init);
    }
    SubstDots(envs);
    if |parts| == 1 {
      assert init == [];
    }
    hide Norm, SubstAll, Join, Render, Split, Subst;
    SubstStart(envs, path);
    AbsBySegments(SubstPath(envs, path));
    AbsBySegments(SubstPath(envs, Dir(path)));
    if |parts| == 1 {
      SegmentsOfSubst(envs, parts);
      FlatSingle(envs, parts[0]);
      SplitWhole(Subst(envs, parts[0]), SLASH);
    }
    if names == [] {
      SubstOfRoot(envs, rooted);
    } else {
      SubstStartRendered(envs, rooted, names);
    }
  }

  lemma {:induction false} NormAppendNoDots(rooted: bool, a: seq<string>, b: seq<string>)
    requires NoDots(b)
    ensures Norm(rooted, a + b) == Norm(rooted, a) + Norm(rooted, b)
  {
    if b == [] {
      assert a + b == a;
    } else {
      var init := b[..|b| - 1];
      assert (a + b)[..|a + b| - 1] == a + init;
      NormAppendNoDots(rooted, a, init);
    }
  }

  ghost predicate HasName(parts: seq<string>) {
    exists i :: 0 <= i < |parts| && parts[i] != ""
  }

  /** What stands before the last slash of a value is a directory below the current one. */
  ghost predicate BringsDirectory(value: string) {
    NoDots(Segments(value)[..|Segments(value)| - 1]) && HasName(Segments(value)[..|Segments(value)| - 1])
  }

  /** A real name among the parts makes the path longer. */
  lemma {:induction false} LongerByName(rooted: bool, a: seq<string>, b: seq<string>)
    requires NoDots(b) && HasName(b)
    ensures |Norm(rooted, a + b)| > |Norm(rooted, a)|
  {
    var i :| 0 <= i < |b| && b[i] != "";
    var front, back := b[..i], b[i + 1..];
    assert b == front + [b[i]] + back;
    NormAppendNoDots(rooted, a, b);
    NormAppendNoDots(rooted, front + [b[i]], back);
    assert (front + [b[i]])[..i] == front;
  }

  /**
   When the file name is replaced by a value that brings a directory of its own, the two strings
   always differ, and NewConfig drops the path.
   */
  lemma {:induction false} DirectoryInFileNameDisagrees(envs: seq<EnvVar>, path: string)
    requires NoDots(Segments(path))
    requires BringsDirectory(Subst(envs, FileName(path)))
    ensures Dir(SubstPath(envs, path)) != SubstPath(envs, Dir(path))
  {
    LongerDirectory(envs, Segments(path));
    NoDotsSteady(envs, IsAbs(path), Leading(path));
    SubstParentNames(envs, path);
  }

  lemma {:induction false} LongerDirectory(envs: seq<EnvVar>, parts: seq<string>)
    requires parts != [] && BringsDirectory(Subst(envs, parts[|parts| - 1]))
    ensures var whole := Join(SubstAll(envs, parts), SLASH);
            && IsAbs(Dir(whole)) == IsAbs(whole)
            && |Names(Dir(whole))| > |Norm(IsAbs(whole), Flat(envs, parts[..|parts| - 1]))|
  {
    hide SubstAll, Join, Split, Dir, Norm;
    var value := Segments(Subst(envs, parts[|parts| - 1]));
    var whole := Join(SubstAll(envs, parts), SLASH);
    var front, own := Flat(envs, parts[..|parts| - 1]), value[..|value| - 1];
    SegmentsOfSubst(envs, parts);
    assert Segments(whole) == front + value;
    ParentOfConcat(whole, front, value, own);
    LongerByName(IsAbs(whole), front, own);
  }

  lemma {:induction false} ParentOfConcat(p: string, front: seq<string>, back: seq<string>, own: seq<string>)
    requires back != [] && own == back[..|back| - 1] && Segments(p) == front + back
    ensures IsAbs(Dir(p)) == IsAbs(p) && Names(Dir(p)) == Norm(IsAbs(p), front + own)
  {
    hide Dir, Norm, Split;
    var parts := Segments(p);
    assert parts[..|parts| - 1] == front + own;
    DirIsClean(p);
  }

  /** What a reference is, without the regular expression. */
  lemma {:induction false} ReferenceForm(s: string)
    ensures IsReference(s) <==> exists name: string :: s == "$(" + name + ")" && '\n' !in name
  {
    if IsReference(s) {
      assert s == "$(" + Referenced(s) + ")";
    }
    if name: string :| s == "$(" + name + ")" && '\n' !in name {
      assert s[2..|s| - 1] == name;
    }
  }

  /** The first variable of the name gives the value. */
  lemma {:induction false} FirstVariableWins(envs: seq<EnvVar>, key: string, i: int)
    requires 0 <= i < |envs| && envs[i].key == key && forall j :: 0 <= j < i ==> envs[j].key != key
    ensures Lookup(envs, key) == Some(envs[i].value)
  {
    if i > 0 {
      FirstVariableWins(envs[1..], key, i - 1);
    }
  }

  lemma {:induction false} NoVariable(envs: seq<EnvVar>, key: string)
    requires forall j :: 0 <= j < |envs| ==> envs[j].key != key
    ensures Lookup(envs, key) == None
  {
    if envs != [] {
      NoVariable(envs[1..], key);
    }
  }

  // ---- Examples ----

  lemma {:induction false} Unchanged(envs: seq<EnvVar>, path: string)
    requires forall x :: x in Segments(path) ==> Subst(envs, x) == x
    ensures SubstPath(envs, path) == path
  {
    assert SubstAll(envs, Segments(path)) == Segments(path);
    JoinSplit(path, SLASH);
  }

  lemma {:induction false} UncleanValue()
    ensures Segments("/v/") == ["", "v", ""] && Clean("/v/") != "/v/"
  {
    hide Clean, Split;
    var value := "/v/";
    assert value == "" + [SLASH] + "v/" && "v/" == "v" + [SLASH] + "";
    SplitAppend("", SLASH, "v/");
    SplitAppend("v", SLASH, "");
    SplitWhole("v", SLASH);
    SplitWhole("", SLASH);
    CleanHasNoEmptyEnd(value);
  }

  /** A clean path with a name in it does not end in a slash. */
  lemma {:induction false} CleanHasNoEmptyEnd(p: string)
    requires |Segments(p)| > 2 && Segments(p)[|Segments(p)| - 1] == ""
    ensures Clean(p) != p
  {
    NamesAreProper(p);
    RenderReadBack(IsAbs(p), Names(p));
  }

  lemma {:induction false} ReferencePath()
    ensures Segments("$(D)/a") == ["$(D)", "a"] && Segments("$(D)") == ["$(D)"]
    ensures Dir("$(D)/a") == "$(D)"
  {
    var ref, path := "$(D)", "$(D)/a";
    assert path == ref + [SLASH] + "a";
    DirOfTwo(ref, "a");
  }

  lemma {:induction false} DirOfTwo(dir: string, file: string)
    requires SLASH !in dir && SLASH !in file && dir != "" && dir != "." && dir != ".."
    ensures var p := dir + [SLASH] + file; Segments(p) == [dir, file] && Segments(dir) == [dir] && Dir(p) == dir
  {
    hide Split;
    var p := dir + [SLASH] + file;
    SplitAppend(dir, SLASH, file);
    SplitWhole(dir, SLASH);
    SplitWhole(file, SLASH);
    assert p[0] == dir[0];
    assert [dir, file][..1] == [dir] && [dir][..0] == [];
    assert Norm(false, [dir]) == Push(false, Norm(false, []), dir) == [dir];
  }

  /** A slash behind a path changes nothing of what it cleans to, and a file behind it has it for its parent. */
  lemma {:induction false} BehindSlash(p: string, file: string)
    requires p != "" && SLASH !in file
    ensures Segments(p + [SLASH] + file) == Segments(p) + [file] && Dir(p + [SLASH] + file) == Clean(p)
    ensures Clean(p + [SLASH]) == Clean(p)
  {
    hide Split, Norm, Render;
    SplitAppend(p, SLASH, file);
    SplitWhole(file, SLASH);
    SplitAppend(p, SLASH, "");
    SplitWhole("", SLASH);
    assert p + [SLASH] + "" == p + [SLASH];
    assert (Segments(p) + [file])[..|Segments(p)|] == Segments(p);
    NormSnoc(IsAbs(p), Segments(p), "");
  }

  lemma {:induction false} BelowRoot(name: string)
    requires OneName(name)
    ensures Segments([SLASH] + name) == ["", name] && Clean([SLASH] + name) == [SLASH] + name
  {
    hide Norm, Split;
    RenderReadBack(true, [name]);
    assert [""] + [name] == ["", name] && Join([name], SLASH) == name;
  }

  /** The strings of the example with the value /v/. */
  lemma {:induction false} PathsBelowV()
    ensures Clean("/v") == "/v" && Clean("/v/") == "/v" && Dir("/v/") == "/v" && Dir("/v/b") == "/v"
    ensures Segments("/v") == ["", "v"] && Segments("/v/b") == ["", "v", "b"]
  {
    hide Clean, Dir, Segments;
    BelowRoot("v");
    assert [SLASH] + "v" == "/v" && ["", "v"] + ["b"] == ["", "v", "b"];
    BehindSlash("/v", "b");
    BehindSlash("/v", "");
    assert "/v" + [SLASH] == "/v/" == "/v" + [SLASH] + "" && "/v" + [SLASH] + "b" == "/v/b";
  }

  // ---- What a reference becomes ----

  /** The reference to the first variable of its name. */
  ghost predicate RefersTo(envs: seq<EnvVar>, s: string, i: int) {
    && 0 <= i < |envs| && s == "$(" + envs[i].key + ")" && '\n' !in envs[i].key
    && forall j :: 0 <= j < i ==> envs[j].key != envs[i].key
  }

  /** A reference to a variable becomes the value of the first one of its name; every other text stays. */
  lemma {:induction false} SubstExactly(envs: seq<EnvVar>, s: string)
    ensures forall i :: RefersTo(envs, s, i) ==> Subst(envs, s) == envs[i].value
    ensures (forall i :: !RefersTo(envs, s, i)) ==> Subst(envs, s) == s
  {
    hide Lookup;
    ReferenceForm(s);
    forall i | RefersTo(envs, s, i)
      ensures Subst(envs, s) == envs[i].value
    {
      assert IsReference(s) by {
        var name := envs[i].key;
        assert s == "$(" + name + ")" && '\n' !in name;
      }
      assert Referenced(s) == envs[i].key;
      FirstVariableWins(envs, envs[i].key, i);
    }
    if IsReference(s) && forall i :: !RefersTo(envs, s, i) {
      assert s == "$(" + Referenced(s) + ")";
      NoFirst(envs, s);
      NoVariable(envs, Referenced(s));
    }
  }

  lemma {:induction false} NoFirst(envs: seq<EnvVar>, s: string)
    requires IsReference(s) && forall i :: !RefersTo(envs, s, i)
    ensures forall j :: 0 <= j < |envs| ==> envs[j].key != Referenced(s)
  {
    if j :| 0 <= j < |envs| && envs[j].key == Referenced(s) {
      var i := FirstOf(envs, Referenced(s), j);
      assert s == "$(" + envs[i].key + ")";
      assert RefersTo(envs, s, i);
    }
  }

  lemma {:induction false} FirstOf(envs: seq<EnvVar>, key: string, j: int) returns (i: int)
    requires 0 <= j < |envs| && envs[j].key == key
    ensures 0 <= i <= j && envs[i].key == key && forall k :: 0 <= k < i ==> envs[k].key != key
    decreases j
  {
    i := j;
    if k :| 0 <= k < j && envs[k].key == key {
      i := FirstOf(envs, key, k);
    }
  }

  /** Substituting a path substitutes each of its segments. */
  lemma {:induction false} SubstPathExactly(envs: seq<EnvVar>, parts: seq<string>, values: seq<string>)
    requires parts != [] && Free(parts, SLASH) && |values| == |parts|
    requires forall i :: 0 <= i < |parts| ==> values[i] == Subst(envs, parts[i])
    ensures SubstPath(envs, Join(parts, SLASH)) == Join(values, SLASH)
  {
    hide Subst, Join, Split;
    SplitJoin(parts, SLASH);
    assert SubstAll(envs, parts) == values;
  }
}
