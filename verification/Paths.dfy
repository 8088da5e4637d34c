/**
 The lexical path functions of Go's path/filepath on Unix, defined on the slash-separated
 segments of a path.  A path is read as a root flag and a stack of names; the stack is what is
 left after empty and "." segments are dropped and ".." has removed the name before it.
 */
module Paths {
  import opened Wrappers
  import opened Strings

  const SLASH := '/'

  predicate IsAbs(p: string) {
    p != "" && p[0] == SLASH
  }

  function Segments(p: string): (parts: seq<string>)
    ensures |parts| >= 1
  {
    Split(p, SLASH)
  }

  function Push(rooted: bool, stack: seq<string>, seg: string): seq<string> {
    if seg == "" || seg == "." then stack
    else if seg != ".." then stack + [seg]
    else if stack != [] && stack[|stack| - 1] != ".." then stack[..|stack| - 1]
    else if rooted then stack
    else stack + [".."]
  }

  function Norm(rooted: bool, parts: seq<string>): seq<string> {
    if parts == [] then []
    else Push(rooted, Norm(rooted, parts[..|parts| - 1]), parts[|parts| - 1])
  }

  function Render(rooted: bool, names: seq<string>): string {
    if rooted then [SLASH] + Join(names, SLASH)
    else if names == [] then "."
    else Join(names, SLASH)
  }

  /** The names of a path after cleaning. */
  function Names(p: string): seq<string> {
    Norm(IsAbs(p), Segments(p))
  }

  function Clean(p: string): string {
    Render(IsAbs(p), Names(p))
  }

  /** filepath.Dir: what stands before the last slash, cleaned. */
  function Dir(p: string): string {
    var parts := Segments(p);
    Render(IsAbs(p), Norm(IsAbs(p), parts[..|parts| - 1]))
  }

  /** The file half of filepath.Split: what stands after the last slash. */
  function FileName(p: string): string {
    var parts := Segments(p);
    parts[|parts| - 1]
  }

  function LastNonEmpty(parts: seq<string>): string {
    if parts == [] then ""
    else if parts[|parts| - 1] != "" then parts[|parts| - 1]
    else LastNonEmpty(parts[..|parts| - 1])
  }

  /** filepath.Base. */
  function Base(p: string): string {
    if p == "" then "."
    else if LastNonEmpty(Segments(p)) == "" then "/"
    else LastNonEmpty(Segments(p))
  }

  function CommonPrefix(a: seq<string>, b: seq<string>): (n: nat)
    ensures n <= |a| && n <= |b|
  {
    if a != [] && b != [] && a[0] == b[0] then 1 + CommonPrefix(a[1..], b[1..]) else 0
  }

  /** filepath.Rel, None standing for its error. */
  function Rel(base: string, target: string): Option<string> {
    if Clean(base) == Clean(target) then Some(".")
    else if IsAbs(base) != IsAbs(target) then None
    else
      var b := Names(base);
      var t := if !IsAbs(target) && Names(target) == [] then ["."] else Names(target);
      var n := CommonPrefix(b, t);
      if n < |b| && b[n] == ".." then None
      else Some(Join(seq(|b| - n, _ => "..") + t[n..], SLASH))
  }

  function NonEmpty(parts: seq<string>): seq<string> {
    if parts == [] then []
    else if parts[0] == "" then NonEmpty(parts[1..])
    else [parts[0]] + NonEmpty(parts[1..])
  }

  /** filepath.Join. */
  function JoinPath(parts: seq<string>): string {
    var kept := NonEmpty(parts);
    if kept == [] then "" else Clean(Join(kept, SLASH))
  }

  // ---- What cleaning leaves ----

  /** A stack that cleaning can leave: proper names, with ".." only in front of a relative one. */
  ghost predicate Proper(rooted: bool, names: seq<string>) {
    && (forall i :: 0 <= i < |names| ==> names[i] != "" && names[i] != "." && SLASH !in names[i])
    && (rooted ==> forall i :: 0 <= i < |names| ==> names[i] != "..")
    && (forall i :: 0 < i < |names| && names[i] == ".." ==> names[i - 1] == "..")
  }

  lemma {:induction false} NormIsProper(rooted: bool, parts: seq<string>)
    requires Free(parts, SLASH)
    ensures Proper(rooted, Norm(rooted, parts))
    ensures |Norm(rooted, parts)| <= |parts|
    ensures parts != [] && parts[0] == "" ==> |Norm(rooted, parts)| < |parts|
    ensures forall x :: x in Norm(rooted, parts) ==> x in parts
  {
    if parts != [] {
      NormIsProper(rooted, parts[..|parts| - 1]);
      PushIsProper(rooted, Norm(rooted, parts[..|parts| - 1]), parts[|parts| - 1]);
    }
  }

  lemma {:induction false} PushIsProper(rooted: bool, stack: seq<string>, seg: string)
    requires Proper(rooted, stack) && SLASH !in seg
    ensures Proper(rooted, Push(rooted, stack, seg))
    ensures |Push(rooted, stack, seg)| <= |stack| + 1
    ensures forall x :: x in Push(rooted, stack, seg) ==> x in stack || x == seg
  {
  }

  lemma {:induction false} NormOfProper(rooted: bool, names: seq<string>)
    requires Proper(rooted, names)
    ensures Norm(rooted, names) == names
  {
    if names != [] {
      NormOfProper(rooted, names[..|names| - 1]);
    }
  }

  /** Proper names are pushed one after the other on any stack they cannot cancel. */
  lemma {:induction false} NormAppend(rooted: bool, parts: seq<string>, more: seq<string>)
    requires Proper(true, more)
    ensures Norm(rooted, parts + more) == Norm(rooted, parts) + more
  {
    if more == [] {
      assert parts + more == parts;
    } else {
      var init := more[..|more| - 1];
      assert (parts + more)[..|parts + more| - 1] == parts + init;
      NormAppend(rooted, parts, init);
    }
  }

  lemma {:induction false} NormSnoc(rooted: bool, parts: seq<string>, seg: string)
    ensures Norm(rooted, parts + [seg]) == Push(rooted, Norm(rooted, parts), seg)
  {
    assert (parts + [seg])[..|parts|] == parts;
  }

  lemma {:induction false} NormSingle(rooted: bool, seg: string)
    ensures Norm(rooted, [seg]) == Push(rooted, [], seg)
  {
    assert [seg][..0] == [];
  }

  lemma {:induction false} NormSkipEmptyFront(rooted: bool, parts: seq<string>)
    ensures Norm(rooted, [""] + parts) == Norm(rooted, parts)
  {
    if parts != [] {
      assert ([""] + parts)[..|parts|] == [""] + parts[..|parts| - 1];
      NormSkipEmptyFront(rooted, parts[..|parts| - 1]);
    } else {
      assert [""] + parts == [""];
      NormSingle(rooted, "");
    }
  }

  lemma {:induction false} SegmentsFacts(p: string)
    ensures Free(Segments(p), SLASH)
    ensures IsAbs(p) ==> |Segments(p)| >= 2 && Segments(p)[0] == ""
    ensures p != "" && Segments(p)[0] == "" ==> IsAbs(p)
    ensures |Segments(p)| == 1 ==> Segments(p) == [p]
  {
    SplitFree(p, SLASH);
    JoinSplit(p, SLASH);
  }

  lemma {:induction false} NamesAreProper(p: string)
    ensures Proper(IsAbs(p), Names(p))
    ensures |Names(p)| <= |Segments(p)|
    ensures IsAbs(p) ==> |Names(p)| < |Segments(p)|
  {
    SegmentsFacts(p);
    NormIsProper(IsAbs(p), Segments(p));
  }

  /** Rendering is read back as the same root flag and names. */
  lemma {:induction false} RenderReadBack(rooted: bool, names: seq<string>)
    requires Proper(rooted, names)
    ensures IsAbs(Render(rooted, names)) == rooted
    ensures Names(Render(rooted, names)) == names
    ensures Segments(Render(rooted, names)) ==
            if names == [] then (if rooted then ["", ""] else ["."])
            else (if rooted then [""] else []) + names
  {
    var p := Render(rooted, names);
    if names == [] {
      assert Join(names, SLASH) == "";
      if rooted {
        assert p == "" + [SLASH] + "";
        SplitAppend("", SLASH, "");
      } else {
        SplitWhole(".", SLASH);
      }
      NormSingle(rooted, ".");
      NormSingle(rooted, "");
      assert ["", ""][..1] == [""];
    } else {
      SplitJoin(names, SLASH);
      if rooted {
        assert p == "" + [SLASH] + Join(names, SLASH);
        SplitAppend("", SLASH, Join(names, SLASH));
        NormSkipEmptyFront(rooted, names);
      } else {
        assert Join(names, SLASH)[0] == names[0][0];
      }
      NormOfProper(rooted, names);
    }
  }

  /** Cleaning twice is cleaning once, and keeps the root flag and the names. */
  lemma {:induction false} CleanIdempotent(p: string)
    ensures IsAbs(Clean(p)) == IsAbs(p) && Names(Clean(p)) == Names(p)
    ensures Clean(Clean(p)) == Clean(p)
  {
    NamesAreProper(p);
    RenderReadBack(IsAbs(p), Names(p));
  }

  /** Clean paths are equal exactly when their root flags and names are. */
  lemma {:induction false} CleanEqual(p: string, q: string)
    ensures Clean(p) == Clean(q) <==> IsAbs(p) == IsAbs(q) && Names(p) == Names(q)
  {
    CleanIdempotent(p);
    CleanIdempotent(q);
  }

  /** A directory is clean, and its names come from the path's segments. */
  lemma {:induction false} DirIsClean(p: string)
    ensures Clean(Dir(p)) == Dir(p)
    ensures IsAbs(Dir(p)) == IsAbs(p)
    ensures Names(Dir(p)) == Norm(IsAbs(p), Segments(p)[..|Segments(p)| - 1])
  {
    SegmentsFacts(p);
    var init := Segments(p)[..|Segments(p)| - 1];
    NormIsProper(IsAbs(p), init);
    RenderReadBack(IsAbs(p), Norm(IsAbs(p), init));
  }

  /** Going up shortens every path until "/" or "." is reached. */
  lemma {:induction false} DirShrinks(p: string)
    ensures Dir(p) == "/" || Dir(p) == "." || |Segments(Dir(p))| < |Segments(p)|
  {
    SegmentsFacts(p);
    var init := Segments(p)[..|Segments(p)| - 1];
    NormIsProper(IsAbs(p), init);
    RenderReadBack(IsAbs(p), Norm(IsAbs(p), init));
  }

  lemma {:induction false} DirOfSlash()
    ensures Dir("/") == "/" && Names("/") == [] && Clean("/") == "/"
  {
    RenderReadBack(true, []);
    assert Render(true, []) == "/";
    assert ["", ""][..1] == [""];
    NormSingle(true, "");
  }

  lemma {:induction false} CleanIsRendered(p: string)
    requires IsAbs(p) && Clean(p) == p
    ensures p == Render(true, Names(p)) && Proper(true, Names(p))
    ensures Names(p) == [] ==> p == "/"
    ensures Names(p) != [] ==> Segments(p) == [""] + Names(p)
  {
    NamesAreProper(p);
    RenderReadBack(true, Names(p));
  }

  /** Going up from a clean absolute path drops its last name. */
  lemma {:induction false} DirOfClean(p: string)
    requires IsAbs(p) && Clean(p) == p
    ensures IsAbs(Dir(p)) && Clean(Dir(p)) == Dir(p)
    ensures Names(p) == [] ==> Dir(p) == "/"
    ensures Names(p) != [] ==> Names(Dir(p)) == Names(p)[..|Names(p)| - 1]
  {
    hide Clean, Dir, Names, Render;
    var names := Names(p);
    CleanIsRendered(p);
    DirIsClean(p);
    DirOfSlash();
    if names != [] {
      assert ([""] + names)[..|names|] == [""] + names[..|names| - 1];
      NormSkipEmptyFront(true, names[..|names| - 1]);
      NormOfProper(true, names[..|names| - 1]);
    }
  }

  /** How cleaning treats each kind of segment after those before it. */
  lemma {:induction false} CleaningLaws(rooted: bool, parts: seq<string>, name: string)
    requires name != "" && name != "." && name != ".."
    ensures Norm(rooted, parts + [""]) == Norm(rooted, parts) == Norm(rooted, parts + ["."])
    ensures Norm(rooted, parts + [name]) == Norm(rooted, parts) + [name]
    ensures Norm(rooted, parts + [name] + [".."]) == Norm(rooted, parts)
    ensures Norm(rooted, [".."]) == if rooted then [] else [".."]
  {
    NormSnoc(rooted, parts, "");
    NormSnoc(rooted, parts, ".");
    NormSnoc(rooted, parts, name);
    NormSnoc(rooted, parts + [name], "..");
    NormSingle(rooted, "..");
  }

  lemma {:induction false} LastOfNames(parts: seq<string>)
    requires parts != [] && parts[|parts| - 1] != ""
    ensures LastNonEmpty(parts) == parts[|parts| - 1]
  {
  }

  /** A clean absolute path is its directory and its base. */
  lemma {:induction false} DirAndBase(p: string)
    requires IsAbs(p) && Clean(p) == p && Names(p) != []
    ensures Names(p) == Names(Dir(p)) + [Base(p)] && FileName(p) == Base(p)
  {
    hide Clean, Dir, Norm, Split;
    CleanIsRendered(p);
    DirOfClean(p);
    LastOfNames(Segments(p));
  }

  /** The base of a path with a file name is the file name, with or without slashes behind it. */
  lemma {:induction false} BaseOfFile(dir: string, file: string)
    requires file != "" && SLASH !in file
    ensures Base(dir + [SLASH] + file) == file && Base(dir + [SLASH] + file + [SLASH]) == file
    ensures Base("") == "." && Base("/") == "/"
  {
    hide Split;
    SplitAppend(dir, SLASH, file);
    SplitAppend(dir + [SLASH] + file, SLASH, "");
    SplitWhole(file, SLASH);
    SplitWhole("", SLASH);
    var parts := Segments(dir + [SLASH] + file);
    assert dir + [SLASH] + file + [SLASH] + "" == dir + [SLASH] + file + [SLASH];
    LastOfNames(parts);
    LastBehind(parts);
    assert "" + [SLASH] + "" == "/";
    SplitAppend("", SLASH, "");
    LastBehind([""]);
    LastBehind([]);
    assert [""] + [""] == ["", ""] && [] + [""] == [""];
  }

  lemma {:induction false} LastBehind(parts: seq<string>)
    ensures LastNonEmpty(parts + [""]) == LastNonEmpty(parts)
  {
    assert (parts + [""])[..|parts|] == parts;
  }

  /** Joining two paths: empty ones are left out, and the second is read from the first. */
  lemma {:induction false} JoinExactly(a: string, b: string)
    ensures a != "" && b != "" ==>
              && IsAbs(JoinPath([a, b])) == IsAbs(a)
              && Names(JoinPath([a, b])) == Norm(IsAbs(a), Segments(a) + Segments(b))
    ensures a == "" && b != "" ==> JoinPath([a, b]) == Clean(b)
    ensures a != "" && b == "" ==> JoinPath([a, b]) == Clean(a)
    ensures a == "" && b == "" ==> JoinPath([a, b]) == ""
  {
    assert [a, b][1..] == [b] && [b][1..] == [];
    assert NonEmpty([]) == [];
    assert NonEmpty([b]) == if b == "" then [] else [b];
    if a != "" && b != "" {
      assert NonEmpty([a, b]) == [a, b];
      assert Join([a, b], SLASH) == a + [SLASH] + Join([b], SLASH) == a + [SLASH] + b;
      SplitAppend(a, SLASH, b);
      CleanIdempotent(a + [SLASH] + b);
    }
  }

  // ---- The relative path ----

  lemma {:induction false} NormPop(parts: seq<string>, k: nat)
    requires k <= |Norm(true, parts)|
    ensures Norm(true, parts + seq(k, _ => "..")) == Norm(true, parts)[..|Norm(true, parts)| - k]
  {
    hide Norm;
    if k == 0 {
      assert parts + seq(0, _ => "..") == parts;
    } else {
      var fewer := seq(k - 1, _ => "..");
      NormPop(parts, k - 1);
      assert parts + seq(k, _ => "..") == (parts + fewer) + [".."];
      NormSnoc(true, parts + fewer, "..");
      NoDotsWhenRooted(parts);
    }
  }

  lemma {:induction false} NoDotsWhenRooted(parts: seq<string>)
    ensures forall i :: 0 <= i < |Norm(true, parts)| ==> Norm(true, parts)[i] != ".."
  {
    if parts != [] {
      NoDotsWhenRooted(parts[..|parts| - 1]);
    }
  }

  lemma {:induction false} CommonPart(a: seq<string>, b: seq<string>)
    ensures a[..CommonPrefix(a, b)] == b[..CommonPrefix(a, b)]
  {
    if a != [] && b != [] && a[0] == b[0] {
      CommonPart(a[1..], b[1..]);
      var n := CommonPrefix(a[1..], b[1..]);
      assert a[..n + 1] == [a[0]] + a[1..][..n] && b[..n + 1] == [b[0]] + b[1..][..n];
    }
  }

  /** From one absolute path to another there is always a relative one, and it leads there. */
  lemma {:induction false} RelLeads(base: string, target: string)
    requires IsAbs(base) && IsAbs(target)
    ensures Rel(base, target).Some?
    ensures Norm(true, Segments(base) + Segments(Rel(base, target).value)) == Names(target)
  {
    hide Norm, Split, Render;
    CleanEqual(base, target);
    NamesAreProper(base);
    NamesAreProper(target);
    var b, t := Names(base), Names(target);
    if Clean(base) == Clean(target) {
      SplitWhole(".", SLASH);
      NormSnoc(true, Segments(base), ".");
    } else {
      var n := CommonPrefix(b, t);
      var up, down := seq(|b| - n, _ => ".."), t[n..];
      CommonPart(b, t);
      assert b[..n] == t[..n] && t[..n] + t[n..] == t;
      assert b[..|b|] == b && t[..|t|] == t;
      assert up + down != [];
      SplitJoin(up + down, SLASH);
      NormPop(Segments(base), |b| - n);
      assert Segments(base) + (up + down) == (Segments(base) + up) + down;
      NormAppend(true, Segments(base) + up, down);
    }
  }
}
