/** Splitting, joining and searching strings, as Go's strings package does. */
module Strings {

  /** strings.Contains. */
  predicate Contains(s: string, pattern: string) {
    exists i | 0 <= i <= |s| :: OccursAt(s, pattern, i)
  }

  predicate OccursAt(s: string, pattern: string, i: int) {
    0 <= i <= |s| - |pattern| && s[i..i + |pattern|] == pattern
  }

  /** strings.Split for a one-character separator: n separators give n + 1 parts. */
  function Split(s: string, sep: char): (parts: seq<string>)
    ensures |parts| >= 1
  {
    if s == "" then [""] else Glue(s[0], Split(s[1..], sep), sep)
  }

  /** The parts of a string from its first character and the parts of the others. */
  function Glue(c: char, rest: seq<string>, sep: char): (parts: seq<string>)
    requires rest != []
    ensures parts != []
  {
    if c == sep then [""] + rest else [[c] + rest[0]] + rest[1..]
  }

  lemma {:induction false} GlueAppend(c: char, front: seq<string>, back: seq<string>, sep: char)
    requires front != []
    ensures Glue(c, front + back, sep) == Glue(c, front, sep) + back
  {
    if c != sep {
      assert (front + back)[1..] == front[1..] + back;
    }
  }

  /** strings.Join for a one-character separator. */
  function Join(parts: seq<string>, sep: char): string {
    if parts == [] then ""
    else if |parts| == 1 then parts[0]
    else parts[0] + [sep] + Join(parts[1..], sep)
  }

  ghost predicate Free(parts: seq<string>, sep: char) {
    forall i :: 0 <= i < |parts| ==> sep !in parts[i]
  }

  lemma {:induction false} SplitFree(s: string, sep: char)
    ensures Free(Split(s, sep), sep)
  {
    if s != "" {
      SplitFree(s[1..], sep);
    }
  }

  lemma {:induction false} SplitAppend(a: string, sep: char, b: string)
    ensures Split(a + [sep] + b, sep) == Split(a, sep) + Split(b, sep)
  {
    var s := a + [sep] + b;
    if a == "" {
      assert s[0] == sep && s[1..] == b;
    } else {
      SplitAppend(a[1..], sep, b);
      assert s[0] == a[0] && s[1..] == a[1..] + [sep] + b;
      GlueAppend(a[0], Split(a[1..], sep), Split(b, sep), sep);
    }
  }

  lemma {:induction false} SplitWhole(s: string, sep: char)
    requires sep !in s
    ensures Split(s, sep) == [s]
  {
    if s != "" {
      SplitWhole(s[1..], sep);
      assert [s[0]] + s[1..] == s;
    }
  }

  lemma {:induction false} JoinCons(head: string, parts: seq<string>, sep: char)
    requires parts != []
    ensures Join([head] + parts, sep) == head + [sep] + Join(parts, sep)
  {
    assert ([head] + parts)[1..] == parts;
  }

  /** Joining the parts of a split gives the string back. */
  lemma {:induction false} JoinSplit(s: string, sep: char)
    ensures Join(Split(s, sep), sep) == s
  {
    if s != "" {
      var rest := Split(s[1..], sep);
      JoinSplit(s[1..], sep);
      if s[0] == sep {
        JoinCons("", rest, sep);
      } else if |rest| > 1 {
        JoinCons(rest[0], rest[1..], sep);
        JoinCons([s[0]] + rest[0], rest[1..], sep);
        assert rest == [rest[0]] + rest[1..];
      }
    }
  }

  /** Splitting a join of separator-free parts gives the parts back. */
  lemma {:induction false} SplitJoin(parts: seq<string>, sep: char)
    requires parts != [] && Free(parts, sep)
    ensures Split(Join(parts, sep), sep) == parts
  {
    SplitWhole(parts[0], sep);
    if |parts| > 1 {
      SplitJoin(parts[1..], sep);
      SplitAppend(parts[0], sep, Join(parts[1..], sep));
    }
  }

  lemma {:induction false} JoinAppend(a: seq<string>, b: seq<string>, sep: char)
    requires a != [] && b != []
    ensures Join(a + b, sep) == Join(a, sep) + [sep] + Join(b, sep)
  {
    if |a| == 1 {
      JoinCons(a[0], b, sep);
      assert a + b == [a[0]] + b;
    } else {
      JoinAppend(a[1..], b, sep);
      JoinCons(a[0], a[1..] + b, sep);
      assert a + b == [a[0]] + (a[1..] + b);
    }
  }

  /** A string contains another one exactly when it is that one between two others. */
  lemma {:induction false} ContainsExactly(s: string, pattern: string)
    ensures Contains(s, pattern) <==> exists before: string, after: string :: s == before + pattern + after
  {
    if i :| 0 <= i <= |s| && OccursAt(s, pattern, i) {
      assert s == s[..i] + pattern + s[i + |pattern|..];
    }
    if before: string, after: string :| s == before + pattern + after {
      assert s[|before|..|before| + |pattern|] == pattern;
      assert OccursAt(s, pattern, |before|);
    }
  }
}
