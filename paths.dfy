/** Path strings with '/' as the separator: `split`, `filter(Boolean)`,
    `path.join` (without normalisation) and `path.dirname`, as the main process
    and the breadcrumb bar use them. */
module Paths {

  const Sep: char := '/'

  predicate IsAbsolute(p: string) {
    |p| > 0 && p[0] == Sep
  }

  /** `s.split('/')`: every field between separators, empty ones included. */
  function Split(s: string): (fields: seq<string>)
    ensures |fields| >= 1
    ensures forall f <- fields :: Sep !in f
  {
    if s == [] then [""]
    else
      var rest := Split(s[1..]);
      if s[0] == Sep then [""] + rest
      else [[s[0]] + rest[0]] + rest[1..]
  }

  /** The fields separated again by '/': the inverse of `Split`. */
  function Unsplit(fields: seq<string>): string
    requires |fields| >= 1
  {
    if |fields| == 1 then fields[0] else fields[0] + [Sep] + Unsplit(fields[1..])
  }

  /** `.filter(Boolean)` on strings: drops the empty ones, keeps the order. */
  function NonEmpty(fields: seq<string>): (kept: seq<string>)
    ensures forall f <- kept :: f != "" && f in fields
    ensures |kept| <= |fields|
  {
    if fields == [] then []
    else if fields[0] == "" then NonEmpty(fields[1..])
    else [fields[0]] + NonEmpty(fields[1..])
  }

  /** The names a path is made of: its non-empty fields. */
  function Components(p: string): (names: seq<string>)
    ensures forall n <- names :: n != "" && Sep !in n
  {
    NonEmpty(Split(p))
  }

  /** `path.join(dir, name)` for the separator '/', leaving out the
      normalisation of '.', '..' and repeated separators. Empty arguments are
      skipped, and joining nothing gives ".". */
  function Join(dir: string, name: string): string {
    if name == "" then (if dir == "" then "." else dir)
    else if dir == "" then name
    else if dir[|dir| - 1] == Sep then dir + name
    else dir + [Sep] + name
  }

  /** A join is never empty, starts with the directory and ends with the
      name. */
  lemma JoinKeepsBoth(dir: string, name: string)
    ensures Join(dir, name) != ""
    ensures dir != "" ==> |dir| <= |Join(dir, name)| && Join(dir, name)[..|dir|] == dir
    ensures name != "" ==> |name| <= |Join(dir, name)| && Join(dir, name)[|Join(dir, name)| - |name|..] == name
  {
  }

  /** The path with its trailing separators removed, never below one character. */
  function TrimTrailingSeps(p: string): (t: string)
    requires p != ""
    ensures 1 <= |t| <= |p| && t == p[..|t|]
    ensures |t| > 1 ==> t[|t| - 1] != Sep
    ensures forall i :: |t| <= i < |p| ==> p[i] == Sep
  {
    if |p| > 1 && p[|p| - 1] == Sep then TrimTrailingSeps(p[..|p| - 1]) else p
  }

  /** Index of the last separator in `t`, or -1 when there is none. */
  function LastSep(t: string): (k: int)
    ensures -1 <= k < |t|
    ensures k >= 0 ==> t[k] == Sep
    ensures forall i :: k < i < |t| ==> t[i] != Sep
  {
    if t == [] then -1
    else if t[|t| - 1] == Sep then |t| - 1
    else LastSep(t[..|t| - 1])
  }

  /** Node's posix `path.dirname`: drop trailing separators, then cut at the
      last separator; "." when there is none, "/" for the root, and the
      quirk that a path starting with two separators before its only name
      gives "//". */
  function Dirname(p: string): (parent: string)
    ensures parent != ""
    ensures parent == "." || (|parent| <= |p| && parent == p[..|parent|])
    ensures IsAbsolute(p) ==> IsAbsolute(parent)
  {
    if p == "" then "."
    else
      var t := TrimTrailingSeps(p);
      var k := LastSep(t);
      if k < 0 then "."
      else if k == 0 then "/"
      else if k == 1 && p[0] == Sep then "//"
      else p[..k]
  }

  function DropLast(names: seq<string>): seq<string> {
    if names == [] then [] else names[..|names| - 1]
  }

  /** Splitting undoes joining: `Split` and `Unsplit` are inverse. */
  lemma {:induction false} SplitUnsplit(s: string)
    ensures Unsplit(Split(s)) == s
  {
    if s != [] {
      var rest := Split(s[1..]);
      SplitUnsplit(s[1..]);
      if s[0] == Sep {
        assert Split(s) == [""] + rest;
        assert Split(s)[1..] == rest;
        assert s == [Sep] + s[1..];
      } else {
        var fs := Split(s);
        assert fs == [[s[0]] + rest[0]] + rest[1..];
        if |rest| == 1 {
          assert s == [s[0]] + s[1..];
        } else {
          assert fs[1..] == rest[1..];
          assert s == [s[0]] + s[1..];
        }
      }
    }
  }

  /** A separator between two strings separates their fields. */
  lemma {:induction false} SplitAround(a: string, b: string)
    ensures Split(a + [Sep] + b) == Split(a) + Split(b)
  {
    if a == [] {
      assert a + [Sep] + b == [Sep] + b;
      assert ([Sep] + b)[1..] == b;
    } else {
      assert (a + [Sep] + b)[1..] == a[1..] + [Sep] + b;
      assert (a + [Sep] + b)[0] == a[0];
      SplitAround(a[1..], b);
    }
  }

  lemma {:induction false} NonEmptyAppend(xs: seq<string>, ys: seq<string>)
    ensures NonEmpty(xs + ys) == NonEmpty(xs) + NonEmpty(ys)
  {
    if xs != [] {
      assert (xs + ys)[0] == xs[0];
      assert (xs + ys)[1..] == xs[1..] + ys;
      NonEmptyAppend(xs[1..], ys);
    } else {
      assert xs + ys == ys;
    }
  }

  /** The names of `a/b` are the names of `a` followed by those of `b`. */
  lemma ComponentsAround(a: string, b: string)
    ensures Components(a + [Sep] + b) == Components(a) + Components(b)
  {
    SplitAround(a, b);
    NonEmptyAppend(Split(a), Split(b));
  }

  /** A non-empty string without separators is a single name. */
  lemma {:induction false} ComponentsOfName(n: string)
    requires n != "" && Sep !in n
    ensures Components(n) == [n]
  {
    SplitOfName(n);
  }

  lemma {:induction false} SplitOfName(n: string)
    requires Sep !in n
    ensures Split(n) == [n]
  {
    if n != [] {
      SplitOfName(n[1..]);
      assert [n[0]] + n[1..] == n;
    }
  }

  /** Joining a name onto a directory appends the name's components. */
  lemma ComponentsJoin(dir: string, name: string)
    requires name != ""
    ensures Components(Join(dir, name)) == Components(dir) + Components(name)
  {
    if dir == "" {
    } else if dir[|dir| - 1] == Sep {
      var d := dir[..|dir| - 1];
      assert dir == d + [Sep] + "";
      ComponentsAround(d, "");
      assert dir + name == d + [Sep] + name;
      ComponentsAround(d, name);
    } else {
      ComponentsAround(dir, name);
    }
  }

  /** Trailing separators add no names. */
  lemma {:induction false} ComponentsTrim(p: string, m: nat)
    requires m <= |p|
    requires forall i :: m <= i < |p| ==> p[i] == Sep
    ensures Components(p) == Components(p[..m])
    decreases |p| - m
  {
    if m < |p| {
      ComponentsTrim(p, m + 1);
      assert p[..m + 1] == p[..m] + [Sep] + "";
      ComponentsAround(p[..m], "");
    } else {
      assert p[..m] == p;
    }
  }

  /** The parent of a path names every component but the last. This holds
      for an absolute path and for a relative one with two names or more; a
      relative single name has the parent "." instead. */
  lemma DirnameComponents(p: string)
    requires IsAbsolute(p) || |Components(p)| >= 2
    ensures Components(Dirname(p)) == DropLast(Components(p))
  {
    RootHasNoNames();
    var t := TrimTrailingSeps(p);
    var k := LastSep(t);
    ComponentsTrim(p, |t|);
    if k < 0 {
      ComponentsOfName(t);
      assert false;
    } else if k == |t| - 1 {
      DirnameOfRoot(p, t);
    } else {
      DirnameCut(p, t, k);
    }
  }

  lemma RootHasNoNames()
    ensures Components("/") == [] && Components("//") == [] && Components("") == []
  {
    assert Split("/") == ["", ""];
    assert Split("//") == ["", "", ""];
  }

  lemma DirnameOfRoot(p: string, t: string)
    requires p != "" && t == TrimTrailingSeps(p) && LastSep(t) == |t| - 1
    requires Components(p) == Components(t)
    ensures Components(Dirname(p)) == DropLast(Components(p))
  {
    assert |t| == 1 && t == "/";
    RootHasNoNames();
  }

  /** Cutting at the last separator: the names before it, then the name after it. */
  lemma CutAtLastSep(t: string, k: int)
    requires 0 <= k < |t| - 1 && t[k] == Sep
    requires forall i :: k < i < |t| ==> t[i] != Sep
    ensures Components(t) == Components(t[..k]) + [t[k + 1..]]
  {
    var w := t[k + 1..];
    assert Sep !in w by {
      forall c | c in w
        ensures c != Sep
      {
        var i :| 0 <= i < |w| && w[i] == c;
        assert t[k + 1 + i] == c;
      }
    }
    assert t == t[..k] + [Sep] + w;
    ComponentsAround(t[..k], w);
    ComponentsOfName(w);
  }

  lemma DirnameCut(p: string, t: string, k: int)
    requires p != "" && t == TrimTrailingSeps(p) && k == LastSep(t) && 0 <= k < |t| - 1
    requires Components(p) == Components(t)
    ensures Components(Dirname(p)) == DropLast(Components(p))
  {
    CutAtLastSep(t, k);
    var before := Components(t[..k]);
    assert DropLast(before + [t[k + 1..]]) == before;
    assert Dirname(p) == if k == 0 then "/" else if k == 1 && p[0] == Sep then "//" else p[..k];
    RootHasNoNames();
    if k == 0 {
      assert t[..k] == "";
    } else if k == 1 && p[0] == Sep {
      assert t[..k] == "/";
    } else {
      assert p[..k] == t[..k];
    }
  }
}
