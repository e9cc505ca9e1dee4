/** The breadcrumb bar (src/renderer/components/PathNavigator.tsx): the
    segments it derives from the current path, and the path each of its
    buttons and crumbs asks to navigate to. */
module PathNavigator {
  import opened Types
  import opened Paths
  import FileSystem
  import MainProcess

  /** One crumb: a name of the path and the path up to and including it. */
  datatype Segment = Segment(name: string, path: string)

  /** What the bar can be clicked on: the three buttons, the root crumb
      shown before the segments of an absolute path, and a segment crumb. */
  datatype Control = HomeButton | UpButton | SelectFolderButton | RootCrumb | Crumb(segment: Segment)

  /** What a click asks of the component above: `onNavigate(path)` or
      `onSelectDirectory()`. */
  datatype Request = Navigate(path: string) | SelectDirectory

  /** Where the accumulation starts: the root for an absolute path, nothing
      otherwise. */
  function Start(currentPath: string): string {
    if IsAbsolute(currentPath) then [Sep] else []
  }

  /** The accumulated path after joining the first `n` names one by one
      onto `start`. */
  function Accumulate(start: string, names: seq<string>, n: nat): string
    requires n <= |names|
  {
    if n == 0 then start else Join(Accumulate(start, names, n - 1), names[n - 1])
  }

  /** `getPathSegments`: one segment per name of the path, each carrying the
      path accumulated up to and including it with `path.join`. */
  method GetPathSegments(currentPath: string) returns (segments: seq<Segment>)
    ensures currentPath == "" ==> segments == []
    ensures |segments| == |Components(currentPath)|
    ensures forall i :: 0 <= i < |segments| ==>
      segments[i] == Segment(Components(currentPath)[i], Accumulate(Start(currentPath), Components(currentPath), i + 1))
  {
    if currentPath == "" {
      RootHasNoNames();
      return [];
    }
    var names := Components(currentPath);
    var accumulated := Start(currentPath);
    segments := [];
    var i := 0;
    while i < |names|
      invariant 0 <= i <= |names| && |segments| == i
      invariant forall k :: 0 <= k < i ==> segments[k] == Segment(names[k], Accumulate(Start(currentPath), names, k + 1))
      invariant accumulated == Accumulate(Start(currentPath), names, i)
    {
      accumulated := Join(accumulated, names[i]);
      segments := segments + [Segment(names[i], accumulated)];
      i := i + 1;
    }
  }

  /** What the crumbs mean: the path accumulated over the first `n` names
      has exactly those names and is absolute when the current path is. The
      first crumb is the name after the root (absolute) or the name alone
      (relative), and each later crumb extends the one before by a separator
      and its name. */
  lemma AccumulatedPrefix(currentPath: string, n: nat)
    requires n <= |Components(currentPath)|
    ensures var p := Accumulate(Start(currentPath), Components(currentPath), n);
      && Components(p) == Components(currentPath)[..n]
      && (IsAbsolute(p) <==> IsAbsolute(currentPath))
    ensures n == 1 ==>
      Accumulate(Start(currentPath), Components(currentPath), n) == Start(currentPath) + Components(currentPath)[0]
    ensures n >= 2 ==>
      Accumulate(Start(currentPath), Components(currentPath), n)
      == Accumulate(Start(currentPath), Components(currentPath), n - 1) + [Sep] + Components(currentPath)[n - 1]
  {
    var all := Components(currentPath);
    forall k | 0 <= k < |all|
      ensures all[k] != "" && Sep !in all[k]
    {
      assert all[k] in all;
    }
    AccumulateNames(Start(currentPath), all, n);
    if n >= 1 {
      AccumulateNames(Start(currentPath), all, n - 1);
    }
  }

  /** The induction behind `AccumulatedPrefix`, over any names that hold no
      separator, starting from the root or from nothing. */
  lemma {:induction false} AccumulateNames(start: string, names: seq<string>, n: nat)
    requires start == [] || start == [Sep]
    requires forall k :: 0 <= k < |names| ==> names[k] != "" && Sep !in names[k]
    requires n <= |names|
    ensures var p := Accumulate(start, names, n);
      && Components(p) == names[..n]
      && (IsAbsolute(p) <==> IsAbsolute(start))
      && (n > 0 ==> p != "" && p[|p| - 1] != Sep)
    ensures n == 1 ==> Accumulate(start, names, n) == start + names[0]
    ensures n >= 2 ==> Accumulate(start, names, n) == Accumulate(start, names, n - 1) + [Sep] + names[n - 1]
  {
    if n == 0 {
      RootHasNoNames();
      assert names[..0] == [];
    } else {
      AccumulateNames(start, names, n - 1);
      var previous := Accumulate(start, names, n - 1);
      var name := names[n - 1];
      JoinName(previous, name);
      assert names[..n] == names[..n - 1] + [name];
      if n >= 2 {
        assert previous != [Sep];
      }
    }
  }

  /** One step of the accumulation: joining a name onto the root, onto
      nothing, or onto a path that does not end in a separator appends that
      name and keeps the path absolute or relative. */
  lemma JoinName(accumulated: string, name: string)
    requires name != "" && Sep !in name
    requires accumulated == "" || accumulated == [Sep] || accumulated[|accumulated| - 1] != Sep
    ensures Components(Join(accumulated, name)) == Components(accumulated) + [name]
    ensures IsAbsolute(Join(accumulated, name)) <==> IsAbsolute(accumulated)
    ensures Join(accumulated, name) ==
      (if accumulated == "" then [] else if accumulated == [Sep] then [Sep] else accumulated + [Sep]) + name
    ensures var j := Join(accumulated, name); j != "" && j[|j| - 1] != Sep
  {
    ComponentsJoin(accumulated, name);
    ComponentsOfName(name);
    assert name[0] != Sep by {
      assert name[0] in name;
    }
    assert name[|name| - 1] in name;
  }

  /** The last crumb leads back to the current path's own names. */
  lemma LastCrumbIsCurrent(currentPath: string)
    requires Components(currentPath) != []
    ensures Components(Accumulate(Start(currentPath), Components(currentPath), |Components(currentPath)|))
         == Components(currentPath)
  {
    AccumulatedPrefix(currentPath, |Components(currentPath)|);
    assert Components(currentPath)[..|Components(currentPath)|] == Components(currentPath);
  }

  /** `navigateToParent`, `navigateToHome`, the folder button and the crumbs'
      `onClick`. The Up button is disabled while the path is empty, and the
      root crumb is only rendered for an absolute path. */
  function Clicked(currentPath: string, control: Control): (request: Option<Request>)
    ensures control == HomeButton ==> request == Some(Navigate(""))
    ensures control == UpButton ==> (request.None? <==> currentPath == "")
    ensures control == UpButton && currentPath != "" ==> request == Some(Navigate(Dirname(currentPath)))
    ensures control == SelectFolderButton ==> request == Some(SelectDirectory)
    ensures control == RootCrumb ==> (request.Some? <==> IsAbsolute(currentPath))
    ensures control == RootCrumb && request.Some? ==> request.value == Navigate([Sep])
    ensures control.Crumb? ==> request == Some(Navigate(control.segment.path))
  {
    match control
    case HomeButton => Some(Navigate(""))
    case UpButton => if currentPath == "" then None else Some(Navigate(Dirname(currentPath)))
    case SelectFolderButton => Some(SelectDirectory)
    case RootCrumb => if IsAbsolute(currentPath) then Some(Navigate([Sep])) else None
    case Crumb(segment) => Some(Navigate(segment.path))
  }

  /** "Home Directory" is shown when there are no segments and no root crumb. */
  predicate ShowsHomeLabel(currentPath: string) {
    |Components(currentPath)| == 0 && !IsAbsolute(currentPath)
  }

  /** The label is shown exactly for the empty path: any other path either
      starts at the root or starts with a name. */
  lemma HomeLabelOnlyAtHome(currentPath: string)
    ensures ShowsHomeLabel(currentPath) <==> currentPath == ""
  {
    RootHasNoNames();
    if currentPath != "" && !IsAbsolute(currentPath) {
      var fields := Split(currentPath);
      assert fields[0] != "" by {
        assert fields[0][0] == currentPath[0];
      }
      assert Components(currentPath) == [fields[0]] + NonEmpty(fields[1..]);
    }
  }

  /** Up leads to the directory one name shorter, for an absolute path and
      for a relative one of at least two names. */
  lemma UpDropsLastName(currentPath: string)
    requires IsAbsolute(currentPath) || |Components(currentPath)| >= 2
    ensures Clicked(currentPath, UpButton).Some?
    ensures Components(Clicked(currentPath, UpButton).value.path) == DropLast(Components(currentPath))
  {
    RootHasNoNames();
    DirnameComponents(currentPath);
  }

  /** At the root, Up stays at the root. */
  lemma UpAtRootStays()
    ensures Clicked([Sep], UpButton) == Some(Navigate([Sep]))
  {
  }

  /** The Home button lists the home directory: the main process reads the
      empty path as home. */
  lemma HomeButtonListsHome(fs: FileSystem.Fs, home: string, currentPath: string)
    ensures Clicked(currentPath, HomeButton).Some?
    ensures MainProcess.ListDirectory(fs, home, Clicked(currentPath, HomeButton).value.path)
         == MainProcess.ListDirectory(fs, home, home)
  {
    MainProcess.EmptyPathListsHome(fs, home);
  }
}
