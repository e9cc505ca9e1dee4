/** The filesystem the main process works on, as an abstract tree. Every
    call can be made to fail through a fault oracle keyed by the call and the
    path string it is given; otherwise a call fails the way Node's `fs` does
    on a missing entry or a wrong kind of entry. */
module FileSystem {
  import opened Types
  import opened Paths

  datatype Node =
    | File(size: nat)
    | Directory(size: nat, children: seq<Entry>)

  /** A directory entry; `children` keeps the order in which readdir reports them. */
  datatype Entry = Entry(name: string, node: Node)

  /** The `fs.promises` calls the handlers make. */
  datatype Op = Access | Stat | ReadDir | Rmdir | Unlink

  /** A Node error: its `code` (such as "EACCES") and its `message`. */
  datatype OsError = OsError(code: string, message: string)

  datatype Outcome<+T> = Done(value: T) | Failed(error: OsError)

  datatype Stats = Stats(isDirectory: bool, size: nat)

  /** The tree and the fault oracle: `faults[(op, p)]` is the error `op`
      raises on the path string `p`, whatever the tree holds. */
  datatype Fs = Fs(root: Node, faults: map<(Op, string), OsError>)

  function Names(children: seq<Entry>): (names: seq<string>)
    ensures |names| == |children|
    ensures forall i :: 0 <= i < |children| ==> names[i] == children[i].name
  {
    seq(|children|, i requires 0 <= i < |children| => children[i].name)
  }

  /** The first child with the given name. */
  function Child(children: seq<Entry>, name: string): (found: Option<Node>)
    ensures found.None? <==> name !in Names(children)
    ensures found.Some? ==> exists i :: 0 <= i < |children| && children[i] == Entry(name, found.value)
  {
    if children == [] then None
    else if children[0].name == name then Some(children[0].node)
    else
      var r := Child(children[1..], name);
      assert Names(children) == [children[0].name] + Names(children[1..]);
      if r.Some? then
        var i :| 0 <= i < |children| - 1 && children[1..][i] == Entry(name, r.value);
        assert children[i + 1] == Entry(name, r.value);
        r
      else r
  }

  /** The node reached by following `names` down from `n`. */
  function Find(n: Node, names: seq<string>): Option<Node> {
    if names == [] then Some(n)
    else match n
      case File(_) => None
      case Directory(_, cs) =>
        match Child(cs, names[0])
        case None => None
        case Some(c) => Find(c, names[1..])
  }

  /** The node a path string names, the tree being rooted at "/". The empty
      string names nothing (Node rejects it with ENOENT). */
  function Lookup(root: Node, p: string): Option<Node> {
    if p == "" then None else Find(root, Components(p))
  }

  /** A Node-style error: "CODE: description, syscall 'path'". */
  function SysError(code: string, description: string, syscall: string, p: string): OsError {
    OsError(code, code + ": " + description + ", " + syscall + " '" + p + "'")
  }

  function NotFound(syscall: string, p: string): OsError {
    SysError("ENOENT", "no such file or directory", syscall, p)
  }

  /** `fs.promises.access(p)`: the error it raises, if any. */
  function AccessResult(fs: Fs, p: string): Option<OsError> {
    if (Access, p) in fs.faults then Some(fs.faults[(Access, p)])
    else if Lookup(fs.root, p).None? then Some(NotFound("access", p))
    else None
  }

  /** `fs.promises.stat(p)`. */
  function StatResult(fs: Fs, p: string): Outcome<Stats> {
    if (Stat, p) in fs.faults then Failed(fs.faults[(Stat, p)])
    else match Lookup(fs.root, p)
      case None => Failed(NotFound("stat", p))
      case Some(n) => Done(Stats(n.Directory?, n.size))
  }

  /** `fs.promises.readdir(p)`: the names in the directory, in its order. */
  function ReadDirResult(fs: Fs, p: string): Outcome<seq<string>> {
    if (ReadDir, p) in fs.faults then Failed(fs.faults[(ReadDir, p)])
    else match Lookup(fs.root, p)
      case None => Failed(NotFound("scandir", p))
      case Some(File(_)) => Failed(SysError("ENOTDIR", "not a directory", "scandir", p))
      case Some(Directory(_, cs)) => Done(Names(cs))
  }

  /** The error of `rmdir(p, {recursive: true})` (op Rmdir) or `unlink(p)`
      (op Unlink), if any. The root itself cannot be removed. */
  function RemoveResult(fs: Fs, op: Op, p: string): (err: Option<OsError>)
    requires op == Rmdir || op == Unlink
    ensures err.None? ==> Lookup(fs.root, p).Some? && Components(p) != []
    ensures err.None? ==> (op == Rmdir <==> Lookup(fs.root, p).value.Directory?)
    ensures (op, p) in fs.faults ==> err == Some(fs.faults[(op, p)])
  {
    var syscall := if op == Rmdir then "rmdir" else "unlink";
    if (op, p) in fs.faults then Some(fs.faults[(op, p)])
    else match Lookup(fs.root, p)
      case None => Some(NotFound(syscall, p))
      case Some(n) =>
        if op == Rmdir && n.File? then Some(SysError("ENOTDIR", "not a directory", syscall, p))
        else if op == Unlink && n.Directory? then Some(SysError("EISDIR", "illegal operation on a directory", syscall, p))
        else if Components(p) == [] then Some(SysError("EBUSY", "resource busy or locked", syscall, p))
        else None
  }

  /** Names within one directory are unique, as on a real filesystem. */
  predicate UniqueNames(children: seq<Entry>) {
    forall i, j :: 0 <= i < j < |children| ==> children[i].name != children[j].name
  }

  /** The entries without any named `name`. */
  function Without(children: seq<Entry>, name: string): (rest: seq<Entry>)
    ensures Names(rest) == NamesWithout(Names(children), name)
  {
    if children == [] then []
    else
      assert Names(children) == [children[0].name] + Names(children[1..]);
      if children[0].name == name then Without(children[1..], name)
      else
        var tail := Without(children[1..], name);
        assert Names([children[0]] + tail) == [children[0].name] + Names(tail);
        [children[0]] + tail
  }

  function NamesWithout(names: seq<string>, name: string): (rest: seq<string>)
    ensures name !in rest
    ensures forall n <- rest :: n in names
  {
    if names == [] then []
    else if names[0] == name then NamesWithout(names[1..], name)
    else [names[0]] + NamesWithout(names[1..], name)
  }

  /** The tree with the entry at `names` detached from its parent, together
      with everything below it. */
  function RemoveNode(n: Node, names: seq<string>): Node
    requires names != []
    decreases |names|, 2, 0
  {
    match n
    case File(_) => n
    case Directory(s, cs) => Directory(s, RemoveIn(cs, names))
  }

  function RemoveIn(children: seq<Entry>, names: seq<string>): seq<Entry>
    requires names != []
    decreases |names|, 1, |children|
  {
    if children == [] then []
    else if children[0].name != names[0] then [children[0]] + RemoveIn(children[1..], names)
    else if |names| == 1 then Without(children, names[0])
    else [Entry(children[0].name, RemoveNode(children[0].node, names[1..]))] + children[1..]
  }

  /** Following a path in two steps is following it in one. */
  lemma {:induction false} FindAppend(n: Node, a: seq<string>, b: seq<string>)
    ensures Find(n, a + b) == match Find(n, a) case None => None case Some(m) => Find(m, b)
  {
    if a == [] {
      assert a + b == b;
    } else {
      assert (a + b)[0] == a[0] && (a + b)[1..] == a[1..] + b;
      match n
      case File(_) =>
      case Directory(_, cs) =>
        match Child(cs, a[0])
        case None =>
        case Some(c) => FindAppend(c, a[1..], b);
    }
  }

  lemma {:induction false} ChildRemoveIn(cs: seq<Entry>, names: seq<string>)
    requires |names| >= 2
    ensures Child(RemoveIn(cs, names), names[0]) ==
      match Child(cs, names[0]) case None => None case Some(c) => Some(RemoveNode(c, names[1..]))
  {
    if cs != [] && cs[0].name != names[0] {
      ChildRemoveIn(cs[1..], names);
    }
  }

  lemma {:induction false} ChildWithout(cs: seq<Entry>, name: string)
    ensures Child(Without(cs, name), name).None?
  {
  }

  /** After the removal nothing is left at the removed path. */
  lemma {:induction false} RemovedIsGone(n: Node, names: seq<string>)
    requires names != []
    ensures Find(RemoveNode(n, names), names).None?
  {
    match n
    case File(_) =>
    case Directory(s, cs) =>
      if |names| == 1 {
        assert names == [names[0]];
        RemoveInWithout(cs, names[0]);
        ChildWithout(cs, names[0]);
      } else {
        ChildRemoveIn(cs, names);
        match Child(cs, names[0])
        case None =>
        case Some(c) => RemovedIsGone(c, names[1..]);
      }
  }

  /** The whole subtree goes: no path below the removed one is found either. */
  lemma SubtreeIsGone(n: Node, names: seq<string>, below: seq<string>)
    requires names != []
    ensures Find(RemoveNode(n, names), names + below).None?
  {
    RemovedIsGone(n, names);
    FindAppend(RemoveNode(n, names), names, below);
  }

  /** Removing one name leaves a child with another name as it was. */
  lemma {:induction false} ChildWithoutOther(cs: seq<Entry>, name: string, other: string)
    requires other != name
    ensures Child(Without(cs, name), other) == Child(cs, other)
  {
    if cs != [] {
      ChildWithoutOther(cs[1..], name, other);
    }
  }

  /** Removing below one name leaves a child with another name as it was. */
  lemma {:induction false} ChildRemoveInOther(cs: seq<Entry>, names: seq<string>, other: string)
    requires names != [] && other != names[0]
    ensures Child(RemoveIn(cs, names), other) == Child(cs, other)
  {
    if cs != [] {
      if cs[0].name != names[0] {
        ChildRemoveInOther(cs[1..], names, other);
      } else if |names| == 1 {
        ChildWithoutOther(cs, names[0], other);
      }
    }
  }

  /** A removal leaves every other path alone: a path that parts from the
      removed one at some name finds the same node before and after. */
  lemma {:induction false} RemoveElsewhereKeeps(n: Node, names: seq<string>, q: seq<string>, i: nat)
    requires i < |names| && i < |q| && q[i] != names[i]
    requires forall k :: 0 <= k < i ==> q[k] == names[k]
    ensures Find(RemoveNode(n, names), q) == Find(n, q)
    decreases i
  {
    match n
    case File(_) =>
    case Directory(s, cs) =>
      if i == 0 {
        ChildRemoveInOther(cs, names, q[0]);
      } else if Child(cs, names[0]).Some? {
        var c := Child(cs, names[0]).value;
        StepDown(s, cs, c, names, q);
        var rest, restQ := names[1..], q[1..];
        forall k | 0 <= k < i - 1
          ensures restQ[k] == rest[k]
        {
          assert restQ[k] == q[k + 1] && rest[k] == names[k + 1];
        }
        assert restQ[i - 1] == q[i] && rest[i - 1] == names[i];
        RemoveElsewhereKeeps(c, rest, restQ, i - 1);
      } else {
        ChildRemoveIn(cs, names);
      }
  }

  /** Finding below a directory through its child `c`, before and after a
      removal below that child. */
  lemma StepDown(s: nat, cs: seq<Entry>, c: Node, names: seq<string>, q: seq<string>)
    requires |names| >= 2 && q != [] && q[0] == names[0]
    requires Child(cs, names[0]) == Some(c)
    ensures Find(RemoveNode(Directory(s, cs), names), q) == Find(RemoveNode(c, names[1..]), q[1..])
    ensures Find(Directory(s, cs), q) == Find(c, q[1..])
  {
    ChildRemoveIn(cs, names);
  }

  lemma {:induction false} RemoveInWithout(cs: seq<Entry>, name: string)
    ensures RemoveIn(cs, [name]) == Without(cs, name)
  {
    if cs != [] && cs[0].name != name {
      RemoveInWithout(cs[1..], name);
    }
  }

  /** The parent directory keeps all its other entries, in their order. */
  lemma {:induction false} RemoveKeepsSiblings(n: Node, names: seq<string>, s: nat, cs: seq<Entry>)
    requires names != []
    requires Find(n, DropLast(names)) == Some(Directory(s, cs))
    ensures Find(RemoveNode(n, names), DropLast(names)) == Some(Directory(s, Without(cs, names[|names| - 1])))
  {
    if |names| == 1 {
      assert names == [names[0]];
      RemoveInWithout(cs, names[0]);
    } else {
      match n
      case File(_) =>
      case Directory(s0, cs0) =>
        assert DropLast(names)[0] == names[0];
        assert DropLast(names)[1..] == DropLast(names[1..]);
        ChildRemoveIn(cs0, names);
        var c := Child(cs0, names[0]).value;
        RemoveKeepsSiblings(c, names[1..], s, cs);
    }
  }

  /** Removing a name a directory does not hold changes nothing. */
  lemma {:induction false} WithoutAbsent(cs: seq<Entry>, name: string)
    requires name !in Names(cs)
    ensures Without(cs, name) == cs
  {
    if cs != [] {
      assert Names(cs) == [cs[0].name] + Names(cs[1..]);
      WithoutAbsent(cs[1..], name);
    }
  }

  /** The first name of a directory with unique names is not repeated
      after it, and the rest keep unique names. */
  lemma HeadNotInTail(cs: seq<Entry>)
    requires cs != [] && UniqueNames(cs)
    ensures cs[0].name !in Names(cs[1..]) && UniqueNames(cs[1..])
  {
    forall k | 0 <= k < |cs| - 1
      ensures Names(cs[1..])[k] != cs[0].name
    {
      assert cs[k + 1].name != cs[0].name;
    }
  }

  /** An entry whose name the others lack can be put in front of them. */
  lemma ConsUnique(e: Entry, rest: seq<Entry>)
    requires UniqueNames(rest) && e.name !in Names(rest)
    ensures UniqueNames([e] + rest)
  {
    forall i, j | 0 <= i < j < |rest| + 1
      ensures ([e] + rest)[i].name != ([e] + rest)[j].name
    {
      if i == 0 {
        assert Names(rest)[j - 1] == rest[j - 1].name;
      }
    }
  }

  /** In a directory whose names are unique, removing a name it holds takes
      out exactly one entry and keeps the others unique. */
  lemma {:induction false} WithoutRemovesOne(cs: seq<Entry>, name: string)
    requires UniqueNames(cs) && name in Names(cs)
    ensures |Without(cs, name)| == |cs| - 1
    ensures UniqueNames(Without(cs, name))
  {
    assert Names(cs) == [cs[0].name] + Names(cs[1..]);
    HeadNotInTail(cs);
    if cs[0].name == name {
      WithoutAbsent(cs[1..], name);
    } else {
      WithoutRemovesOne(cs[1..], name);
      var tail := Without(cs[1..], name);
      assert Names(tail) == NamesWithout(Names(cs[1..]), name);
      ConsUnique(cs[0], tail);
    }
  }

  /** The disk that `fs.promises` reads and changes in place. */
  class Disk {
    var root: Node
    const faults: map<(Op, string), OsError>

    constructor (root: Node, faults: map<(Op, string), OsError>)
      ensures this.root == root && this.faults == faults
    {
      this.root := root;
      this.faults := faults;
    }

    function State(): Fs
      reads this
    {
      Fs(root, faults)
    }

    /** `access(p)`: the injected error if there is one, otherwise ENOENT
        exactly when the path names nothing. */
    method CheckAccess(p: string) returns (err: Option<OsError>)
      ensures (Access, p) in faults ==> err == Some(faults[(Access, p)])
      ensures (Access, p) !in faults ==> (err.None? <==> Lookup(root, p).Some?)
      ensures (Access, p) !in faults && err.Some? ==>
        err == Some(NotFound("access", p)) && err.value.code == "ENOENT"
    {
      err := AccessResult(State(), p);
    }

    /** `stat(p)`: the injected error if there is one, otherwise the kind and
        size of the node the path names, or ENOENT when it names nothing. */
    method StatPath(p: string) returns (r: Outcome<Stats>)
      ensures (Stat, p) in faults ==> r == Failed(faults[(Stat, p)])
      ensures (Stat, p) !in faults && Lookup(root, p).Some? ==>
        r == Done(Stats(Lookup(root, p).value.Directory?, Lookup(root, p).value.size))
      ensures (Stat, p) !in faults && Lookup(root, p).None? ==>
        r == Failed(NotFound("stat", p)) && r.error.code == "ENOENT"
    {
      r := StatResult(State(), p);
    }

    /** `rmdir(p, {recursive: true})`: removes the directory and its subtree. */
    method RemoveDirectory(p: string) returns (err: Option<OsError>)
      modifies this
      ensures err == RemoveResult(old(State()), Rmdir, p)
      ensures err.None? ==> root == RemoveNode(old(root), Components(p))
      ensures err.Some? ==> root == old(root)
    {
      err := RemoveResult(State(), Rmdir, p);
      if err.None? {
        root := RemoveNode(root, Components(p));
      }
    }

    /** `unlink(p)`: removes one non-directory entry. */
    method UnlinkFile(p: string) returns (err: Option<OsError>)
      modifies this
      ensures err == RemoveResult(old(State()), Unlink, p)
      ensures err.None? ==> root == RemoveNode(old(root), Components(p))
      ensures err.Some? ==> root == old(root)
    {
      err := RemoveResult(State(), Unlink, p);
      if err.None? {
        root := RemoveNode(root, Components(p));
      }
    }
  }
}
