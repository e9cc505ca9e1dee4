/** The handlers the main process registers with `ipcMain.handle`
    (src/main/index.ts): the connectivity probe, directory listing, deletion
    and directory selection, over the abstract filesystem. */
module MainProcess {
  import opened Types
  import opened Paths
  import opened FileSystem

  const IpcWorking := "IPC is working!"
  const PermissionDenied := "Permission denied"
  const ElevationRequired := "Permission denied. This file requires elevated privileges to delete."
  const EACCES := "EACCES"

  /** The channels a handler is registered for; an invoke on any other
      channel is rejected by Electron. */
  const HandledChannels: set<string> := {"test-ipc", "list-directory", "delete-file", "select-directory"}

  /** `test-ipc`: always answers success. */
  function TestIpc(): (r: TestResult)
    ensures r.success && r.message == IpcWorking
  {
    TestResult(true, IpcWorking)
  }

  /** The directory `list-directory` works on: an empty path means home. */
  function ListedDirectory(home: string, dirPath: string): string {
    if dirPath == "" then home else dirPath
  }

  /** One row of a listing: the entry's stats, or the placeholder built when
      stat fails. */
  function EntryFor(fs: Fs, directory: string, name: string): (info: FileInfo)
    ensures info.name == name && info.path == Join(directory, name)
    ensures StatResult(fs, Join(directory, name)).Failed? ==>
      !info.isDirectory && info.size == 0 && info.error == Some(PermissionDenied)
    ensures StatResult(fs, Join(directory, name)).Done? ==>
      var st := StatResult(fs, Join(directory, name)).value;
      info.isDirectory == st.isDirectory && info.size == st.size && info.error == None
  {
    var filePath := Join(directory, name);
    match StatResult(fs, filePath)
    case Done(st) => FileInfo(name, filePath, st.isDirectory, st.size, None)
    case Failed(_) => FileInfo(name, filePath, false, 0, Some(PermissionDenied))
  }

  /** `list-directory`: the directory actually listed with one row per name
      readdir reports, in that order; or, when readdir fails, only its message. */
  function ListDirectory(fs: Fs, home: string, dirPath: string): (r: Listing)
    ensures r.Listed? <==> ReadDirResult(fs, ListedDirectory(home, dirPath)).Done?
    ensures r.ListError? ==> r.error == ReadDirResult(fs, ListedDirectory(home, dirPath)).error.message
    ensures r.Listed? ==>
      var names := ReadDirResult(fs, ListedDirectory(home, dirPath)).value;
      && r.path == ListedDirectory(home, dirPath)
      && |r.files| == |names|
      && forall i :: 0 <= i < |names| ==>
           r.files[i].name == names[i] && r.files[i].path == Join(r.path, names[i])
  {
    var directory := if dirPath == "" then home else dirPath;
    match ReadDirResult(fs, directory)
    case Failed(e) => ListError(e.message)
    case Done(names) =>
      Listed(directory, seq(|names|, i requires 0 <= i < |names| => EntryFor(fs, directory, names[i])))
  }

  /** Each row depends on its own name only: a failing stat of one entry
      turns that row into the placeholder and leaves its siblings alone. */
  lemma RowsAreIndependent(fs: Fs, home: string, dirPath: string, i: nat)
    requires ListDirectory(fs, home, dirPath).Listed?
    requires i < |ListDirectory(fs, home, dirPath).files|
    ensures var r := ListDirectory(fs, home, dirPath);
      r.files[i] == EntryFor(fs, r.path, ReadDirResult(fs, r.path).value[i])
  {
  }

  /** Listing "" lists the home directory and says so in `path`. */
  lemma EmptyPathListsHome(fs: Fs, home: string)
    ensures ListDirectory(fs, home, "") == ListDirectory(fs, home, home)
    ensures ListDirectory(fs, home, "").Listed? ==> ListDirectory(fs, home, "").path == home
  {
  }

  /** A row reports the kind and size of the child it names, unless stat
      was made to fail on it. */
  lemma RowDescribesChild(fs: Fs, directory: string, name: string, s: nat, cs: seq<Entry>)
    requires directory != "" && name != "" && Sep !in name
    requires Lookup(fs.root, directory) == Some(Directory(s, cs))
    requires name in Names(cs)
    requires (Stat, Join(directory, name)) !in fs.faults
    ensures var info := EntryFor(fs, directory, name);
      var child := Child(cs, name).value;
      info.error == None && info.isDirectory == child.Directory? && info.size == child.size
  {
    ComponentsJoin(directory, name);
    ComponentsOfName(name);
    FindAppend(fs.root, Components(directory), [name]);
  }

  /** The error the `delete-file` try block ends in, if any: access, then
      stat, then rmdir for a directory or unlink for anything else. */
  function DeleteError(fs: Fs, filePath: string): (err: Option<OsError>)
    ensures (Access, filePath) in fs.faults ==> err == Some(fs.faults[(Access, filePath)])
    ensures err.None? ==>
      && (Access, filePath) !in fs.faults && (Stat, filePath) !in fs.faults
      && Lookup(fs.root, filePath).Some? && Components(filePath) != []
  {
    match AccessResult(fs, filePath)
    case Some(e) => Some(e)
    case None =>
      match StatResult(fs, filePath)
      case Failed(e) => Some(e)
      case Done(st) => RemoveResult(fs, if st.isDirectory then Rmdir else Unlink, filePath)
  }

  /** The catch block of `delete-file`: only the code EACCES asks for
      elevation, with the fixed message; any other error is passed on with
      its own message. */
  function ClassifyError(e: OsError): (r: DeleteResult)
    ensures !r.success
    ensures r.requiresElevation <==> e.code == EACCES
    ensures r.requiresElevation ==> r.error == Some(ElevationRequired)
    ensures !r.requiresElevation ==> r.error == Some(e.message)
  {
    if e.code == EACCES then DeleteResult(false, Some(ElevationRequired), true)
    else DeleteResult(false, Some(e.message), false)
  }

  /** `delete-file`: success is answered only after the removal is done, and
      a failure leaves the tree as it was. */
  method DeleteFile(disk: Disk, filePath: string) returns (result: DeleteResult)
    modifies disk
    ensures result.success <==> DeleteError(old(disk.State()), filePath).None?
    ensures result.success ==>
      && result == DeleteResult(true, None, false)
      && Components(filePath) != []
      && disk.root == RemoveNode(old(disk.root), Components(filePath))
    ensures !result.success ==>
      && disk.root == old(disk.root)
      && result == ClassifyError(DeleteError(old(disk.State()), filePath).value)
  {
    var err := disk.CheckAccess(filePath);
    if err.None? {
      var stats := disk.StatPath(filePath);
      if stats.Failed? {
        err := Some(stats.error);
      } else if stats.value.isDirectory {
        err := disk.RemoveDirectory(filePath);
      } else {
        err := disk.UnlinkFile(filePath);
      }
    }
    if err.None? {
      result := DeleteResult(true, None, false);
    } else {
      result := ClassifyError(err.value);
    }
  }

  /** A path that names nothing is never reported deleted. */
  lemma MissingPathIsNeverDeleted(fs: Fs, filePath: string)
    requires Lookup(fs.root, filePath).None?
    ensures DeleteError(fs, filePath).Some?
    ensures !ClassifyError(DeleteError(fs, filePath).value).success
    ensures (Access, filePath) !in fs.faults ==>
      DeleteError(fs, filePath) == Some(NotFound("access", filePath))
  {
  }

  /** A successful delete takes the whole subtree with it, whichever kind
      of entry it was. */
  lemma DeletedSubtreeIsGone(fs: Fs, filePath: string, below: seq<string>)
    requires DeleteError(fs, filePath).None?
    ensures Components(filePath) != []
    ensures Find(RemoveNode(fs.root, Components(filePath)), Components(filePath) + below).None?
  {
    SubtreeIsGone(fs.root, Components(filePath), below);
  }

  /** A delete changes nothing outside the deleted subtree: any path whose
      names part from the deleted path's names names the same node after. */
  lemma DeleteLeavesOtherPaths(fs: Fs, filePath: string, other: string, i: nat)
    requires DeleteError(fs, filePath).None?
    requires i < |Components(filePath)| && i < |Components(other)|
    requires Components(other)[..i] == Components(filePath)[..i]
    requires Components(other)[i] != Components(filePath)[i]
    ensures Lookup(RemoveNode(fs.root, Components(filePath)), other) == Lookup(fs.root, other)
  {
    forall k | 0 <= k < i
      ensures Components(other)[k] == Components(filePath)[k]
    {
      assert Components(other)[..i][k] == Components(filePath)[..i][k];
    }
    RemoveElsewhereKeeps(fs.root, Components(filePath), Components(other), i);
  }

  /** After a successful delete of an absolute path, listing its parent
      directory shows every other entry, in order, and none with the deleted
      name. */
  lemma DeleteThenListParent(fs: Fs, home: string, filePath: string)
    requires IsAbsolute(filePath) && DeleteError(fs, filePath).None?
    requires (ReadDir, Dirname(filePath)) !in fs.faults
    ensures var names := Components(filePath);
      var after := Fs(RemoveNode(fs.root, names), fs.faults);
      var listing := ListDirectory(after, home, Dirname(filePath));
      && ReadDirResult(fs, Dirname(filePath)).Done?
      && listing.Listed?
      && var others := NamesWithout(ReadDirResult(fs, Dirname(filePath)).value, names[|names| - 1]);
      && |listing.files| == |others|
      && (forall i :: 0 <= i < |others| ==> listing.files[i].name == others[i])
      && forall f <- listing.files :: f.name != names[|names| - 1]
  {
    var names := Components(filePath);
    var parent := Dirname(filePath);
    DirnameComponents(filePath);
    assert Components(parent) == DropLast(names);
    assert parent != "";
    var last := names[|names| - 1];
    assert names == DropLast(names) + [last];
    FindAppend(fs.root, DropLast(names), [last]);
    var dir := Find(fs.root, DropLast(names)).value;
    assert dir.Directory?;
    RemoveKeepsSiblings(fs.root, names, dir.size, dir.children);
    var after := Fs(RemoveNode(fs.root, names), fs.faults);
    assert ReadDirResult(after, parent).value == Names(Without(dir.children, last));
    var listing := ListDirectory(after, home, parent);
    forall f <- listing.files
      ensures f.name != last
    {
      var i :| 0 <= i < |listing.files| && listing.files[i] == f;
      assert f.name == NamesWithout(Names(dir.children), last)[i];
    }
  }

  /** The dialog's answer, as `dialog.showOpenDialog` gives it. */
  datatype OpenDialogResult = OpenDialogResult(canceled: bool, filePaths: seq<string>)

  /** `select-directory`: without a window the dialog is not shown; a
      cancelled dialog or one with no path chosen is a cancellation;
      otherwise the first chosen path. */
  function SelectDirectory(hasWindow: bool, dialog: OpenDialogResult): (r: SelectResult)
    ensures r.canceled <==> !hasWindow || dialog.canceled || dialog.filePaths == []
    ensures r.canceled ==> r == SelectResult(None, true)
    ensures !r.canceled ==> r == SelectResult(Some(dialog.filePaths[0]), false)
  {
    if !hasWindow then SelectResult(None, true)
    else if !dialog.canceled && |dialog.filePaths| > 0 then SelectResult(Some(dialog.filePaths[0]), false)
    else SelectResult(None, true)
  }
}
