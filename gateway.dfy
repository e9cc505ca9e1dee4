/** What a `window.api` call answers end to end: the preload guard, then the
    main-process handler registered for the channel, if there is one. An
    invoke on a channel without a handler is rejected by Electron. */
module Gateway {
  import opened Types
  import opened FileSystem
  import Paths
  import Preload
  import MainProcess

  /** The rejection of an invoke nobody handles. */
  function NoHandler(channel: string): string {
    "No handler registered for '" + channel + "'"
  }

  /** `window.api.listDirectory(path)`. */
  function ListReply(fs: Fs, home: string, path: Preload.JsValue): (reply: Reply<Listing>)
    ensures reply.Rejected? <==> !Preload.IsString(path)
    ensures reply.Rejected? ==> reply.message == Preload.InvalidPath
    ensures reply.Resolved? ==> reply.value == MainProcess.ListDirectory(fs, home, path.str)
  {
    match Preload.ListDirectory(path)
    case Rejected(m) => Rejected(m)
    case Invoke(channel, args) => Resolved(MainProcess.ListDirectory(fs, home, args[0]))
  }

  /** `window.api.deleteFile(path)`: a refused path never reaches the disk. */
  method DeleteReply(disk: Disk, path: Preload.JsValue) returns (reply: Reply<DeleteResult>)
    modifies disk
    ensures !Preload.IsValidPath(path) ==>
      reply == Rejected(Preload.InvalidPath) && disk.root == old(disk.root)
    ensures Preload.IsValidPath(path) ==>
      && reply.Resolved?
      && (reply.value.success <==> MainProcess.DeleteError(old(disk.State()), path.str).None?)
      && (!reply.value.success ==>
            reply.value == MainProcess.ClassifyError(MainProcess.DeleteError(old(disk.State()), path.str).value))
      && (reply.value.success ==> reply.value == DeleteResult(true, None, false))
      && (reply.value.success ==> disk.root == RemoveNode(old(disk.root), Paths.Components(path.str)))
      && (!reply.value.success ==> disk.root == old(disk.root))
  {
    var call := Preload.DeleteFile(path);
    match call
    case Rejected(m) =>
      reply := Rejected(m);
    case Invoke(channel, args) =>
      var result := MainProcess.DeleteFile(disk, args[0]);
      reply := Resolved(result);
  }

  /** `window.api.deleteFileWithElevatedPrivileges(path, password)`: no
      handler is registered for its channel, so the call is always rejected. */
  function ElevatedDeleteReply(path: Preload.JsValue, password: Preload.JsValue): (reply: Reply<DeleteResult>)
    ensures reply.Rejected?
    ensures !Preload.IsValidPath(path) ==> reply.message == Preload.InvalidPath
    ensures Preload.IsValidPath(path) && Preload.IsString(password) ==>
      reply.message == NoHandler(Preload.ElevatedDeleteChannel)
  {
    match Preload.DeleteFileWithElevatedPrivileges(path, password)
    case Rejected(m) => Rejected(m)
    case Invoke(channel, args) =>
      assert channel !in MainProcess.HandledChannels;
      Rejected(NoHandler(channel))
  }

  /** `window.api.selectDirectory()`. */
  function SelectReply(hasWindow: bool, dialog: MainProcess.OpenDialogResult): (reply: Reply<SelectResult>)
    ensures reply.Resolved?
    ensures reply.value.canceled <==> !hasWindow || dialog.canceled || dialog.filePaths == []
    ensures !reply.value.canceled ==> reply.value.path == Some(dialog.filePaths[0])
    ensures reply == Resolved(MainProcess.SelectDirectory(hasWindow, dialog))
  {
    Resolved(MainProcess.SelectDirectory(hasWindow, dialog))
  }

  /** `window.api.testIpc()`. */
  function TestReply(): (reply: Reply<TestResult>)
    ensures reply == Resolved(TestResult(true, MainProcess.IpcWorking))
  {
    assert Preload.TestIpc().channel in MainProcess.HandledChannels;
    Resolved(MainProcess.TestIpc())
  }

  /** Listing any string is answered with a value, even when the directory
      cannot be read: the failure is inside the listing, not a rejection. */
  lemma ListingOfAStringResolves(fs: Fs, home: string, path: string)
    ensures ListReply(fs, home, Preload.JsString(path)).Resolved?
  {
  }
}
