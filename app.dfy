/** The top-level renderer component (src/renderer/App.tsx): its state
    fields and the handlers that update them. Every `window.api` call the
    handlers await is an input here: the reply it answered with. */
module App {
  import opened Types
  import Preload
  import Gateway
  import FileSystem
  import PathNavigator

  const LoadFailed := "Failed to load directory: "
  const SelectFailed := "Failed to select directory: "
  const DeleteFailed := "Failed to delete: "
  const ElevatedDeleteFailed := "Failed to delete with elevated privileges: "

  /** `result.error` read as a condition: present and non-empty. */
  predicate HasError(r: DeleteResult) {
    r.error.Some? && r.error.value != ""
  }

  class AppState {
    var currentPath: string
    var directoryContents: Option<Listing>
    var loading: bool
    var error: Option<string>
    var fileToElevate: Option<FileInfo>
    var showElevatedDialog: bool

    /** The dialog flag and the pending file are set and cleared together. */
    ghost predicate Valid()
      reads this
    {
      showElevatedDialog <==> fileToElevate.Some?
    }

    constructor ()
      ensures Valid()
      ensures currentPath == "" && directoryContents == None && loading && error == None
      ensures fileToElevate == None && !showElevatedDialog
    {
      currentPath := "";
      directoryContents := None;
      loading := true;
      error := None;
      fileToElevate := None;
      showElevatedDialog := false;
    }

    /** The path handed to the breadcrumb bar: `directoryContents?.path || ''`. */
    function NavigatorPath(): string
      reads this
    {
      match directoryContents
      case Some(Listed(p, _)) => p
      case _ => ""
    }

    /** The load effect, run on mount and whenever `currentPath` changes;
        `reply` is what `listDirectory(currentPath)` answered. A listing that
        failed inside the main process is still a value and is stored as it
        is; only a rejected call sets `error`. */
    method LoadDirectory(reply: Reply<Listing>) returns (listed: string)
      requires Valid()
      modifies this`loading, this`error, this`directoryContents
      ensures Valid() && !loading
      ensures listed == currentPath
      ensures reply.Resolved? ==> directoryContents == Some(reply.value) && error == None
      ensures reply.Rejected? ==>
        directoryContents == old(directoryContents) && error == Some(LoadFailed + reply.message)
      ensures reply.Resolved? && reply.value.Listed? ==> NavigatorPath() == reply.value.path
      ensures reply.Resolved? && reply.value.ListError? ==> NavigatorPath() == ""
    {
      listed := currentPath;
      loading := true;
      error := None;
      match reply {
        case Resolved(contents) =>
          directoryContents := Some(contents);
        case Rejected(message) =>
          error := Some(LoadFailed + message);
      }
      loading := false;
    }

    /** `handleNavigate`: `reload` says whether the load effect runs next,
        which React does only when the path actually changes. */
    method HandleNavigate(path: string) returns (reload: bool)
      requires Valid()
      modifies this`currentPath
      ensures Valid()
      ensures currentPath == path
      ensures reload <==> path != old(currentPath)
    {
      reload := path != currentPath;
      currentPath := path;
    }

    /** `handleDelete(file)`: `deleted` is the path handed to `deleteFile`
        and `reply` what that call answered; `relisted` is the path handed
        to the `listDirectory` that follows a success, and `relist` what it
        answered. `alert` is the text shown, if any. Success is tested first,
        so it wins over `requiresElevation`. */
    method HandleDelete(file: FileInfo, reply: Reply<DeleteResult>, relist: Reply<Listing>)
      returns (deleted: string, relisted: Option<string>, alert: Option<string>)
      requires Valid()
      modifies this`directoryContents, this`fileToElevate, this`showElevatedDialog
      ensures Valid()
      ensures var elevate := reply.Resolved? && !reply.value.success && reply.value.requiresElevation;
        && fileToElevate == (if elevate then Some(file) else old(fileToElevate))
        && showElevatedDialog == (elevate || old(showElevatedDialog))
      ensures directoryContents ==
        if reply.Resolved? && reply.value.success && relist.Resolved? then Some(relist.value)
        else old(directoryContents)
      ensures deleted == file.path
      ensures relisted == if reply.Resolved? && reply.value.success then Some(currentPath) else None
      ensures reply.Rejected? ==> alert == Some(DeleteFailed + reply.message)
      ensures reply.Resolved? && !reply.value.success && reply.value.requiresElevation ==> alert == None
      ensures reply.Resolved? && reply.value.success ==>
        alert == if relist.Rejected? then Some(DeleteFailed + relist.message) else None
      ensures reply.Resolved? && !reply.value.success && !reply.value.requiresElevation ==>
        alert == if HasError(reply.value) then Some("Error deleting " + file.name + ": " + reply.value.error.value) else None
    {
      deleted, relisted, alert := file.path, None, None;
      match reply {
        case Rejected(message) =>
          alert := Some(DeleteFailed + message);
        case Resolved(result) =>
          if result.success {
            relisted := Some(currentPath);
            match relist {
              case Resolved(contents) =>
                directoryContents := Some(contents);
              case Rejected(message) =>
                alert := Some(DeleteFailed + message);
            }
          } else if result.requiresElevation {
            fileToElevate := Some(file);
            showElevatedDialog := true;
          } else if HasError(result) {
            alert := Some("Error deleting " + file.name + ": " + result.error.value);
          }
      }
    }

    /** `handleElevatedDelete(password)`: nothing happens, and nothing is
        asked of the main process, when no file is pending. Otherwise
        `request` is the (path, password) pair sent, and after a success
        `relisted` is the path listed again. Only a success whose re-listing
        also succeeds closes the dialog and clears the file. */
    method HandleElevatedDelete(password: string, reply: Reply<DeleteResult>, relist: Reply<Listing>)
      returns (request: Option<(string, string)>, relisted: Option<string>, alert: Option<string>)
      requires Valid()
      modifies this`directoryContents, this`fileToElevate, this`showElevatedDialog
      ensures Valid()
      ensures old(fileToElevate).None? ==>
        request.None? && alert.None? && directoryContents == old(directoryContents) && fileToElevate.None?
      ensures old(fileToElevate).Some? ==> request == Some((old(fileToElevate).value.path, password))
      ensures relisted ==
        if old(fileToElevate).Some? && reply.Resolved? && reply.value.success then Some(currentPath) else None
      ensures var done := old(fileToElevate).Some? && reply.Resolved? && reply.value.success && relist.Resolved?;
        && directoryContents == (if done then Some(relist.value) else old(directoryContents))
        && fileToElevate == (if done then None else old(fileToElevate))
      ensures old(fileToElevate).Some? && reply.Rejected? ==>
        alert == Some(ElevatedDeleteFailed + reply.message)
      ensures old(fileToElevate).Some? && reply.Resolved? && reply.value.success ==>
        alert == if relist.Rejected? then Some(ElevatedDeleteFailed + relist.message) else None
      ensures old(fileToElevate).Some? && reply.Resolved? && !reply.value.success ==>
        alert == if HasError(reply.value) then Some("Error deleting file: " + reply.value.error.value) else None
    {
      request, relisted, alert := None, None, None;
      if fileToElevate.None? {
        return;
      }
      request := Some((fileToElevate.value.path, password));
      match reply {
        case Rejected(message) =>
          alert := Some(ElevatedDeleteFailed + message);
        case Resolved(result) =>
          if result.success {
            relisted := Some(currentPath);
            match relist {
              case Resolved(contents) =>
                directoryContents := Some(contents);
                showElevatedDialog := false;
                fileToElevate := None;
              case Rejected(message) =>
                alert := Some(ElevatedDeleteFailed + message);
            }
          } else if HasError(result) {
            alert := Some("Error deleting file: " + result.error.value);
          }
      }
    }

    /** `handleSelectDirectory`: navigates only to a chosen, non-empty path;
        `reload` says whether the load effect runs next. */
    method HandleSelectDirectory(reply: Reply<SelectResult>) returns (reload: bool)
      requires Valid()
      modifies this`currentPath, this`error
      ensures Valid()
      ensures var chosen := reply.Resolved? && !reply.value.canceled
                            && reply.value.path.Some? && reply.value.path.value != "";
        && currentPath == (if chosen then reply.value.path.value else old(currentPath))
        && (reload <==> chosen && currentPath != old(currentPath))
      ensures error == if reply.Rejected? then Some(SelectFailed + reply.message) else old(error)
    {
      reload := false;
      match reply {
        case Rejected(message) =>
          error := Some(SelectFailed + message);
        case Resolved(result) =>
          if !result.canceled && result.path.Some? && result.path.value != "" {
            reload := HandleNavigate(result.path.value);
          }
      }
    }

    /** The dialog's `onCancel`: closes it and forgets the file. */
    method CancelElevatedDialog()
      requires Valid()
      modifies this`fileToElevate, this`showElevatedDialog
      ensures Valid()
      ensures fileToElevate.None? && !showElevatedDialog
    {
      showElevatedDialog := false;
      fileToElevate := None;
    }
  }

  /** The Home button through the component: the bar asks for '', the path
      becomes '', and when it changed the load effect lists '' with the
      main process, which reads it as the home directory. The bar then shows
      home, or nothing when home cannot be read. */
  method PressHome(app: AppState, fs: FileSystem.Fs, home: string) returns (reload: bool)
    requires app.Valid()
    modifies app`currentPath, app`loading, app`error, app`directoryContents
    ensures app.Valid() && app.currentPath == ""
    ensures reload <==> old(app.currentPath) != ""
    ensures reload ==> !app.loading && app.error == None
    ensures !reload ==> app.error == old(app.error) && app.loading == old(app.loading)
    ensures reload && FileSystem.ReadDirResult(fs, home).Done? ==> app.NavigatorPath() == home
    ensures reload && FileSystem.ReadDirResult(fs, home).Failed? ==> app.NavigatorPath() == ""
    ensures !reload ==> app.directoryContents == old(app.directoryContents)
  {
    var request := PathNavigator.Clicked(app.NavigatorPath(), PathNavigator.HomeButton);
    reload := app.HandleNavigate(request.value.path);
    if reload {
      var reply := Gateway.ListReply(fs, home, Preload.JsString(app.currentPath));
      var listed := app.LoadDirectory(reply);
    }
  }

  /** Since the main process handles no elevated deletion, confirming the
      dialog never closes it: the pending file stays and the rejection is
      shown. */
  method ConfirmElevatedDelete(app: AppState, password: string, relist: Reply<Listing>)
    returns (alert: Option<string>)
    requires app.Valid() && app.fileToElevate.Some?
    modifies app`directoryContents, app`fileToElevate, app`showElevatedDialog
    ensures app.Valid()
    ensures app.showElevatedDialog && app.fileToElevate == old(app.fileToElevate)
    ensures app.directoryContents == old(app.directoryContents)
    ensures alert.Some?
  {
    var file := app.fileToElevate.value;
    var reply := Gateway.ElevatedDeleteReply(Preload.JsString(file.path), Preload.JsString(password));
    var request, relisted;
    request, relisted, alert := app.HandleElevatedDelete(password, reply, relist);
  }
}
