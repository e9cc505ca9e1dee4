# ElectroFX in Dafny

ElectroFX is a small Electron file browser. A preload bridge validates what
the renderer asks for. The main process lists and deletes entries of the
filesystem and opens the folder dialog. The renderer keeps the current
directory, the listing and the pending elevated deletion as component state,
and it draws a breadcrumb bar, a sorted table of entries and a password
dialog.

This project models those decision rules and proves what they promise:

- `Preload` (`preload.dfy`): the argument guards of `window.api`. Each call
  is rejected with its fixed message, or it is forwarded unchanged as one
  invoke on one channel.
- `MainProcess` (`main_process.dfy`): the `test-ipc`, `list-directory`,
  `delete-file` and `select-directory` handlers. They run over `FileSystem`
  (`filesystem.dfy`), a tree of directories and files. Its `Disk` class is
  what `rmdir` and `unlink` change in place. A fault oracle, keyed by
  operation and path string, makes any call fail with a chosen error code
  and message.
- `Paths` (`paths.dfy`): the path operations the code relies on, with `/` as
  the separator. These are `split` followed by `filter(Boolean)`,
  `path.join` and Node's POSIX `path.dirname`.
- `Gateway` (`gateway.dfy`): a `window.api` call end to end, from the guard
  to the handler of its channel. Electron rejects an invoke on a channel
  that has no handler.
- `App` (`app.dfy`): the top-level component as a class whose fields are its
  `useState` variables. Its handlers are methods. Every reply a handler
  awaits is an input, either `Resolved(value)` or `Rejected(message)`, and
  each `alert` is an output.
- `ElevatedDeleteDialog` (`elevated_delete_dialog.dfy`): the dialog's
  password and error state, its submit guard, its cancel controls and its
  platform-dependent text.
- `FileList` (`file_list.dfy`):
  - the in-place directories-first sort of the entries;
  - the unit-selection loop of `formatFileSize`;
  - the row and delete-button click handlers.
- `PathNavigator` (`path_navigator.dfy`): breadcrumb segmentation by prefix
  accumulation, and the request each button and crumb sends.

Three facts about the code shape the model:

- The preload bridge forwards elevated deletion to the channel
  `delete-file-elevated` (`src/main/preload.ts:48`), but
  `src/main/index.ts` registers handlers only for `test-ipc`,
  `list-directory`, `delete-file` and `select-directory` (lines 60, 65, 111
  and 142). Electron rejects an invoke on a channel without a handler, so
  every elevated deletion is rejected:
  - `Gateway.ElevatedDeleteReply` states this for every argument;
  - `App.ConfirmElevatedDelete` shows that confirming the dialog leaves it
    open on the same file.
- The preload guards answer a bad argument with `Promise.reject`
  (`src/main/preload.ts:24`, 32, 40 and 45), so the renderer sees a
  rejected call, not a value.
- When readdir fails, `list-directory` answers `{error}` and the renderer
  stores that value as the listing without setting its error banner
  (`src/renderer/App.tsx:23-24`, `App.AppState.LoadDirectory`).

## Model

| member | source | states |
|---|---|---|
| Preload.TestIpc | src/main/preload.ts:18 | the probe is one invoke on 'test-ipc' with no arguments |
| Preload.ListDirectory | src/main/preload.ts:21-27 | forwarded exactly when the argument is a string, the empty one and over-long ones included, as the only argument on 'list-directory'; otherwise rejected with 'Invalid path parameter' |
| Preload.IsString | src/main/preload.ts:5-6 | `typeof value === 'string'`: the argument is a string |
| Preload.JsLength | src/main/preload.ts:11 | `length` counts UTF-16 code units: between one and two per character, one each for characters up to U+FFFF and two each for characters above it |
| Preload.IsValidPath | src/main/preload.ts:8-12 | a valid path is a string; it has fewer than 1000 characters, and any string of fewer than 500 characters is valid |
| Preload.DeleteFile | src/main/preload.ts:29-35 | forwarded exactly when the argument is a string whose `length` (UTF-16 code units) is below 1000, unchanged, on 'delete-file'; any other argument is rejected with 'Invalid path parameter' |
| Preload.DeleteFileWithElevatedPrivileges | src/main/preload.ts:37-49 | the path is checked before the password, so an invalid path reports the path error whatever the password; any string password passes, '' included; both are forwarded on 'delete-file-elevated' |
| Preload.SelectDirectory | src/main/preload.ts:51 | one invoke on 'select-directory' with no arguments |
| Preload.PathLengthBound | src/main/preload.ts:8-12 | a `length` of 999 code units is valid and one of 1000 is not; a path of characters up to U+FFFF is valid exactly up to 999 characters, and one of characters above U+FFFF exactly up to 499 |
| Preload.ListingHasNoLengthBound | src/main/preload.ts:21-35 | a path too long to delete is still forwarded for listing |
| Paths.Split | src/renderer/components/PathNavigator.tsx:31 | `split` yields at least one field, and no field holds the separator |
| Paths.SplitUnsplit | src/renderer/components/PathNavigator.tsx:31 | joining the split fields with the separator gives back the original string |
| Paths.SplitAround | src/renderer/components/PathNavigator.tsx:31 | splitting `a + '/' + b` gives the fields of `a` followed by those of `b` |
| Paths.NonEmptyAppend | src/renderer/components/PathNavigator.tsx:31 | `filter(Boolean)` distributes over concatenation |
| Paths.IsAbsolute | src/renderer/components/PathNavigator.tsx:34 | `path.isAbsolute` on POSIX: the path starts with '/' |
| Paths.NonEmpty | src/renderer/components/PathNavigator.tsx:31 | `filter(Boolean)`: every field kept is non-empty and one of the fields, and none are added |
| Paths.Components | src/renderer/components/PathNavigator.tsx:31 | the names of a path are non-empty and hold no separator |
| Paths.ComponentsOfName | src/renderer/components/PathNavigator.tsx:31 | a single name is its own only component |
| Paths.Join | src/main/index.ts:74 | `path.join(dir, name)` without normalisation; its meaning is stated by `JoinKeepsBoth` and `ComponentsJoin` |
| Paths.JoinKeepsBoth | src/main/index.ts:74 | `path.join(dir, name)` is never empty, starts with `dir` and ends with `name` |
| Paths.ComponentsJoin | src/main/index.ts:74 | `path.join(dir, name)` has the names of `dir` followed by `name` |
| Paths.TrimTrailingSeps | src/renderer/components/PathNavigator.tsx:18 | the first step of `dirname` removes only trailing separators and keeps at least one character |
| Paths.LastSep | src/renderer/components/PathNavigator.tsx:18 | the cut point of `dirname` is the last separator, or -1 when there is none |
| Paths.Dirname | src/renderer/components/PathNavigator.tsx:18 | `dirname` is never empty; it is '.' or a prefix of the path, and the parent of an absolute path is absolute |
| Paths.DirnameComponents | src/renderer/components/PathNavigator.tsx:18 | for an absolute path, or a relative one with at least two names, `dirname` drops exactly the last name |
| FileSystem.Child | src/main/index.ts:71-76 | a name is found among a directory's entries exactly when it is one of their names, and the node found belongs to an entry with that name |
| FileSystem.RemoveResult | src/main/index.ts:119-123 | an injected fault is raised as it is; otherwise `rmdir`/`unlink` succeed only on an existing entry that is not the root, `rmdir` on a directory and `unlink` on anything else |
| FileSystem.Without | src/main/index.ts:120-122 | removing an entry from a directory leaves the names of all its other entries, in order |
| FileSystem.UniqueNames | src/main/index.ts:71 | the names readdir reports for one directory are distinct |
| FileSystem.WithoutRemovesOne | src/main/index.ts:120-122 | in a directory with distinct names, removing a name it holds takes out exactly one entry and keeps the names distinct |
| FileSystem.RemovedIsGone | src/main/index.ts:120-122 | after a removal the removed path no longer names anything |
| FileSystem.SubtreeIsGone | src/main/index.ts:120 | after a removal nothing below the removed path can be found |
| FileSystem.RemoveKeepsSiblings | src/main/index.ts:120-122 | after a removal the parent directory holds every other entry, in order |
| FileSystem.RemoveElsewhereKeeps | src/main/index.ts:120-122 | a removal leaves every other path alone: a path that parts from the removed one at some name finds the same node before and after |
| FileSystem.Disk.CheckAccess | src/main/index.ts:114 | `access` raises the injected error if there is one; otherwise it succeeds exactly when the path names a node, and fails with ENOENT when it does not |
| FileSystem.Disk.StatPath | src/main/index.ts:117 | `stat` raises the injected error if there is one; otherwise it reports whether the named node is a directory and its size, or fails with ENOENT when the path names nothing |
| FileSystem.Disk.RemoveDirectory | src/main/index.ts:120 | the whole subtree is removed on success; on failure the tree is unchanged |
| FileSystem.Disk.UnlinkFile | src/main/index.ts:122 | the entry is removed on success; on failure the tree is unchanged |
| MainProcess.TestIpc | src/main/index.ts:60-62 | always success, with 'IPC is working!' |
| MainProcess.ListedDirectory | src/main/index.ts:68 | the directory listed is home for '' and the path itself otherwise |
| MainProcess.EntryFor | src/main/index.ts:73-96 | a row carries its name and the joined path, plus the stat kind and size; when stat fails it is a non-directory of size 0 with 'Permission denied' |
| MainProcess.ListDirectory | src/main/index.ts:65-108 | a listing exists exactly when readdir succeeds on the directory listed (home for ''), and it reports that directory. It has one row per readdir name, in readdir order, with `path = join(directory, name)`. A readdir failure gives only its message |
| MainProcess.RowsAreIndependent | src/main/index.ts:72-98 | each row is computed from its own name alone, so a failing stat changes only that row |
| MainProcess.EmptyPathListsHome | src/main/index.ts:68 | listing '' is listing the home directory, and `path` says so |
| MainProcess.RowDescribesChild | src/main/index.ts:76-84 | without an injected stat fault, a row reports the kind and size of the child it names |
| MainProcess.DeleteError | src/main/index.ts:113-123 | an injected access fault is the error; no error means access and stat were not made to fail, the path names a node and that node is not the root |
| MainProcess.ClassifyError | src/main/index.ts:126-137 | never success; `requiresElevation` exactly for code 'EACCES', with the fixed message; any other error passes its own message through |
| MainProcess.DeleteFile | src/main/index.ts:111-139 | success exactly when access, stat and the matching removal all succeed. The entry and its subtree are then gone. A failure is classified and leaves the tree unchanged |
| MainProcess.MissingPathIsNeverDeleted | src/main/index.ts:113-114 | a path that names nothing is never reported deleted; without a fault, the error is access's ENOENT |
| MainProcess.DeletedSubtreeIsGone | src/main/index.ts:117-125 | after a successful delete nothing at or below the path can be found |
| MainProcess.DeleteLeavesOtherPaths | src/main/index.ts:117-123 | after a successful delete, a path whose names part from the deleted path's names names the same node as before |
| MainProcess.DeleteThenListParent | src/main/index.ts:110-125 | after a successful delete of an absolute path, listing its parent shows every other entry by name, in readdir order, and none with the deleted name |
| MainProcess.SelectDirectory | src/main/index.ts:142-154 | canceled exactly when there is no window, the dialog was canceled or no path was chosen; otherwise the first chosen path |
| Gateway.ListReply | src/main/preload.ts:21-27 | a listing request is rejected exactly for a non-string; otherwise it is answered with the handler's listing |
| Gateway.DeleteReply | src/main/preload.ts:29-35 | a refused path leaves the disk untouched. An accepted one is answered by the `delete-file` handler: `{success: true}` with the subtree removed from the disk, or the classified error with the disk unchanged |
| Gateway.ElevatedDeleteReply | src/main/preload.ts:37-49 | every elevated deletion is rejected, because no handler is registered for its channel |
| Gateway.SelectReply | src/main/preload.ts:51 | directory selection always resolves with the handler's answer: canceled exactly as the handler decides, and otherwise the first chosen path |
| Gateway.TestReply | src/main/preload.ts:18 | the probe resolves with success and 'IPC is working!' |
| Gateway.ListingOfAStringResolves | src/main/index.ts:104-107 | a listing of any string resolves with a value, even when readdir fails |
| App.AppState.Valid | src/renderer/App.tsx:140 | the dialog is open exactly when a file is pending; the constructor and every handler keep this |
| App.AppState.constructor | src/renderer/App.tsx:9-14 | the initial state: path '', no listing, loading, no error, no pending file, dialog closed |
| App.HasError | src/renderer/App.tsx:56 | `result.error` as a condition: present and not the empty string |
| App.AppState.NavigatorPath | src/renderer/App.tsx:106 | the breadcrumb bar gets the listed directory, or '' when there is no listing or it failed |
| App.AppState.LoadDirectory | src/renderer/App.tsx:17-34 | a resolved listing is stored as it is, even a failed one, and the error is cleared; a rejection keeps the listing and sets 'Failed to load directory: ' + message; loading ends false. The path listed is `currentPath`. After a resolved listing the breadcrumb bar shows its directory, or '' for a failed one |
| App.AppState.HandleNavigate | src/renderer/App.tsx:37-40 | the path is set, and the load runs next exactly when the path changed |
| App.AppState.HandleDelete | src/renderer/App.tsx:43-63 | the file's own path is deleted. Success is tested first and re-lists `currentPath` without touching the dialog state; a rejected re-listing alerts 'Failed to delete: ' + message. `requiresElevation` records the file and opens the dialog without an alert. A plain error only alerts. A rejection alerts 'Failed to delete: ' + message |
| App.AppState.HandleElevatedDelete | src/renderer/App.tsx:66-85 | nothing happens when no file is pending. Otherwise the pending file's path is sent with the password, and a success re-lists `currentPath`. Only a success whose re-listing resolves closes the dialog and clears the file, with no alert; a rejected re-listing alerts 'Failed to delete with elevated privileges: ' + message. An error leaves both as they were |
| App.AppState.HandleSelectDirectory | src/renderer/App.tsx:88-98 | the path changes only for a result that is not canceled and has a non-empty path; a rejection sets 'Failed to select directory: ' + message |
| App.AppState.CancelElevatedDialog | src/renderer/App.tsx:144-147 | the dialog closes and the pending file is forgotten, together |
| App.PressHome | src/renderer/App.tsx:17-40 | through the component: Home sets the path to ''; when that changed the path, the load effect lists '' and the breadcrumb bar then shows the home directory, or '' when home cannot be read; otherwise the listing, the error and the loading flag are untouched; after a reload loading is over and no error is shown; the pending file and the dialog flag never change |
| App.ConfirmElevatedDelete | src/renderer/App.tsx:66-85 | with the main process as written, confirming the dialog keeps it open on the same file, leaves the listing alone and always alerts; the current path, the error and the loading flag never change |
| ElevatedDeleteDialog.TrimStart | src/renderer/components/ElevatedDeleteDialog.tsx:24 | trimming the front keeps a suffix and removes only whitespace; it gives '' exactly for an all-whitespace string, and otherwise starts with a non-whitespace character |
| ElevatedDeleteDialog.TrimEnd | src/renderer/components/ElevatedDeleteDialog.tsx:24 | trimming the end keeps a prefix and removes only whitespace; it gives '' exactly for an all-whitespace string, and otherwise ends with a non-whitespace character |
| ElevatedDeleteDialog.Trim | src/renderer/components/ElevatedDeleteDialog.tsx:24 | `password.trim()`: the end-trim of the front-trim; what it removes and keeps is stated by `TrimRemovesBlank`, `TrimmedEdges` and `TrimIsEmptyIffBlank` |
| ElevatedDeleteDialog.TrimRemovesBlank | src/renderer/components/ElevatedDeleteDialog.tsx:24 | everything `trim()` removes, before and after what it keeps, is whitespace |
| ElevatedDeleteDialog.TrimmedEdges | src/renderer/components/ElevatedDeleteDialog.tsx:24 | a non-empty result of `trim()` neither starts nor ends with whitespace |
| ElevatedDeleteDialog.TrimIsEmptyIffBlank | src/renderer/components/ElevatedDeleteDialog.tsx:24 | `password.trim()` is empty exactly when every character is JavaScript whitespace |
| ElevatedDeleteDialog.SubmitOutcome | src/renderer/components/ElevatedDeleteDialog.tsx:21-30 | `onConfirm` is called exactly when the password has a non-whitespace character, with the untrimmed password; `onCancel` never |
| ElevatedDeleteDialog.SubmitOutcomeIntended | src/renderer/components/ElevatedDeleteDialog.tsx:63-67 | corrected guard: on win32 submitting always confirms, since the operating system asks; elsewhere it is the guard as written |
| ElevatedDeleteDialog.ShowsPasswordInput | src/renderer/components/ElevatedDeleteDialog.tsx:72 | the password input is rendered exactly on platforms other than win32 |
| ElevatedDeleteDialog.Explanation | src/renderer/components/ElevatedDeleteDialog.tsx:63-67 | the UAC text exactly on win32, the sudo text exactly elsewhere |
| ElevatedDeleteDialog.SubmitLabel | src/renderer/components/ElevatedDeleteDialog.tsx:104 | 'Continue as Administrator' exactly on win32, 'Delete with Sudo' exactly elsewhere |
| ElevatedDeleteDialog.Win32CannotConfirm | src/renderer/components/ElevatedDeleteDialog.tsx:72-90 | on win32 the password stays '' (no input is rendered), so the guard as written never confirms, while the corrected one does |
| ElevatedDeleteDialog.Dialog.Valid | src/renderer/components/ElevatedDeleteDialog.tsx:72-90 | where no input is rendered the password stays ''; the constructor and every method keep this |
| ElevatedDeleteDialog.Dialog.constructor | src/renderer/components/ElevatedDeleteDialog.tsx:18-19 | the password starts '' and the error absent |
| ElevatedDeleteDialog.Dialog.ChangePassword | src/renderer/components/ElevatedDeleteDialog.tsx:81 | the input's change handler sets the password; it exists only where the input is rendered |
| ElevatedDeleteDialog.Dialog.HandleSubmit | src/renderer/components/ElevatedDeleteDialog.tsx:21-30 | a blank password sets 'Password is required' and calls nothing; otherwise `onConfirm(password)`; an error once set is never cleared; on win32 every submit fails |
| ElevatedDeleteDialog.Dialog.HandleSubmitIntended | src/renderer/components/ElevatedDeleteDialog.tsx:63-67 | corrected submit: on win32 it confirms with the empty password and sets no error |
| ElevatedDeleteDialog.Dialog.Press | src/renderer/components/ElevatedDeleteDialog.tsx:40-105 | both cancel controls call `onCancel`, never `onConfirm`, and leave the error alone; submitting goes through the guard, which sets 'Password is required' when it calls nothing and otherwise leaves the error as it was |
| FileList.Compare | src/renderer/components/FileList.tsx:74-80 | a directory comes before a non-directory, a non-directory after a directory, and entries of one kind compare by name |
| FileList.CompareFlips | src/renderer/components/FileList.tsx:74-80 | the comparator is antisymmetric whenever the name order is |
| FileList.CompareChains | src/renderer/components/FileList.tsx:74-80 | the comparator is transitive whenever the name order is |
| FileList.SortedMeansDirectoriesFirst | src/renderer/components/FileList.tsx:74-79 | in a sorted table every directory precedes every non-directory, and entries of one kind follow the name order |
| FileList.SortFiles | src/renderer/components/FileList.tsx:73-80 | the array is reordered in place into a sorted permutation of its entries, with directories first |
| FileList.InsertIntoPrefix | src/renderer/components/FileList.tsx:73-80 | one insertion step extends the sorted prefix by one entry and keeps the same entries |
| FileList.SwapKeepsInserting | src/renderer/components/FileList.tsx:73-80 | swapping an out-of-order neighbour keeps the insertion invariant |
| FileList.InsertedIsSorted | src/renderer/components/FileList.tsx:73-80 | once the inserted entry is not before its left neighbour, the prefix is sorted |
| FileList.FormatFileSize | src/renderer/components/FileList.tsx:17-28 | the unit index is at most 4 ('TB') and `size * 1024^unit` is exactly `bytes`. Below 'TB', `bytes < 1024^(unit+1)`; from 'KB' up, `bytes >= 1024^unit`. Fewer than 1024 bytes give 'B' |
| FileList.ScaleStep | src/renderer/components/FileList.tsx:22-25 | one division by 1024 keeps `size * 1024^unit` unchanged |
| FileList.BelowNextUnit | src/renderer/components/FileList.tsx:22 | a size below 1024 at the exit means `bytes` is below the next power |
| FileList.HandleFileClick | src/renderer/components/FileList.tsx:31-35 | a click navigates exactly for a directory, with its own path |
| FileList.HandleDeleteClick | src/renderer/components/FileList.tsx:38-44 | `onDelete(file)` is called exactly when the confirmation answered yes |
| PathNavigator.Start | src/renderer/components/PathNavigator.tsx:32-36 | the accumulation starts at '/' for an absolute path and at '' otherwise |
| PathNavigator.Accumulate | src/renderer/components/PathNavigator.tsx:38-39 | the path after joining the first `n` names one by one; its meaning is stated by `AccumulatedPrefix` |
| PathNavigator.GetPathSegments | src/renderer/components/PathNavigator.tsx:28-45 | no segments for ''. Otherwise there is one segment per name of the path, in order. Segment `i` carries the path accumulated over the first `i + 1` names, starting from '/' for an absolute path and '' for a relative one |
| PathNavigator.AccumulatedPrefix | src/renderer/components/PathNavigator.tsx:32-44 | the path accumulated over the first `n` names has exactly those names and is absolute exactly when the current path is. The first crumb is '/' + name for an absolute path and the name itself for a relative one. Each later crumb is the previous one + '/' + its name |
| PathNavigator.AccumulateNames | src/renderer/components/PathNavigator.tsx:32-44 | the same accumulation facts, for any names without separators, starting from '' or '/' |
| PathNavigator.JoinName | src/renderer/components/PathNavigator.tsx:39 | joining a name onto '', '/' or a path without a trailing separator appends that name |
| PathNavigator.LastCrumbIsCurrent | src/renderer/components/PathNavigator.tsx:90-100 | the last crumb leads back to a path with the current path's names |
| PathNavigator.Clicked | src/renderer/components/PathNavigator.tsx:17-25 | Home asks for ''. Up asks for `dirname` and is disabled exactly for ''. The root crumb exists exactly for an absolute path and asks for '/'. A crumb asks for its own path |
| PathNavigator.ShowsHomeLabel | src/renderer/components/PathNavigator.tsx:102-104 | the label shows when there are no segments and the path is not absolute |
| PathNavigator.HomeLabelOnlyAtHome | src/renderer/components/PathNavigator.tsx:102-104 | 'Home Directory' is shown exactly for the empty path |
| PathNavigator.UpDropsLastName | src/renderer/components/PathNavigator.tsx:17-20 | Up from an absolute path, or a relative one with two names or more, leads to the path one name shorter |
| PathNavigator.UpAtRootStays | src/renderer/components/PathNavigator.tsx:17-20 | Up at '/' stays at '/' |
| PathNavigator.HomeButtonListsHome | src/renderer/components/PathNavigator.tsx:23-25 | the Home button's '' is listed by the main process as the home directory |

## Left out

- Window creation and lifecycle. The main window is only the `hasWindow`
  input of `select-directory`.
- Electron itself. `contextBridge`, `ipcRenderer.invoke` and `ipcMain.handle`
  become values describing the call. The text of Electron's rejection for a
  channel without a handler is an assumed constant (`Gateway.NoHandler`).
- Node's `fs`, `os` and `path` modules:
  - the disk is an abstract tree, and a fault oracle supplies any error;
  - `os.homedir()` is a parameter;
  - paths resolve from the root, since there is no working directory;
  - the separator is fixed to '/';
  - the exact wording of Node's error messages is only imitated.
- `path.join` normalisation of '.', '..' and repeated separators. The prefix
  properties of the breadcrumb segments are proved for the join without
  normalisation, which agrees with Node for names other than '.' and '..'.
- The size reported by `stat` for a directory is whatever the tree stores.
- MainProcess.DeleteFile: a recursive `rmdir` that fails part way leaves
  the tree unchanged in the model, while the real one may already have
  removed part of the subtree. The root directory cannot be removed (EBUSY).
- `Promise.all` over the entries is modelled sequentially, in readdir order.
- Elevated deletion itself is not part of this model. The code has no
  handler for it, so there is no command construction, quoting, `sudo` or
  UAC call, or wrong-password detection to model.
- FileList.FormatFileSize: `size` is an exact real. That is what the double
  holds for integer byte counts, since dividing by 1024 is exact in binary
  floating point. `toFixed(1)` and the text it builds are not modelled.
- FileList.SortFiles: `localeCompare` is an abstract name order, required to
  be a total preorder. `Array.prototype.sort` is stable since ECMAScript
  2019. The model's insertion sort moves an entry only past neighbours that
  compare strictly after it, but its contract does not state stability:
  it promises a sorted permutation, not the order among equal entries.
- Dates (`birthtime`, `mtime`, `new Date()`, `toLocaleString`). `FileInfo`
  carries no dates.
- JSX rendering, CSS, icons and `console` logging. `alert` texts are
  outputs, and `confirm` answers are inputs.
- React scheduling. The load effect runs when a handler's `reload` output
  says so. Its reply is an input, and two loads never interleave.
- When a listing fails, `directoryContents` holds `{error}` and the table
  is rendered with `files` undefined (`src/renderer/App.tsx:125-127`). The
  table reads `files.length` (`src/renderer/components/FileList.tsx:66`),
  which throws during render. That rendering path is not modelled.
- FileSystem.Lookup resolves a path by its non-empty names only. It does
  not resolve '.' or '..' (`/a/..` names nothing), and a trailing '/' after
  a file's name still finds the file, where Node's `fs` answers ENOTDIR.
- FileSystem.UniqueNames is an assumption about what readdir reports. The
  tree does not enforce it, and `WithoutRemovesOne` is the only lemma that
  relies on it.
- `src/renderer/types.d.ts` only gives the shapes of the datatypes. Its
  declared `api` lacks `deleteFileWithElevatedPrivileges`.

## Findings

| source | as written | input that shows it | evidently intended | confidence | as-written member | corrected member |
|---|---|---|---|---|---|---|
| src/renderer/components/ElevatedDeleteDialog.tsx:24-27 | the submit guard requires a non-blank password on every platform, but on win32 no password input is rendered (line 72), so the password stays '' | platform 'win32', press the submit button | on win32 the dialog promises that User Account Control will ask, so submitting should call `onConfirm` without a password | not executed | ElevatedDeleteDialog.Win32CannotConfirm | ElevatedDeleteDialog.SubmitOutcomeIntended |
