/** Shapes of the values that cross the boundary between the main process
    and the renderer (src/renderer/types.d.ts), plus the two outcomes of an
    asynchronous call. Dates are not modelled. */
module Types {

  datatype Option<+T> = None | Some(value: T)

  /** A call to `window.api`: its promise either resolves with a value or is
      rejected with an error whose message is kept. */
  datatype Reply<+T> = Resolved(value: T) | Rejected(message: string)

  /** One row of a listing; `error` is present only on the placeholder built
      when the entry could not be stat'ed. */
  datatype FileInfo = FileInfo(
    name: string,
    path: string,
    isDirectory: bool,
    size: nat,
    error: Option<string>)

  /** What `list-directory` answers: the directory actually listed with its
      entries, or only an error message (no `path`, no `files`). */
  datatype Listing =
    | Listed(path: string, files: seq<FileInfo>)
    | ListError(error: string)

  /** `DeleteResult`: every field is optional in the source; an absent
      boolean reads as false and an absent error as `None`. */
  datatype DeleteResult = DeleteResult(
    success: bool,
    error: Option<string>,
    requiresElevation: bool)

  /** `DirectorySelectResult`: an optional path and an optional canceled flag. */
  datatype SelectResult = SelectResult(path: Option<string>, canceled: bool)

  /** `TestResult` of the connectivity probe. */
  datatype TestResult = TestResult(success: bool, message: string)
}
