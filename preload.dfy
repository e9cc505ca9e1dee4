/** The preload bridge (src/main/preload.ts): the `window.api` functions the
    renderer calls. Each either rejects an argument before anything crosses
    to the main process, or forwards its arguments unchanged as one invoke on
    one named channel. */
module Preload {

  /** An argument as JavaScript hands it over: of any type. */
  datatype JsValue =
    | JsString(str: string)
    | JsNumber(num: int)
    | JsBoolean(truth: bool)
    | JsNull
    | JsUndefined
    | JsObject

  /** What a bridge function does: `ipcRenderer.invoke(channel, ...args)`, or
      a promise rejected with an `Error` carrying `message`. */
  datatype Call =
    | Invoke(channel: string, args: seq<string>)
    | Rejected(message: string)

  const MaxPathLength: nat := 1000
  const InvalidPath := "Invalid path parameter"
  const InvalidPassword := "Invalid password parameter"

  const TestChannel := "test-ipc"
  const ListChannel := "list-directory"
  const DeleteChannel := "delete-file"
  const ElevatedDeleteChannel := "delete-file-elevated"
  const SelectChannel := "select-directory"

  /** `validationRules.isString`: `typeof value === 'string'`. */
  predicate IsString(v: JsValue) {
    v.JsString?
  }

  /** The largest character JavaScript stores in one UTF-16 code unit. */
  const MaxSingleUnit := 0xFFFF

  /** `s.length` in JavaScript: the number of UTF-16 code units, so a
      character above U+FFFF (a surrogate pair) counts twice. */
  function JsLength(s: string): (n: nat)
    ensures |s| <= n <= 2 * |s|
    ensures (forall i :: 0 <= i < |s| ==> s[i] as int <= MaxSingleUnit) ==> n == |s|
    ensures (forall i :: 0 <= i < |s| ==> s[i] as int > MaxSingleUnit) ==> n == 2 * |s|
  {
    if s == [] then 0
    else (if s[0] as int > MaxSingleUnit then 2 else 1) + JsLength(s[1..])
  }

  /** `validationRules.isValidPath`: a string whose `length` is below the
      bound. */
  predicate IsValidPath(v: JsValue): (valid: bool)
    ensures valid ==> IsString(v) && |v.str| < MaxPathLength
    ensures IsString(v) && 2 * |v.str| < MaxPathLength ==> valid
  {
    IsString(v) && JsLength(v.str) < MaxPathLength
  }

  function TestIpc(): (call: Call)
    ensures call.Invoke? && call.channel == TestChannel && call.args == []
  {
    Invoke(TestChannel, [])
  }

  /** `listDirectory`: the guard `!isString(path) && path !== ''` lets every
      string through, the empty one included, and applies no length bound. */
  function ListDirectory(path: JsValue): (call: Call)
    ensures call.Invoke? <==> IsString(path)
    ensures call.Invoke? ==> call.channel == ListChannel && call.args == [path.str]
    ensures call.Rejected? ==> call.message == InvalidPath
  {
    if !IsString(path) && path != JsString("") then Rejected(InvalidPath)
    else Invoke(ListChannel, [path.str])
  }

  /** `deleteFile`: only a string below the length bound is forwarded. */
  function DeleteFile(path: JsValue): (call: Call)
    ensures call.Invoke? <==> IsString(path) && JsLength(path.str) < MaxPathLength
    ensures call.Invoke? ==> call.channel == DeleteChannel && call.args == [path.str]
    ensures call.Rejected? ==> call.message == InvalidPath
  {
    if !IsString(path) || !IsValidPath(path) then Rejected(InvalidPath)
    else Invoke(DeleteChannel, [path.str])
  }

  /** `deleteFileWithElevatedPrivileges`: the path is checked first, then the
      password, which passes whenever it is a string (the empty one too). */
  function DeleteFileWithElevatedPrivileges(path: JsValue, password: JsValue): (call: Call)
    ensures !IsValidPath(path) ==> call == Rejected(InvalidPath)
    ensures IsValidPath(path) && !IsString(password) ==> call == Rejected(InvalidPassword)
    ensures call.Invoke? <==> IsValidPath(path) && IsString(password)
    ensures call.Invoke? ==>
      call.channel == ElevatedDeleteChannel && call.args == [path.str, password.str]
  {
    if !IsString(path) || !IsValidPath(path) then Rejected(InvalidPath)
    else if !IsString(password) then Rejected(InvalidPassword)
    else Invoke(ElevatedDeleteChannel, [path.str, password.str])
  }

  function SelectDirectory(): (call: Call)
    ensures call.Invoke? && call.channel == SelectChannel && call.args == []
  {
    Invoke(SelectChannel, [])
  }

  /** The length bound counts UTF-16 code units: 999 of them pass and 1000
      do not. A path of characters up to U+FFFF passes with 999 characters;
      one of characters above U+FFFF is refused from 500 characters on. */
  lemma PathLengthBound(s: string)
    ensures JsLength(s) == 999 ==> IsValidPath(JsString(s))
    ensures JsLength(s) == 1000 ==> !IsValidPath(JsString(s))
    ensures (forall i :: 0 <= i < |s| ==> s[i] as int <= MaxSingleUnit) ==>
      (IsValidPath(JsString(s)) <==> |s| <= 999)
    ensures (forall i :: 0 <= i < |s| ==> s[i] as int > MaxSingleUnit) ==>
      (IsValidPath(JsString(s)) <==> |s| <= 499)
  {
  }

  /** Listing is the one operation without a length bound: a path that
      deleting refuses is still listed. */
  lemma ListingHasNoLengthBound(s: string)
    requires JsLength(s) >= MaxPathLength
    ensures ListDirectory(JsString(s)) == Invoke(ListChannel, [s])
    ensures DeleteFile(JsString(s)) == Rejected(InvalidPath)
  {
  }
}
