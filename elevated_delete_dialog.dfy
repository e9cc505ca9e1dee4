/** The dialog that asks for elevated deletion
    (src/renderer/components/ElevatedDeleteDialog.tsx): its password and
    error state, the submit guard, the cancel controls, and the text that
    depends on the platform. */
module ElevatedDeleteDialog {
  import opened Types

  const Win32 := "win32"
  const PasswordRequired := "Password is required"
  const UacExplanation := "Windows User Account Control (UAC) will be used to execute this operation."
  const SudoExplanation := "Your sudo password is required to execute this operation with elevated privileges."
  const UacLabel := "Continue as Administrator"
  const SudoLabel := "Delete with Sudo"

  /** The characters `String.prototype.trim` removes: white space and line
      terminators. */
  predicate IsWhitespace(c: char) {
    || c == '\t' || c == '\n' || c == '\U{000B}' || c == '\U{000C}' || c == '\r' || c == ' '
    || c == '\U{00A0}' || c == '\U{1680}' || ('\U{2000}' <= c <= '\U{200A}')
    || c == '\U{2028}' || c == '\U{2029}' || c == '\U{202F}' || c == '\U{205F}'
    || c == '\U{3000}' || c == '\U{FEFF}'
  }

  predicate Blank(s: string) {
    forall i :: 0 <= i < |s| ==> IsWhitespace(s[i])
  }

  function TrimStart(s: string): (t: string)
    ensures t == "" <==> Blank(s)
    ensures t != "" ==> !IsWhitespace(t[0])
    ensures |t| <= |s| && t == s[|s| - |t|..] && Blank(s[..|s| - |t|])
  {
    if s != [] && IsWhitespace(s[0]) then TrimStart(s[1..]) else s
  }

  function TrimEnd(s: string): (t: string)
    ensures t == "" <==> Blank(s)
    ensures t != "" ==> !IsWhitespace(t[|t| - 1])
    ensures |t| <= |s| && t == s[..|t|] && Blank(s[|t|..])
  {
    if s != [] && IsWhitespace(s[|s| - 1]) then TrimEnd(s[..|s| - 1]) else s
  }

  /** `s.trim()`. */
  function Trim(s: string): string {
    TrimEnd(TrimStart(s))
  }

  /** A prefix `t` of a suffix `u` of `s` is a slice of `s`. */
  lemma PrefixOfSuffix(s: string, u: string, t: string)
    requires |u| <= |s| && u == s[|s| - |u|..]
    requires |t| <= |u| && t == u[..|t|]
    ensures s[|s| - |u| + |t|..] == u[|t|..]
  {
  }

  /** What trimming removes before and after what it keeps is white space. */
  lemma TrimRemovesBlank(s: string)
    ensures Blank(s[..|s| - |TrimStart(s)|])
    ensures Blank(s[|s| - |TrimStart(s)| + |Trim(s)|..])
  {
    PrefixOfSuffix(s, TrimStart(s), Trim(s));
  }

  /** What trimming keeps neither starts nor ends with white space. */
  lemma TrimmedEdges(s: string)
    requires Trim(s) != ""
    ensures !IsWhitespace(Trim(s)[0]) && !IsWhitespace(Trim(s)[|Trim(s)| - 1])
  {
    var u := TrimStart(s);
    assert Trim(s)[0] == u[0];
  }

  /** The trimmed password is empty exactly when every character is white space. */
  lemma TrimIsEmptyIffBlank(s: string)
    ensures Trim(s) == "" <==> Blank(s)
  {
    var t := TrimStart(s);
    if t != "" {
      assert !Blank(t);
    }
  }

  /** What pressing a control calls back. */
  datatype Callback = Confirm(password: string) | Cancel | NoCallback

  /** The close icon and the Cancel button, or submitting the form (its
      button or the Enter key). */
  datatype Control = CloseIcon | CancelButton | Submit

  /** The submit guard as written: `onConfirm(password)` unless the trimmed
      password is empty. */
  function SubmitOutcome(password: string): (cb: Callback)
    ensures cb != Cancel
    ensures cb.Confirm? <==> !Blank(password)
    ensures cb.Confirm? ==> cb.password == password
  {
    TrimIsEmptyIffBlank(password);
    if Trim(password) == "" then NoCallback else Confirm(password)
  }

  /** The submit guard as the dialog's text promises it: on win32 the
      operating system's own prompt is used, so no password is needed. */
  function SubmitOutcomeIntended(platform: string, password: string): (cb: Callback)
    ensures platform == Win32 ==> cb == Confirm(password)
    ensures platform != Win32 ==> cb == SubmitOutcome(password)
  {
    if platform == Win32 then Confirm(password) else SubmitOutcome(password)
  }

  /** Only non-win32 platforms render the password input. */
  predicate ShowsPasswordInput(platform: string) {
    platform != Win32
  }

  /** The explanation under the warning. */
  function Explanation(platform: string): (text: string)
    ensures text == UacExplanation <==> platform == Win32
    ensures text == SudoExplanation <==> platform != Win32
  {
    if platform == Win32 then UacExplanation else SudoExplanation
  }

  /** The label of the submit button. */
  function SubmitLabel(platform: string): (caption: string)
    ensures caption == UacLabel <==> platform == Win32
    ensures caption == SudoLabel <==> platform != Win32
  {
    if platform == Win32 then UacLabel else SudoLabel
  }

  /** As written, the password that win32 leaves empty can never pass the
      guard: confirming is impossible there. */
  lemma Win32CannotConfirm(platform: string, password: string)
    requires platform == Win32 && password == ""
    ensures SubmitOutcome(password) == NoCallback
    ensures SubmitOutcomeIntended(platform, password) == Confirm("")
  {
  }

  class Dialog {
    const platform: string
    var password: string
    var error: Option<string>

    /** Without a rendered input the password never leaves its initial ''. */
    ghost predicate Valid()
      reads this
    {
      !ShowsPasswordInput(platform) ==> password == ""
    }

    constructor (platform: string)
      ensures Valid()
      ensures this.platform == platform && password == "" && error == None
    {
      this.platform := platform;
      password := "";
      error := None;
    }

    /** The input's `onChange`; it exists only where the input is rendered. */
    method ChangePassword(value: string)
      requires Valid() && ShowsPasswordInput(platform)
      modifies this`password
      ensures Valid() && password == value
    {
      password := value;
    }

    /** `handleSubmit`: a blank password sets the error and calls nothing;
        any other is passed to `onConfirm` untrimmed. The error is only ever
        set, never cleared. */
    method HandleSubmit() returns (cb: Callback)
      requires Valid()
      modifies this`error
      ensures Valid()
      ensures cb == SubmitOutcome(password)
      ensures error == if cb == NoCallback then Some(PasswordRequired) else old(error)
      ensures old(error).Some? ==> error.Some?
      ensures platform == Win32 ==> cb == NoCallback && error == Some(PasswordRequired)
    {
      TrimIsEmptyIffBlank(password);
      if Trim(password) == "" {
        error := Some(PasswordRequired);
        cb := NoCallback;
        return;
      }
      cb := Confirm(password);
    }

    /** The submit the dialog's text promises: on win32 it proceeds to
        `onConfirm` without asking for a password. */
    method HandleSubmitIntended() returns (cb: Callback)
      requires Valid()
      modifies this`error
      ensures Valid()
      ensures cb == SubmitOutcomeIntended(platform, password)
      ensures platform == Win32 ==> cb == Confirm("")
      ensures error == if cb == NoCallback then Some(PasswordRequired) else old(error)
    {
      if platform == Win32 {
        cb := Confirm(password);
      } else {
        cb := HandleSubmit();
      }
    }

    /** Pressing a control: both cancel controls call `onCancel` and never
        `onConfirm`; submitting goes through the guard. */
    method Press(control: Control) returns (cb: Callback)
      requires Valid()
      modifies this`error
      ensures Valid()
      ensures control != Submit ==> cb == Cancel && error == old(error)
      ensures control == Submit ==> cb == SubmitOutcome(password)
      ensures control == Submit ==>
        error == if cb == NoCallback then Some(PasswordRequired) else old(error)
    {
      if control == Submit {
        cb := HandleSubmit();
      } else {
        cb := Cancel;
      }
    }
  }
}
