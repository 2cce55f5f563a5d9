/**
 * `validate_folder_name` in install.py: the conditions a chosen workflow
 * folder name must meet, in the order the installer applies them.
 */
module Validation {
  import opened Text
  import opened Results

  /** Why a folder name is refused. */
  datatype NameError = EmptyName | ContainsSpace | ContainsInvalidChar

  /** The verdict on a name: whether the "doesn't start with '.'" warning
      was printed, and the error raised, if any. */
  datatype Verdict = Verdict(warnedNoDot: bool, error: Option<NameError>)

  /** Characters refused so that the name stays valid on both Windows and
      Unix file systems. */
  const InvalidChars: string := "<>:\"|?*"

  /** Python's `any(c in name for c in chars)`. */
  function HasAnyOf(name: string, chars: string): (r: bool)
    ensures r <==> exists k :: 0 <= k < |name| && HasChar(chars, name[k])
  {
    if |name| == 0 then false
    else if HasChar(chars, name[0]) then true
    else
      var r := HasAnyOf(name[1..], chars);
      assert forall k :: 1 <= k < |name| ==> name[k] == name[1..][k - 1];
      r
  }

  function ValidateFolderName(name: string): (v: Verdict)
    ensures v.error == Some(EmptyName) <==> |name| == 0
    ensures v.error == Some(ContainsSpace) <==> |name| > 0 && HasChar(name, ' ')
    ensures v.error == Some(ContainsInvalidChar) <==>
      |name| > 0 && !HasChar(name, ' ') && exists k :: 0 <= k < |name| && HasChar(InvalidChars, name[k])
    ensures v.warnedNoDot <==> |name| > 0 && !HasChar(name, ' ') && name[0] != '.'
  {
    if |name| == 0 then Verdict(false, Some(EmptyName))
    else if HasChar(name, ' ') then Verdict(false, Some(ContainsSpace))
    else
      var warned := name[0] != '.';
      if HasAnyOf(name, InvalidChars) then Verdict(warned, Some(ContainsInvalidChar))
      else Verdict(warned, None)
  }

  /** A name every supported file system accepts as a single path
      component: non-empty, with no space and none of `<>:"|?*`. */
  predicate PortableName(name: string) {
    && |name| > 0
    && forall k :: 0 <= k < |name| ==> name[k] != ' ' && !HasChar(InvalidChars, name[k])
  }

  /** The validator accepts exactly the portable names; a missing leading
      `.` never causes a refusal. */
  lemma AcceptsExactlyPortable(name: string)
    ensures ValidateFolderName(name).error.None? <==> PortableName(name)
  {
  }

  /** A name with both a space and an invalid character is refused for
      the space, since that check runs first. */
  lemma SpaceCheckedBeforeInvalidChars(name: string)
    requires name == "my dir:x"
    ensures ValidateFolderName(name) == Verdict(false, Some(ContainsSpace))
  {
    assert name[2] == ' ';
  }

  /** A name without the leading dot is accepted, with only a warning. */
  lemma MissingDotOnlyWarns(name: string)
    requires name == "workflow"
    ensures ValidateFolderName(name) == Verdict(true, None)
  {
    assert !HasChar(name, ' ');
    assert PortableName(name) by {
      forall k | 0 <= k < |name|
        ensures name[k] != ' ' && !HasChar(InvalidChars, name[k])
      {
        assert name[k] in "workflow";
      }
    }
  }
}
