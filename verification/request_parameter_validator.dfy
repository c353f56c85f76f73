/**
 * The validator attached to the MAC-parameters setting: the optional
 * parameters listed one per line must not repeat the user-id or timestamp
 * request parameter, which the MAC always includes.
 */
module RequestParameterSettingValidator {
  import opened JavaLang

  const ERROR_SUFFIX: string := " must not include the parameters for userId or timestamp, these are included always."

  /** One line of the setting, trimmed, names the user-id or the timestamp parameter. */
  predicate IsReserved(line: string, paramUser: string, paramTime: string)
  {
    var parameter := Trim(line);
    parameter == paramUser || parameter == paramTime
  }

  /** The loop of `settingIsValid`: true when some line is reserved. */
  function AnyLineReserved(lines: seq<string>, paramUser: string, paramTime: string): (r: bool)
    ensures r <==> exists i :: 0 <= i < |lines| && IsReserved(lines[i], paramUser, paramTime)
  {
    if lines == [] then false
    else
      IsReserved(lines[0], paramUser, paramTime) || AnyLineReserved(lines[1..], paramUser, paramTime)
  }

  /**
   * `settingIsValid`: null is valid; otherwise the value is split into lines
   * and is valid exactly when no trimmed line equals either reserved name.
   */
  function SettingIsValid(value: Option<string>, paramUser: string, paramTime: string): (r: bool)
    ensures value.None? ==> r
    ensures value.Some? ==>
      (r <==> forall i :: 0 <= i < |JavaSplit(value.value, '\n')| ==>
                Trim(JavaSplit(value.value, '\n')[i]) !in {paramUser, paramTime})
  {
    match value
    case None => true
    case Some(v) => !AnyLineReserved(JavaSplit(v, '\n'), paramUser, paramTime)
  }

  /** `getErrorMessage`: the setting's title followed by a fixed explanation, whatever the value. */
  function GetErrorMessage(settingName: string, settingValue: Option<string>): (r: string)
    ensures |r| > |settingName| && r[..|settingName|] == settingName
    ensures r[|settingName|..] == ERROR_SUFFIX
  {
    settingName + ERROR_SUFFIX
  }

  /** The verdict does not depend on the order of the lines nor on repeated lines. */
  lemma {:induction false} VerdictIgnoresLineOrder(lines1: seq<string>, lines2: seq<string>, paramUser: string, paramTime: string)
    requires forall x :: x in lines1 <==> x in lines2
    ensures AnyLineReserved(lines1, paramUser, paramTime) == AnyLineReserved(lines2, paramUser, paramTime)
  {
    if AnyLineReserved(lines1, paramUser, paramTime) {
      var i :| 0 <= i < |lines1| && IsReserved(lines1[i], paramUser, paramTime);
      assert lines1[i] in lines2;
    }
    if AnyLineReserved(lines2, paramUser, paramTime) {
      var i :| 0 <= i < |lines2| && IsReserved(lines2[i], paramUser, paramTime);
      assert lines2[i] in lines1;
    }
  }

  /** A line that trims to neither reserved name never changes the verdict. */
  lemma {:induction false} IrrelevantLine(lines: seq<string>, k: nat, extra: string, paramUser: string, paramTime: string)
    requires k <= |lines|
    requires !IsReserved(extra, paramUser, paramTime)
    ensures AnyLineReserved(lines[..k] + [extra] + lines[k..], paramUser, paramTime)
         == AnyLineReserved(lines, paramUser, paramTime)
  {
    var longer := lines[..k] + [extra] + lines[k..];
    assert |longer| == |lines| + 1 && longer[k] == extra;
    assert forall j :: 0 <= j < k ==> longer[j] == lines[j];
    assert forall j :: k < j < |longer| ==> longer[j] == lines[j - 1];
    if AnyLineReserved(longer, paramUser, paramTime) {
      var i :| 0 <= i < |longer| && IsReserved(longer[i], paramUser, paramTime);
      if i < k { assert longer[i] == lines[i]; } else { assert i != k; assert longer[i] == lines[i - 1]; }
    }
    if AnyLineReserved(lines, paramUser, paramTime) {
      var i :| 0 <= i < |lines| && IsReserved(lines[i], paramUser, paramTime);
      if i < k { assert longer[i] == lines[i]; } else { assert longer[i + 1] == lines[i]; }
    }
  }

  /** The default value "" is accepted as long as both reserved names are non-empty. */
  lemma EmptyValueValid(paramUser: string, paramTime: string)
    requires paramUser != "" && paramTime != ""
    ensures SettingIsValid(Some(""), paramUser, paramTime)
  {
    var lines := JavaSplit("", '\n');
    assert lines == [""];
    assert Trim(lines[0]) == "";
    assert !IsReserved(lines[0], paramUser, paramTime);
    assert lines[1..] == [];
  }

  lemma TrimNoPadding(s: string)
    requires s != [] && s[0] > ' ' && s[|s| - 1] > ' '
    ensures Trim(s) == s
  {
    assert TrimStart(s) == s;
  }

  /**
   * A value that is exactly the user-id parameter name (one line, no
   * surrounding blanks) is rejected, with a non-empty message.
   */
  lemma UserIdNameRejected(paramUser: string, paramTime: string, title: string)
    requires paramUser != [] && '\n' !in paramUser
    requires paramUser[0] > ' ' && paramUser[|paramUser| - 1] > ' '
    ensures !SettingIsValid(Some(paramUser), paramUser, paramTime)
    ensures GetErrorMessage(title, Some(paramUser)) != ""
  {
    TrimNoPadding(paramUser);
    assert JavaSplit(paramUser, '\n')[0] == paramUser;
  }
}
