/**
 * The fixed catalog of settings: for each, its persistence key, default
 * value, whether it is required, the options offered, and the validator
 * consulted before a submitted value is accepted.
 */
module Settings {
  import opened JavaLang
  import RequestParameterSettingValidator

  /** How the settings form shows a setting (the rendering itself is not modelled). */
  datatype SettingType = Text | TextArea | Select | Radio

  /** The validator classes the catalog attaches to its entries. */
  datatype ValidatorKind = NonEmpty | LongValue | RequestParameter

  /**
   * The verdicts and messages of `NonEmptyValidator` and `LongValidator`,
   * whose code is not part of this model.
   */
  datatype ExternalValidators = ExternalValidators(
    nonEmptyIsValid: Option<string> -> bool,
    nonEmptyError: (string, Option<string>) -> string,
    longIsValid: Option<string> -> bool,
    longError: (string, Option<string>) -> string)

  /**
   * What a validator consults besides the value: the request-parameter
   * names currently configured for user id and timestamp.
   */
  datatype ValidationContext = ValidationContext(
    userIdParam: string,
    timestampParam: string,
    external: ExternalValidators)

  /** The catalog, in declaration order. */
  datatype Setting =
    | SsoEnabled
    | SharedSecret
    | TimestampRange
    | MacAlgorithm
    | MacParameters
    | ParamMac
    | ParamUserId
    | ParamCourseId
    | ParamTimestamp
    | ParamForward
  {
    function Title(): string
    {
      match this
      case SsoEnabled => "AutoSignon Enabled"
      case SharedSecret => "Shared Secret"
      case TimestampRange => "Timestamp Delta"
      case MacAlgorithm => "MAC Algorithm"
      case MacParameters => "Request Parameters used for MAC"
      case ParamMac => "MAC Request Parameter"
      case ParamUserId => "User Id Request Parameter"
      case ParamCourseId => "Course Id Request Parameter"
      case ParamTimestamp => "Timestamp Request Parameter"
      case ParamForward => "Forward Request Parameter"
    }

    /** The persistence key in the settings file. */
    function Key(): string
    {
      match this
      case SsoEnabled => "bbgs.autosignon.ssoEnabled"
      case SharedSecret => "bbgs.autosignon.sharedSecret"
      case TimestampRange => "bbgs.autosignon.timestampRange"
      case MacAlgorithm => "bbgs.autosignon.macAlgorithm"
      case MacParameters => "bbgs.autosignon.macParameters"
      case ParamMac => "bbgs.autosignon.paramMac"
      case ParamUserId => "bbgs.autosignon.paramUserId"
      case ParamCourseId => "bbgs.autosignon.paramCourseId"
      case ParamTimestamp => "bbgs.autosignon.paramTimestamp"
      case ParamForward => "bbgs.autosignon.paramForward"
    }

    function DefaultValue(): string
    {
      match this
      case SsoEnabled => "Enabled"
      case SharedSecret => ""
      case TimestampRange => "60000"
      case MacAlgorithm => "Secure"
      case MacParameters => ""
      case ParamMac => "auth"
      case ParamUserId => "userId"
      case ParamCourseId => "courseId"
      case ParamTimestamp => "timestamp"
      case ParamForward => "forward"
    }

    /** `ordinal()`: the position of this entry in `Setting.values()`. */
    function Ordinal(): (r: nat)
      ensures r < |AllSettings| && AllSettings[r] == this
    {
      match this
      case SsoEnabled => 0
      case SharedSecret => 1
      case TimestampRange => 2
      case MacAlgorithm => 3
      case MacParameters => 4
      case ParamMac => 5
      case ParamUserId => 6
      case ParamCourseId => 7
      case ParamTimestamp => 8
      case ParamForward => 9
    }

    function IsRequired(): bool
    {
      !this.MacParameters?
    }

    function Type(): SettingType
    {
      match this
      case SsoEnabled => Radio
      case MacAlgorithm => Select
      case MacParameters => TextArea
      case _ => Text
    }

    /** The choices offered, or null when the value is free text. */
    function Options(): Option<seq<string>>
    {
      match this
      case SsoEnabled => Some(["Enabled", "Disabled"])
      case MacAlgorithm => Some(["Secure"])
      case _ => None
    }

    /** The validator attached to this entry (every catalog entry has one). */
    function Validator(): Option<ValidatorKind>
    {
      match this
      case TimestampRange => Some(LongValue)
      case MacParameters => Some(RequestParameter)
      case _ => Some(NonEmpty)
    }

    /** `validate`: the validator's verdict on a submitted value (null when not submitted). */
    function Validate(value: Option<string>, ctx: ValidationContext): (r: bool)
      ensures this.MacParameters? ==>
        r == RequestParameterSettingValidator.SettingIsValid(value, ctx.userIdParam, ctx.timestampParam)
      ensures this.TimestampRange? ==> r == ctx.external.longIsValid(value)
    {
      ValidatorAccepts(Validator(), value, ctx)
    }

    /** `getValidationError`: the validator's message, built from this entry's title. */
    function GetValidationError(value: Option<string>, ctx: ValidationContext): (r: string)
      ensures this.MacParameters? ==> |r| > |Title()| && r[..|Title()|] == Title()
    {
      ValidatorError(Validator(), Title(), value, ctx)
    }
  }

  /** The verdict for an entry with the given validator: no validator accepts everything. */
  function ValidatorAccepts(validator: Option<ValidatorKind>, value: Option<string>, ctx: ValidationContext): (r: bool)
    ensures validator.None? ==> r
    ensures validator == Some(RequestParameter) && value.None? ==> r
  {
    match validator
    case None => true
    case Some(NonEmpty) => ctx.external.nonEmptyIsValid(value)
    case Some(LongValue) => ctx.external.longIsValid(value)
    case Some(RequestParameter) =>
      RequestParameterSettingValidator.SettingIsValid(value, ctx.userIdParam, ctx.timestampParam)
  }

  /** The message for an entry with the given validator: no validator means no message. */
  function ValidatorError(validator: Option<ValidatorKind>, title: string, value: Option<string>, ctx: ValidationContext): (r: string)
    ensures validator.None? ==> r == ""
    ensures validator == Some(RequestParameter) ==> |r| > |title| && r[..|title|] == title
  {
    match validator
    case None => ""
    case Some(NonEmpty) => ctx.external.nonEmptyError(title, value)
    case Some(LongValue) => ctx.external.longError(title, value)
    case Some(RequestParameter) => RequestParameterSettingValidator.GetErrorMessage(title, value)
  }

  /** `Setting.values()`. */
  const AllSettings: seq<Setting> := [
    SsoEnabled, SharedSecret, TimestampRange, MacAlgorithm, MacParameters,
    ParamMac, ParamUserId, ParamCourseId, ParamTimestamp, ParamForward]

  /** Finds the catalog entry persisted under a key, if any. */
  function SettingOfKey(key: string): (r: Option<Setting>)
    ensures r.Some? ==> r.value.Key() == key
  {
    if key == SsoEnabled.Key() then Some(SsoEnabled)
    else if key == SharedSecret.Key() then Some(SharedSecret)
    else if key == TimestampRange.Key() then Some(TimestampRange)
    else if key == MacAlgorithm.Key() then Some(MacAlgorithm)
    else if key == MacParameters.Key() then Some(MacParameters)
    else if key == ParamMac.Key() then Some(ParamMac)
    else if key == ParamUserId.Key() then Some(ParamUserId)
    else if key == ParamCourseId.Key() then Some(ParamCourseId)
    else if key == ParamTimestamp.Key() then Some(ParamTimestamp)
    else if key == ParamForward.Key() then Some(ParamForward)
    else None
  }

  /** Every entry is found again from its own key, so no two entries share a key. */
  lemma KeyRoundTrip(s: Setting)
    ensures SettingOfKey(s.Key()) == Some(s)
  {
    // the keys share the prefix "bbgs.autosignon."; they differ right after it
    var p := |"bbgs.autosignon."|;
    assert s.Key()[..p] == "bbgs.autosignon.";
  }

  lemma KeysDistinct(s: Setting, t: Setting)
    requires s.Key() == t.Key()
    ensures s == t
  {
    KeyRoundTrip(s);
    KeyRoundTrip(t);
  }

  lemma KeysInjective()
    ensures forall s: Setting, t: Setting :: s.Key() == t.Key() ==> s == t
  {
    forall s: Setting, t: Setting | s.Key() == t.Key() ensures s == t {
      KeysDistinct(s, t);
    }
  }

  /** The catalog has ten entries, each exactly once. */
  lemma CatalogShape()
    ensures |AllSettings| == 10
    ensures forall s: Setting :: s in AllSettings
    ensures forall i, j :: 0 <= i < j < |AllSettings| ==> AllSettings[i] != AllSettings[j]
  {
    forall s: Setting ensures s in AllSettings {
      assert AllSettings[s.Ordinal()] == s;
    }
  }

  datatype SettingsGroup = SettingsGroup(title: string, settings: seq<Setting>)

  /** `getSettingsGroups`: the security settings, then the request-parameter settings. */
  function GetSettingsGroups(): (r: seq<SettingsGroup>)
    ensures |r| == 2
    ensures r[0].title == "Security Settings" && r[1].title == "Request Parameter Settings"
  {
    [SettingsGroup("Security Settings", [SsoEnabled, MacAlgorithm, MacParameters, SharedSecret, TimestampRange]),
     SettingsGroup("Request Parameter Settings", [ParamMac, ParamUserId, ParamTimestamp, ParamForward, ParamCourseId])]
  }

  /** Every catalog entry appears in exactly one group, and exactly once there. */
  lemma GroupsPartitionCatalog()
    ensures var all := GetSettingsGroups()[0].settings + GetSettingsGroups()[1].settings;
      |all| == |AllSettings| &&
      (forall s: Setting :: s in all) &&
      (forall i, j :: 0 <= i < j < |all| ==> all[i] != all[j])
  {
    var all := GetSettingsGroups()[0].settings + GetSettingsGroups()[1].settings;
    forall s: Setting ensures s in all {
      match s
      case SsoEnabled => assert all[0] == s;
      case MacAlgorithm => assert all[1] == s;
      case MacParameters => assert all[2] == s;
      case SharedSecret => assert all[3] == s;
      case TimestampRange => assert all[4] == s;
      case ParamMac => assert all[5] == s;
      case ParamUserId => assert all[6] == s;
      case ParamTimestamp => assert all[7] == s;
      case ParamForward => assert all[8] == s;
      case ParamCourseId => assert all[9] == s;
    }
  }

  /** Where options are offered, the default is one of them. */
  lemma DefaultAmongOptions(s: Setting)
    requires s.Options().Some?
    ensures s.DefaultValue() in s.Options().value
  {
  }

  /** MAC_PARAMETERS is the one optional entry, and it defaults to the empty list. */
  lemma OnlyMacParametersOptional(s: Setting)
    ensures !s.IsRequired() <==> s == MacParameters
    ensures MacParameters.DefaultValue() == ""
  {
  }

  /** The default request-parameter names are pairwise distinct. */
  lemma DefaultParameterNamesDistinct()
    ensures var names := [ParamMac.DefaultValue(), ParamUserId.DefaultValue(), ParamCourseId.DefaultValue(),
                          ParamTimestamp.DefaultValue(), ParamForward.DefaultValue()];
      forall i, j :: 0 <= i < j < |names| ==> names[i] != names[j]
  {
  }
}
