/**
 * The AutoSignon configuration as decoded from the settings store: each
 * accessor reads one setting through `getSetting` and turns its string into
 * a flag, a number or a list of parameter names.
 */
module AutoSignonConfig {
  import opened JavaLang
  import opened Settings
  import opened SettingsManager

  const SSO_ENABLED: string := "Enabled"
  const SSO_DISABLED: string := "Disabled"
  const TIMESTAMP_RANGE_DEF: string := "60000"
  const SECURE_MAC: string := "Secure"
  const INSECURE_MAC: string := "Insecure"
  const ANY_MAC: string := "Any"

  /** `isSsoEnabled`: only the exact value "Enabled" switches sign-on on. */
  function IsSsoEnabled(store: SettingsManager): (r: bool)
    reads store
    ensures r <==> store.GetSetting(SsoEnabled) == SSO_ENABLED
    ensures store.GetSetting(SsoEnabled) == SSO_DISABLED ==> !r
  {
    SSO_ENABLED == store.GetSetting(SsoEnabled)
  }

  function GetSharedSecret(store: SettingsManager): (r: string)
    reads store
    ensures SharedSecret in store.entries ==> r == store.entries[SharedSecret]
    ensures SharedSecret !in store.entries ==> r == ""
  {
    store.GetSetting(SharedSecret)
  }

  /**
   * `getTimestampRange`: the stored value read as a Java long, or 60000 when
   * it does not parse. The result is always a long.
   */
  function GetTimestampRange(store: SettingsManager): (r: int)
    reads store
    ensures IsLong(r)
    ensures ParseLong(Some(store.GetSetting(TimestampRange))).Some? ==>
      Some(r) == ParseLong(Some(store.GetSetting(TimestampRange)))
    ensures ParseLong(Some(store.GetSetting(TimestampRange))).None? ==> r == 60000
  {
    match ParseLong(Some(store.GetSetting(TimestampRange)))
    case Some(range) => range
    case None =>
      DefaultRangeParses();
      ParseLong(Some(TIMESTAMP_RANGE_DEF)).value
  }

  /** The default range text is the decimal form of 60000. */
  lemma DefaultRangeParses()
    ensures ParseLong(Some(TIMESTAMP_RANGE_DEF)) == Some(60000)
  {
    ParseLongToString(60000);
    assert LongToString(60000) == TIMESTAMP_RANGE_DEF;
  }

  /** `allowSecureMac`: only "Secure" enables the sorted-values algorithm; "Any" does not. */
  function AllowSecureMac(store: SettingsManager): (r: bool)
    reads store
    ensures r <==> store.GetSetting(MacAlgorithm) == SECURE_MAC
  {
    SECURE_MAC == store.GetSetting(MacAlgorithm)
  }

  /** `allowInsecureMac`: "Insecure" or "Any" enables the character-sum algorithm. */
  function AllowInsecureMac(store: SettingsManager): (r: bool)
    reads store
    ensures r <==> store.GetSetting(MacAlgorithm) in {INSECURE_MAC, ANY_MAC}
    ensures r ==> !AllowSecureMac(store)
  {
    INSECURE_MAC == store.GetSetting(MacAlgorithm) || ANY_MAC == store.GetSetting(MacAlgorithm)
  }

  /** `getMacParameters`: the stored list split at line breaks, Java `split` style. */
  function GetMacParameters(store: SettingsManager): (r: seq<string>)
    reads store
    ensures '\n' !in store.GetSetting(MacParameters) ==> r == [store.GetSetting(MacParameters)]
  {
    JavaSplit(store.GetSetting(MacParameters), '\n')
  }

  /**
   * No configured name contains a line break, and joining the names with
   * line breaks gives the stored text back up to its trailing line breaks.
   */
  lemma MacParametersSplit(store: SettingsManager)
    ensures forall i :: 0 <= i < |GetMacParameters(store)| ==> '\n' !in GetMacParameters(store)[i]
    ensures var v := store.GetSetting(MacParameters);
      var j := Join(GetMacParameters(store), '\n');
      |j| <= |v| && j == v[..|j|] && forall i :: |j| <= i < |v| ==> v[i] == '\n'
  {
    JavaSplitJoin(store.GetSetting(MacParameters), '\n');
  }

  function GetMacRequestParameter(store: SettingsManager): (r: string)
    reads store
    ensures r == ValueIn(store.entries, ParamMac)
  {
    store.GetSetting(ParamMac)
  }

  function GetUserIdRequestParameter(store: SettingsManager): (r: string)
    reads store
    ensures r == ValueIn(store.entries, ParamUserId)
  {
    store.GetSetting(ParamUserId)
  }

  function GetTimestampRequestParameter(store: SettingsManager): (r: string)
    reads store
    ensures r == ValueIn(store.entries, ParamTimestamp)
  {
    store.GetSetting(ParamTimestamp)
  }

  function GetForwardRequestParameter(store: SettingsManager): (r: string)
    reads store
    ensures r == ValueIn(store.entries, ParamForward)
  {
    store.GetSetting(ParamForward)
  }

  function GetCourseIdRequestParameter(store: SettingsManager): (r: string)
    reads store
    ensures r == ValueIn(store.entries, ParamCourseId)
  {
    store.GetSetting(ParamCourseId)
  }

  /** The two MAC algorithms are never enabled together, whatever is stored. */
  lemma MacAlgorithmsExclusive(store: SettingsManager)
    ensures !(AllowSecureMac(store) && AllowInsecureMac(store))
    ensures store.GetSetting(MacAlgorithm) == ANY_MAC ==> AllowInsecureMac(store) && !AllowSecureMac(store)
  {
  }

  /** A timestamp range stored as a long's decimal text is read back unchanged. */
  lemma TimestampRangeRoundTrip(store: SettingsManager, range: int)
    requires IsLong(range)
    requires store.GetSetting(TimestampRange) == LongToString(range)
    ensures GetTimestampRange(store) == range
  {
    ParseLongToString(range);
  }

  /**
   * A store with nothing cached decodes to the catalog defaults: sign-on on,
   * a one-minute window, the secure algorithm only, one empty optional
   * parameter name, and the default request-parameter names.
   */
  lemma EmptyStoreDefaults(store: SettingsManager)
    requires store.entries == map[]
    ensures IsSsoEnabled(store)
    ensures GetSharedSecret(store) == ""
    ensures GetTimestampRange(store) == 60000
    ensures AllowSecureMac(store) && !AllowInsecureMac(store)
    ensures GetMacParameters(store) == [""]
    ensures GetMacRequestParameter(store) == "auth" && GetUserIdRequestParameter(store) == "userId"
    ensures GetTimestampRequestParameter(store) == "timestamp" && GetForwardRequestParameter(store) == "forward"
    ensures GetCourseIdRequestParameter(store) == "courseId"
  {
    assert store.GetSetting(SsoEnabled) == SSO_ENABLED;
    assert store.GetSetting(MacAlgorithm) == SECURE_MAC;
    assert store.GetSetting(MacParameters) == "";
    assert store.GetSetting(TimestampRange) == TIMESTAMP_RANGE_DEF;
    DefaultRangeParses();
  }

  /** The decoder's constants agree with the catalog's defaults and options. */
  lemma ConstantsMatchCatalog()
    ensures SsoEnabled.DefaultValue() == SSO_ENABLED
    ensures SsoEnabled.Options() == Some([SSO_ENABLED, SSO_DISABLED])
    ensures MacAlgorithm.DefaultValue() == SECURE_MAC
    ensures TimestampRange.DefaultValue() == TIMESTAMP_RANGE_DEF
  {
  }
}
