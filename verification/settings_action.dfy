/**
 * The administration page's two actions: `loadSettings` shows every
 * setting's current value, and `storeSettings` takes a submitted form,
 * stores each value its validator accepts, and echoes every submitted
 * value back to the page.
 */
module SettingsAction {
  import opened JavaLang
  import opened Settings
  import opened SettingsManager
  import AutoSignonConfig
  import RequestParameterSettingValidator

  /** The forward both actions return. */
  const VIEW_FORWARD: string := "view"

  /**
   * `loadSettings`: when the request does not already carry the values of a
   * previous submission, it maps every catalog entry to the store's value.
   * The "currentValues" attribute maps each entry to a string or null, the
   * same shape `storeSettings` leaves there.
   */
  method LoadSettings(store: SettingsManager, existing: Option<map<Setting, Option<string>>>)
    returns (currentValues: map<Setting, Option<string>>, forward: string)
    ensures existing.Some? ==> currentValues == existing.value
    ensures existing.None? ==> forall s :: s in currentValues && currentValues[s] == Some(store.GetSetting(s))
    ensures forward == VIEW_FORWARD
  {
    if existing.None? {
      var shown: map<Setting, Option<string>> := map[];
      for i := 0 to |AllSettings|
        invariant forall j :: 0 <= j < i ==> AllSettings[j] in shown && shown[AllSettings[j]] == Some(store.GetSetting(AllSettings[j]))
      {
        var setting := AllSettings[i];
        shown := shown[setting := Some(store.GetSetting(setting))];
      }
      forall s: Setting ensures s in shown && shown[s] == Some(store.GetSetting(s)) {
        assert AllSettings[s.Ordinal()] == s;
      }
      currentValues := shown;
    } else {
      currentValues := existing.value;
    }
    forward := VIEW_FORWARD;
  }

  /**
   * What `setSetting` receives for one entry AS WRITTEN: the submitted
   * parameter, null included, whenever the entry's validator accepts it;
   * `None` when nothing is stored.
   */
  function StoredValueAsWritten(s: Setting, submitted: Option<string>, ctx: ValidationContext): (r: Option<Option<string>>)
    ensures r.Some? <==> s.Validate(submitted, ctx)
    ensures r.Some? ==> r.value == submitted
  {
    if s.Validate(submitted, ctx) then Some(submitted) else None
  }

  /**
   * An omitted MAC-parameters field is accepted by its validator, so the
   * original hands null to the store; `Properties` refuses a null value on
   * the next save.
   */
  lemma OmittedMacParametersStoredAsNull(ctx: ValidationContext)
    ensures StoredValueAsWritten(MacParameters, None, ctx) == Some(None)
  {
  }

  /**
   * The value stored for one entry: the submitted string when there is one
   * and the validator accepts it. An omitted field leaves the entry alone.
   */
  function AcceptedValue(s: Setting, submitted: Option<string>, ctx: ValidationContext): (r: Option<string>)
    ensures r.Some? <==> submitted.Some? && s.Validate(submitted, ctx)
    ensures r.Some? ==> r == submitted
    ensures r.Some? ==> StoredValueAsWritten(s, submitted, ctx) == Some(r)
  {
    if submitted.Some? && s.Validate(submitted, ctx) then submitted else None
  }

  /** The request-parameter names a store holds, as the validators see them. */
  function ContextOf(entries: map<Setting, string>, ext: ExternalValidators): (ctx: ValidationContext)
    ensures ctx.userIdParam == ValueIn(entries, ParamUserId)
    ensures ctx.timestampParam == ValueIn(entries, ParamTimestamp)
    ensures ctx.external == ext
  {
    ValidationContext(ValueIn(entries, ParamUserId), ValueIn(entries, ParamTimestamp), ext)
  }

  /** The values accepted from the first `n` catalog entries of a form. */
  function AcceptedUpTo(form: map<string, string>, ctx: ValidationContext, n: nat): map<Setting, string>
    requires n <= |AllSettings|
  {
    if n == 0 then map[]
    else
      var s := AllSettings[n - 1];
      var prev := AcceptedUpTo(form, ctx, n - 1);
      match AcceptedValue(s, Lookup(form, s.Key()), ctx)
      case Some(v) => prev[s := v]
      case None => prev
  }

  /**
   * The entries taken from the first `n` catalog entries are exactly the
   * accepted ones among them, each with its submitted value.
   */
  lemma {:induction false} AcceptedUpToSpec(form: map<string, string>, ctx: ValidationContext, n: nat)
    requires n <= |AllSettings|
    ensures forall s: Setting :: s in AcceptedUpTo(form, ctx, n) <==>
      s.Ordinal() < n && AcceptedValue(s, Lookup(form, s.Key()), ctx).Some?
    ensures forall s :: s in AcceptedUpTo(form, ctx, n) ==> s.Key() in form && AcceptedUpTo(form, ctx, n)[s] == form[s.Key()]
  {
    if n > 0 {
      var t := AllSettings[n - 1];
      AcceptedUpToSpec(form, ctx, n - 1);
      OrdinalOfIndex(n - 1);
      forall s: Setting | s != t ensures s.Ordinal() != n - 1 {
      }
    }
  }

  /** Each catalog position holds the entry whose ordinal it is. */
  lemma OrdinalOfIndex(i: nat)
    requires i < |AllSettings|
    ensures AllSettings[i].Ordinal() == i
  {
    CatalogShape();
  }

  /** The values accepted from a whole form. */
  function Accepted(form: map<string, string>, ctx: ValidationContext): map<Setting, string>
  {
    AcceptedUpTo(form, ctx, |AllSettings|)
  }

  /**
   * An entry is taken from a form exactly when the form carries it and its
   * validator accepts it, and then it is taken verbatim.
   */
  lemma AcceptedIffValid(form: map<string, string>, ctx: ValidationContext, s: Setting)
    ensures s in Accepted(form, ctx) <==> s.Key() in form && s.Validate(Some(form[s.Key()]), ctx)
    ensures s in Accepted(form, ctx) ==> Accepted(form, ctx)[s] == form[s.Key()]
  {
    AcceptedUpToSpec(form, ctx, |AllSettings|);
    if s.Key() in form {
      assert Lookup(form, s.Key()) == Some(form[s.Key()]);
    } else {
      assert Lookup(form, s.Key()) == None;
    }
  }

  /** Only MAC_PARAMETERS consults the configured request-parameter names. */
  lemma VerdictIgnoresNames(s: Setting, value: Option<string>, ctx1: ValidationContext, ctx2: ValidationContext)
    requires s != MacParameters && ctx1.external == ctx2.external
    ensures s.Validate(value, ctx1) == s.Validate(value, ctx2)
  {
  }

  /** One step of the store loop. */
  lemma AcceptStep(form: map<string, string>, ctx: ValidationContext, entries0: map<Setting, string>, i: nat)
    requires i < |AllSettings|
    ensures var s := AllSettings[i];
      var a := AcceptedValue(s, Lookup(form, s.Key()), ctx);
      (a.Some? ==> entries0 + AcceptedUpTo(form, ctx, i + 1) == (entries0 + AcceptedUpTo(form, ctx, i))[s := a.value]) &&
      (a.None? ==> AcceptedUpTo(form, ctx, i + 1) == AcceptedUpTo(form, ctx, i)) &&
      (a.Some? ==> AcceptedUpTo(form, ctx, i + 1) != map[])
  {
    var s := AllSettings[i];
    match AcceptedValue(s, Lookup(form, s.Key()), ctx)
    case Some(v) =>
      assert AcceptedUpTo(form, ctx, i + 1) == AcceptedUpTo(form, ctx, i)[s := v];
      assert s in AcceptedUpTo(form, ctx, i + 1);
      UnionUpdate(entries0, AcceptedUpTo(form, ctx, i), s, v);
    case None =>
  }

  /**
   * Before entry `i` is validated, the entries from `i` on still hold their
   * values from before the submission.
   */
  lemma LaterEntriesUntouched(form: map<string, string>, ctx: ValidationContext, entries0: map<Setting, string>, i: nat, s: Setting)
    requires i <= |AllSettings| && i <= s.Ordinal()
    ensures ValueIn(entries0 + AcceptedUpTo(form, ctx, i), s) == ValueIn(entries0, s)
  {
    AcceptedUpToSpec(form, ctx, i);
  }

  /**
   * The body of the store loop for catalog entry `i`: validate the submitted
   * value against the request-parameter names stored at that moment, and
   * store it when accepted. Because the user-id and timestamp names come
   * after MAC_PARAMETERS in the catalog, the verdict equals the one against
   * the names stored before the submission.
   */
  method StoreEntry(store: SettingsManager, form: map<string, string>, ext: ExternalValidators, i: nat,
                    ghost entries0: map<Setting, string>, ghost dirty0: bool)
    requires i < |AllSettings|
    requires store.entries == entries0 + AcceptedUpTo(form, ContextOf(entries0, ext), i)
    requires store.settingsAreDirty <==> dirty0 || AcceptedUpTo(form, ContextOf(entries0, ext), i) != map[]
    modifies store
    ensures store.entries == entries0 + AcceptedUpTo(form, ContextOf(entries0, ext), i + 1)
    ensures store.settingsAreDirty <==> dirty0 || AcceptedUpTo(form, ContextOf(entries0, ext), i + 1) != map[]
    ensures store.props == old(store.props) && store.listeners == old(store.listeners)
  {
    ghost var ctx0 := ContextOf(entries0, ext);
    var setting := AllSettings[i];
    AcceptStep(form, ctx0, entries0, i);
    var settingValue := Lookup(form, setting.Key());
    var ctx := ValidationContext(AutoSignonConfig.GetUserIdRequestParameter(store),
                                 AutoSignonConfig.GetTimestampRequestParameter(store), ext);
    if setting == MacParameters {
      LaterEntriesUntouched(form, ctx0, entries0, i, ParamUserId);
      LaterEntriesUntouched(form, ctx0, entries0, i, ParamTimestamp);
      assert ctx == ctx0;
    } else {
      VerdictIgnoresNames(setting, settingValue, ctx, ctx0);
    }
    if settingValue.Some? && setting.Validate(settingValue, ctx) {
      store.SetSetting(setting, settingValue.value);
    }
  }

  /**
   * `storeSettings`: each entry's submitted value is validated and stored
   * when accepted; every submitted value, accepted or not, is echoed back.
   */
  method StoreSettings(store: SettingsManager, form: map<string, string>, ext: ExternalValidators)
    returns (currentValues: map<Setting, Option<string>>, forward: string)
    modifies store
    ensures store.entries == old(store.entries) + Accepted(form, ContextOf(old(store.entries), ext))
    ensures store.settingsAreDirty <==> old(store.settingsAreDirty) || Accepted(form, ContextOf(old(store.entries), ext)) != map[]
    ensures store.props == old(store.props) && store.listeners == old(store.listeners)
    ensures forall s :: s in currentValues && currentValues[s] == Lookup(form, s.Key())
    ensures forward == VIEW_FORWARD
  {
    ghost var entries0 := store.entries;
    ghost var dirty0 := store.settingsAreDirty;
    var shown: map<Setting, Option<string>> := map[];
    for i := 0 to |AllSettings|
      invariant store.entries == entries0 + AcceptedUpTo(form, ContextOf(entries0, ext), i)
      invariant store.settingsAreDirty <==> dirty0 || AcceptedUpTo(form, ContextOf(entries0, ext), i) != map[]
      invariant store.props == old(store.props) && store.listeners == old(store.listeners)
      invariant forall j :: 0 <= j < i ==> AllSettings[j] in shown && shown[AllSettings[j]] == Lookup(form, AllSettings[j].Key())
    {
      var setting := AllSettings[i];
      StoreEntry(store, form, ext, i, entries0, dirty0);
      // keep the submitted value to report on errors correctly
      shown := shown[setting := Lookup(form, setting.Key())];
    }
    forall s: Setting ensures s in shown && shown[s] == Lookup(form, s.Key()) {
      assert AllSettings[s.Ordinal()] == s;
    }
    currentValues := shown;
    forward := VIEW_FORWARD;
  }

  /**
   * Submitting the values the page shows changes no setting: each accepted
   * value is the one already in effect.
   */
  lemma ResubmittingShownValuesChangesNothing(entries: map<Setting, string>, form: map<string, string>, ctx: ValidationContext)
    requires forall s: Setting :: s.Key() in form ==> form[s.Key()] == ValueIn(entries, s)
    ensures forall s :: ValueIn(entries + Accepted(form, ctx), s) == ValueIn(entries, s)
  {
    forall s ensures ValueIn(entries + Accepted(form, ctx), s) == ValueIn(entries, s) {
      AcceptedIffValid(form, ctx, s);
    }
  }

  /** A form without a field never changes that field's setting. */
  lemma OmittedFieldKept(entries: map<Setting, string>, form: map<string, string>, ctx: ValidationContext, s: Setting)
    requires s.Key() !in form
    ensures ValueIn(entries + Accepted(form, ctx), s) == ValueIn(entries, s)
  {
    AcceptedIffValid(form, ctx, s);
  }

  /**
   * A MAC-parameters value naming the stored user-id parameter is rejected
   * and leaves the stored list as it was.
   */
  lemma ReservedMacParameterRejected(entries: map<Setting, string>, form: map<string, string>, ext: ExternalValidators)
    requires var user := ValueIn(entries, ParamUserId);
      user != [] && '\n' !in user && user[0] > ' ' && user[|user| - 1] > ' '
    requires MacParameters.Key() in form && form[MacParameters.Key()] == ValueIn(entries, ParamUserId)
    ensures MacParameters !in Accepted(form, ContextOf(entries, ext))
    ensures ValueIn(entries + Accepted(form, ContextOf(entries, ext)), MacParameters) == ValueIn(entries, MacParameters)
  {
    var ctx := ContextOf(entries, ext);
    RequestParameterSettingValidator.UserIdNameRejected(ctx.userIdParam, ctx.timestampParam, MacParameters.Title());
    AcceptedIffValid(form, ctx, MacParameters);
  }

  /**
   * The check against reserved names uses the names stored before the
   * submission: one form that renames the user-id parameter and lists the
   * new name as a MAC parameter passes the check, as long as the new name
   * differs from the names stored before.
   */
  lemma RenameInSameSubmissionPasses(entries: map<Setting, string>, form: map<string, string>, ext: ExternalValidators, name: string)
    requires '\n' !in name && Trim(name) == name
    requires name != ValueIn(entries, ParamUserId) && name != ValueIn(entries, ParamTimestamp)
    requires MacParameters.Key() in form && form[MacParameters.Key()] == name
    ensures MacParameters in Accepted(form, ContextOf(entries, ext))
  {
    var ctx := ContextOf(entries, ext);
    assert JavaSplit(name, '\n') == [name];
    AcceptedIffValid(form, ctx, MacParameters);
  }
}
