# AutoSignon for Blackboard: single sign-on check and settings store

This project is a Dafny model of the core of the AutoSignon building block. It covers three parts:

- **The request check** (`SecurityService`). An external system sends the user id, a timestamp and a MAC (message authentication code) as request parameters. The timestamp must parse as a Java `long` and lie within the configured window of the current time. A seconds-based timestamp is rescaled to milliseconds first. The check then builds a data string, using one of two algorithms:
  - the secure one concatenates the values of the MAC parameters in ascending name order;
  - the insecure one adds up their character codes in a Java `int`.

  It appends the shared secret, hashes the result, and compares the hash with the MAC on the request, ignoring case.
- **The configuration.**
  - `Setting` is the fixed catalog of ten settings: keys, defaults, options and validators.
  - `AutoSignonConfig` turns stored strings into flags, numbers and parameter-name lists.
  - `RequestParameterSettingValidator` stops the optional MAC parameters from repeating the user-id or timestamp parameter.
- **The settings store and the admin page.**
  - `SettingsManager` is a class holding a cache of values, the key/value content of the settings file, a dirty flag and change listeners. A reconcile step stores the cache when it is dirty, then reloads the file and seeds any key the file lacks.
  - `SettingsAction` shows the current values and stores the submitted values that pass validation.

Java semantics are written out explicitly. These include:

- `long` and `int` wrap-around, and `Math.abs(Long.MIN_VALUE)`;
- `Long.parseLong` and `Long.toString`;
- `String.split` dropping trailing empty strings, and `String.trim`;
- ASCII `equalsIgnoreCase`, and the `String.compareTo` order that a `TreeSet` follows;
- `StringBuffer.append(null)` appending `"null"`.

The MD5 digest and the clock are parameters of the check.

Files and modules:

- `java_lang.dfy` (`JavaLang`)
- `setting.dfy` (`Settings`)
- `request_parameter_validator.dfy` (`RequestParameterSettingValidator`)
- `settings_manager.dfy` (`SettingsManager`)
- `auto_signon_config.dfy` (`AutoSignonConfig`)
- `security_service.dfy` (`SecurityService`)
- `settings_action.dfy` (`SettingsAction`)

Some behaviour is modelled as written even though it looks unintended:

- After a reload, listeners are never notified. The change check reads the cache after the new value has already been put there, so it finds no change (`LoadProperties` ensures `calls == []`).
- A timestamp exactly 2^63 ms before the clock passes the freshness test, because the subtraction wraps (`FarPastTimestampAccepted`).
- The MAC-parameters value is checked against the parameter names stored before the submission. So one form can rename the user-id parameter and list the new name as a MAC parameter (`RenameInSameSubmissionPasses`).

## Model

| member | source | states |
|---|---|---|
| JavaLang.ParseLongToString | src/main/java/com/blackboard/gs/autosignon/AutoSignonConfig.java:85-91 | `Long.parseLong` reads back every `long` that `Long.toString` writes |
| JavaLang.JavaSplitJoin | src/main/java/com/blackboard/gs/autosignon/AutoSignonConfig.java:118-124 | joining the pieces of `split("\n")` with line breaks gives back the text, except for its trailing line breaks |
| JavaLang.EqualsIgnoreCaseIffSameLower | src/main/java/com/blackboard/gs/autosignon/service/SecurityService.java:144 | two strings are equal ignoring case exactly when their lower-case forms are equal |
| JavaLang.StrLessTotal | src/main/java/com/blackboard/gs/autosignon/service/SecurityService.java:195 | two distinct strings are always ordered one way or the other by `compareTo`, so the sorted set has a single order |
| JavaLang.StrLessTransitive | src/main/java/com/blackboard/gs/autosignon/service/SecurityService.java:195 | the `compareTo` order is transitive |
| JavaLang.AbsLong | src/main/java/com/blackboard/gs/autosignon/service/SecurityService.java:236 | `Math.abs` on a `long` is non-negative and equal to ±x, except that `Long.MIN_VALUE` stays negative |
| Settings.Setting.Ordinal | src/main/java/com/blackboard/gs/settings/Setting.java:50-150 | each entry sits at its own index of `values()` |
| Settings.KeyRoundTrip | src/main/java/com/blackboard/gs/settings/Setting.java:50-150 | each entry is found again from its persistence key |
| Settings.KeysDistinct | src/main/java/com/blackboard/gs/settings/Setting.java:50-150 | no two entries share a persistence key |
| Settings.CatalogShape | src/main/java/com/blackboard/gs/settings/Setting.java:50-150 | the catalog lists ten entries, each exactly once |
| Settings.DefaultAmongOptions | src/main/java/com/blackboard/gs/settings/Setting.java:50-91 | where a setting offers options, its default is one of them |
| Settings.OnlyMacParametersOptional | src/main/java/com/blackboard/gs/settings/Setting.java:92-101 | MAC_PARAMETERS is the only optional setting, and its default is empty |
| Settings.DefaultParameterNamesDistinct | src/main/java/com/blackboard/gs/settings/Setting.java:102-150 | the five default request-parameter names are pairwise distinct |
| Settings.GetSettingsGroups | src/main/java/com/blackboard/gs/settings/Setting.java:154-172 | two groups, titled "Security Settings" and "Request Parameter Settings" |
| Settings.GroupsPartitionCatalog | src/main/java/com/blackboard/gs/settings/Setting.java:154-172 | every catalog entry appears in exactly one group, exactly once |
| Settings.Setting.Validate | src/main/java/com/blackboard/gs/settings/Setting.java:227-232 | the verdict comes from the entry's validator; for MAC_PARAMETERS it is the reserved-name check against the configured names |
| Settings.Setting.GetValidationError | src/main/java/com/blackboard/gs/settings/Setting.java:233-238 | the MAC_PARAMETERS message begins with the setting's title |
| Settings.ValidatorAccepts | src/main/java/com/blackboard/gs/settings/Setting.java:227-232 | no validator accepts every value, and the request-parameter validator accepts null |
| Settings.ValidatorError | src/main/java/com/blackboard/gs/settings/Setting.java:233-238 | no validator means an empty message |
| RequestParameterSettingValidator.AnyLineReserved | src/main/java/com/blackboard/gs/settings/validators/RequestParameterSettingValidator.java:60-65 | the loop answers true exactly when some line, once trimmed, is a reserved name |
| RequestParameterSettingValidator.SettingIsValid | src/main/java/com/blackboard/gs/settings/validators/RequestParameterSettingValidator.java:46-69 | null is valid; otherwise the value is valid exactly when no trimmed line of its `split("\n")` is the user-id or timestamp name |
| RequestParameterSettingValidator.GetErrorMessage | src/main/java/com/blackboard/gs/settings/validators/RequestParameterSettingValidator.java:71-73 | the message is the setting name followed by the fixed explanation, whatever the value |
| RequestParameterSettingValidator.VerdictIgnoresLineOrder | src/main/java/com/blackboard/gs/settings/validators/RequestParameterSettingValidator.java:56-65 | the verdict depends only on which lines occur, not on their order or repetition |
| RequestParameterSettingValidator.IrrelevantLine | src/main/java/com/blackboard/gs/settings/validators/RequestParameterSettingValidator.java:56-65 | inserting a line that trims to neither reserved name never changes the verdict |
| RequestParameterSettingValidator.EmptyValueValid | src/main/java/com/blackboard/gs/settings/validators/RequestParameterSettingValidator.java:46-69 | the default empty value passes when both reserved names are non-empty |
| RequestParameterSettingValidator.UserIdNameRejected | src/main/java/com/blackboard/gs/settings/validators/RequestParameterSettingValidator.java:60-65 | a value that is exactly the user-id name is rejected, with a non-empty message |
| SettingsManager.RemoveFirst | src/main/java/com/blackboard/gs/settings/SettingsManager.java:138-142 | `List.remove` drops exactly the first occurrence: the elements before it and those after it keep their order; an absent listener leaves the list unchanged |
| SettingsManager.StoredView | src/main/java/com/blackboard/gs/settings/SettingsManager.java:191-193 | every cached value appears under its setting's key, and only those keys appear |
| SettingsManager.StoredViewUpdate | src/main/java/com/blackboard/gs/settings/SettingsManager.java:191-193 | caching one value changes the stored view at that setting's key only |
| SettingsManager.Merge | src/main/java/com/blackboard/gs/settings/SettingsManager.java:218-230 | `Properties.load` overrides the loaded keys and keeps the others; a failed read changes nothing |
| SettingsManager.SeedsUpTo | src/main/java/com/blackboard/gs/settings/SettingsManager.java:234-243 | the keys the reload seeds are exactly the catalog keys missing from the merged file, each with its setting's default (a reload starts with every cached entry persisted, so a missing key has no cached value) |
| SettingsManager.AdoptedUpTo | src/main/java/com/blackboard/gs/settings/SettingsManager.java:244-246 | the reload caches exactly the catalog entries whose keys the file holds, with the file's values |
| SettingsManager.SettingsManager.constructor | src/main/java/com/blackboard/gs/settings/SettingsManager.java:73-90 | the store starts with an empty cache, empty properties, not dirty, and no listeners |
| SettingsManager.SettingsManager.GetSetting | src/main/java/com/blackboard/gs/settings/SettingsManager.java:99-106 | the cached value, or the catalog default when nothing is cached |
| SettingsManager.SettingsManager.SetSetting | src/main/java/com/blackboard/gs/settings/SettingsManager.java:115-120 | `getSetting` returns the new value for this setting and the old one for every other; the store is dirty and keeps its invariant |
| SettingsManager.SettingsManager.RegisterListener | src/main/java/com/blackboard/gs/settings/SettingsManager.java:127-131 | the listener is appended, and nothing else changes |
| SettingsManager.SettingsManager.RemoveListener | src/main/java/com/blackboard/gs/settings/SettingsManager.java:138-142 | the first occurrence of the listener is removed and the others keep their order, so later notifications follow the remaining registration order; nothing else changes |
| SettingsManager.SettingsManager.SignalSettingsChanged | src/main/java/com/blackboard/gs/settings/SettingsManager.java:159-165 | every listener is notified once, in list order, with the same list of changed settings |
| SettingsManager.SettingsManager.StoreProperties | src/main/java/com/blackboard/gs/settings/SettingsManager.java:189-208 | `props` gains every cached value under its key; the file receives `props` when the write succeeds; the store is clean and every cached entry has been persisted |
| SettingsManager.SettingsManager.LoadProperties | src/main/java/com/blackboard/gs/settings/SettingsManager.java:215-259 | `props` becomes the loaded file plus seeds for the missing keys; the cache adopts the file's values; the store is dirty exactly when something was seeded; `props` and `getSetting` then agree on every entry; no listener is called |
| SettingsManager.SettingsManager.SyncProperties | src/main/java/com/blackboard/gs/settings/SettingsManager.java:171-180 | a dirty store writes its cache merged into `props`, and a clean one writes nothing; the reload then merges the file into that `props`, seeds the catalog keys it lacks with their defaults, adopts the file's values into the cache, and leaves the store dirty exactly when something was seeded; afterwards `props` and `getSetting` agree and the store invariant holds |
| SettingsManager.SettingsManager.ReloadEntry | src/main/java/com/blackboard/gs/settings/SettingsManager.java:234-246 | one pass of the reload loop: the value read for the setting is the file's value for its key; a setting the file lacks is seeded into `props` with its `getSetting` value and marks the store dirty; a setting the file has is cached with the file's value |
| SettingsManager.ReloadStepSeed | src/main/java/com/blackboard/gs/settings/SettingsManager.java:236-239 | seeding a key the file lacks adds exactly that key, with the setting's default, to what has been seeded so far (such a setting has no cached value during a reload) |
| SettingsManager.ReloadStepAdopt | src/main/java/com/blackboard/gs/settings/SettingsManager.java:243-245 | a key the file has is left unseeded and its value is adopted into the cache |
| SettingsManager.ReloadStepFresh | src/main/java/com/blackboard/gs/settings/SettingsManager.java:234-246 | no entry is seeded or adopted before the loop reaches it |
| SettingsManager.ReloadConsistent | src/main/java/com/blackboard/gs/settings/SettingsManager.java:234-254 | after a reload, every cached entry has a key in `props`, and `props` holds exactly what `getSetting` reports for every entry |
| AutoSignonConfig.IsSsoEnabled | src/main/java/com/blackboard/gs/autosignon/AutoSignonConfig.java:67-69 | sign-on is on exactly when the stored value is "Enabled" |
| AutoSignonConfig.GetSharedSecret | src/main/java/com/blackboard/gs/autosignon/AutoSignonConfig.java:76-78 | the cached secret, or "" when nothing is cached |
| AutoSignonConfig.GetTimestampRange | src/main/java/com/blackboard/gs/autosignon/AutoSignonConfig.java:85-91 | the stored value parsed as a `long`, or 60000 when it does not parse |
| AutoSignonConfig.DefaultRangeParses | src/main/java/com/blackboard/gs/autosignon/AutoSignonConfig.java:85-91 | the default range text "60000" parses to the number 60000 |
| AutoSignonConfig.AllowSecureMac | src/main/java/com/blackboard/gs/autosignon/AutoSignonConfig.java:98-101 | the secure algorithm is allowed only when the stored value is "Secure" |
| AutoSignonConfig.AllowInsecureMac | src/main/java/com/blackboard/gs/autosignon/AutoSignonConfig.java:108-111 | the insecure algorithm is allowed exactly for "Insecure" or "Any", and never together with the secure one |
| AutoSignonConfig.GetMacParameters | src/main/java/com/blackboard/gs/autosignon/AutoSignonConfig.java:118-124 | a stored value without line breaks yields exactly one name |
| AutoSignonConfig.MacParametersSplit | src/main/java/com/blackboard/gs/autosignon/AutoSignonConfig.java:118-124 | no name contains a line break, and the names joined by line breaks are the stored text without its trailing line breaks |
| AutoSignonConfig.GetMacRequestParameter | src/main/java/com/blackboard/gs/autosignon/AutoSignonConfig.java:131-133 | the cached name, or "auth" by default |
| AutoSignonConfig.GetUserIdRequestParameter | src/main/java/com/blackboard/gs/autosignon/AutoSignonConfig.java:140-142 | the cached name, or "userId" by default |
| AutoSignonConfig.GetTimestampRequestParameter | src/main/java/com/blackboard/gs/autosignon/AutoSignonConfig.java:149-151 | the cached name, or "timestamp" by default |
| AutoSignonConfig.GetForwardRequestParameter | src/main/java/com/blackboard/gs/autosignon/AutoSignonConfig.java:158-160 | the cached name, or "forward" by default |
| AutoSignonConfig.GetCourseIdRequestParameter | src/main/java/com/blackboard/gs/autosignon/AutoSignonConfig.java:167-169 | the cached name, or "courseId" by default |
| AutoSignonConfig.MacAlgorithmsExclusive | src/main/java/com/blackboard/gs/autosignon/AutoSignonConfig.java:98-111 | the two algorithms are never both enabled, and "Any" enables only the insecure one |
| AutoSignonConfig.TimestampRangeRoundTrip | src/main/java/com/blackboard/gs/autosignon/AutoSignonConfig.java:85-91 | a range stored as a long's decimal text is read back unchanged |
| AutoSignonConfig.EmptyStoreDefaults | src/main/java/com/blackboard/gs/autosignon/AutoSignonConfig.java:67-169 | with nothing cached, every accessor returns the catalog default: sign-on on, 60000 ms, the secure algorithm only, a single empty optional name, the default parameter names |
| AutoSignonConfig.ConstantsMatchCatalog | src/main/java/com/blackboard/gs/settings/Setting.java:50-91 | the decoder's constants agree with the catalog's defaults and options |
| SecurityService.ReadConfig | src/main/java/com/blackboard/gs/autosignon/service/SecurityService.java:116-146 | the configuration a check reads: every field is the matching accessor's value (parameter names, optional names, secret, range and both algorithm flags); the range is a `long`, and the two algorithms are never both allowed |
| SecurityService.ScaledTimestamp | src/main/java/com/blackboard/gs/autosignon/service/SecurityService.java:230-232 | the rescaled timestamp is still a `long` |
| SecurityService.TimestampExpired | src/main/java/com/blackboard/gs/autosignon/service/SecurityService.java:227-240 | with the largest `long` as range, nothing expires |
| SecurityService.ExpiredIffOutsideRange | src/main/java/com/blackboard/gs/autosignon/service/SecurityService.java:227-240 | without overflow, a timestamp expires exactly when it lies more than the range away, in either direction |
| SecurityService.DistanceSymmetric | src/main/java/com/blackboard/gs/autosignon/service/SecurityService.java:235-236 | swapping the two instants never changes the verdict |
| SecurityService.SecondsAreRescaled | src/main/java/com/blackboard/gs/autosignon/service/SecurityService.java:230-232 | a 10-digit (seconds) timestamp is multiplied by 1000 against a 13-digit clock |
| SecurityService.MillisecondsKept | src/main/java/com/blackboard/gs/autosignon/service/SecurityService.java:230-232 | a 13-digit timestamp is used as is against a 13-digit clock |
| SecurityService.FarPastTimestampAccepted | src/main/java/com/blackboard/gs/autosignon/service/SecurityService.java:236-239 | a timestamp 2^63 ms before the clock wraps the difference to `Long.MIN_VALUE` and passes for every non-negative range |
| SecurityService.LeastExists | src/main/java/com/blackboard/gs/autosignon/service/SecurityService.java:210 | every non-empty set of names has a least one in `compareTo` order |
| SecurityService.LeastUnique | src/main/java/com/blackboard/gs/autosignon/service/SecurityService.java:210 | the least name is unique |
| SecurityService.SortedNamesSpec | src/main/java/com/blackboard/gs/autosignon/service/SecurityService.java:195-210 | the `TreeSet` enumeration lists every name of the set exactly once, in strictly ascending order |
| SecurityService.AscendingHeadIsLeast | src/main/java/com/blackboard/gs/autosignon/service/SecurityService.java:195-210 | the first name of a strictly ascending listing of a set is the set's least name |
| SecurityService.AscendingListingUnique | src/main/java/com/blackboard/gs/autosignon/service/SecurityService.java:195-210 | any strictly ascending listing of the set is that enumeration |
| SecurityService.MacNameSetMembers | src/main/java/com/blackboard/gs/autosignon/service/SecurityService.java:195-206 | the sorted set holds exactly the timestamp name, the user-id name and the configured optional names |
| SecurityService.GetSortedValues | src/main/java/com/blackboard/gs/autosignon/service/SecurityService.java:192-219 | the data string is the concatenation, in ascending name order, of the values of the MAC names present on the request |
| SecurityService.AppendValuesInOrder | src/main/java/com/blackboard/gs/autosignon/service/SecurityService.java:209-214 | walking the set from its least name appends the present values in the enumeration's order |
| SecurityService.ConcatSortedStep | src/main/java/com/blackboard/gs/autosignon/service/SecurityService.java:210-213 | taking the least remaining name is one step of the enumeration |
| SecurityService.ConcatIgnoresOtherNames | src/main/java/com/blackboard/gs/autosignon/service/SecurityService.java:210-213 | a parameter whose name is not listed contributes nothing |
| SecurityService.SecureIgnoresOtherParameters | src/main/java/com/blackboard/gs/autosignon/service/SecurityService.java:192-219 | adding or changing a request parameter that is not a MAC name never changes the secure string |
| SecurityService.SecureIgnoresParameterOrder | src/main/java/com/blackboard/gs/autosignon/service/SecurityService.java:195-206 | reordering or repeating the configured optional names never changes the secure string |
| SecurityService.OrNull | src/main/java/com/blackboard/gs/autosignon/service/SecurityService.java:161-162 | a missing timestamp or user id is appended as the text "null" |
| SecurityService.OptionalValues | src/main/java/com/blackboard/gs/autosignon/service/SecurityService.java:166-171 | at most one value per configured name |
| SecurityService.GetAsciiSum | src/main/java/com/blackboard/gs/autosignon/service/SecurityService.java:155-183 | the result is the decimal text of the character-code sum of the data string, taken modulo 2^32 as a Java `int` |
| SecurityService.AppendInsecureData | src/main/java/com/blackboard/gs/autosignon/service/SecurityService.java:158-171 | the data string is the timestamp, then the user id, then the present optional values in configured order |
| SecurityService.SumCharCodes | src/main/java/com/blackboard/gs/autosignon/service/SecurityService.java:173-179 | the loop's `int` total equals the wrapped true sum of the character codes |
| SecurityService.SumStep | src/main/java/com/blackboard/gs/autosignon/service/SecurityService.java:177-179 | adding the next code to a wrapped prefix sum gives the wrapped sum of the longer prefix |
| SecurityService.InsecureStringParses | src/main/java/com/blackboard/gs/autosignon/service/SecurityService.java:181 | the insecure string parses back to the wrapped sum, which is an `int` |
| SecurityService.CharSumAppend | src/main/java/com/blackboard/gs/autosignon/service/SecurityService.java:177-179 | the code sum of a concatenation is the sum of the code sums |
| SecurityService.CharSumPermutation | src/main/java/com/blackboard/gs/autosignon/service/SecurityService.java:177-179 | the code sum depends only on which characters occur and how often |
| SecurityService.FlattenPermutation | src/main/java/com/blackboard/gs/autosignon/service/SecurityService.java:166-171 | reordering whole values keeps the characters of their concatenation |
| SecurityService.OptionalValuesPermutation | src/main/java/com/blackboard/gs/autosignon/service/SecurityService.java:166-171 | reordering the configured names only reorders their values |
| SecurityService.OptionalValuesAppend | src/main/java/com/blackboard/gs/autosignon/service/SecurityService.java:166-171 | the values of two name lists in a row are the two value lists in a row |
| SecurityService.InsecureIgnoresOptionalOrder | src/main/java/com/blackboard/gs/autosignon/service/SecurityService.java:155-183 | the insecure string depends only on which optional values occur and how often, not on their order |
| SecurityService.InsecureIgnoresParameterOrder | src/main/java/com/blackboard/gs/autosignon/service/SecurityService.java:155-183 | reordering the configured optional names never changes the insecure string |
| SecurityService.OptionalValuesIgnoreOtherNames | src/main/java/com/blackboard/gs/autosignon/service/SecurityService.java:166-171 | a parameter whose name is not listed contributes nothing |
| SecurityService.InsecureIgnoresOtherParameters | src/main/java/com/blackboard/gs/autosignon/service/SecurityService.java:155-183 | adding or changing a request parameter that the algorithm does not read never changes the insecure string |
| SecurityService.ValidateMac | src/main/java/com/blackboard/gs/autosignon/service/SecurityService.java:116-146 | the verdict is: the timestamp parses and is fresh, and the digest of the data string plus the secret matches the request MAC, ignoring case |
| SecurityService.ValidateMacInRequest | src/main/java/com/blackboard/gs/autosignon/service/SecurityService.java:89-107 | the request is accepted exactly when an allowed algorithm accepts it |
| SecurityService.NoAlgorithmRejects | src/main/java/com/blackboard/gs/autosignon/service/SecurityService.java:89-107 | with neither algorithm allowed, every request is rejected |
| SecurityService.FailsClosed | src/main/java/com/blackboard/gs/autosignon/service/SecurityService.java:120-144 | an unparsable or missing timestamp, a missing MAC, or a failing digest each reject the request |
| SecurityService.AcceptedMeansAuthentic | src/main/java/com/blackboard/gs/autosignon/service/SecurityService.java:116-146 | an accepted request carries a fresh parsable timestamp and a MAC equal, ignoring case, to the digest of its data string plus the secret |
| SecurityService.MacComparisonIgnoresCase | src/main/java/com/blackboard/gs/autosignon/service/SecurityService.java:140-144 | two MACs that differ only in letter case get the same verdict |
| SettingsAction.LoadSettings | src/main/java/com/blackboard/gs/settings/struts/actions/SettingsAction.java:68-83 | values already on the request (the same string-or-null map `storeSettings` leaves there) are kept; otherwise every setting maps to `getSetting`'s value; the forward is "view" |
| SettingsAction.StoredValueAsWritten | src/main/java/com/blackboard/gs/settings/struts/actions/SettingsAction.java:102-105 | as written, the submitted parameter, null included, is stored exactly when the validator accepts it |
| SettingsAction.AcceptedValue | src/main/java/com/blackboard/gs/settings/struts/actions/SettingsAction.java:102-105 | a value is stored exactly when one was submitted and the validator accepts it, and it is then the submitted string; this agrees with the as-written behaviour whenever it stores |
| SettingsAction.AcceptedUpToSpec | src/main/java/com/blackboard/gs/settings/struts/actions/SettingsAction.java:100-110 | the entries taken after n steps of the loop are exactly the accepted ones among the first n settings, each with its submitted value |
| SettingsAction.StoreEntry | src/main/java/com/blackboard/gs/settings/struts/actions/SettingsAction.java:100-106 | one pass of the store loop, under the corrected rule (see Findings): the setting is cached with its submitted value exactly when that value was submitted and passes its validator, judged against the request-parameter names stored before the submission; `props` and the listeners are unchanged |
| SettingsAction.AcceptedIffValid | src/main/java/com/blackboard/gs/settings/struts/actions/SettingsAction.java:100-110 | under the corrected rule (see Findings): an entry is taken from the form exactly when the form carries it and its validator accepts it, and then verbatim |
| SettingsAction.VerdictIgnoresNames | src/main/java/com/blackboard/gs/settings/Setting.java:227-232 | only MAC_PARAMETERS' verdict depends on the configured parameter names |
| SettingsAction.StoreSettings | src/main/java/com/blackboard/gs/settings/struts/actions/SettingsAction.java:96-117 | the cache gains exactly the accepted values, with each verdict taken against the names stored before the submission; the store is dirty exactly when it was before or something was accepted; every submitted value is echoed back; the forward is "view" |
| SettingsAction.ResubmittingShownValuesChangesNothing | src/main/java/com/blackboard/gs/settings/struts/actions/SettingsAction.java:68-117 | submitting the values the page shows changes no setting's value |
| SettingsAction.OmittedFieldKept | src/main/java/com/blackboard/gs/settings/struts/actions/SettingsAction.java:102-105 | a field missing from the form leaves its setting unchanged |
| SettingsAction.ReservedMacParameterRejected | src/main/java/com/blackboard/gs/settings/struts/actions/SettingsAction.java:102-105 | a MAC-parameters value naming the stored user-id parameter is rejected, and the stored list stays as it was |
| SettingsAction.RenameInSameSubmissionPasses | src/main/java/com/blackboard/gs/settings/struts/actions/SettingsAction.java:100-105 | a new name that differs from the stored user-id and timestamp names passes the MAC-parameters check, even when the same form makes it the user-id name |

## Left out

- The MD5 digest and its hex rendering (`calculateHash`) are a function parameter that may fail. Character-set encoding is not modelled.
- The current time is a parameter of the check.
- File input and output are left out. The settings file is a key/value map whose reads and writes succeed or fail through a flag. The `Properties` text format and its escaping are left out, and so is the creation of the configuration directory (`getPropertiesFile`).
- Threads are left out: the 30-second sync thread, `synchronized` blocks and `shutdown`. Each synchronized block is one atomic method.
- The `getInstance` singletons are left out; the store is passed explicitly.
- Logging is left out.
- `Setting.getDescription`, `SettingsGroup` beyond its title and members, and the HTML rendering of `SettingType` are left out.
- AutoSignonAction, SessionService and InitSettingsListener are not part of this model.
- `NonEmptyValidator` and `LongValidator` are not part of this model; their verdicts and messages are function parameters.
- `Long.parseLong` is modelled on ASCII digits only. Non-ASCII Unicode digits are left out.
- `equalsIgnoreCase` and `trim` are modelled on ASCII.
- The character sum and `compareTo` are modelled on characters, not on UTF-16 code units, so surrogate pairs are left out.
- AutoSignonConfig.GetMacParameters: its `catch` branch is not modelled. Stored values are never null here, so `split` cannot throw.
- AutoSignonConfig.GetMacParameters: its ensures covers only the single-line case; the general split property is stated separately in `MacParametersSplit`.
- SettingsManager.SettingsManager.LoadProperties: the `catch` around `setProperty` is not modelled, because cached values are never null here.
- SettingsManager.SettingsManager.LoadProperties: requires every cached entry to be persisted. The reconcile step always establishes this before reloading. Without it, the original's `value.equals(origValue)` would throw.
- Listeners are identities; what a listener does when notified is outside the model.
- SettingsAction.StoreSettings: an omitted field is never stored, where the original stores null (see Findings).
- SettingsManager.SettingsManager.StoreProperties: the exception `Properties.setProperty` raises on a null value is not modelled, because under the corrected store rule the cache never holds null; Findings describes what the original does instead.
- SettingsAction.StoreEntry: follows the corrected rule too; an omitted field whose validator accepts null is left unchanged instead of being stored as null (see Findings).

## Findings

| source | as written | input that shows it | evidently intended | confidence | as-written member | corrected member |
|---|---|---|---|---|---|---|
| src/main/java/com/blackboard/gs/settings/struts/actions/SettingsAction.java:102-105 | The MAC-parameters validator accepts null, so `storeSettings` passes null to `setSetting`. The next `storeProperties` then throws on `Properties.setProperty(key, null)` before it saves, before it clears the dirty flag and before the reload in `syncProperties` (SettingsManager.java:171-180). Until a later submission supplies the field, every sync throws before saving or reloading. | A settings submission whose request has no `bbgs.autosignon.macParameters` parameter | Store only values that were actually submitted and pass validation; leave an omitted field unchanged | medium; not executed | SettingsAction.StoredValueAsWritten (with `OmittedMacParametersStoredAsNull`) | SettingsAction.AcceptedValue (used by `StoreSettings`; see `OmittedFieldKept`) |
