/** Settings validation: the session mode picks at most one schema, and a settings text that
    does not parse replaces every schema check by one generic message. */
module Settings {
  import opened Json
  import opened Foreign
  import opened Results

  const SettingsMessage := "The SVM settings have not been properly configured"
  const DataNewSession := "data_new"
  const ModelUseSession := "model_use"

  /** `payload['data']['settings']` */
  function SettingsOf(payload: Value): Option<Value>
  {
    Nested(payload, "data", "settings")
  }

  /** `payload['data']['settings']['svm_session']`, when it is a string (the constructor
      calls `.lower()` on it, which only strings have). */
  function SessionOf(payload: Value): (r: Option<string>)
    ensures r.Some? <==> SettingsOf(payload).Some? &&
                         Member(SettingsOf(payload).value, "svm_session").Some? &&
                         Member(SettingsOf(payload).value, "svm_session").value.JStr?
    ensures r.Some? ==> Member(SettingsOf(payload).value, "svm_session") == Some(JStr(r.value))
  {
    match SettingsOf(payload)
    case None => None
    case Some(settings) =>
      match Member(settings, "svm_session")
      case Some(JStr(s)) => Some(s)
      case _ => None
  }

  /** The session modes the program knows of; `data_append` and `model_generate` are
      recognised but have no checks of their own. */
  datatype Mode = DataNew | DataAppend | ModelGenerate | ModelUse | Unrecognised

  function ModeOf(session: string): (m: Mode)
    ensures m == DataNew <==> session == DataNewSession
    ensures m == ModelUse <==> session == ModelUseSession
    ensures m == DataAppend <==> session == "data_append"
    ensures m == ModelGenerate <==> session == "model_generate"
  {
    if session == DataNewSession then DataNew
    else if session == "data_append" then DataAppend
    else if session == "model_generate" then ModelGenerate
    else if session == ModelUseSession then ModelUse
    else Unrecognised
  }

  datatype SchemaName = Training | Analysis

  /** The one schema a mode consults, if any. */
  function SchemaFor(m: Mode): Option<SchemaName>
  {
    match m
    case DataNew => Some(Training)
    case ModelUse => Some(Analysis)
    case _ => None
  }

  function Check(schemas: Schemas, name: SchemaName, settings: Value): Option<string>
  {
    match name
    case Training => schemas.training(settings)
    case Analysis => schemas.analysis(settings)
  }

  /** What the `data_new` branch needs so that its unchecked `json_data.get(...)` and its
      loop over `svm_dataset` do not raise: the settings are a dictionary, and a truthy
      `svm_dataset` of an "upload file" session can be iterated. */
  predicate SecondaryCheckDefined(settings: Value)
    ensures SecondaryCheckDefined(settings) ==> settings.JObj?
    ensures (settings.JObj? && Lookup(settings.fields, "svm_dataset_type") != Some(JStr("upload file"))) ==>
              SecondaryCheckDefined(settings)
  {
    settings.JObj? &&
    ((Lookup(settings.fields, "svm_dataset_type") == Some(JStr("upload file")) &&
      Lookup(settings.fields, "svm_dataset").Some? &&
      Truthy(Lookup(settings.fields, "svm_dataset").value))
     ==> Iterate(Lookup(settings.fields, "svm_dataset").value).Some?)
  }

  /** When `data_validation` returns rather than raises: text that parses has
      `data.settings`, and in a `data_new` session the secondary check is defined. */
  predicate SettingsDefined(parsed: Option<Value>, session: string)
    ensures parsed.None? ==> SettingsDefined(parsed, session)
    ensures SettingsDefined(parsed, session) && parsed.Some? ==> SettingsOf(parsed.value).Some?
    ensures SettingsDefined(parsed, session) && parsed.Some? && session == DataNewSession ==>
              SecondaryCheckDefined(SettingsOf(parsed.value).value)
    ensures parsed.Some? && SettingsOf(parsed.value).Some? && session != DataNewSession ==>
              SettingsDefined(parsed, session)
  {
    parsed.Some? ==>
      SettingsOf(parsed.value).Some? &&
      (session == DataNewSession ==> SecondaryCheckDefined(SettingsOf(parsed.value).value))
  }

  /** The error list `data_validation` builds from the parsed settings text (None when it
      did not parse) and the session mode fixed at construction. */
  function SettingsErrors(parsed: Option<Value>, session: string, schemas: Schemas): (errors: seq<string>)
    requires SettingsDefined(parsed, session)
    ensures |errors| <= 1
    ensures parsed.None? ==> errors == [SettingsMessage]
  {
    match parsed
    case None => [SettingsMessage]
    case Some(payload) =>
      match SchemaFor(ModeOf(session))
      case None => []
      case Some(name) => ErrorsOf(Check(schemas, name, SettingsOf(payload).value))
  }

  /** A `data_new` session consults the training schema and nothing else: its errors are the
      training check's, whatever the analysis schema says. */
  lemma DataNewUsesTrainingOnly(payload: Value, schemas: Schemas, other: Schemas)
    requires SettingsDefined(Some(payload), DataNewSession)
    requires other.training == schemas.training
    ensures SettingsErrors(Some(payload), DataNewSession, schemas)
            == ErrorsOf(schemas.training(SettingsOf(payload).value))
            == SettingsErrors(Some(payload), DataNewSession, other)
  {
  }

  /** A `model_use` session consults the analysis schema and nothing else. */
  lemma ModelUseUsesAnalysisOnly(payload: Value, schemas: Schemas, other: Schemas)
    requires SettingsDefined(Some(payload), ModelUseSession)
    requires other.analysis == schemas.analysis
    ensures SettingsErrors(Some(payload), ModelUseSession, schemas)
            == ErrorsOf(schemas.analysis(SettingsOf(payload).value))
            == SettingsErrors(Some(payload), ModelUseSession, other)
  {
  }

  /** Every other session, `data_append` and `model_generate` among them, adds no error. */
  lemma OtherModesAddNothing(payload: Value, session: string, schemas: Schemas)
    requires SettingsDefined(Some(payload), session)
    requires session != DataNewSession && session != ModelUseSession
    ensures SettingsErrors(Some(payload), session, schemas) == []
  {
  }

  /** Settings text that does not parse gives the one generic message, whatever the mode and
      the schemas. */
  lemma ParseFailureSkipsSchemas(session: string, schemas: Schemas, other: Schemas)
    ensures SettingsErrors(None, session, schemas) == SettingsErrors(None, session, other) == [SettingsMessage]
  {
  }

  /** Mode dispatch is case-insensitive: the session name as submitted, once lower-cased,
      selects `data_new` exactly when it spells "data_new" in any mix of cases, and likewise
      for `model_use`. */
  lemma {:induction false} ModeCaseInsensitive(submitted: string)
    ensures ModeOf(Lower(submitted)) == DataNew <==> SameIgnoringCase(submitted, DataNewSession)
    ensures ModeOf(Lower(submitted)) == ModelUse <==> SameIgnoringCase(submitted, ModelUseSession)
  {
    DataNewIsLower();
    ModelUseIsLower();
    LowerCaseInsensitive(submitted, DataNewSession);
    LowerCaseInsensitive(submitted, ModelUseSession);
  }

  /** The two session names with checks are already lower-case. */
  lemma DataNewIsLower()
    ensures Lower(DataNewSession) == DataNewSession
  {
    forall i | 0 <= i < |DataNewSession| ensures !IsUpper(DataNewSession[i]) { }
    LowerOfLowered(DataNewSession);
  }

  lemma ModelUseIsLower()
    ensures Lower(ModelUseSession) == ModelUseSession
  {
    forall i | 0 <= i < |ModelUseSession| ensures !IsUpper(ModelUseSession[i]) { }
    LowerOfLowered(ModelUseSession);
  }

  /** A string without upper-case letters is its own lower-case form. */
  lemma {:induction false} LowerOfLowered(s: string)
    requires forall i :: 0 <= i < |s| ==> !IsUpper(s[i])
    ensures Lower(s) == s
  {
    if s != [] {
      LowerOfLowered(s[1..]);
    }
  }
}
