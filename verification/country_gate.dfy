/**
 The country gate run during form validation: with country validation on,
 a missing API key fails the form, an empty allow-list lets it through, and
 otherwise the submitter's resolved country must be in the allow-list. A
 failed lookup never blocks a submission (it fails open).
 */
module CountryGate {
  import opened Wrappers
  import opened PhpValues
  import opened Platform
  import opened LocationRecords
  import opened Resolver
  import opened Notes
  import opened FormSettings

  /** The validation result's `is_valid`, and the message `add_validation_error` keeps for the page. */
  datatype Verdict = Verdict(isValid: bool, message: Option<Value>)

  /** `add_validation_error`: the form fails with this message. */
  function AddValidationError(v: Verdict, message: Value): (r: Verdict)
    ensures !r.isValid && r.message == Some(message)
  {
    v.(isValid := false, message := Some(message))
  }

  const MissingKeyMessage := "Configuration error: Missing API key"
  const DefaultRejection := "Sorry, this form is only available to users from allowed countries."

  /** The form being validated: its id, its stored add-on settings, and the submitter's address. */
  datatype Submission = Submission(formId: nat, storedSettings: Value, rawIp: string)

  datatype GateOutcome = GateOutcome(verdict: Verdict, annotations: Annotations, stores: Stores, requested: Option<string>)

  function Settings(sub: Submission): Record {
    GetFormSettings(sub.storedSettings)
  }

  predicate Enabled(sub: Submission) {
    Truthy(Get(Settings(sub), "enable_country_validation"))
  }

  /** The sanitized plugin API key is empty. */
  predicate KeyMissing(env: Env, cfg: Config) {
    !Truthy(Str(SanitizeField(env, ApiKey(cfg))))
  }

  /** `(array) rgar($settings, 'allowed_countries', array())`, seen as the values `in_array` looks at. */
  function AllowList(sub: Submission): set<Value> {
    CastElements(Rgar(Settings(sub), "allowed_countries", List([])))
  }

  /** The gate goes as far as looking the submitter up. */
  predicate LooksUp(env: Env, cfg: Config, v: Verdict, sub: Submission) {
    v.isValid && Enabled(sub) && !KeyMissing(env, cfg) && |AllowList(sub)| > 0
  }

  function SubmitterCountry(d: Record): Value {
    if IsSet(Get(d, "country_name")) then Get(d, "country_name") else Str("")
  }

  /** A located record whose non-empty country is not (strictly) in the allow-list. */
  predicate Rejected(d: Record, allowed: set<Value>) {
    !IsError(d) && Truthy(SubmitterCountry(d)) && SubmitterCountry(d) !in allowed
  }

  function Looked(env: Env, cfg: Config, provider: string -> ProviderOutcome, stores: Stores, sub: Submission): Resolution {
    Resolve(env, cfg, provider, stores, sub.rawIp)
  }

  /** `validate_country_for_form`. */
  function ValidateCountryForForm(env: Env, cfg: Config, provider: string -> ProviderOutcome, stores: Stores,
                                  notes: Annotations, v: Verdict, sub: Submission): (out: GateOutcome)
    ensures !v.isValid ==> out == GateOutcome(v, notes, stores, None)
    ensures var record := Looked(env, cfg, provider, stores, sub).record;
      !out.verdict.isValid <==>
        !v.isValid || (Enabled(sub) && (KeyMissing(env, cfg) || (|AllowList(sub)| > 0 && Rejected(record, AllowList(sub)))))
    ensures v.isValid && Enabled(sub) && KeyMissing(env, cfg) ==> out.verdict.message == Some(Str(MissingKeyMessage))
    ensures var record := Looked(env, cfg, provider, stores, sub).record;
      LooksUp(env, cfg, v, sub) && Rejected(record, AllowList(sub)) ==>
        out.verdict.message == Some(Rgar(Settings(sub), "country_validation_message", Str(DefaultRejection)))
    ensures !LooksUp(env, cfg, v, sub) ==> out.stores == stores && out.annotations == notes && out.requested.None?
    ensures LooksUp(env, cfg, v, sub) ==>
      var res := Looked(env, cfg, provider, stores, sub);
      out.stores == res.stores && out.requested == res.requested && sub.formId in out.annotations.pending
      && out.annotations.pending[sub.formId].ipData == res.record
    ensures LooksUp(env, cfg, v, sub) && IsError(Looked(env, cfg, provider, stores, sub).record) ==>
      out.verdict == v && out.annotations.pending[sub.formId].hasApiError
    ensures LooksUp(env, cfg, v, sub) && !IsError(Looked(env, cfg, provider, stores, sub).record) ==>
      out.annotations.pending[sub.formId].allowedCountries == Some(AllowList(sub))
  {
    if !v.isValid then GateOutcome(v, notes, stores, None)
    else if !Enabled(sub) then GateOutcome(v, notes, stores, None)
    else if KeyMissing(env, cfg) then GateOutcome(AddValidationError(v, Str(MissingKeyMessage)), notes, stores, None)
    else
      var allowed := AllowList(sub);
      if |allowed| == 0 then GateOutcome(v, notes, stores, None)
      else
        var res := Resolve(env, cfg, provider, stores, sub.rawIp);
        var d := res.record;
        if IsError(d) then
          GateOutcome(v, RecordValidationError(notes, sub.formId, d), res.stores, res.requested)
        else
          var recorded := RecordValidation(notes, sub.formId, d, allowed);
          var country := SubmitterCountry(d);
          var verdict := if Truthy(country) && country !in allowed
            then AddValidationError(v, Rgar(Settings(sub), "country_validation_message", Str(DefaultRejection)))
            else v;
          GateOutcome(verdict, recorded, res.stores, res.requested)
  }

  /**
   For a form without field population pending, the note written after
   submission agrees with the gate: a rejected country gives a warning, an
   accepted one a success note.
   */
  lemma {:induction false} NoteAgreesWithGate(env: Env, cfg: Config, provider: string -> ProviderOutcome, stores: Stores,
                                              notes: Annotations, v: Verdict, sub: Submission)
    requires LooksUp(env, cfg, v, sub)
    requires !IsError(Looked(env, cfg, provider, stores, sub).record)
    requires sub.formId !in notes.pending
    ensures var out := ValidateCountryForForm(env, cfg, provider, stores, notes, v, sub);
      var note := Finalize(out.annotations, sub.formId).0;
      && note.Some?
      && (!out.verdict.isValid ==> note.value.kind == WarningNote)
      && (note.value.kind == WarningNote <==> SubmitterCountry(Looked(env, cfg, provider, stores, sub).record) !in AllowList(sub))
  {
    var out := ValidateCountryForForm(env, cfg, provider, stores, notes, v, sub);
    var f := out.annotations.pending[sub.formId];
    assert !f.hasMergeTags && f.hasValidation;
    assert Allowed(f) <==> SubmitterCountry(f.ipData) in AllowList(sub);
  }

  /**
   A rejected submission carries the form's own message when it is set and
   not empty, and the default message otherwise, an empty saved one included.
   */
  lemma RejectionMessage(env: Env, cfg: Config, provider: string -> ProviderOutcome, stores: Stores,
                         notes: Annotations, v: Verdict, sub: Submission)
    requires LooksUp(env, cfg, v, sub) && Rejected(Looked(env, cfg, provider, stores, sub).record, AllowList(sub))
    ensures var out := ValidateCountryForForm(env, cfg, provider, stores, notes, v, sub);
      var custom := Get(Settings(sub), "country_validation_message");
      && !out.verdict.isValid
      && (Truthy(custom) ==> out.verdict.message == Some(custom))
      && (!Truthy(custom) ==> out.verdict.message == Some(Str(DefaultRejection)))
  {
  }
}
