/**
 The pending-notes accumulator: the validation and field-population steps
 leave facts about a submission under the form's id, and after submission
 `maybe_add_location_notes` turns them into at most one entry note and
 forgets them.
 */
module Notes {
  import opened Wrappers
  import opened PhpValues
  import opened PhpStrings
  import opened LocationRecords

  /** One hidden field that asked for location data, as listed in notes. */
  datatype FieldTag = FieldTag(fieldId: nat, fieldLabel: string, tagType: string)

  /**
   What is pending for one form. The flags are only ever set to true, so a
   false flag stands for "not set"; an absent field list reads as empty and
   an absent allow-list as `None`. `noteType` is written but never read.
   */
  datatype Facts = Facts(
    ipData: Record,
    hasValidation: bool,
    hasMergeTags: bool,
    hasApiError: bool,
    allowedCountries: Option<set<Value>>,
    fieldsWithTags: seq<FieldTag>,
    noteType: Option<string>
  )

  /** Pending facts by form id, and the forms whose after-submission hook is registered. */
  datatype Annotations = Annotations(pending: map<nat, Facts>, hooks: set<nat>)

  datatype NoteKind = ErrorNote | SuccessNote | WarningNote

  datatype Note = Note(text: string, kind: NoteKind)

  /** The entry a writer starts from: what is pending already, or a fresh one. */
  function Current(a: Annotations, formId: nat, ipData: Record): Facts {
    if formId in a.pending then a.pending[formId]
    else Facts(ipData, false, false, false, None, [], None)
  }

  /** A country check that failed open on an error record. */
  function RecordValidationError(a: Annotations, formId: nat, ipData: Record): (r: Annotations)
    ensures formId in r.pending && formId in r.hooks
    ensures r.pending[formId].ipData == ipData
    ensures r.pending[formId].hasValidation && r.pending[formId].hasApiError
    ensures formId in a.pending ==>
      r.pending[formId] == a.pending[formId].(ipData := ipData, hasValidation := true, hasApiError := true)
    ensures forall id :: id != formId ==> (id in r.pending <==> id in a.pending)
    ensures forall id :: id in a.pending && id != formId ==> r.pending[id] == a.pending[id]
    ensures r.hooks == a.hooks + {formId}
  {
    var f := Current(a, formId, ipData);
    Annotations(a.pending[formId := f.(ipData := ipData, hasValidation := true, hasApiError := true)],
                a.hooks + {formId})
  }

  /** A completed country check, with the allow-list it used. */
  function RecordValidation(a: Annotations, formId: nat, ipData: Record, allowed: set<Value>): (r: Annotations)
    ensures formId in r.pending && formId in r.hooks
    ensures r.pending[formId].ipData == ipData && r.pending[formId].hasValidation
    ensures r.pending[formId].allowedCountries == Some(allowed)
    ensures r.pending[formId].noteType == Some(
      if formId in a.pending && a.pending[formId].hasMergeTags then "combined" else "validation")
    ensures r.pending[formId].hasMergeTags == (formId in a.pending && a.pending[formId].hasMergeTags)
    ensures forall id :: id != formId ==> (id in r.pending <==> id in a.pending)
    ensures forall id :: id in a.pending && id != formId ==> r.pending[id] == a.pending[id]
    ensures r.hooks == a.hooks + {formId}
  {
    var f := Current(a, formId, ipData);
    var kind := if f.hasMergeTags then "combined" else "validation";
    Annotations(a.pending[formId := f.(ipData := ipData, allowedCountries := Some(allowed),
                                        hasValidation := true, noteType := Some(kind))],
                a.hooks + {formId})
  }

  /** Field population that met an error record and left the fields at their defaults. */
  function RecordMergeError(a: Annotations, formId: nat, ipData: Record, fields: seq<FieldTag>): (r: Annotations)
    ensures formId in r.pending && formId in r.hooks
    ensures r.pending[formId].ipData == ipData && r.pending[formId].fieldsWithTags == fields
    ensures r.pending[formId].hasMergeTags && r.pending[formId].hasApiError
    ensures r.pending[formId].hasValidation == (formId in a.pending && a.pending[formId].hasValidation)
    ensures forall id :: id != formId ==> (id in r.pending <==> id in a.pending)
    ensures forall id :: id in a.pending && id != formId ==> r.pending[id] == a.pending[id]
    ensures r.hooks == a.hooks + {formId}
  {
    var f := Current(a, formId, ipData);
    Annotations(a.pending[formId := f.(ipData := ipData, fieldsWithTags := fields,
                                        hasMergeTags := true, hasApiError := true)],
                a.hooks + {formId})
  }

  /** Fields populated from a location record. */
  function RecordMerge(a: Annotations, formId: nat, ipData: Record, fields: seq<FieldTag>): (r: Annotations)
    ensures formId in r.pending && formId in r.hooks
    ensures r.pending[formId].ipData == ipData && r.pending[formId].fieldsWithTags == fields
    ensures r.pending[formId].hasMergeTags
    ensures r.pending[formId].noteType == Some(
      if formId in a.pending && a.pending[formId].hasValidation then "combined" else "merge_tags")
    ensures r.pending[formId].hasValidation == (formId in a.pending && a.pending[formId].hasValidation)
    ensures forall id :: id != formId ==> (id in r.pending <==> id in a.pending)
    ensures forall id :: id in a.pending && id != formId ==> r.pending[id] == a.pending[id]
    ensures r.hooks == a.hooks + {formId}
  {
    var f := Current(a, formId, ipData);
    var kind := if f.hasValidation then "combined" else "merge_tags";
    Annotations(a.pending[formId := f.(ipData := ipData, fieldsWithTags := fields,
                                        hasMergeTags := true, noteType := Some(kind))],
                a.hooks + {formId})
  }

  function Labels(tags: seq<FieldTag>): (labels: seq<string>)
    ensures |labels| == |tags|
    ensures forall i :: 0 <= i < |tags| ==> labels[i] == tags[i].fieldLabel
  {
    seq(|tags|, i requires 0 <= i < |tags| => tags[i].fieldLabel)
  }

  /** `format_fields_text`: the field labels joined by ", ". */
  function FormatFieldsText(tags: seq<FieldTag>): (text: string)
    ensures |tags| == 0 ==> text == ""
    ensures forall i :: 0 <= i < |tags| ==> Contains(text, tags[i].fieldLabel)
  {
    var labels := Labels(tags);
    assert forall i :: 0 <= i < |tags| ==> Contains(Implode(", ", labels), tags[i].fieldLabel) by {
      forall i | 0 <= i < |tags| ensures Contains(Implode(", ", labels), tags[i].fieldLabel) {
        ImplodeContainsPart(", ", labels, i);
      }
    }
    Implode(", ", labels)
  }

  /** The error message a note quotes. */
  function ErrorText(d: Record): string {
    if IsSet(Get(d, "error_message")) then Text(Get(d, "error_message")) else "Unknown API error"
  }

  /** Strict `in_array` of the user's country in the recorded allow-list; no list allows nothing. */
  predicate Allowed(f: Facts) {
    var country := if IsSet(Get(f.ipData, "country_name")) then Get(f.ipData, "country_name") else Str("");
    f.allowedCountries.Some? && country in f.allowedCountries.value
  }

  function Verdict(allowed: bool): string {
    if allowed then "passed" else "failed but submission was allowed"
  }

  const FieldErrorLead := "IP Location service error: "
  const ServiceErrorLead := "IP Location service unavailable or error occurred: "
  const DetectedLead := "IP Location detected: "
  const FieldsLead := ". Data auto-populated in fields: "
  const VerdictLead := ". Country validation "
  const FieldErrorMiddle := " - Could not populate location data for fields: "
  const FieldErrorTail := ". Default or empty values were used."
  const ServiceErrorTail := " - Form submission was allowed to continue."

  function FieldErrorText(message: string, fields: string): string {
    FieldErrorLead + message + FieldErrorMiddle + fields + FieldErrorTail
  }

  function ServiceErrorText(message: string): string {
    ServiceErrorLead + message + ServiceErrorTail
  }

  /**
   The note for a submission whose lookup failed: it quotes the error, and
   names the fields when population asked for the location.
   */
  function ErrorNoteFor(f: Facts): (n: Note)
    ensures n.kind == ErrorNote
    ensures Contains(n.text, ErrorText(f.ipData))
    ensures |f.fieldsWithTags| > 0 && f.hasMergeTags ==>
      StartsWith(n.text, FieldErrorLead + ErrorText(f.ipData)) && Contains(n.text, FormatFieldsText(f.fieldsWithTags))
    ensures !(|f.fieldsWithTags| > 0 && f.hasMergeTags) ==> StartsWith(n.text, ServiceErrorLead + ErrorText(f.ipData))
  {
    var message := ErrorText(f.ipData);
    if |f.fieldsWithTags| > 0 && f.hasMergeTags then
      FivePieces(FieldErrorLead, message, FieldErrorMiddle, FormatFieldsText(f.fieldsWithTags), FieldErrorTail);
      Note(FieldErrorText(message, FormatFieldsText(f.fieldsWithTags)), ErrorNote)
    else
      PrefixStarts(ServiceErrorLead + message, ServiceErrorTail);
      Pieces(ServiceErrorLead, message, ServiceErrorTail);
      Note(ServiceErrorText(message), ErrorNote)
  }

  /** The opening of a located note: the detected location. */
  function HeadPiece(f: Facts): string {
    DetectedLead + FormatLocationText(f.ipData)
  }

  /** The part of a located note that lists the populated fields. */
  function FieldsPiece(f: Facts): string {
    FieldsLead + FormatFieldsText(f.fieldsWithTags)
  }

  /** The part of a located note that states the country verdict. */
  function VerdictPiece(f: Facts): string {
    VerdictLead + Verdict(Allowed(f))
  }

  /**
   The note for a submission with a location: combined, then fields only,
   then validation only. Every note opens with the detected location; only a
   failed check without population is a warning.
   */
  function LocatedNoteFor(f: Facts): (n: Option<Note>)
    ensures n.Some? <==> f.hasMergeTags || f.hasValidation
    ensures n.Some? ==> StartsWith(n.value.text, DetectedLead + FormatLocationText(f.ipData))
    ensures n.Some? ==> (n.value.kind == WarningNote <==> !f.hasMergeTags && !Allowed(f))
    ensures f.hasMergeTags ==>
      n.value.kind == SuccessNote && Contains(n.value.text, FieldsLead + FormatFieldsText(f.fieldsWithTags))
    ensures f.hasValidation ==> Contains(n.value.text, VerdictLead + Verdict(Allowed(f)))
  {
    if f.hasMergeTags && f.hasValidation then
      FourPieces(HeadPiece(f), FieldsPiece(f), VerdictPiece(f), ".");
      Some(Note(HeadPiece(f) + FieldsPiece(f) + VerdictPiece(f) + ".", SuccessNote))
    else if f.hasMergeTags then
      Pieces(HeadPiece(f), FieldsPiece(f), ".");
      Some(Note(HeadPiece(f) + FieldsPiece(f) + ".", SuccessNote))
    else if f.hasValidation then
      Pieces(HeadPiece(f), VerdictPiece(f), ".");
      Some(Note(HeadPiece(f) + VerdictPiece(f) + ".",
                if Allowed(f) then SuccessNote else WarningNote))
    else None
  }

  /** `maybe_add_location_notes`: the note to add, if any, and the accumulator without the form. */
  function Finalize(a: Annotations, formId: nat): (r: (Option<Note>, Annotations))
    ensures formId !in a.pending ==> r.0.None? && r.1 == a
    ensures formId !in r.1.pending
    ensures r.1.pending == a.pending - {formId} && r.1.hooks == a.hooks
    ensures formId in a.pending && IsError(a.pending[formId].ipData) ==>
      var f := a.pending[formId];
      && r.0.Some? && r.0.value.kind == ErrorNote
      && (StartsWith(r.0.value.text, FieldErrorLead) <==> |f.fieldsWithTags| > 0 && f.hasMergeTags)
      && Contains(r.0.value.text, ErrorText(f.ipData))
      && (|f.fieldsWithTags| > 0 && f.hasMergeTags ==> Contains(r.0.value.text, FormatFieldsText(f.fieldsWithTags)))
    ensures formId in a.pending && !IsError(a.pending[formId].ipData) ==>
      var f := a.pending[formId];
      && (r.0.Some? <==> f.hasMergeTags || f.hasValidation)
      && (r.0.Some? ==> StartsWith(r.0.value.text, DetectedLead + FormatLocationText(f.ipData)))
      && (r.0.Some? ==> (r.0.value.kind == WarningNote <==> !f.hasMergeTags && !Allowed(f)))
      && (f.hasMergeTags ==> (r.0.value.kind == SuccessNote
            && Contains(r.0.value.text, FieldsLead + FormatFieldsText(f.fieldsWithTags))))
      && (f.hasValidation ==> Contains(r.0.value.text, VerdictLead + Verdict(Allowed(f))))
  {
    if formId !in a.pending then (None, a)
    else
      var f := a.pending[formId];
      var rest := a.(pending := a.pending - {formId});
      if IsError(f.ipData) then
        NoteLeads(f);
        (Some(ErrorNoteFor(f)), rest)
      else
        (LocatedNoteFor(f), rest)
  }

  // ---------------------------------------------------------------------------
  // Facts about the notes
  // ---------------------------------------------------------------------------

  lemma {:induction false} ContainsMiddle(a: string, b: string, c: string)
    ensures Contains(a + b + c, b)
  {
    var s := a + b + c;
    assert s[|a|..|a| + |b|] == b;
    assert At(s, |a|, b);
  }

  lemma {:induction false} PrefixStarts(a: string, b: string)
    ensures StartsWith(a + b, a)
  {
    assert (a + b)[..|a|] == a;
  }

  /** The two error notes are told apart by their opening words. */
  lemma {:induction false} NoteLeads(f: Facts)
    ensures StartsWith(ErrorNoteFor(f).text, FieldErrorLead) <==> |f.fieldsWithTags| > 0 && f.hasMergeTags
  {
    var message := ErrorText(f.ipData);
    if |f.fieldsWithTags| > 0 && f.hasMergeTags {
      var rest := message + FieldErrorMiddle + FormatFieldsText(f.fieldsWithTags) + FieldErrorTail;
      PrefixStarts(FieldErrorLead, rest);
      assert FieldErrorText(message, FormatFieldsText(f.fieldsWithTags)) == FieldErrorLead + rest;
    } else {
      var text := ServiceErrorText(message);
      assert text[20] == 'u' && FieldErrorLead[20] == 'e';
    }
  }

  /** A text built as head + middle + tail starts with its head and contains its middle. */
  lemma {:induction false} Pieces(head: string, middle: string, tail: string)
    ensures StartsWith(head + middle + tail, head)
    ensures Contains(head + middle + tail, middle)
  {
    assert head + middle + tail == head + (middle + tail);
    PrefixStarts(head, middle + tail);
    ContainsMiddle(head, middle, tail);
  }

  /** A text built from four pieces starts with the first and contains the second and the third. */
  lemma {:induction false} FourPieces(a: string, b: string, c: string, d: string)
    ensures StartsWith(a + b + c + d, a)
    ensures Contains(a + b + c + d, b) && Contains(a + b + c + d, c)
  {
    Pieces(a, b, c + d);
    assert a + b + c + d == a + b + (c + d);
    Pieces(a + b, c, d);
  }

  /** A text built from five pieces starts with the first two and contains the second and the fourth. */
  lemma {:induction false} FivePieces(a: string, b: string, c: string, d: string, e: string)
    ensures StartsWith(a + b + c + d + e, a + b)
    ensures Contains(a + b + c + d + e, b) && Contains(a + b + c + d + e, d)
  {
    assert a + b + c + d + e == (a + b) + (c + d + e);
    PrefixStarts(a + b, c + d + e);
    assert a + b + c + d + e == a + b + (c + d + e);
    Pieces(a, b, c + d + e);
    Pieces(a + b + c, d, e);
  }

  /** Finalizing twice adds no second note and changes nothing more. */
  lemma FinalizeTwice(a: Annotations, formId: nat)
    ensures var once := Finalize(a, formId);
      Finalize(once.1, formId) == (None, once.1)
  {
  }

  /** Every writer leaves something for the finaliser to report. */
  lemma {:induction false} WritersYieldNote(a: Annotations, formId: nat, ipData: Record, allowed: set<Value>, fields: seq<FieldTag>)
    ensures Finalize(RecordValidationError(a, formId, ipData), formId).0.Some?
    ensures Finalize(RecordValidation(a, formId, ipData, allowed), formId).0.Some?
    ensures Finalize(RecordMergeError(a, formId, ipData, fields), formId).0.Some?
    ensures Finalize(RecordMerge(a, formId, ipData, fields), formId).0.Some?
  {
  }

  /** Validation and field population in either order record a combined note. */
  lemma {:induction false} CombinedEitherOrder(a: Annotations, formId: nat, ipData: Record, allowed: set<Value>, fields: seq<FieldTag>)
    ensures var r := RecordMerge(RecordValidation(a, formId, ipData, allowed), formId, ipData, fields);
      r.pending[formId].noteType == Some("combined") && r.pending[formId].hasValidation
    ensures var r := RecordValidation(RecordMerge(a, formId, ipData, fields), formId, ipData, allowed);
      r.pending[formId].noteType == Some("combined") && r.pending[formId].hasMergeTags
    ensures var r := RecordMerge(RecordValidation(a, formId, ipData, allowed), formId, ipData, fields);
      !IsError(ipData) ==> Finalize(r, formId).0.value.kind == SuccessNote
  {
  }

  /** ", " cannot overlap itself, so it splits joined labels apart again. */
  lemma SeparatorUnbordered()
    ensures Unbordered(", ")
  {
    forall k | 0 < k < 2 ensures ", "[..k] != ", "[2 - k..] {
      assert ", "[..1][0] == ',' && ", "[1..][0] == ' ';
    }
  }

  /** Labels that do not contain ", " are recovered from the joined text. */
  lemma {:induction false} FieldsTextSplits(tags: seq<FieldTag>)
    requires |tags| >= 1
    requires forall i :: 0 <= i < |tags| ==> !Contains(tags[i].fieldLabel, ", ")
    ensures Explode(", ", FormatFieldsText(tags)) == Labels(tags)
  {
    SeparatorUnbordered();
    ExplodeImplode(", ", Labels(tags));
  }
}
