/**
 * The inverse direction of the current revision (`formio_post`): a posted
 * form.io payload, keyed by component key, becomes a Gravity Forms
 * submission body keyed `input_<field id>`, plus `formId`.
 */
module FormioPost {
  import opened Wrappers
  import opened GravityForms
  import opened Host
  import FormioEndpoint

  /** The submission key `'input_' . $field['id']`; a missing id concatenates as `""`. */
  function InputKey(f: Field): string {
    "input_" + f.id.GetOr("")
  }

  const FormIdKey := "formId"

  /** Whether a payload key matches a field's raw admin label (`$key == $field['adminLabel']`). */
  predicate KeyMatches(key: string, adminLabel: Option<string>) {
    adminLabel == Some(key)
  }

  /** The value of the last payload entry whose key matches `adminLabel`, if any. */
  function LastMatch(payload: seq<(string, Json)>, adminLabel: Option<string>): (r: Option<Json>)
    ensures r.None? <==> forall j :: 0 <= j < |payload| ==> !KeyMatches(payload[j].0, adminLabel)
    ensures r.Some? ==>
      exists j :: 0 <= j < |payload| && KeyMatches(payload[j].0, adminLabel) && payload[j].1 == r.value
        && forall k :: j < k < |payload| ==> !KeyMatches(payload[k].0, adminLabel)
  {
    if payload == [] then None
    else if KeyMatches(payload[|payload| - 1].0, adminLabel) then Some(payload[|payload| - 1].1)
    else LastMatch(payload[..|payload| - 1], adminLabel)
  }

  /** The body after the inner loop has visited `entries` for field `f`. */
  function MatchField(body: map<string, Json>, f: Field, entries: seq<(string, Json)>): map<string, Json> {
    if entries == [] then body
    else
      var b := MatchField(body, f, entries[..|entries| - 1]);
      var (key, value) := entries[|entries| - 1];
      if KeyMatches(key, f.adminLabel) then b[InputKey(f) := value] else b
  }

  /** The body after the outer loop has visited `fields`, before `formId` is set. */
  function MappedInputs(fields: seq<Field>, payload: seq<(string, Json)>): map<string, Json> {
    if fields == [] then map[]
    else MatchField(MappedInputs(fields[..|fields| - 1], payload), fields[|fields| - 1], payload)
  }

  /**
   * The mapping loop of `formio_post`. The exclusion list `iteratedIDs` is
   * never added to, so its test always passes and every matching entry
   * overwrites the previous one.
   */
  method MapSubmission(fields: seq<Field>, payload: seq<(string, Json)>, id: string)
    returns (body: map<string, Json>)
    ensures body == MappedInputs(fields, payload)[FormIdKey := JString(id)]
  {
    body := map[];
    var iteratedIds: seq<Option<string>> := [];
    var i := 0;
    while i < |fields|
      invariant 0 <= i <= |fields|
      invariant body == MappedInputs(fields[..i], payload)
    {
      var field := fields[i];
      var j := 0;
      while j < |payload|
        invariant 0 <= j <= |payload|
        invariant body == MatchField(MappedInputs(fields[..i], payload), field, payload[..j])
      {
        var (key, value) := payload[j];
        assert payload[..j + 1][..j] == payload[..j];
        if field.id !in iteratedIds && KeyMatches(key, field.adminLabel) {
          body := body[InputKey(field) := value];
        }
        j := j + 1;
      }
      assert payload[..j] == payload;
      assert fields[..i + 1][..i] == fields[..i];
      i := i + 1;
    }
    assert fields[..i] == fields;
    body := body[FormIdKey := JString(id)];
  }

  /** The inner loop leaves exactly the last match for the field, or nothing. */
  lemma {:induction false} MatchFieldIsLastMatch(body: map<string, Json>, f: Field, entries: seq<(string, Json)>)
    ensures MatchField(body, f, entries)
      == match LastMatch(entries, f.adminLabel)
         case None => body
         case Some(v) => body[InputKey(f) := v]
  {
    if entries != [] {
      var prefix := entries[..|entries| - 1];
      MatchFieldIsLastMatch(body, f, prefix);
      var (key, value) := entries[|entries| - 1];
      if KeyMatches(key, f.adminLabel) {
        match LastMatch(prefix, f.adminLabel)
        case None =>
        case Some(v) =>
          assert body[InputKey(f) := v][InputKey(f) := value] == body[InputKey(f) := value];
      }
    }
  }

  /**
   * A body key is present exactly when some field has that input key and a
   * payload entry matches that field's raw admin label.
   */
  lemma {:induction false} MappedInputsDomain(fields: seq<Field>, payload: seq<(string, Json)>, key: string)
    ensures key in MappedInputs(fields, payload)
      <==> exists i :: 0 <= i < |fields| && InputKey(fields[i]) == key
                       && LastMatch(payload, fields[i].adminLabel).Some?
  {
    if fields != [] {
      var prefix := fields[..|fields| - 1];
      var last := fields[|fields| - 1];
      MappedInputsDomain(prefix, payload, key);
      MatchFieldIsLastMatch(MappedInputs(prefix, payload), last, payload);
      if key in MappedInputs(fields, payload) && key !in MappedInputs(prefix, payload) {
        assert InputKey(fields[|fields| - 1]) == key;
      }
      if exists i :: 0 <= i < |fields| && InputKey(fields[i]) == key
                     && LastMatch(payload, fields[i].adminLabel).Some? {
        var i :| 0 <= i < |fields| && InputKey(fields[i]) == key
                 && LastMatch(payload, fields[i].adminLabel).Some?;
        if i < |fields| - 1 {
          assert prefix[i] == fields[i];
        }
      }
    }
  }

  /**
   * When field ids are distinct, a field with a matching entry gets the value
   * of the last matching entry, unchanged.
   */
  lemma {:induction false} MappedInputsValue(fields: seq<Field>, payload: seq<(string, Json)>, i: nat)
    requires i < |fields|
    requires forall a, b :: 0 <= a < b < |fields| ==> InputKey(fields[a]) != InputKey(fields[b])
    requires LastMatch(payload, fields[i].adminLabel).Some?
    ensures InputKey(fields[i]) in MappedInputs(fields, payload)
    ensures MappedInputs(fields, payload)[InputKey(fields[i])] == LastMatch(payload, fields[i].adminLabel).value
  {
    var prefix := fields[..|fields| - 1];
    var last := fields[|fields| - 1];
    MatchFieldIsLastMatch(MappedInputs(prefix, payload), last, payload);
    if i < |fields| - 1 {
      assert prefix[i] == fields[i];
      MappedInputsValue(prefix, payload, i);
      assert InputKey(last) != InputKey(fields[i]);
    }
  }

  /** Every value in the body comes from some payload entry: values pass through unchanged. */
  lemma {:induction false} MappedInputsPassThrough(fields: seq<Field>, payload: seq<(string, Json)>, key: string)
    requires key in MappedInputs(fields, payload)
    ensures exists j :: 0 <= j < |payload| && payload[j].1 == MappedInputs(fields, payload)[key]
  {
    var prefix := fields[..|fields| - 1];
    var last := fields[|fields| - 1];
    MatchFieldIsLastMatch(MappedInputs(prefix, payload), last, payload);
    if LastMatch(payload, last.adminLabel).Some? && key == InputKey(last) {
    } else {
      MappedInputsPassThrough(prefix, payload, key);
    }
  }

  /** Every mapped key starts with `input_`, so `formId` never collides with a field. */
  lemma MappedInputsNeverFormId(fields: seq<Field>, payload: seq<(string, Json)>)
    ensures FormIdKey !in MappedInputs(fields, payload)
  {
    MappedInputsDomain(fields, payload, FormIdKey);
    forall i | 0 <= i < |fields|
      ensures InputKey(fields[i]) != FormIdKey
    {
      assert InputKey(fields[i])[0] == 'i';
    }
  }

  /** The payload form.io posts when each field's component carries the matching value. */
  function PostedPayload(fields: seq<Field>, values: seq<Json>): seq<(string, Json)>
    requires |values| == |fields|
  {
    seq(|fields|, a requires 0 <= a < |fields| => (FormioEndpoint.ResolvedKey(fields[a]), values[a]))
  }

  /**
   * Round trip with the forward translation: when every field has an admin
   * label that is non-empty in PHP's sense, admin labels are distinct and ids
   * are distinct, posting one value per component under the component's key
   * gives each field back its value under `input_<id>`.
   */
  lemma {:induction false} RoundTrip(fields: seq<Field>, values: seq<Json>, i: nat)
    requires |values| == |fields| && i < |fields|
    requires forall a :: 0 <= a < |fields| ==> !IsEmpty(fields[a].adminLabel)
    requires forall a, b :: 0 <= a < b < |fields| ==> fields[a].adminLabel != fields[b].adminLabel
    requires forall a, b :: 0 <= a < b < |fields| ==> InputKey(fields[a]) != InputKey(fields[b])
    ensures InputKey(fields[i]) in MappedInputs(fields, PostedPayload(fields, values))
    ensures MappedInputs(fields, PostedPayload(fields, values))[InputKey(fields[i])] == values[i]
  {
    var payload := PostedPayload(fields, values);
    assert KeyMatches(payload[i].0, fields[i].adminLabel);
    var m := LastMatch(payload, fields[i].adminLabel);
    var j :| 0 <= j < |payload| && KeyMatches(payload[j].0, fields[i].adminLabel) && payload[j].1 == m.value;
    assert fields[j].adminLabel == fields[i].adminLabel;
    assert j == i;
    MappedInputsValue(fields, payload, i);
  }

  /**
   * The mismatch between the two directions: a field whose key fell back to
   * its label is never matched, because the payload is compared with the raw
   * admin label. Posting a value under that field's component key leaves no
   * `input_<id>` entry.
   */
  lemma {:induction false} LabelKeyedFieldIsLost(f: Field, v: Json)
    requires IsEmpty(f.adminLabel) && f.adminLabel != Some(f.labelText)
    ensures FormioEndpoint.ResolvedKey(f) == f.labelText
    ensures InputKey(f) !in MappedInputs([f], [(FormioEndpoint.ResolvedKey(f), v)])
  {
    var payload := [(FormioEndpoint.ResolvedKey(f), v)];
    MappedInputsDomain([f], payload, InputKey(f));
    assert !KeyMatches(payload[0].0, f.adminLabel);
  }

  /**
   * `formio_post`, up to the hand-over to `GFAPI::submit_form`: the same
   * checks as `gf_to_formio`, in the same order, then the submission body
   * built from the stored form's fields and the posted payload, with
   * `formId` set to the requested id.
   */
  method FormioPostBody(gravityFormsActive: bool, forms: map<string, Form>, request: Request)
    returns (r: Response<map<string, Json>>)
    ensures !gravityFormsActive ==> r == ErrorRecord(NotInstalledMessage, None)
    ensures gravityFormsActive && request.id.None? ==> r == ErrorRecord(NoIdMessage, None)
    ensures gravityFormsActive && request.id.Some? && request.id.value !in forms ==>
      r == ErrorRecord(FormioEndpoint.NotFoundMessage(request.id.value), Some(request.id.value))
    ensures gravityFormsActive && request.id.Some? && request.id.value in forms ==>
      r.Answer?
      && r.value == MappedInputs(FieldsOf(forms[request.id.value]), request.body)[FormIdKey := JString(request.id.value)]
  {
    var found := FindForm(gravityFormsActive, forms, request, FormioEndpoint.NotFoundMessage);
    if !found.Answer? {
      return ErrorRecord(found.message, found.data);
    }
    var (id, form) := found.value;
    var body := MapSubmission(FieldsOf(form), request.body, id);
    return Answer(body);
  }
}
