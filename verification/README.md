# Gravity Forms ⇄ form.io translator, modelled in Dafny

This project models the core of a WordPress plugin. The plugin serves
Gravity Forms forms as form.io JSON schemas over REST, and maps submitted
form.io payloads back to Gravity Forms submissions. It models:

- **The forward translation of the current revision** (`gf_to_formio`, module
  `FormioEndpoint`). Checks run in this order: is Gravity Forms installed, is
  an id given, is the form found. Then each Gravity Forms field becomes a
  form.io component:
  - the type is renamed;
  - the size is mapped;
  - the key comes from the admin label, falling back to the label;
  - an NL Design System class is attached;
  - the advanced overrides (consent label, multiselect, checkbox with
    choices, choices and their default) are applied.

  A standard submit button is appended when the form has one.
- **The inverse direction** (`formio_post`, module `FormioPost`). Every
  payload entry whose key equals a field's raw admin label is copied to
  `input_<field id>`, and `formId` is added.
- **The earlier revision** (`gravityFormToFormIO`, module `LegacyEndpoint`),
  plus lemmas saying exactly where the two revisions agree and differ
  (module `Revisions`).

Three details of the code are easy to misread:

- `createAdvancedValues` sets `widget` to the string `'choicesjs'`, not to an
  object. This is modelled as `NamedWidget("choicesjs")`, next to the
  default `InputWidget("input")`.
- Choices are applied whenever they are set and are an array. An empty
  choices list still sets the widget and `dataSrc`.
- `getComponentSize` has no default branch. Its return type is `string`, so
  any size outside `extra-small`/`small`/`large`/`extra-large` raises a
  `TypeError` in PHP. The model returns no size there, and the endpoints
  answer `UncaughtTypeError`.

Gravity Forms lookups are parameters: `class_exists('GFAPI')` is a boolean,
and `GFAPI::get_form` is a lookup in a map from id to form. A PHP array with
optional keys is a datatype with `Option` fields. PHP's `empty()` on the
admin label is `IsEmpty`: missing, `""` or `"0"`.

## Model

| member | source | states |
|---|---|---|
| FormioEndpoint.ComponentType | src/Formio/Classes/FormioEndpoint.php:68-91 | the result is the table's renaming for the ten listed tags and the tag itself for every other one |
| FormioEndpoint.ComponentTypeIdempotent | src/Formio/Classes/FormioEndpoint.php:68-91 | mapping a mapped type again changes nothing |
| FormioEndpoint.ComponentSize | src/Formio/Classes/FormioEndpoint.php:48-60 | a size is returned exactly for the four known sizes, and it is their form.io abbreviation |
| FormioEndpoint.CustomClass | src/Formio/Classes/FormioEndpoint.php:160-193 | the class is the block of the type, its `--html-<element>` modifier and, for textbox, textarea and number only, a `--required` modifier when required; unknown types get the textbox class |
| FormioEndpoint.RequiredOnlyAppendsModifier | src/Formio/Classes/FormioEndpoint.php:160-193 | the required class is the plain class plus ` <block>--required` for the types that mark it, and identical to it otherwise |
| FormioEndpoint.LastSelected | src/Formio/Classes/FormioEndpoint.php:103-114 | no value when no choice is selected; otherwise the value of a selected choice after which no choice is selected |
| FormioEndpoint.WithChoicesStep | src/Formio/Classes/FormioEndpoint.php:103-114 | handling one more choice is one loop iteration: the entry is appended to the list for the type, and the default is replaced when the choice is selected |
| FormioEndpoint.SetInputChoices | src/Formio/Classes/FormioEndpoint.php:100-117 | the loop's result is the component with `dataSrc` set, every choice appended and the last selected value as default |
| FormioEndpoint.ChoiceDistribution | src/Formio/Classes/FormioEndpoint.php:100-117 | choices go, in order and as (text, value) pairs, to `values` for radio and selectboxes and to `data.values` otherwise; the default is the last selected value, or unchanged when none is selected; no other key changes |
| FormioEndpoint.AdvancedValues | src/Formio/Classes/FormioEndpoint.php:126-151 | the overrides never touch input, key, id, size, description, hidden, required or the class |
| FormioEndpoint.CreateAdvancedValues | src/Formio/Classes/FormioEndpoint.php:126-151 | applying the four conditional steps in order gives the advanced-values component |
| FormioEndpoint.AdvancedValuesNeutral | src/Formio/Classes/FormioEndpoint.php:126-151 | a field without choices that is neither consent nor multiselect leaves the component unchanged |
| FormioEndpoint.TranslateFieldProperties | src/Formio/Classes/FormioEndpoint.php:206-227 | each component key as a function of the field: id, size, description, required; key = admin label when non-empty, else label; hidden iff not `visible`; class of the mapped type; type, label, multiple, widget, dataSrc, values, data.values and default after the overrides |
| FormioEndpoint.ClassPrecedesOverrides | src/Formio/Classes/FormioEndpoint.php:225-227 | a checkbox with choices is emitted as `selectboxes` but keeps the non-required checkbox class, and its choices go to `values` |
| FormioEndpoint.ClassDependsOnTypeAndRequired | src/Formio/Classes/FormioEndpoint.php:225 | two fields with the same mapped type and requiredness get the same class |
| FormioEndpoint.CreateFormIOComponents | src/Formio/Classes/FormioEndpoint.php:201-232 | components are produced exactly when every size maps; then there is one per field, in field order, each the field's translation; a form without fields gives none |
| FormioEndpoint.CreateFormIOSubmitButton | src/Formio/Classes/FormioEndpoint.php:24-40 | a `button` of action and key `submit`, size `md`, class `utrecht-button`, labelled with the button text or `Submit` |
| Host.FindForm | src/Formio/Classes/FormioEndpoint.php:245-263 | the checks shared by every endpoint, in their order: not installed, then no id, then not found (message worded by the endpoint, data = id); the id and the stored form exactly when all three pass |
| FormioEndpoint.GfToFormio | src/Formio/Classes/FormioEndpoint.php:242-270 | the three error records in their order and with their messages and data; for a found form, a schema exactly when every size maps, holding display `form`, the translated fields in order and the submit button last when the form has one |
| FormioPost.LastMatch | src/Formio/Classes/FormioEndpoint.php:311-315 | no value when no payload key equals the admin label; otherwise the value of a matching entry after which none matches |
| FormioPost.MapSubmission | src/Formio/Classes/FormioEndpoint.php:308-318 | the nested loop builds the field-by-field, entry-by-entry fold of the payload, with `formId` set to the id |
| FormioPost.MatchFieldIsLastMatch | src/Formio/Classes/FormioEndpoint.php:311-315 | the inner loop leaves the body unchanged when nothing matches, and otherwise sets `input_<id>` to the last matching value |
| FormioPost.MappedInputsDomain | src/Formio/Classes/FormioEndpoint.php:310-316 | a key is in the body iff it is `input_<id>` of some field whose admin label matches some payload key |
| FormioPost.MappedInputsValue | src/Formio/Classes/FormioEndpoint.php:310-316 | with distinct field ids, a matched field's entry is the last matching payload value |
| FormioPost.MappedInputsPassThrough | src/Formio/Classes/FormioEndpoint.php:313 | every body value is some payload value, unchanged |
| FormioPost.MappedInputsNeverFormId | src/Formio/Classes/FormioEndpoint.php:313-318 | no field entry is keyed `formId`, so setting `formId` overwrites nothing |
| FormioPost.RoundTrip | src/Formio/Classes/FormioEndpoint.php:308-318 | with non-empty distinct admin labels and distinct ids, posting one value under each component key (line 211) gives each field back that value under `input_<id>` |
| FormioPost.LabelKeyedFieldIsLost | src/Formio/Classes/FormioEndpoint.php:312 | a field whose admin label is empty in PHP's sense is keyed by its label going out, but is matched against its raw admin label coming back, so a value posted under its key is dropped |
| FormioPost.FormioPostBody | src/Formio/Classes/FormioEndpoint.php:279-318 | the same three error records as the forward endpoint, in the same order; for a found form, the mapped body of its fields and the posted payload with `formId` = id |
| LegacyEndpoint.ComponentSize | formio/src/Formio/Classes/FormioEndpoint.php:109-121 | the earlier size mapping is the current one, including the missing default |
| LegacyEndpoint.CreateFormIOComponents | formio/src/Formio/Classes/FormioEndpoint.php:67-90 | components exactly when every size maps; then one per field, in order, each the earlier revision's nine-key literal |
| LegacyEndpoint.CreateFormIOSubmitButton | formio/src/Formio/Classes/FormioEndpoint.php:92-107 | the same button shape, labelled with `submit` (no default) and without a class |
| LegacyEndpoint.GravityFormToFormIO | formio/src/Formio/Classes/FormioEndpoint.php:35-65 | the same checks and order, with the not-found message ending `is not installed`; then display `form`, the components in order and the button last |
| Revisions.TypeRulesCompared | formio/src/Formio/Classes/FormioEndpoint.php:76 | the earlier and current type rules agree iff the tag is `text` or one the current table does not rename |
| Revisions.KeyRulesCompared | formio/src/Formio/Classes/FormioEndpoint.php:77 | `adminLabel ?? label` and the `!empty` rule give different keys iff the admin label is `""` or `"0"` and differs from the label |
| Revisions.SharedKeysAgree | formio/src/Formio/Classes/FormioEndpoint.php:73-85 | for every field, both revisions agree on input, id, size, description, hidden and required |
| Revisions.CurrentExtendsEarlier | formio/src/Formio/Classes/FormioEndpoint.php:73-85 | for a field of a type both revisions treat alike, not a checkbox with choices and without an empty-but-present admin label, the current component restricted to the earlier keys is the earlier component |
| Revisions.ConsentDiffers | formio/src/Formio/Classes/FormioEndpoint.php:75-76 | a consent field is a checkbox labelled with its checkbox label now, and a `consent` labelled with its label before |
| Revisions.ButtonsCompared | formio/src/Formio/Classes/FormioEndpoint.php:92-107 | the earlier button is the current one with label `submit` and no class |

## Left out

- WordPress plumbing is not modelled. This covers the constructor, `load_hooks` and route registration, and the REST request object. A request is its `id` parameter plus the decoded body.
- `json_decode` of the posted body is not modelled. The body is already a sequence of key/value pairs, and an undecodable body is not represented.
- `GFAPI::submit_form` and its result are not modelled. `FormioPost.FormioPostBody` returns the submission body handed to it.
- FormioPost.FormioPostBody: the body is a map, so PHP's insertion order of keys is not captured.
- FormioPost.KeyMatches: PHP's loose `==` is modelled as string equality. A missing admin label never matches, although PHP would loosely match it against an empty-string key.
- Field keys read without `??` or `isset` are assumed present: `label`, `size`, `description`, `visibility`, `defaultValue`, `checkboxLabel` (and `type` and `isRequired`). The `null` PHP emits for a missing one (for example `description => null`, or `label => null` for a consent field without `checkboxLabel`) is not represented.
- JSON numbers are integers. Floating-point values are not represented.
- An empty form array counts as found. Only a missing form gives the not-found record, whereas PHP's `!$gForm` also rejects `[]`.
- Choices that are set but not an array are not represented. `choices` is either absent or a list.
- `formio_post` iterating `$gForm['fields']` when the key is absent is modelled as iterating no fields. The PHP warning is not represented.
- After an unmapped size, the model stops at `UncaughtTypeError`. What PHP's error handler then sends is not modelled.
