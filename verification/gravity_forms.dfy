/**
 * The Gravity Forms side of the endpoint: the form records `GFAPI::get_form`
 * hands over, as far as the translator reads them.
 */
module GravityForms {
  import opened Wrappers

  /** One option of a choice-bearing field (checkbox, radio, select, multiselect). */
  datatype Choice = Choice(text: string, value: string, isSelected: bool)

  /**
   * A Gravity Forms field. Members that the endpoint reads with `??`,
   * `isset` or `empty` are optional; `id` is the decimal text of the field id.
   */
  datatype Field = Field(
    id: Option<string>,
    labelText: string,
    adminLabel: Option<string>,
    fieldType: string,
    size: string,
    description: string,
    visibility: string,
    isRequired: bool,
    defaultValue: string,
    choices: Option<seq<Choice>>,
    checkboxLabel: string)

  /** The form's button record; the current revision reads `text`, the older one `submit`. */
  datatype Button = Button(text: Option<string>, submit: Option<string>)

  /** A Gravity Forms form: its ordered fields and its optional button. */
  datatype Form = Form(fields: Option<seq<Field>>, button: Option<Button>)

  /** The fields a `foreach` over `$form['fields']` visits: none when the key is absent. */
  function FieldsOf(form: Form): seq<Field> {
    form.fields.GetOr([])
  }

  /** PHP's `empty()` on a value that is a string or null: null, `""` and `"0"` are empty. */
  predicate IsEmpty(s: Option<string>) {
    s.None? || s.value == "" || s.value == "0"
  }
}
