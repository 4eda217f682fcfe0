/**
 * The earlier revision of the translator (`gravityFormToFormIO`): only
 * `text` is renamed, the key falls back with `??`, and components carry no
 * class, widget, default value or choices.
 */
module LegacyEndpoint {
  import opened Wrappers
  import opened GravityForms
  import opened Host
  import FormioSchema
  import FormioEndpoint

  /** A component of the earlier revision: the nine keys it sets. */
  datatype Component = Component(
    input: bool,
    labelText: string,
    componentType: string,
    key: string,
    id: Option<string>,
    size: string,
    description: string,
    hidden: bool,
    required: bool)

  datatype Item = FieldItem(component: Component) | ButtonItem(button: FormioSchema.SubmitButton)

  datatype Schema = Schema(display: string, components: seq<Item>)

  /**
   * `getComponentSize` of this revision: the same four cases and, again, no
   * default branch.
   */
  function ComponentSize(size: string): (r: Option<string>)
    ensures r == FormioEndpoint.ComponentSize(size)
  {
    if size == "extra-small" then Some("xs")
    else if size == "small" then Some("sm")
    else if size == "large" then Some("lg")
    else if size == "extra-large" then Some("xl")
    else None
  }

  /** The inline type rule `type === 'text' ? 'textfield' : type`. */
  function ComponentType(fieldType: string): string {
    if fieldType == "text" then "textfield" else fieldType
  }

  /** The inline key rule `adminLabel ?? label`: only a missing admin label falls back. */
  function LegacyKey(f: Field): string {
    f.adminLabel.GetOr(f.labelText)
  }

  /** Whether this revision's `getComponentSize` returns for the field. */
  predicate SizeResolves(f: Field) {
    ComponentSize(f.size).Some?
  }

  /** The component literal this revision builds for one field. */
  function TranslateField(f: Field): Component
    requires SizeResolves(f)
  {
    Component(
      input := true,
      labelText := f.labelText,
      componentType := ComponentType(f.fieldType),
      key := LegacyKey(f),
      id := f.id,
      size := ComponentSize(f.size).value,
      description := f.description,
      hidden := f.visibility != "visible",
      required := f.isRequired)
  }

  /** Every field's size has a form.io counterpart. */
  predicate AllSizesResolve(form: Form) {
    forall i :: 0 <= i < |FieldsOf(form)| ==> SizeResolves(FieldsOf(form)[i])
  }

  /**
   * `createFormIOComponents` of this revision: one component per field, in
   * field order, or the TypeError (`None`) at the first unmapped size.
   */
  method CreateFormIOComponents(form: Form) returns (r: Option<seq<Component>>)
    ensures r.Some? <==> AllSizesResolve(form)
    ensures r.Some? ==> |r.value| == |FieldsOf(form)|
    ensures r.Some? ==> forall i :: 0 <= i < |r.value| ==> r.value[i] == TranslateField(FieldsOf(form)[i])
  {
    var components: seq<Component> := [];
    if form.fields.Some? {
      var fields := form.fields.value;
      var i := 0;
      while i < |fields|
        invariant 0 <= i <= |fields|
        invariant |components| == i
        invariant forall k :: 0 <= k < i ==> SizeResolves(fields[k]) && components[k] == TranslateField(fields[k])
      {
        var field := fields[i];
        if ComponentSize(field.size).None? {
          // getComponentSize falls off its switch: PHP raises a TypeError
          assert FieldsOf(form)[i] == field && !SizeResolves(field);
          return None;
        }
        components := components + [TranslateField(field)];
        i := i + 1;
      }
    }
    return Some(components);
  }

  /** `createFormIOSubmitButton` of this revision: the label is `$button['submit']`, with no default. */
  function CreateFormIOSubmitButton(button: Button): (b: FormioSchema.SubmitButton)
    ensures b.buttonType == "button" && b.action == "submit" && b.key == "submit" && b.size == "md"
    ensures b.labelText == button.submit && b.customClass.None?
  {
    FormioSchema.SubmitButton(
      buttonType := "button",
      theme := "primary",
      disableOnInvalid := true,
      action := "submit",
      rightIcon := "",
      leftIcon := "",
      size := "md",
      key := "submit",
      tableView := false,
      labelText := button.submit,
      input := "true",
      customClass := None)
  }

  /** The message of this revision's not-found error record. */
  function NotFoundMessage(id: string): string {
    "Gravity Form with id: " + id + " is not installed"
  }

  /**
   * `gravityFormToFormIO`: the same three checks in the same order as the
   * current revision (with its own not-found wording), then the schema with
   * one component per field and the button appended last when there is one.
   */
  method GravityFormToFormIO(gravityFormsActive: bool, forms: map<string, Form>, request: Request)
    returns (r: Response<Schema>)
    ensures !gravityFormsActive ==> r == ErrorRecord(NotInstalledMessage, None)
    ensures gravityFormsActive && request.id.None? ==> r == ErrorRecord(NoIdMessage, None)
    ensures gravityFormsActive && request.id.Some? && request.id.value !in forms ==>
      r == ErrorRecord(NotFoundMessage(request.id.value), Some(request.id.value))
    ensures gravityFormsActive && request.id.Some? && request.id.value in forms ==>
      (r.Answer? <==> AllSizesResolve(forms[request.id.value]))
      && (!r.Answer? ==> r.UncaughtTypeError?)
    ensures r.Answer? ==>
      gravityFormsActive && request.id.Some? && request.id.value in forms
      && var form := forms[request.id.value];
         var fields := FieldsOf(form);
         var items := r.value.components;
         && AllSizesResolve(form)
         && r.value.display == "form"
         && |items| == |fields| + (if form.button.Some? then 1 else 0)
         && (forall i :: 0 <= i < |fields| ==> items[i] == FieldItem(TranslateField(fields[i])))
         && (form.button.Some? ==> items[|items| - 1] == ButtonItem(CreateFormIOSubmitButton(form.button.value)))
  {
    var found := FindForm(gravityFormsActive, forms, request, NotFoundMessage);
    if !found.Answer? {
      return ErrorRecord(found.message, found.data);
    }
    var (id, form) := found.value;
    var components := CreateFormIOComponents(form);
    if components.None? {
      return UncaughtTypeError;
    }
    var items := seq(|components.value|, i requires 0 <= i < |components.value| => FieldItem(components.value[i]));
    if form.button.Some? {
      items := items + [ButtonItem(CreateFormIOSubmitButton(form.button.value))];
    }
    return Answer(Schema("form", items));
  }
}
