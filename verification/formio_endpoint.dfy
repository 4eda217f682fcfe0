/**
 * The current revision of the Gravity Forms to form.io translator
 * (`gf_to_formio` and the private helpers it calls).
 */
module FormioEndpoint {
  import opened Wrappers
  import opened GravityForms
  import opened Host
  import opened FormioSchema

  // ---------------------------------------------------------------------
  // Lookups
  // ---------------------------------------------------------------------

  /** The renamings `getComponentType` performs; every other tag keeps its name. */
  const TypeTable: map<string, string> := map[
    "string" := "textfield", "text" := "textfield",
    "int" := "number", "integer" := "number", "float" := "number",
    "boolean" := "checkbox", "consent" := "checkbox",
    "date" := "day",
    "phone" := "phoneNumber",
    "multiselect" := "select"]

  /** `getComponentType`: the form.io type of a Gravity Forms field type. */
  function ComponentType(fieldType: string): (r: string)
    ensures r == if fieldType in TypeTable then TypeTable[fieldType] else fieldType
  {
    if fieldType == "string" || fieldType == "text" then "textfield"
    else if fieldType == "int" || fieldType == "integer" || fieldType == "float" then "number"
    else if fieldType == "boolean" || fieldType == "consent" then "checkbox"
    else if fieldType == "date" then "day"
    else if fieldType == "phone" then "phoneNumber"
    else if fieldType == "multiselect" then "select"
    else fieldType
  }

  /** The type mapping leaves its own results alone: no target tag is renamed again. */
  lemma ComponentTypeIdempotent(fieldType: string)
    ensures ComponentType(ComponentType(fieldType)) == ComponentType(fieldType)
  {
    var t := ComponentType(fieldType);
    if fieldType in TypeTable {
      assert t in {"textfield", "number", "checkbox", "day", "phoneNumber", "select"};
      assert t !in TypeTable;
    }
  }

  /** The four sizes `getComponentSize` knows. */
  const SizeTable: map<string, string> := map[
    "extra-small" := "xs", "small" := "sm", "large" := "lg", "extra-large" := "xl"]

  /**
   * `getComponentSize`. The switch has no default branch, so any other size
   * (`medium`, `""`, ...) gets no result at all.
   */
  function ComponentSize(size: string): (r: Option<string>)
    ensures r.Some? <==> size in SizeTable
    ensures r.Some? ==> r.value == SizeTable[size]
  {
    if size == "extra-small" then Some("xs")
    else if size == "small" then Some("sm")
    else if size == "large" then Some("lg")
    else if size == "extra-large" then Some("xl")
    else None
  }

  /** The NL Design System block a resolved type is styled with. */
  function ClassBlock(componentType: string): string {
    if componentType == "textarea" then "utrecht-textarea"
    else if componentType == "number" then "utrecht-number"
    else if componentType == "select" || componentType == "selectboxes" then "utrecht-select"
    else if componentType == "checkbox" then "utrecht-checkbox"
    else if componentType == "radio" then "utrecht-radio-button"
    else "utrecht-textbox"
  }

  /** The HTML element named in the block's `--html-` modifier. */
  function HtmlElement(componentType: string): string {
    if componentType == "textarea" then "textarea"
    else if componentType == "number" then "number"
    else if componentType == "select" || componentType == "selectboxes" then "select"
    else "input"
  }

  /** Types whose class carries a `--required` modifier when the field is required. */
  predicate MarksRequired(componentType: string) {
    componentType != "select" && componentType != "selectboxes"
    && componentType != "checkbox" && componentType != "radio"
  }

  /**
   * An NL Design class attribute, `<block> <block>--html-<element>`, with the
   * ` <block>--required` modifier appended when `required` holds.
   */
  function NlClass(block: string, element: string, required: bool): string {
    block + " " + block + "--html-" + element + (if required then " " + block + "--required" else "")
  }

  /**
   * `getCustomClass`: the NL Design class of a resolved type; each branch
   * spells out the block, the element and whether the source appends the
   * required modifier.
   */
  function CustomClass(componentType: string, required: bool): (r: string)
    ensures r == NlClass(ClassBlock(componentType), HtmlElement(componentType),
                         required && MarksRequired(componentType))
  {
    if componentType == "textfield" then NlClass("utrecht-textbox", "input", required)
    else if componentType == "textarea" then NlClass("utrecht-textarea", "textarea", required)
    else if componentType == "number" then NlClass("utrecht-number", "number", required)
    else if componentType == "select" || componentType == "selectboxes" then
      NlClass("utrecht-select", "select", false)
    else if componentType == "checkbox" then NlClass("utrecht-checkbox", "input", false)
    else if componentType == "radio" then NlClass("utrecht-radio-button", "input", false)
    else NlClass("utrecht-textbox", "input", required)
  }

  /**
   * Being required only ever appends the `--required` modifier, and only for
   * the types that mark it: select, selectboxes, checkbox and radio classes
   * never change.
   */
  lemma RequiredOnlyAppendsModifier(componentType: string)
    ensures CustomClass(componentType, true)
      == CustomClass(componentType, false)
         + (if MarksRequired(componentType) then " " + ClassBlock(componentType) + "--required" else "")
  {
    var block, element := ClassBlock(componentType), HtmlElement(componentType);
    var plain := block + " " + block + "--html-" + element;
    assert CustomClass(componentType, false) == plain + "";
    if MarksRequired(componentType) {
      assert CustomClass(componentType, true) == plain + (" " + block + "--required");
    }
  }

  // ---------------------------------------------------------------------
  // Choices and advanced values
  // ---------------------------------------------------------------------

  /** Types whose choices go to the flat `values` list rather than `data.values`. */
  predicate RoutesFlat(componentType: string) {
    componentType == "radio" || componentType == "selectboxes"
  }

  /** The `{label, value}` entries built from the choices, in order. */
  function Entries(choices: seq<Choice>): seq<Entry> {
    seq(|choices|, i requires 0 <= i < |choices| => Entry(choices[i].text, choices[i].value))
  }

  /** The value of the last selected choice, if any choice is selected. */
  function LastSelected(choices: seq<Choice>): (r: Option<string>)
    ensures r.None? <==> forall i :: 0 <= i < |choices| ==> !choices[i].isSelected
    ensures r.Some? ==>
      exists i :: 0 <= i < |choices| && choices[i].isSelected && choices[i].value == r.value
        && forall j :: i < j < |choices| ==> !choices[j].isSelected
  {
    if choices == [] then None
    else if choices[|choices| - 1].isSelected then Some(choices[|choices| - 1].value)
    else LastSelected(choices[..|choices| - 1])
  }

  /** The component after `setInputChoices(component, choices)`. */
  function WithChoices(c: Component, choices: seq<Choice>): Component {
    var added := Entries(choices);
    c.(dataSrc := Some("values"),
       values := if RoutesFlat(c.componentType) then c.values + added else c.values,
       dataValues := if RoutesFlat(c.componentType) then c.dataValues else c.dataValues + added,
       defaultValue := LastSelected(choices).GetOr(c.defaultValue))
  }

  /** One more choice extends the entries list its type calls for and may move the default. */
  lemma WithChoicesStep(c: Component, choices: seq<Choice>, choice: Choice)
    ensures var r := WithChoices(c, choices);
      var entry := Entry(choice.text, choice.value);
      WithChoices(c, choices + [choice])
        == r.(values := if RoutesFlat(r.componentType) then r.values + [entry] else r.values,
              dataValues := if RoutesFlat(r.componentType) then r.dataValues else r.dataValues + [entry],
              defaultValue := if choice.isSelected then choice.value else r.defaultValue)
  {
    var extended := choices + [choice];
    assert extended[..|extended| - 1] == choices;
    assert Entries(extended) == Entries(choices) + [Entry(choice.text, choice.value)];
  }

  /**
   * `setInputChoices`: marks the component as value-sourced, appends one
   * entry per choice to the list its type calls for and lets every selected
   * choice overwrite the default.
   */
  method SetInputChoices(component: Component, choices: seq<Choice>) returns (r: Component)
    ensures r == WithChoices(component, choices)
  {
    r := component.(dataSrc := Some("values"));
    assert r == WithChoices(component, choices[..0]);
    var i := 0;
    while i < |choices|
      invariant 0 <= i <= |choices|
      invariant r == WithChoices(component, choices[..i])
    {
      var choice := choices[i];
      var entry := Entry(choice.text, choice.value);
      WithChoicesStep(component, choices[..i], choice);
      assert choices[..i + 1] == choices[..i] + [choice];
      if r.componentType == "radio" || r.componentType == "selectboxes" {
        r := r.(values := r.values + [entry]);
      } else {
        r := r.(dataValues := r.dataValues + [entry]);
      }
      if choice.isSelected {
        r := r.(defaultValue := choice.value);
      }
      i := i + 1;
    }
    assert choices[..i] == choices;
  }

  /**
   * What `setInputChoices` does, stated per key: the choices land, in order,
   * in `values` for radio and selectboxes and in `data.values` otherwise; the
   * default becomes the last selected value, or stays when none is selected;
   * no other key changes.
   */
  lemma ChoiceDistribution(c: Component, choices: seq<Choice>)
    ensures var r := WithChoices(c, choices);
      && r.dataSrc == Some("values")
      && (RoutesFlat(c.componentType) ==>
            r.values == c.values + Entries(choices) && r.dataValues == c.dataValues)
      && (!RoutesFlat(c.componentType) ==>
            r.dataValues == c.dataValues + Entries(choices) && r.values == c.values)
      && |Entries(choices)| == |choices|
      && (forall i :: 0 <= i < |choices| ==>
            Entries(choices)[i] == Entry(choices[i].text, choices[i].value))
      && ((forall i :: 0 <= i < |choices| ==> !choices[i].isSelected) ==>
            r.defaultValue == c.defaultValue)
      && (forall i :: (0 <= i < |choices| && choices[i].isSelected
                       && (forall j :: i < j < |choices| ==> !choices[j].isSelected)) ==>
            r.defaultValue == choices[i].value)
      && r.(dataSrc := c.dataSrc, values := c.values, dataValues := c.dataValues,
            defaultValue := c.defaultValue) == c
  {
    var r := WithChoices(c, choices);
    forall i | 0 <= i < |choices| && choices[i].isSelected
      && (forall j :: i < j < |choices| ==> !choices[j].isSelected)
      ensures r.defaultValue == choices[i].value
    {
      var k :| 0 <= k < |choices| && choices[k].isSelected
        && choices[k].value == LastSelected(choices).value
        && forall j :: k < j < |choices| ==> !choices[j].isSelected;
      assert k == i;
    }
  }

  /** The component after `createAdvancedValues(component, field)`. */
  function AdvancedValues(c: Component, f: Field): (r: Component)
    ensures r.input == c.input && r.key == c.key && r.id == c.id && r.size == c.size
    ensures r.description == c.description && r.hidden == c.hidden
    ensures r.required == c.required && r.customClass == c.customClass
  {
    var c1 := c.(labelText := if f.fieldType == "consent" then f.checkboxLabel else c.labelText,
                 multiple := if f.fieldType == "multiselect" then true else c.multiple,
                 componentType := if f.fieldType == "checkbox" && f.choices.Some?
                                  then "selectboxes" else c.componentType);
    match f.choices
    case None => c1
    case Some(choices) => WithChoices(c1.(widget := NamedWidget("choicesjs")), choices)
  }

  /**
   * `createAdvancedValues`: the conditional overrides, in the source's order:
   * consent label, multiselect flag, checkbox-with-choices type, then the
   * choices widget and `setInputChoices`.
   */
  method CreateAdvancedValues(component: Component, field: Field) returns (r: Component)
    ensures r == AdvancedValues(component, field)
  {
    r := component;
    if field.fieldType == "consent" {
      r := r.(labelText := field.checkboxLabel);
    }
    if field.fieldType == "multiselect" {
      r := r.(multiple := true);
    }
    if field.fieldType == "checkbox" && field.choices.Some? {
      r := r.(componentType := "selectboxes");
    }
    if field.choices.Some? {
      r := r.(widget := NamedWidget("choicesjs"));
      r := SetInputChoices(r, field.choices.value);
    }
  }

  /** A field without choices that is neither consent nor multiselect is left as it is. */
  lemma AdvancedValuesNeutral(c: Component, f: Field)
    requires f.choices.None? && f.fieldType != "consent" && f.fieldType != "multiselect"
    ensures AdvancedValues(c, f) == c
  {
  }

  // ---------------------------------------------------------------------
  // Components
  // ---------------------------------------------------------------------

  /** The key `!empty(adminLabel) ? adminLabel : label`. */
  function ResolvedKey(f: Field): string {
    if IsEmpty(f.adminLabel) then f.labelText else f.adminLabel.value
  }

  /** Whether `getComponentSize` returns for this field instead of raising. */
  predicate SizeResolves(f: Field) {
    ComponentSize(f.size).Some?
  }

  /** The component literal built for one field, before its class is set. */
  function BaseComponent(f: Field): Component
    requires SizeResolves(f)
  {
    Component(
      input := true,
      labelText := f.labelText,
      componentType := ComponentType(f.fieldType),
      key := ResolvedKey(f),
      id := f.id,
      size := ComponentSize(f.size).value,
      description := f.description,
      hidden := f.visibility != "visible",
      required := f.isRequired,
      widget := InputWidget("input"),
      defaultValue := f.defaultValue,
      customClass := "",
      multiple := false,
      dataSrc := None,
      values := [],
      dataValues := [])
  }

  /** The component `createFormIOComponents` emits for one field. */
  function TranslateField(f: Field): Component
    requires SizeResolves(f)
  {
    var base := BaseComponent(f);
    AdvancedValues(base.(customClass := CustomClass(base.componentType, f.isRequired)), f)
  }

  /**
   * What the component for a field holds: the field's id, size, description
   * and requiredness; the admin label as key when it is non-empty in PHP's
   * sense and the label otherwise; `hidden` unless the visibility is
   * `visible`; the class of the mapped type; and the advanced overrides.
   */
  lemma TranslateFieldProperties(f: Field)
    requires SizeResolves(f)
    ensures var r := TranslateField(f);
      && r.input && r.id == f.id && r.size == SizeTable[f.size]
      && r.description == f.description && r.required == f.isRequired
      && (!IsEmpty(f.adminLabel) ==> r.key == f.adminLabel.value)
      && (IsEmpty(f.adminLabel) ==> r.key == f.labelText)
      && (r.hidden <==> f.visibility != "visible")
      && r.customClass == CustomClass(ComponentType(f.fieldType), f.isRequired)
      && r.componentType == (if f.fieldType == "checkbox" && f.choices.Some? then "selectboxes"
                             else ComponentType(f.fieldType))
      && r.labelText == (if f.fieldType == "consent" then f.checkboxLabel else f.labelText)
      && (r.multiple <==> f.fieldType == "multiselect")
      && (f.choices.None? ==>
            r.widget == InputWidget("input") && r.dataSrc == None && r.values == []
            && r.dataValues == [] && r.defaultValue == f.defaultValue)
      && (f.choices.Some? ==>
            r.widget == NamedWidget("choicesjs") && r.dataSrc == Some("values")
            && r.values == (if RoutesFlat(r.componentType) then Entries(f.choices.value) else [])
            && r.dataValues == (if RoutesFlat(r.componentType) then [] else Entries(f.choices.value))
            && r.defaultValue == LastSelected(f.choices.value).GetOr(f.defaultValue))
  {
  }

  /**
   * The class is chosen from the type before the advanced overrides: a
   * checkbox field with choices becomes `selectboxes` yet keeps the checkbox
   * class, and its choices go to the flat `values` list.
   */
  lemma ClassPrecedesOverrides(f: Field)
    requires SizeResolves(f) && f.fieldType == "checkbox" && f.choices.Some?
    ensures TranslateField(f).componentType == "selectboxes"
    ensures TranslateField(f).customClass == NlClass("utrecht-checkbox", "input", false)
    ensures TranslateField(f).values == Entries(f.choices.value)
    ensures TranslateField(f).dataValues == []
  {
    TranslateFieldProperties(f);
    var r := TranslateField(f);
    assert ComponentType("checkbox") == "checkbox";
    assert r.customClass == CustomClass("checkbox", f.isRequired);
    assert RoutesFlat(r.componentType);
  }

  /** Two fields with the same resolved type and requiredness get the same class. */
  lemma ClassDependsOnTypeAndRequired(f: Field, g: Field)
    requires SizeResolves(f) && SizeResolves(g)
    requires ComponentType(f.fieldType) == ComponentType(g.fieldType) && f.isRequired == g.isRequired
    ensures TranslateField(f).customClass == TranslateField(g).customClass
  {
    TranslateFieldProperties(f);
    TranslateFieldProperties(g);
  }

  /** Every field's size has a form.io counterpart. */
  predicate AllSizesResolve(form: Form) {
    forall i :: 0 <= i < |FieldsOf(form)| ==> SizeResolves(FieldsOf(form)[i])
  }

  /**
   * `createFormIOComponents`: one component per field, in field order, or
   * the TypeError (`None`) at the first field whose size has no mapping.
   */
  method CreateFormIOComponents(form: Form) returns (r: Option<seq<Component>>)
    ensures r.Some? <==> AllSizesResolve(form)
    ensures r.Some? ==> |r.value| == |FieldsOf(form)|
    ensures r.Some? ==> forall i :: 0 <= i < |r.value| ==> r.value[i] == TranslateField(FieldsOf(form)[i])
  {
    var components: seq<Component> := [];
    if form.fields.Some? {
      var fields := form.fields.value;
      var i := 0;
      while i < |fields|
        invariant 0 <= i <= |fields|
        invariant |components| == i
        invariant forall k :: 0 <= k < i ==> SizeResolves(fields[k]) && components[k] == TranslateField(fields[k])
      {
        var field := fields[i];
        if ComponentSize(field.size).None? {
          // getComponentSize falls off its switch: PHP raises a TypeError
          assert FieldsOf(form)[i] == field && !SizeResolves(field);
          return None;
        }
        var component := BaseComponent(field);
        component := component.(customClass := CustomClass(component.componentType, field.isRequired));
        component := CreateAdvancedValues(component, field);
        assert component == TranslateField(field);
        components := components + [component];
        i := i + 1;
      }
    }
    return Some(components);
  }

  /** `createFormIOSubmitButton`: the standard submit button. */
  function CreateFormIOSubmitButton(button: Button): (b: SubmitButton)
    ensures b.buttonType == "button" && b.action == "submit" && b.key == "submit"
    ensures b.size == "md" && b.customClass == Some("utrecht-button")
    ensures b.labelText == Some(if button.text.Some? then button.text.value else "Submit")
  {
    SubmitButton(
      buttonType := "button",
      theme := "primary",
      disableOnInvalid := true,
      action := "submit",
      rightIcon := "",
      leftIcon := "",
      size := "md",
      key := "submit",
      tableView := false,
      labelText := Some(button.text.GetOr("Submit")),
      input := "true",
      customClass := Some("utrecht-button"))
  }

  /** The message of the not-found error record. */
  function NotFoundMessage(id: string): string {
    "Gravity Form with id: " + id + " is not found"
  }

  /**
   * `gf_to_formio`: the plugin check, the id check and the lookup, in that
   * order of precedence; then the schema with one component per field, in
   * order, and the submit button last exactly when the form has a button.
   */
  method GfToFormio(gravityFormsActive: bool, forms: map<string, Form>, request: Request)
    returns (r: Response<Schema>)
    ensures !gravityFormsActive ==> r == ErrorRecord(NotInstalledMessage, None)
    ensures gravityFormsActive && request.id.None? ==> r == ErrorRecord(NoIdMessage, None)
    ensures gravityFormsActive && request.id.Some? && request.id.value !in forms ==>
      r == ErrorRecord(NotFoundMessage(request.id.value), Some(request.id.value))
    ensures gravityFormsActive && request.id.Some? && request.id.value in forms ==>
      (r.Answer? <==> AllSizesResolve(forms[request.id.value]))
      && (!r.Answer? ==> r.UncaughtTypeError?)
    ensures r.Answer? ==>
      gravityFormsActive && request.id.Some? && request.id.value in forms
      && var form := forms[request.id.value];
         var fields := FieldsOf(form);
         var items := r.value.components;
         && AllSizesResolve(form)
         && r.value.display == "form"
         && |items| == |fields| + (if form.button.Some? then 1 else 0)
         && (forall i :: 0 <= i < |fields| ==> items[i] == FieldItem(TranslateField(fields[i])))
         && (form.button.Some? ==> items[|items| - 1] == ButtonItem(CreateFormIOSubmitButton(form.button.value)))
  {
    var found := FindForm(gravityFormsActive, forms, request, NotFoundMessage);
    if !found.Answer? {
      return ErrorRecord(found.message, found.data);
    }
    var (id, form) := found.value;
    var components := CreateFormIOComponents(form);
    if components.None? {
      return UncaughtTypeError;
    }
    var items := seq(|components.value|, i requires 0 <= i < |components.value| => FieldItem(components.value[i]));
    if form.button.Some? {
      items := items + [ButtonItem(CreateFormIOSubmitButton(form.button.value))];
    }
    return Answer(Schema("form", items));
  }
}
