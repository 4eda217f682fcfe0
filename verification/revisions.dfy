/** How the current revision of the translator differs from the earlier one, field by field. */
module Revisions {
  import opened Wrappers
  import opened GravityForms
  import FormioSchema
  import FormioEndpoint
  import LegacyEndpoint

  /** The current component cut down to the keys the earlier revision sets. */
  function Project(c: FormioSchema.Component): LegacyEndpoint.Component {
    LegacyEndpoint.Component(
      c.input, c.labelText, c.componentType, c.key, c.id, c.size, c.description, c.hidden, c.required)
  }

  /**
   * The two type rules agree exactly on `text` and on the tags the current
   * revision does not rename; every other renamed tag (`string`, `int`,
   * `consent`, `date`, ...) passes through unchanged in the earlier one.
   */
  lemma TypeRulesCompared(fieldType: string)
    ensures LegacyEndpoint.ComponentType(fieldType) == FormioEndpoint.ComponentType(fieldType)
            <==> fieldType !in FormioEndpoint.TypeTable || fieldType == "text"
  {
    if fieldType in FormioEndpoint.TypeTable && fieldType != "text" {
      assert FormioEndpoint.TypeTable[fieldType] != fieldType;
    }
  }

  /**
   * The key rules differ exactly when the admin label is present but empty
   * in PHP's sense (`""` or `"0"`) and differs from the label: `??` keeps it,
   * `!empty` falls back to the label.
   */
  lemma KeyRulesCompared(f: Field)
    ensures LegacyEndpoint.LegacyKey(f) != FormioEndpoint.ResolvedKey(f)
            <==> (f.adminLabel == Some("") || f.adminLabel == Some("0")) && f.adminLabel.value != f.labelText
  {
  }

  /**
   * Whatever the field, both revisions agree on `input`, `id`, `size`,
   * `description`, `hidden` and `validation.required`.
   */
  lemma SharedKeysAgree(f: Field)
    requires FormioEndpoint.SizeResolves(f)
    ensures LegacyEndpoint.SizeResolves(f)
    ensures var current, earlier := FormioEndpoint.TranslateField(f), LegacyEndpoint.TranslateField(f);
      && current.input == earlier.input && current.id == earlier.id && current.size == earlier.size
      && current.description == earlier.description && current.hidden == earlier.hidden
      && current.required == earlier.required
  {
    FormioEndpoint.TranslateFieldProperties(f);
  }

  /**
   * For a field whose type neither revision treats differently, that is not
   * a checkbox with choices and whose key rules agree, the current component
   * restricted to the earlier revision's keys is the earlier component.
   */
  lemma CurrentExtendsEarlier(f: Field)
    requires FormioEndpoint.SizeResolves(f)
    requires f.fieldType !in FormioEndpoint.TypeTable || f.fieldType == "text"
    requires !(f.fieldType == "checkbox" && f.choices.Some?)
    requires !(f.adminLabel == Some("") || f.adminLabel == Some("0"))
    ensures LegacyEndpoint.SizeResolves(f)
    ensures Project(FormioEndpoint.TranslateField(f)) == LegacyEndpoint.TranslateField(f)
  {
    FormioEndpoint.TranslateFieldProperties(f);
    TypeRulesCompared(f.fieldType);
    KeyRulesCompared(f);
    assert f.fieldType != "consent";
  }

  /**
   * A consent field shows the checkbox label in the current revision and the
   * field label in the earlier one, and is a `checkbox` only in the current.
   */
  lemma ConsentDiffers(f: Field)
    requires FormioEndpoint.SizeResolves(f) && f.fieldType == "consent"
    ensures LegacyEndpoint.SizeResolves(f)
    ensures FormioEndpoint.TranslateField(f).labelText == f.checkboxLabel
    ensures FormioEndpoint.TranslateField(f).componentType == "checkbox"
    ensures LegacyEndpoint.TranslateField(f).labelText == f.labelText
    ensures LegacyEndpoint.TranslateField(f).componentType == "consent"
  {
    FormioEndpoint.TranslateFieldProperties(f);
  }

  /**
   * The submit buttons differ only in the label (`text ?? 'Submit'` against
   * `submit`) and in the class, which only the current revision sets.
   */
  lemma ButtonsCompared(button: Button)
    ensures LegacyEndpoint.CreateFormIOSubmitButton(button)
      == FormioEndpoint.CreateFormIOSubmitButton(button).(labelText := button.submit, customClass := None)
  {
  }
}
