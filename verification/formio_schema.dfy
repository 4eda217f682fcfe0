/** The form.io side: the components the current revision of the endpoint emits. */
module FormioSchema {
  import opened Wrappers

  /** One `{label, value}` entry of a choice component. */
  datatype Entry = Entry(labelText: string, value: string)

  /**
   * The `widget` key: the array `['type' => 'input']` of a plain component,
   * or the bare string `'choicesjs'` that choice components get instead.
   */
  datatype Widget = InputWidget(widgetType: string) | NamedWidget(name: string)

  /**
   * A form.io component for one Gravity Forms field. `values` and
   * `dataValues` (the nested `data.values`) are only ever appended to, so an
   * empty sequence stands for the key being absent; `multiple` is false
   * exactly when the key is absent; `customClass` is `""` until it is set.
   */
  datatype Component = Component(
    input: bool,
    labelText: string,
    componentType: string,
    key: string,
    id: Option<string>,
    size: string,
    description: string,
    hidden: bool,
    required: bool,
    widget: Widget,
    defaultValue: string,
    customClass: string,
    multiple: bool,
    dataSrc: Option<string>,
    values: seq<Entry>,
    dataValues: seq<Entry>)

  /**
   * The submit button component. `input` is the string `'true'`, as the
   * source writes it; `customClass` is absent in the older revision.
   */
  datatype SubmitButton = SubmitButton(
    buttonType: string,
    theme: string,
    disableOnInvalid: bool,
    action: string,
    rightIcon: string,
    leftIcon: string,
    size: string,
    key: string,
    tableView: bool,
    labelText: Option<string>,
    input: string,
    customClass: Option<string>)

  /** An entry of the schema's `components` list. */
  datatype Item = FieldItem(component: Component) | ButtonItem(button: SubmitButton)

  /** The form.io schema `{display, components}`. */
  datatype Schema = Schema(display: string, components: seq<Item>)
}
