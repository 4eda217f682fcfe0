/**
 * What the endpoint sees of WordPress and of the Gravity Forms plugin:
 * the REST request, the decoded JSON body, the stored forms and the
 * result records it returns.
 */
module Host {
  import opened Wrappers
  import opened GravityForms

  /** A decoded JSON value (floating-point numbers are not modelled). */
  datatype Json =
    | JNull
    | JBool(b: bool)
    | JNumber(n: int)
    | JString(s: string)
    | JArray(items: seq<Json>)
    | JObject(members: seq<(string, Json)>)

  /**
   * A REST request: the route parameter `id` (absent when not given) and,
   * for a POST, the body already decoded into its ordered key/value pairs.
   */
  datatype Request = Request(id: Option<string>, body: seq<(string, Json)>)

  /**
   * What an endpoint hands back: the translated value, an error record
   * `['message' => ..., 'data' => ...]`, or the TypeError PHP raises when
   * `getComponentSize` falls off its switch without returning a string.
   */
  datatype Response<+T> =
    | Answer(value: T)
    | ErrorRecord(message: string, data: Option<string>)
    | UncaughtTypeError

  const NotInstalledMessage := "Gravity Forms is not installed"
  const NoIdMessage := "No id given"

  /** `GFAPI::get_form(id)`: the stored form with that id, if there is one. */
  function GetForm(forms: map<string, Form>, id: string): Option<Form> {
    if id in forms then Some(forms[id]) else None
  }

  /**
   * The checks every endpoint makes before its own work, in their order of
   * precedence: the plugin is installed, an id is given, a form is stored
   * under it. `notFound` words the not-found message from the id; on
   * success the id and the stored form are handed on.
   */
  function FindForm(gravityFormsActive: bool, forms: map<string, Form>, request: Request,
                    notFound: string -> string): (r: Response<(string, Form)>)
    ensures !r.UncaughtTypeError?
    ensures !gravityFormsActive ==> r == ErrorRecord(NotInstalledMessage, None)
    ensures gravityFormsActive && request.id.None? ==> r == ErrorRecord(NoIdMessage, None)
    ensures gravityFormsActive && request.id.Some? && request.id.value !in forms ==>
      r == ErrorRecord(notFound(request.id.value), Some(request.id.value))
    ensures r.Answer? <==> gravityFormsActive && request.id.Some? && request.id.value in forms
    ensures r.Answer? ==> r.value == (request.id.value, forms[request.id.value])
  {
    if !gravityFormsActive then ErrorRecord(NotInstalledMessage, None)
    else if request.id.None? then ErrorRecord(NoIdMessage, None)
    else
      var id := request.id.value;
      match GetForm(forms, id)
      case None => ErrorRecord(notFound(id), Some(id))
      case Some(form) => Answer((id, form))
  }
}
