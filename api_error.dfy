/**
 * Authsignal::ApiError: the exception the `!` methods raise, carrying the
 * HTTP status (500 when none is given), the API's error code and its
 * description.
 */
module ApiError {
  import opened RubyString
  import opened Json

  const DefaultMessage: string := "An unexpected API error occurred"

  datatype ApiError = ApiError(message: string, status: Json, error: Json, description: Json)

  /** initialize: a missing or false status becomes 500; the rest is kept as given. */
  function New(message: string, status: Json, error: Json, description: Json): (e: ApiError)
    ensures e.message == message && e.error == error && e.description == description
    ensures Truthy(status) ==> e.status == status
    ensures !Truthy(status) ==> e.status == JInt(500)
    ensures Truthy(e.status)
  {
    ApiError(message, if Truthy(status) then status else JInt(500), error, description)
  }

  /** initialize called with three arguments: the message takes its default. */
  function NewWithDefaultMessage(status: Json, error: Json, description: Json): (e: ApiError)
    ensures e.message == "An unexpected API error occurred"
    ensures e.status == (if Truthy(status) then status else JInt(500))
    ensures e.error == error && e.description == description
  {
    New(DefaultMessage, status, error, description)
  }

  /**
   * String interpolation of a value: nil interpolates as nothing, booleans
   * and integers as their literals, strings as themselves, and arrays and
   * hashes as their inspect form, which is a parameter of the model.
   */
  function Interpolate(v: Json, inspect: Json -> string): (r: string)
    ensures v.JNull? ==> r == ""
    ensures v.JString? ==> r == v.s
    ensures v.JInt? ==> ToI(r) == v.i
  {
    match v
    case JNull => ""
    case JBool(b) => if b then "true" else "false"
    case JInt(i) => ToIOfIntToS(i); IntToS(i)
    case JString(s) => s
    case _ => inspect(v)
  }

  /** to_s: the message, then status, error and description in a fixed layout. */
  function ToS(e: ApiError, inspect: Json -> string): (r: string)
    ensures |r| >= |e.message| + 9 && r[..|e.message|] == e.message && r[|e.message|..|e.message| + 9] == " status: "
  {
    var head := e.message + " status: ";
    var tail := Interpolate(e.status, inspect)
      + ", error: " + Interpolate(e.error, inspect)
      + ", description: " + Interpolate(e.description, inspect);
    assert (head + tail)[..|head|] == head;
    head + tail
  }

  lemma FiveHundredText()
    ensures IntToS(500) == "500"
  {
    assert NatToS(5) == "5";
    assert NatToS(50) == NatToS(5) + [DigitChar(0)];
    assert NatToS(500) == NatToS(50) + [DigitChar(0)];
  }

  /**
   * The rendering of an error raised for a response that carried no status
   * and no error details: the default message, status 500 and empty error
   * and description.
   */
  lemma DefaultErrorText(inspect: Json -> string)
    ensures ToS(NewWithDefaultMessage(JNull, JNull, JNull), inspect)
         == DefaultMessage + " status: " + "500" + ", error: " + ", description: "
  {
    var e := NewWithDefaultMessage(JNull, JNull, JNull);
    FiveHundredText();
    ToSLayout(e, inspect, "500", "", "");
    EmptyFieldsLayout(DefaultMessage + " status: " + "500");
  }

  /** The layout of to_s once the three interpolations are known. */
  lemma ToSLayout(e: ApiError, inspect: Json -> string, status: string, error: string, description: string)
    requires Interpolate(e.status, inspect) == status
    requires Interpolate(e.error, inspect) == error
    requires Interpolate(e.description, inspect) == description
    ensures ToS(e, inspect) == e.message + " status: " + status + ", error: " + error + ", description: " + description
  {
  }

  lemma EmptyFieldsLayout(head: string)
    ensures head + ", error: " + "" + ", description: " + "" == head + ", error: " + ", description: "
  {
  }
}
