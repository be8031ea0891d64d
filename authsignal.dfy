/**
 * The Authsignal module's response handling: a Faraday response becomes a
 * result hash with a `success?` entry, and each API method's `!` variant
 * raises ApiError when that entry is not truthy.
 */
module Authsignal {
  import opened Results
  import opened Json
  import opened ApiError
  import JsonResponse
  import Configuration

  /** What handle_response reads of a Faraday response; the body is as JsonResponse left it. */
  datatype Response = Response(success: bool, status: Option<int>, body: JsonResponse.Body)

  /** What calling a method does: return a hash, raise ApiError, or fail because a String has no merge. */
  datatype Outcome = Returned(fields: Fields) | Raised(error: ApiError) | NoMethodError

  /** The keys of the result hashes. */
  const StatusCode: string := "status_code"
  const SuccessFlag: string := "success?"
  const ErrorCode: string := "error_code"
  const ErrorDescription: string := "error_description"

  lemma ResultKeysDistinct()
    ensures StatusCode != SuccessFlag && StatusCode != ErrorCode && StatusCode != ErrorDescription
    ensures SuccessFlag != ErrorCode && SuccessFlag != ErrorDescription && ErrorCode != ErrorDescription
  {
    assert |StatusCode| == 11 && |SuccessFlag| == 8 && |ErrorCode| == 10 && |ErrorDescription| == 17;
  }

  function StatusValue(status: Option<int>): (v: Json)
    ensures status.None? ==> v == JNull
    ensures status.Some? ==> v == JInt(status.value)
  {
    if status.Some? then JInt(status.value) else JNull
  }

  /** handle_success_response: the body merged with success? => true. */
  function HandleSuccess(response: Response): (r: Outcome)
    ensures response.body.Text? <==> r.NoMethodError?
    ensures response.body.Hash? ==> r.Returned? && Get(r.fields, SuccessFlag) == JBool(true)
    ensures response.body.Hash? ==> forall k :: k != SuccessFlag ==> Get(r.fields, k) == Get(response.body.fields, k)
    ensures response.body.Hash? ==> forall k :: k in Keys(r.fields) <==> k in Keys(response.body.fields) || k == SuccessFlag
  {
    match response.body
    case Hash(fields) => Returned(Put(fields, SuccessFlag, JBool(true)))
    case Text(_) => NoMethodError
  }

  /**
   * handle_error_response: for a Hash body the status as given and the
   * body's error and error_description; otherwise only the status, with
   * 500 standing in for a missing one.
   */
  function HandleError(response: Response): (r: Outcome)
    ensures r.Returned? && Get(r.fields, SuccessFlag) == JBool(false)
  {
    match response.body
    case Hash(fields) =>
      Returned([(StatusCode, StatusValue(response.status)), (SuccessFlag, JBool(false)),
                (ErrorCode, Get(fields, "error")), (ErrorDescription, Get(fields, "error_description"))])
    case Text(_) =>
      Returned([(StatusCode, if response.status.Some? then JInt(response.status.value) else JInt(500)),
                (SuccessFlag, JBool(false))])
  }

  /** A failed response with a Hash body: its status as given, and the body's error and error_description. */
  lemma HandleErrorHash(response: Response)
    requires response.body.Hash?
    ensures var fs := HandleError(response).fields;
      && Keys(fs) == [StatusCode, SuccessFlag, ErrorCode, ErrorDescription]
      && Get(fs, SuccessFlag) == JBool(false)
      && Get(fs, StatusCode) == StatusValue(response.status)
      && Get(fs, ErrorCode) == Get(response.body.fields, "error")
      && Get(fs, ErrorDescription) == Get(response.body.fields, "error_description")
  {
    ResultKeysDistinct();
    var fs := HandleError(response).fields;
    assert fs[1..][1..][1..][1..] == [];
    assert Keys(fs[1..][1..][1..]) == [ErrorDescription];
    assert Keys(fs[1..][1..]) == [ErrorCode, ErrorDescription];
    assert Keys(fs[1..]) == [SuccessFlag, ErrorCode, ErrorDescription];
    assert Get(fs[1..][1..][1..], ErrorDescription) == fs[3].1;
    assert Get(fs[1..][1..], ErrorCode) == fs[2].1;
    assert Get(fs[1..][1..], ErrorDescription) == fs[3].1;
    assert Get(fs[1..], SuccessFlag) == fs[1].1;
  }

  /** A failed response with any other body: the status, or 500 when there is none. */
  lemma HandleErrorText(response: Response)
    requires response.body.Text?
    ensures var fs := HandleError(response).fields;
      && Keys(fs) == [StatusCode, SuccessFlag]
      && Get(fs, SuccessFlag) == JBool(false)
      && Get(fs, StatusCode) == (if response.status.Some? then JInt(response.status.value) else JInt(500))
  {
    ResultKeysDistinct();
    var fs := HandleError(response).fields;
    assert fs[1..][1..] == [];
    assert Keys(fs[1..]) == [SuccessFlag];
  }

  /** handle_response: dispatch on the response's success flag. */
  function HandleResponse(response: Response): (r: Outcome)
    ensures response.success ==> r == HandleSuccess(response)
    ensures !response.success ==> r == HandleError(response)
  {
    if response.success then HandleSuccess(response) else HandleError(response)
  }

  /** The `!` wrapper around a method's outcome: a returned hash whose success? is not truthy raises. */
  function Bang(outcome: Outcome): (r: Outcome)
    ensures !outcome.Returned? ==> r == outcome
    ensures outcome.Returned? && Truthy(Get(outcome.fields, SuccessFlag)) ==> r == outcome
    ensures outcome.Returned? && !Truthy(Get(outcome.fields, SuccessFlag)) ==>
      r == Raised(New(DefaultMessage, Get(outcome.fields, StatusCode),
                      Get(outcome.fields, ErrorCode), Get(outcome.fields, ErrorDescription)))
  {
    match outcome
    case Returned(fields) =>
      if Truthy(Get(fields, SuccessFlag)) then outcome
      else Raised(NewWithDefaultMessage(Get(fields, StatusCode), Get(fields, ErrorCode), Get(fields, ErrorDescription)))
    case _ => outcome
  }

  /**
   * A `!` call on a response raises exactly when the response failed, and
   * the error carries the response's status, or 500 when it had none,
   * together with the body's error and error_description.
   */
  lemma BangRaisesOnFailure(response: Response)
    ensures Bang(HandleResponse(response)).Raised? <==> !response.success
    ensures !response.success ==>
      var e := Bang(HandleResponse(response)).error;
      && e.message == "An unexpected API error occurred"
      && e.status == (if response.status.Some? then JInt(response.status.value) else JInt(500))
      && e.error == (if response.body.Hash? then Get(response.body.fields, "error") else JNull)
      && e.description == (if response.body.Hash? then Get(response.body.fields, "error_description") else JNull)
  {
    if !response.success {
      if response.body.Hash? {
        HandleErrorHash(response);
      } else {
        HandleErrorText(response);
        ResultKeysDistinct();
      }
    }
  }

  /** A successful response passes through its `!` variant unchanged. */
  lemma BangPassesSuccess(response: Response)
    requires response.success
    ensures Bang(HandleResponse(response)) == HandleResponse(response)
  {
  }

  /**
   * The methods public on the Authsignal module itself: the configuration
   * writer from attr_writer, setup, configuration, default_configuration
   * and the nine API methods.
   */
  const PublicMethods: set<string> := {
    "configuration=", "setup", "configuration", "default_configuration",
    "get_user", "update_user", "delete_user", "get_action", "update_action_state",
    "enroll_verified_authenticator", "delete_authenticator", "track", "validate_challenge"
  }

  const NonApiMethods: set<string> := {"setup", "configuration", "default_configuration"}

  /** The names given a `!` variant: every public method outside NonApiMethods, with `!` appended. */
  function BangMethods(methods: set<string>): set<string>
  {
    set m | m in methods && m !in NonApiMethods :: m + "!"
  }

  /** m! is defined exactly for the public methods that are not in NonApiMethods. */
  lemma BangMethodsExactly(methods: set<string>, m: string)
    ensures m + "!" in BangMethods(methods) <==> m in methods && m !in NonApiMethods
  {
    if m + "!" in BangMethods(methods) {
      var n :| n in methods && n !in NonApiMethods && n + "!" == m + "!";
      assert n == (n + "!")[..|n|];
      assert m == (m + "!")[..|m|];
    }
  }

  /** setup, configuration and default_configuration get no `!` variant; the API methods and the writer do. */
  lemma NoBangForNonApiMethods()
    ensures forall m :: m in NonApiMethods ==> m + "!" !in BangMethods(PublicMethods)
    ensures "get_user" + "!" in BangMethods(PublicMethods)
    ensures "configuration=" + "!" in BangMethods(PublicMethods)
  {
    forall m | m in NonApiMethods ensures m + "!" !in BangMethods(PublicMethods) {
      BangMethodsExactly(PublicMethods, m);
    }
    BangMethodsExactly(PublicMethods, "get_user");
    BangMethodsExactly(PublicMethods, "configuration=");
  }

  /** The module-level state: the configuration object, created on first use. */
  class Settings {
    var configuration: Configuration.Configuration?

    constructor()
      ensures configuration == null
    {
      configuration := null;
    }

    /** configuration: the memoised object, or a fresh one stored on first use. */
    method GetConfiguration() returns (c: Configuration.Configuration)
      modifies this
      ensures old(configuration) != null ==> c == old(configuration) && configuration == c
      ensures old(configuration) == null ==> fresh(c) && c.configValues == map[] && configuration == c
    {
      if configuration == null {
        configuration := new Configuration.Configuration();
      }
      c := configuration;
    }

    /** The configuration writer: replaces the object outright. */
    method SetConfiguration(c: Configuration.Configuration?)
      modifies this
      ensures configuration == c
    {
      configuration := c;
    }

    /** setup: hands the block the same object configuration returns. */
    method Setup() returns (c: Configuration.Configuration)
      modifies this
      ensures old(configuration) != null ==> c == old(configuration) && configuration == c
      ensures old(configuration) == null ==> fresh(c) && c.configValues == map[] && configuration == c
    {
      c := GetConfiguration();
    }
  }
}
