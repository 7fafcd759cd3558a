/** `formatError` and `getErrorMessage` of the `useApiError` hook: an ordered decision table over a caught error. */
module ApiError {
  import opened Wrappers

  /** One entry of a validation error's `details`. */
  datatype FieldIssue = FieldIssue(field: string, message: string)

  /** The `error` object of an API response body; `details` is `None` when missing or `null`. */
  datatype BodyError = BodyError(code: string, message: string, details: Option<seq<FieldIssue>>)

  /** An HTTP response that came back: its status and, if the body carries one, its `error`. */
  datatype Response = Response(status: int, error: Option<BodyError>)

  /** A caught value: anything that is not an `AxiosError`, or one with its response, transport code and message. */
  datatype Caught =
    | NotAxios
    | Axios(response: Option<Response>, code: Option<string>, message: string)

  /** `FormattedError`. */
  datatype Formatted = Formatted(code: string, message: string, fieldErrors: Option<map<string, string>>, statusCode: Option<int>)

  const UnexpectedMessage: string := "Ocurrió un error inesperado"
  const TimeoutMessage: string := "La petición tardó demasiado. Intenta de nuevo."
  const NetworkMessage: string := "No se pudo conectar al servidor. Verifica tu conexión."

  /** `fieldErrors[err.field] = err.message` over the details in order. */
  function FieldErrors(details: seq<FieldIssue>): (m: map<string, string>)
    ensures forall f :: f in m <==> exists i :: 0 <= i < |details| && details[i].field == f
  {
    if details == [] then map[]
    else
      var init := details[..|details| - 1];
      var last := details[|details| - 1];
      assert forall i :: 0 <= i < |init| ==> init[i] == details[i];
      FieldErrors(init)[last.field := last.message]
  }

  /** For a field named more than once, the message of its last detail wins. */
  lemma {:induction false} FieldErrorsLastWins(details: seq<FieldIssue>, i: nat)
    requires i < |details|
    requires forall j :: i < j < |details| ==> details[j].field != details[i].field
    ensures FieldErrors(details)[details[i].field] == details[i].message
  {
    var init := details[..|details| - 1];
    if i < |details| - 1 {
      assert init[i] == details[i];
      FieldErrorsLastWins(init, i);
    }
  }

  function Status(e: Caught): Option<int>
    requires e.Axios?
  {
    if e.response.Some? then Some(e.response.value.status) else None
  }

  function Body(e: Caught): Option<BodyError>
    requires e.Axios?
  {
    if e.response.Some? then e.response.value.error else None
  }

  /** `formatError`, first matching rule wins. */
  function Format(e: Caught): (r: Formatted)
    ensures e.NotAxios? ==> r == Formatted("UNKNOWN_ERROR", UnexpectedMessage, None, None)
    ensures e.Axios? && Status(e) == Some(422) && Body(e).Some? && Body(e).value.details.Some? ==>
              r == Formatted(Body(e).value.code, Body(e).value.message,
                             Some(FieldErrors(Body(e).value.details.value)), Some(422))
    ensures e.Axios? && Body(e).Some? && !(Status(e) == Some(422) && Body(e).value.details.Some?) ==>
              r == Formatted(Body(e).value.code, Body(e).value.message, None, Status(e))
    ensures e.Axios? && Body(e).None? && e.code == Some("ECONNABORTED") ==>
              r == Formatted("TIMEOUT", TimeoutMessage, None, Some(408))
    ensures e.Axios? && Body(e).None? && e.code == Some("ERR_NETWORK") ==>
              r == Formatted("NETWORK_ERROR", NetworkMessage, None, Some(0))
    ensures e.Axios? && Body(e).None? && e.code != Some("ECONNABORTED") && e.code != Some("ERR_NETWORK") ==>
              r == Formatted("HTTP_ERROR", if e.message == [] then UnexpectedMessage else e.message, None, Status(e))
  {
    match e
    case NotAxios => Formatted("UNKNOWN_ERROR", UnexpectedMessage, None, None)
    case Axios(response, code, message) =>
      var status := Status(e);
      var body := Body(e);
      if status == Some(422) && body.Some? && body.value.details.Some? then
        Formatted(body.value.code, body.value.message, Some(FieldErrors(body.value.details.value)), status)
      else if body.Some? then
        Formatted(body.value.code, body.value.message, None, status)
      else if code == Some("ECONNABORTED") then
        Formatted("TIMEOUT", TimeoutMessage, None, Some(408))
      else if code == Some("ERR_NETWORK") then
        Formatted("NETWORK_ERROR", NetworkMessage, None, Some(0))
      else
        Formatted("HTTP_ERROR", if message == [] then UnexpectedMessage else message, None, status)
  }

  /** `getErrorMessage`: the message of the formatted error. */
  function MessageOf(e: Caught): (m: string)
    ensures e.NotAxios? ==> m == UnexpectedMessage
    ensures e.Axios? && Body(e).Some? ==> m == Body(e).value.message
    ensures e.Axios? && Body(e).None? && e.code == Some("ECONNABORTED") ==> m == TimeoutMessage
    ensures e.Axios? && Body(e).None? && e.code == Some("ERR_NETWORK") ==> m == NetworkMessage
    ensures e.Axios? && Body(e).None? && e.code != Some("ECONNABORTED") && e.code != Some("ERR_NETWORK") ==>
              m == if e.message == [] then UnexpectedMessage else e.message
  {
    Format(e).message
  }

  /** An error carried in the response body wins over whatever transport code the error has. */
  lemma BodyBeatsTransport(response: Response, code1: Option<string>, code2: Option<string>, msg1: string, msg2: string)
    requires response.error.Some?
    ensures Format(Axios(Some(response), code1, msg1)) == Format(Axios(Some(response), code2, msg2))
    ensures Format(Axios(Some(response), code1, msg1)).code == response.error.value.code
  {
  }

  /** Field errors are reported exactly for a 422 response whose body error has details. */
  lemma FieldErrorsIff(e: Caught)
    ensures Format(e).fieldErrors.Some? <==>
              e.Axios? && Status(e) == Some(422) && Body(e).Some? && Body(e).value.details.Some?
  {
  }

  /**
   * The status code is missing exactly for a non-Axios error, or for one with
   * no response whose transport code is neither a timeout nor a network failure.
   */
  lemma StatusAbsentIff(e: Caught)
    ensures Format(e).statusCode.None? <==>
              e.NotAxios? || (e.response.None? && e.code != Some("ECONNABORTED") && e.code != Some("ERR_NETWORK"))
  {
  }

  /** The message shown is never empty unless the API itself sent an empty one. */
  lemma MessageNonEmpty(e: Caught)
    requires e.Axios? ==> Body(e).None? || Body(e).value.message != []
    ensures MessageOf(e) != []
  {
  }
}
