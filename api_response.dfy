/** The success envelope every handler serialises with `res.json`. */
module ApiResponses {
  /** The field holding the HTTP status is `status` (not `statusCode` as in ApiError). */
  datatype ApiResponse<T> = ApiResponse(status: int, data: T, message: string, success: bool)

  /** `new ApiResponse(status, data, message)`: the three arguments kept as given, and `success`
      derived from the status alone. */
  function NewResponse<T>(status: int, data: T, message: string): (r: ApiResponse<T>)
    ensures r.status == status && r.data == data && r.message == message
    ensures r.success <==> 200 <= status < 300
  {
    ApiResponse(status, data, message, status >= 200 && status < 300)
  }

  /** A 2xx status always gives a successful envelope. */
  lemma SuccessfulStatus<T>(status: int, data: T, message: string)
    requires 200 <= status < 300
    ensures NewResponse(status, data, message).success
  {
  }

  /** A client or server error status never gives a successful envelope. */
  lemma ErrorStatusNotSuccessful<T>(status: int, data: T, message: string)
    requires 400 <= status < 600
    ensures !NewResponse(status, data, message).success
  {
  }
}
