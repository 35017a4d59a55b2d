/** The typed error a handler hands to `next`. */
module ApiErrors {
  import opened Values

  /** The stack trace: the one supplied by the caller, or the trace captured at construction,
      whose text is not modelled. */
  datatype Stack = Supplied(text: string) | Captured

  /** The field is spelled `sucess`, as in the source. */
  datatype ApiError = ApiError(statusCode: int, sucess: bool, message: string, errors: seq<Json>, stack: Stack)

  /** `new ApiError(statusCode, message, errors = [], stack = '')`; `None` stands for an
      argument left out. */
  function NewError(statusCode: int, message: string, errors: Option<seq<Json>>, stack: Option<string>): (e: ApiError)
    ensures e.statusCode == statusCode && e.message == message
    ensures !e.sucess
    ensures errors.None? ==> e.errors == []
    ensures errors.Some? ==> e.errors == errors.value
    ensures e.stack.Supplied? <==> stack.Some? && stack.value != ""
    ensures e.stack.Supplied? ==> e.stack.text == stack.value
  {
    var list := if errors.Some? then errors.value else [];
    // an empty supplied stack is falsy, so the trace is captured instead
    var trace := if stack.Some? && stack.value != "" then Supplied(stack.value) else Captured;
    ApiError(statusCode, false, message, list, trace)
  }
}
