/** The OpenAI-style error body every gateway failure is reported with (app/errors.py). */
module Errors {
  import opened Wrappers

  /** `openai_error(status, message, err_type, code)`: the response status and the
      `error` object's fields; `param` is always null and is not represented. */
  datatype ApiError = ApiError(status: int, message: string, errType: string, code: Option<string>)

  const InvalidRequest := "invalid_request_error"
}
