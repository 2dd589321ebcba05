/** Option and Result, for absent rows and the service's error returns. */
module Outcomes {
  datatype Option<+T> = None | Some(value: T) {
    function GetOr(fallback: T): T {
      if Some? then value else fallback
    }
  }

  /** The error kinds the modelled services distinguish. */
  datatype ApiError = NotFound | BadRequest | Forbidden | Conflict | Validation | Internal

  datatype Result<+T> = Ok(value: T) | Err(error: ApiError)
}
