/** Values shared by the server handlers and the panel: optional values and
    the HTTP rejections the handlers answer with. */
module Common {

  datatype Option<+T> = None | Some(value: T) {
    function GetOr(default: T): T {
      match this
      case Some(v) => v
      case None => default
    }
  }

  /** A body field whose handler tells "not sent" apart from an explicit JSON null. */
  datatype Field<+T> = Absent | Null | Given(value: T)

  /** A string field is truthy in JavaScript when it was sent and is not empty. */
  predicate Truthy(s: Option<string>)
  {
    s.Some? && s.value != ""
  }

  /** A rejection: the HTTP status and the text sent with it. */
  datatype HttpError = HttpError(status: int, message: string)

  datatype Result<+T> = Ok(value: T) | Err(error: HttpError)
}
