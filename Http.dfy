/** JavaScript values as the request handlers see them, and the HTTP statuses they send. */
module Http {
  /** A value after Number(): NaN or a number. */
  datatype Numeric = NaN | Num(value: real)

  /** A JSON value where a number is expected: a number, or anything else. */
  datatype JsonNumber = Number(value: real) | NotNumber

  const Ok := 200
  const CreatedStatus := 201
  const BadRequest := 400
  const NotFoundStatus := 404
  const InternalError := 500
}
