/** Values shared by every part of the backend model: an optional value and the
    HTTP status codes the handlers and middleware answer with. */
module Common {

  /** A value that may be absent (a JavaScript `undefined`/`null`). */
  datatype Option<+T> = None | Some(value: T)

  const StatusOk := 200
  const StatusCreated := 201
  const StatusBadRequest := 400
  const StatusUnauthorized := 401
  const StatusForbidden := 403
  const StatusNotFound := 404
  const StatusServerError := 500

  /** Identifier of a stored document (a Mongo ObjectId in its canonical hex text). */
  type Id = string
}
