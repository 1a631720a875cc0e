/** The errors the services throw. Both service files declare their own
    `ValidationError` (statusCode 400) and `NotFoundError` (statusCode 404);
    the other failures are plain `Error`s, or the validation error Mongoose's
    `save()` rejects with when a document breaks its schema. */
module Errors {
  import opened Wrappers

  datatype ServiceError =
    | ValidationError(message: string)
    | NotFoundError(message: string)
    | PlainError(message: string)
    | SchemaError(model: string, paths: seq<string>)
  {
    /** The `statusCode` field the two custom error classes carry. */
    function StatusCode(): Option<int> {
      match this
      case ValidationError(_) => Some(400)
      case NotFoundError(_) => Some(404)
      case _ => None
    }

    /** `err.message`, the text the controllers put in their `{message}` body.
        For a schema failure only Mongoose's prefix is modelled, not the
        per-path details it appends. */
    function Message(): string {
      match this
      case ValidationError(m) => m
      case NotFoundError(m) => m
      case PlainError(m) => m
      case SchemaError(model, _) => model + " validation failed"
    }
  }
}
