/** Small failure-carrying datatypes shared by the whole model. */
module Wrappers {

  /** A JavaScript value that may be `undefined`. */
  datatype Option<+T> = None | Some(value: T) {

    /** The value, or `default` when absent. */
    function GetOr(default: T): T {
      match this
      case Some(v) => v
      case None => default
    }
  }

  /** The outcome of a remote call made by a client: the resolved response body, or a
      rejected promise whose reason the model does not inspect. */
  datatype Outcome<+T> = Success(value: T) | Failure

  /** JavaScript truthiness of a value that is a string or `undefined`: present and non-empty. */
  predicate Truthy(s: Option<string>) {
    s.Some? && s.value != ""
  }
}

/** Identities and files shared by the server and the client. */
module Common {

  /** A user id: the string form of a database key. */
  type UserId = string

  /** A message id: the string form of a database key. */
  type MessageId = string

  /** A live-connection id. The socket server never hands out an empty one, which is what makes
      the server's `if (socketId)` checks equivalent to "the user is registered". */
  type ConnId = s: string | s != "" witness "0"

  /** Milliseconds since the epoch, as the document store assigns them. */
  type Timestamp = int

  /** A file the user picked: the browser's name, type and size, which the multipart parser
      receives as the original name, the mimetype and the size. */
  datatype File = File(name: string, mimeType: string, size: nat)
}
