/** The records shared by the chat client's components (src/types/types.ts). */
module Types {

  /** An optional value: JavaScript's `undefined`/`null` versus a present value. */
  datatype Option<+T> = None | Some(value: T) {
    function GetOr(default: T): T {
      match this
      case Some(v) => v
      case None => default
    }
  }

  /** The outcome of an operation that may throw. */
  datatype Result<+T, +E> = Success(value: T) | Failure(error: E)

  datatype Role = User | Assistant | System

  /** One chat message; `id` is an opaque unique identifier, `timestamp` an opaque instant. */
  datatype Message = Message(id: string, role: Role, content: string, timestamp: int)

  /** Connection settings of the completion endpoint. */
  datatype ChatSettings = ChatSettings(baseUrl: string, apiKey: string, modelId: string)

  /** A value thrown by JavaScript code: an `Error` (with its `name` and `message`) or any other value. */
  datatype Thrown = JsError(name: string, message: string) | NonError
}
