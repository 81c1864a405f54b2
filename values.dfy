/** Values shared by the event bus model: the opaque JavaScript values that
    callbacks receive and return, the way a callback completes, the errors the
    bus raises, and the bindings stored in a registry. */
module Values {

  datatype Option<+T> = None | Some(value: T) {
    function GetOr(default: T): T {
      match this
      case Some(v) => v
      case None => default
    }
  }

  /** A JavaScript value as far as the bus can tell values apart. `Undefined`
      is a value like any other: callbacks may return it and it is collected. */
  datatype Value =
    | Undefined
    | Null
    | Str(s: string)
    | Other(id: nat)   // any other object, number or promise, known by identity

  /** Identity of a callback function, of a `this` context and of a thrown error. */
  type CallbackId = nat
  type ContextId = nat
  type ErrorId = nat

  /** How one invocation of a callback ends. */
  datatype Completion = Return(v: Value) | Throw(e: ErrorId)

  /** The callbacks' behaviour, which the bus cannot see: what callback `cb`
      does when invoked with receiver `ctx` and argument list `args`. */
  type Behaviour = (CallbackId, Option<ContextId>, seq<Value>) -> Completion

  /** One callback invocation performed by a dispatch, in the order made. */
  datatype Call = Call(callback: CallbackId, ctx: Option<ContextId>, args: seq<Value>)

  /** Errors raised by the bus and its proxy, with the source's messages. */
  datatype Error =
    | TypeError(message: string)
    | ReferenceError(message: string)
    | Thrown(e: ErrorId)   // an error thrown by a listener, passed through

  const NotAFunction := "'callback' is not a 'function'."
  const NotTyphonEvents := "'eventbus' is not an instance of TyphonEvents."
  const Destroyed := "This EventProxy instance has been destroyed."

  datatype Result<+T> = Ok(value: T) | Err(error: Error)

  /** One listener registration. `owner` is None for a binding added directly
      with `on`/`once`, and the listening bus for one added through
      `listenTo`/`listenToOnce`; `once` marks a binding that removes itself
      before its callback first runs. */
  datatype Binding = Binding(callback: CallbackId, ctx: Option<ContextId>, owner: Option<object>, once: bool)
}
