/** Values exchanged between trigger sources and activities. */
module PubSubTypes {

  /** A Python value: `None`, or a reference to some other object. */
  datatype Value = PyNone | Ref(obj: object)

  /** The `instance` argument of an activity invocation. `Standalone` is the
      `instance is None` case, used for bare invocations outside a node tree. */
  datatype Instance = Standalone | Owned(owner: object)

  /** A Python exception: its class name, its message, and whether its
      class derives from `Exception` (the `SystemExit`, `KeyboardInterrupt`
      and, from Python 3.8, `asyncio.CancelledError` classes derive only
      from `BaseException`). */
  datatype PyException = PyException(kind: string, message: string, isException: bool := true)

  /** The arguments of one call of `ActivityDecorator.trigger`:
      `trigger(senders, sender_parameters, instance, *args, **kwargs)`. */
  datatype Invocation = Invocation(
    senders: seq<Value>,
    senderParameters: map<string, Value>,
    instance: Instance,
    args: seq<Value>,
    kwargs: map<string, Value>)

  /** One invocation issued by a trigger source to one subscribed activity. */
  datatype Firing = Firing(activity: object, invocation: Invocation)
}
