/** Optional constructor arguments: `None` is a field the caller left `undefined`. */
module Optional {
  datatype Option<T> = None | Some(value: T) {
    /** The value, or `default` when the argument was left out (a destructuring default). */
    function OrDefault(default: T): T {
      match this
      case Some(v) => v
      case None => default
    }
  }
}
