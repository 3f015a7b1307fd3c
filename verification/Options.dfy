/** An optional value. */
module Options {
  datatype Option<T> = None | Some(value: T) {
    function Extract(default: T): T { if Some? then value else default }
  }
}
