/** The optional values of the storefront: a JavaScript `undefined`/`null`
    (an absent `oldPrice` or `badge`, a failed `find`) is `None`. */
module Options {

  datatype Option<+T> = None | Some(value: T) {

    /** The wrapped value, or `default` when absent. */
    function GetOr(default: T): T {
      match this
      case Some(v) => v
      case None => default
    }
  }
}
