/** The optional-value datatype shared by the other modules. */
module Options {

  /** `None` stands for an absent value (Kotlin's `null` on a non-value position). */
  datatype Option<+T> = None | Some(value: T) {

    /** The wrapped value, or `default` when absent. */
    function GetOr(default: T): T {
      match this
      case Some(v) => v
      case None => default
    }
  }
}
