/** The optional value. */
module Options {
  datatype Option<+T> = None | Some(value: T)

  /** The steps that are left before a crash, if there is to be one, after one step or the crash. */
  function Ticked(crashAt: Option<nat>): Option<nat> {
    if crashAt.Some? && crashAt.value > 0 then Some(crashAt.value - 1) else crashAt
  }
}
