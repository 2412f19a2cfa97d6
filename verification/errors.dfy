/**
 * The two error taxonomies of src/errors.py, plus the Python runtime errors the
 * kernel can raise implicitly, and the result types that carry them.
 */
module Errors {

  /** Engine faults: an invariant the kernel itself should have kept was broken. */
  datatype InternalError =
    | InvalidTileStateFault
    | TerraformFault
    | ExploreFault
    | MineFault
    | UnknownRobotFault
    | IllegalMoveFault
    | InvalidActionFault

  /** Illegal requests by a player (or a bad input file). */
  datatype UserError =
    | IllegalAction
    | IllegalSpawn
    | IllegalTransform
    | IllegalMove
    | InvalidBotFile
    | InvalidMap
    | UnknownRobot

  /** Errors raised by the Python runtime rather than by the kernel's own classes. */
  datatype RuntimeError =
    | TypeError        // wrong call arity, or iterating None
    | IndexError       // a list index past the end
    | AssertionError   // a failed `assert` in the map validator
    | ValueError       // unpacking a map cell that does not hold exactly three values
    | EnvironmentError // a zero-sized or unknown reflection request

  datatype Error =
    | Internal(internal: InternalError)
    | User(user: UserError)
    | Runtime(runtime: RuntimeError)

  datatype Option<T> = None | Some(value: T)

  datatype Result<T> = Ok(value: T) | Err(error: Error)

  /** The result of a check that either passes or raises. */
  datatype Outcome = Pass | Fail(error: Error)
}
