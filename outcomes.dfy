/** Success and failure values shared by every module of the model. */
module Outcomes {

  datatype Option<T> = None | Some(value: T)

  /** What a call can end in besides a value. */
  datatype Error =
    | OverflowError        // std::overflow_error thrown by the course-angle guard
    | LogicError           // std::logic_error thrown by the label lookup
    | UndefinedBehaviour   // C++ gives no meaning to what happens next; the model claims nothing
    | Terminated           // std::terminate: an exception tried to leave a noexcept function

  datatype Result<T> = Ok(value: T) | Err(error: Error)
}
