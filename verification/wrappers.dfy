/** Failure-compatible wrappers and the exceptions the reconciler raises. */
module Wrappers {

  datatype Option<+T> = None | Some(value: T) {
    function GetOr(default: T): T {
      if Some? then value else default
    }
  }

  datatype Result<+T, +E> = Ok(value: T) | Err(error: E) {
    predicate IsFailure() {
      Err?
    }

    function PropagateFailure<U>(): Result<U, E>
      requires Err?
    {
      Err(error)
    }

    function Extract(): T
      requires Ok?
    {
      value
    }
  }

  /**
   * The exceptions the reconciler raises, by cause; `Message` gives the text
   * each carries and the comments name the Python class.
   */
  datatype Error =
    /** `InvalidTowerProject` for a configuration, naming its stack when it has one */
    | InvalidTowerProject(stack: Option<string>)
    /** `ValueError` for an ARN that does not follow the assumed-role format */
    | InvalidArn(arn: string)
    /** `ValueError` for a participant given as neither or both of a user and a team */
    | InvalidParticipant
    /** `KeyError` for a user that is not a known member of the organization */
    | KeyError(key: string)
    /** `AssertionError` for existing credentials of the stack that are not live AWS credentials */
    | InvalidCredentials(name: string)

  /** The message of an exception; the configuration itself is not reproduced. */
  function Message(e: Error): string {
    match e
    case InvalidTowerProject(Some(stack)) => stack + ".yaml is invalid"
    case InvalidTowerProject(None) => "This config is invalid:\n"
    case InvalidArn(arn) =>
      "Listed ARN (" + arn + ") doesn't follow expected format: 'arn:aws:sts::<account_id>:<role_name>:<email>'"
    case InvalidParticipant => "Must provide value for exactly one of `user` or `team_id`."
    case KeyError(key) => key
    case InvalidCredentials(name) => name
  }
}
