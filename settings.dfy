/** What the descriptor's accessors share: the exceptions they throw, the
    environment-variable expansion they apply and the built-in defaults. */
module Settings {

  /** The exceptions the accessors raise, by their .NET type, with their messages. */
  datatype Error =
    | InvalidData(message: string)           // System.IO.InvalidDataException
    | Format(text: string)                   // System.FormatException from int.Parse, with the offending text
    | InvalidFailureAction(message: string)  // the plain System.Exception thrown by FailureActions
    | NullReference                          // a required attribute is absent and its Value is read

  /** Environment.ExpandEnvironmentVariables, taken as a fixed total function of the text. */
  type Expander = string -> string

  /** The values of DefaultWinSWSettings that the modelled accessors fall back on;
      durations are in milliseconds. */
  datatype Defaults = Defaults(
    arguments: string,
    workingDirectory: string,
    logMode: string,
    waitHint: int,
    sleepTime: int,
    resetFailureAfter: int,
    stopTimeout: int,
    stopParentProcessFirst: bool)
}
