/** The exceptions a handler can raise while it serves a request. */
module Failures {
  import opened Wrappers

  /**
   * A JVM throwable: its exact class name, its message (which may be null),
   * and whether it is a RuntimeException, the only kind the failure wrapper
   * built by bindRoutes catches.
   */
  datatype Failure = Thrown(kind: string, message: Option<string>, runtime: bool)

  const NumberFormatKind: string := "java.lang.NumberFormatException"

  /** What `String.toInt()` (Integer.parseInt) throws for text it cannot read. */
  function NumberFormat(input: string): (f: Failure)
    ensures f.kind == NumberFormatKind && f.runtime
  {
    Thrown(NumberFormatKind, Some("For input string: \"" + input + "\""), true)
  }
}
