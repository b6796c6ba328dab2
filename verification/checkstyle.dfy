/** What a checkstyle check reports: a message attached to a line of the
    file under inspection. */
module Checkstyle {
  datatype Diagnostic = Diagnostic(line: int, message: string)
}
