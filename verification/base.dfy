/** Option and Result types shared by the whole model, and the error kinds
    that the cache reports. */
module Base {

  datatype Option<+T> = None | Some(value: T) {
    function GetOr(default: T): T {
      match this
      case Some(v) => v
      case None => default
    }
  }

  /** The failures the model reports. The first three carry the messages
      src/task.rs attaches; UuidSyntax is the error of the uuid library's
      parser; CyclicParents has no counterpart in the source, whose walk
      never ends in that case. */
  datatype ErrorKind =
    | NotInCache        // "Uuid not found in Cache"
    | NoExportRecord    // "Could not load Task!": the filtered export was empty
    | NoUuidInFeedback  // "No uuid in task feedback found"
    | UuidSyntax        // Uuid::parse_str rejected a token
    | CyclicParents     // the partof walk came back to a task it had visited

  datatype Result<+T> = Ok(value: T) | Err(error: ErrorKind)
}
