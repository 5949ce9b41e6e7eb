/** Failure-compatible results shared by the asset loader and the graph builder.
    The source returns `anyhow::Result`, and `create_asset` panics through
    its two `unwrap`s on the canonical path; a panic is kept apart from an `Err` because it is not a value the
    caller receives but the end of the program. */
module Outcomes {

  datatype Option<+T> = None | Some(value: T)

  /** The errors the source can return, with the context it attaches. */
  datatype Error =
    | IoError                       // File::open or read_to_string failed; no context is added
    | ParseError(filepath: string)  // "swc parser failed for <filepath>"
    | EmitError                     // the code emitter reported an I/O error; no context is added
    | NoDirname(filename: string)   // "Failed to find a dirname of <filename>"

  /** Where an `unwrap` aborts the program. */
  datatype PanicSite =
    | CanonicalizeFailed  // Path::canonicalize returned Err
    | CanonicalNotUtf8    // the canonical path is not valid UTF-8

  datatype Outcome<+T> = Ok(value: T) | Err(error: Error) | Panic(site: PanicSite) {

    predicate IsFailure() {
      !Ok?
    }

    /** Carries an error or a panic unchanged into another value type. */
    function PropagateFailure<U>(): (r: Outcome<U>)
      requires !Ok?
      ensures Err? ==> r == Err(error)
      ensures Panic? ==> r == Panic(site)
    {
      if Err? then Err(error) else Panic(site)
    }

    function Extract(): T
      requires Ok?
    {
      value
    }
  }
}
