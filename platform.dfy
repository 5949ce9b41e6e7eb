/** The world outside the builder: the file system, path handling and the swc
    parser and emitter. Each is a total function that may report failure;
    being a function, each gives the same answer for the same argument
    throughout one build, so the file system is taken not to change while
    the graph is built. Nothing else is fixed about them. */
module Platform {
  import opened Outcomes
  import opened EcmaAst

  /** An operating-system path, which need not be valid UTF-8. */
  type OsPath = seq<bv8>

  datatype Host = Host(
    /** Opens and reads a file to a string; None when opening or reading fails. */
    read: string -> Option<string>,
    /** swc's module parser; None on a syntax error. */
    parse: string -> Option<Module>,
    /** The CommonJS transform and code emitter; None when emitting fails. */
    emit: Module -> Option<string>,
    /** `Path::canonicalize`; None when the path cannot be resolved. */
    canonicalize: string -> Option<OsPath>,
    /** `Path::parent`; None for a root or empty path. */
    parent: string -> Option<OsPath>,
    /** `Path::join`, which cannot fail. */
    join: (OsPath, string) -> OsPath,
    /** `Path::to_str`; None when the path is not valid UTF-8. */
    toStr: OsPath -> Option<string>)
}
