/** The part of an ECMAScript module's syntax tree that dependency extraction
    looks at. The parser that produces it is external; statements and the
    non-import declarations are opaque here. */
module EcmaAst {
  import opened Outcomes


  /** A module declaration (section 16.2 of ECMA-262). Only `Import` carries the
      specifier the builder follows; re-exports also name a module, but the
      builder ignores them. */
  datatype ModuleDecl =
    | Import(src: string)
    | ExportDecl
    | ExportNamed(reexportSrc: Option<string>)
    | ExportDefaultDecl
    | ExportDefaultExpr
    | ExportAll(src: string)

  /** A top-level item of a module body. */
  datatype ModuleItem = Decl(decl: ModuleDecl) | Stmt(text: string) {
    predicate IsImport() {
      Decl? && decl.Import?
    }
  }

  datatype Module = Module(body: seq<ModuleItem>)
}
