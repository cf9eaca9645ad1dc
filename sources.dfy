/** The plugin sources the generator reads: files on disk and the top-level
    statements that `ast.parse` gives for them. */
module Sources {
  import opened Values

  /** A regular file's contents as the generator sees them when it reads it. */
  datatype SourceFile =
    | Undecodable                 // reading raises UnicodeDecodeError
    | Unparsable                  // ast.parse raises SyntaxError
    | Parsed(body: seq<Stmt>)     // the module's top-level statements

  /** A target of an assignment. Only a plain name carries an `id`; attribute,
      subscript, tuple, list and starred targets do not. */
  datatype Target = Name(id: string) | Unnamed

  /** The right-hand side of an assignment, as `ast.literal_eval` judges it:
      either a literal denoting a value, or an expression it refuses (a call,
      a name reference, an operator on non-numbers). */
  datatype Expr = Literal(v: Value) | NonLiteral

  /** A top-level statement of a parsed module. */
  datatype Stmt =
    | Assign(targets: seq<Target>, value: Expr)     // `a = b = expr`
    | AnnAssign(annTarget: Target)                  // `a: T = expr`
    | AugAssign(augTarget: Target)                  // `a += expr`
    | OtherStmt                                     // import, def, class, if, ...

  /** Regular files by path; `os.path.exists(p)` holds for a file exactly when
      `p` is a key. */
  type FileSystem = map<string, SourceFile>
}
