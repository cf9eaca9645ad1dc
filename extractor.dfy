/** The metadata extractor (`parse_blinfo`): finds the first top-level
    `bl_info = <literal>` of a plugin source and literal-evaluates it, never
    running the plugin's code. */
module Extractor {
  import opened Values
  import opened Sources

  const BL_INFO := "bl_info"

  /** `getattr(target, 'id', '')`. */
  function TargetId(t: Target): string
  {
    match t
    case Name(id) => id
    case Unnamed => ""
  }

  /** The three tests of the scan: a plain assignment (not annotated, not
      augmented), with exactly one target, whose `id` is `bl_info`. */
  predicate IsBlInfoAssign(s: Stmt)
  {
    s.Assign? && |s.targets| == 1 && TargetId(s.targets[0]) == BL_INFO
  }

  /** The position of the first `bl_info` assignment among the statements. */
  function FirstBlInfo(body: seq<Stmt>): (r: Option<nat>)
    ensures r.Some? ==> r.value < |body| && IsBlInfoAssign(body[r.value])
    ensures r.Some? ==> forall j :: 0 <= j < r.value ==> !IsBlInfoAssign(body[j])
    ensures r.None? <==> forall j :: 0 <= j < |body| ==> !IsBlInfoAssign(body[j])
  {
    if body == [] then None
    else if IsBlInfoAssign(body[0]) then Some(0)
    else
      match FirstBlInfo(body[1..])
      case None => None
      case Some(i) => Some(i + 1)
  }

  /** `ast.literal_eval`, which raises ValueError on anything but a literal. */
  function LiteralEval(e: Expr, path: string): (r: Result<Value>)
    ensures r.Ok? <==> e.Literal?
    ensures e.Literal? ==> r == Ok(e.v)
  {
    match e
    case Literal(v) => Ok(v)
    case NonLiteral => Err(LiteralEvalFailed(path))
  }

  /** What `parse_blinfo(fname)` returns, or the exception it raises. Python's
      `None` (not found, undecodable, unparsable) is `VNone`. */
  function BlInfoOf(fs: FileSystem, fname: string): (r: Result<Value>)
    // Only open() and literal_eval raise; decoding and syntax errors are soft.
    ensures r.Err? <==> fname !in fs || (fs[fname].Parsed? && FirstBlInfo(fs[fname].body).Some?
                                         && fs[fname].body[FirstBlInfo(fs[fname].body).value].value.NonLiteral?)
    // A value other than None was written literally as `bl_info = <value>` in the file.
    ensures r.Ok? && r.value != VNone ==>
      fs[fname].Parsed? && exists i :: 0 <= i < |fs[fname].body| && fs[fname].body[i] == Assign([Name(BL_INFO)], Literal(r.value))
  {
    if fname !in fs then Err(OpenFailed(fname))
    else
      match fs[fname]
      case Undecodable => Ok(VNone)
      case Unparsable => Ok(VNone)
      case Parsed(body) =>
        match FirstBlInfo(body)
        case None => Ok(VNone)
        case Some(i) => LiteralEval(body[i].value, fname)
  }

  /** `parse_blinfo`: the loop over `tree.body` with its early return. */
  method ParseBlInfo(fs: FileSystem, fname: string) returns (r: Result<Value>)
    ensures r == BlInfoOf(fs, fname)
  {
    if fname !in fs {
      return Err(OpenFailed(fname));
    }
    match fs[fname]
    case Undecodable =>
      return Ok(VNone);
    case Unparsable =>
      return Ok(VNone);
    case Parsed(body) =>
      for i := 0 to |body|
        invariant forall j :: 0 <= j < i ==> !IsBlInfoAssign(body[j])
      {
        var stmt := body[i];
        if !stmt.Assign? {
          continue;
        }
        if |stmt.targets| != 1 {
          continue;
        }
        if TargetId(stmt.targets[0]) != BL_INFO {
          continue;
        }
        return LiteralEval(stmt.value, fname);
      }
      return Ok(VNone);
  }

  /** The first matching statement decides: its value is returned (or its
      evaluation raises), whatever follows it. */
  lemma FirstMatchDecides(fs: FileSystem, fname: string, body: seq<Stmt>, i: nat, rest: seq<Stmt>)
    requires fname in fs && fs[fname] == Parsed(body + rest)
    requires i < |body| && IsBlInfoAssign(body[i])
    requires forall j :: 0 <= j < i ==> !IsBlInfoAssign(body[j])
    ensures BlInfoOf(fs, fname) == LiteralEval(body[i].value, fname)
  {
    var all := body + rest;
    assert all[i] == body[i];
    assert forall j :: 0 <= j < i ==> all[j] == body[j];
  }

  /** Annotated and augmented assignments to `bl_info`, multiple targets, and
      targets without an `id` never count as the declaration. */
  lemma OnlyPlainSingleAssignCounts(t: Target, ts: seq<Target>, e: Expr)
    ensures !IsBlInfoAssign(AnnAssign(Name(BL_INFO)))
    ensures !IsBlInfoAssign(AugAssign(Name(BL_INFO)))
    ensures |ts| != 1 ==> !IsBlInfoAssign(Assign(ts, e))
    ensures !IsBlInfoAssign(Assign([Unnamed], e))
    ensures IsBlInfoAssign(Assign([t], e)) <==> t == Name(BL_INFO)
  {
  }

  /** A source without a `bl_info` assignment, and a source that declares
      `bl_info = None`, give the same result: Python's None. */
  lemma NoneDeclarationIsNotFound(fname: string, body: seq<Stmt>)
    requires forall j :: 0 <= j < |body| ==> !IsBlInfoAssign(body[j])
    ensures BlInfoOf(map[fname := Parsed(body)], fname) == Ok(VNone)
    ensures BlInfoOf(map[fname := Parsed([Assign([Name(BL_INFO)], Literal(VNone))] + body)], fname) == Ok(VNone)
  {
  }
}
