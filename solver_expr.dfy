/** The constraint expressions of the partitioning solver (legate/core/solver.py:19-151): a
    dimension variable, an offset from an expression, or a tile; and the `==` / `>=`
    constraints between two expressions. */
module SolverExpr {
  import opened Errors

  /** What identifies a dimension variable: its index and the extents of its shape. */
  datatype DimKey = DimKey(index: int, shape: seq<int>)

  datatype Expr =
    | Offset(expr: Expr, offset: int)
    | Tile(tileSize: seq<int>, offset: int)
    | Dimension(index: int, shape: seq<int>)

  /** A substitution from dimension variables to expressions. */
  type Subst = map<DimKey, Expr>

  /** A value for every dimension variable. */
  type Env = DimKey -> int

  datatype Constraint =
    | Match(lhs: Expr, rhs: Expr)
    | Subsume(lhs: Expr, rhs: Expr)

  // ----- reference semantics -----

  /** The dimension variables an expression mentions. */
  function Vars(e: Expr): set<DimKey>
  {
    match e
    case Offset(x, _) => Vars(x)
    case Tile(_, _) => {}
    case Dimension(i, sh) => {DimKey(i, sh)}
  }

  /** The coordinate an expression denotes once every variable has a value: a variable plus
      its offsets. A tile denotes a block, not a single coordinate, and has no value here. */
  function Eval(e: Expr, env: Env): Option<int>
  {
    match e
    case Offset(x, off) =>
      (match Eval(x, env)
       case Some(v) => Some(v + off)
       case None => None)
    case Tile(_, _) => None
    case Dimension(i, sh) => Some(env(DimKey(i, sh)))
  }

  /** The tile at the bottom of a chain of offsets, or the variable. */
  function Base(e: Expr): (r: Expr)
    ensures !r.Offset?
    ensures r.Tile? <==> Closed(e)
  {
    if e.Offset? then Base(e.expr) else e
  }

  // ----- closed, collapse, find_term, invert -----

  /** `closed`: a tile is closed, a dimension is not, and an offset is as closed as the
      expression it shifts. */
  function Closed(e: Expr): bool
  {
    match e
    case Offset(x, _) => Closed(x)
    case Tile(_, _) => true
    case Dimension(_, _) => false
  }

  /** An expression is closed exactly when it mentions no variable, which is exactly when it
      denotes no single coordinate. */
  lemma {:induction false} ClosedIff(e: Expr)
    ensures Closed(e) <==> Vars(e) == {}
    ensures !Closed(e) ==> Vars(e) == {DimKey(Base(e).index, Base(e).shape)}
    ensures forall env :: Closed(e) <==> Eval(e, env).None?
  {
    if e.Offset? {
      ClosedIff(e.expr);
    }
  }

  /** `collapse`: an offset over something that collapses to a tile becomes that tile's size
      with the outer offset; a tile stays as it is; a dimension raises. */
  function Collapse(e: Expr): Result<Expr>
  {
    match e
    case Offset(x, off) =>
      (match Collapse(x)
       case Err(err) => Err(err)
       case Ok(y) => if y.Tile? then Ok(Tile(y.tileSize, off)) else Ok(Offset(y, off)))
    case Tile(_, _) => Ok(e)
    case Dimension(_, _) => Err(RuntimeError("Dimension variable cannot be collapsed"))
  }

  /** `collapse` succeeds exactly on closed expressions, and then yields the innermost tile's
      size with the outermost offset: every inner offset, the tile's own included, is
      discarded. */
  lemma {:induction false} CollapseSpec(e: Expr)
    ensures Collapse(e).Ok? <==> Closed(e)
    ensures Collapse(e).Err? ==> Collapse(e).error == RuntimeError("Dimension variable cannot be collapsed")
    ensures Collapse(e).Ok? ==> Collapse(e).value == Tile(Base(e).tileSize, e.offset)
  {
    if e.Offset? {
      CollapseSpec(e.expr);
    }
  }

  /** `find_term`: descend through offsets to the dimension; a tile raises. */
  function FindTerm(e: Expr): Result<Expr>
  {
    match e
    case Offset(x, _) => FindTerm(x)
    case Tile(_, _) => Err(RuntimeError("Invalid call"))
    case Dimension(_, _) => Ok(e)
  }

  /** `find_term` finds the one variable of an open expression and raises on a closed one. */
  lemma {:induction false} FindTermSpec(e: Expr)
    ensures FindTerm(e).Ok? <==> !Closed(e)
    ensures FindTerm(e).Err? ==> FindTerm(e).error == RuntimeError("Invalid call")
    ensures FindTerm(e).Ok? ==>
              FindTerm(e).value.Dimension? && Vars(e) == {DimKey(FindTerm(e).value.index, FindTerm(e).value.shape)}
  {
    if e.Offset? {
      FindTermSpec(e.expr);
    }
  }

  /** `invert(rhs)`: move one offset to the other side of `e == rhs`; the expression under an
      offset must not be closed, and a tile cannot be inverted. */
  function Invert(e: Expr, rhs: Expr): Result<(Expr, Expr)>
  {
    match e
    case Offset(x, off) => if Closed(x) then Err(AssertionError) else Ok((x, Offset(rhs, -off)))
    case Tile(_, _) => Err(RuntimeError("Invalid inversion"))
    case Dimension(_, _) => Ok((e, rhs))
  }

  /** Inversion succeeds exactly on open expressions and keeps the equation's meaning: under
      every assignment, `e == rhs` holds exactly when the inverted equation does. It keeps the
      variable `find_term` finds. */
  lemma InvertSound(e: Expr, rhs: Expr)
    ensures Invert(e, rhs).Ok? <==> !Closed(e)
    ensures Invert(e, rhs).Err? ==>
              Invert(e, rhs).error == (if e.Tile? then RuntimeError("Invalid inversion") else AssertionError)
    ensures Invert(e, rhs).Ok? ==>
              var (l, r) := Invert(e, rhs).value;
              FindTerm(l) == FindTerm(e)
              && forall env :: Eval(e, env) == Eval(rhs, env) <==> Eval(l, env) == Eval(r, env)
  {
    if Invert(e, rhs).Ok? && e.Offset? {
      var (l, r) := Invert(e, rhs).value;
      forall env ensures Eval(e, env) == Eval(rhs, env) <==> Eval(l, env) == Eval(r, env) {
        ClosedIff(l);
        match Eval(rhs, env)
        case None =>
        case Some(v) => assert Eval(r, env) == Some(v - e.offset);
      }
    }
  }

  // ----- substitute -----

  /** `substitute(subst)`, a variable looked up by its index and shape: the variable is
      replaced when the substitution has it, tiles are kept, offsets are rebuilt around the
      substituted expression. */
  function Substitute(e: Expr, subst: Subst): Expr
  {
    match e
    case Offset(x, off) => Offset(Substitute(x, subst), off)
    case Tile(_, _) => e
    case Dimension(i, sh) => if DimKey(i, sh) in subst then subst[DimKey(i, sh)] else e
  }

  /** The assignment that gives each substituted variable the value of its replacement. */
  function Compose(subst: Subst, env: Env): Env
  {
    k => if k in subst && Eval(subst[k], env).Some? then Eval(subst[k], env).value else env(k)
  }

  /** Substitution means what it says: with every replacement open, the substituted
      expression evaluates as the original does with each replaced variable given its
      replacement's value. */
  lemma {:induction false} SubstituteSound(e: Expr, subst: Subst, env: Env)
    requires forall k :: k in subst ==> !Closed(subst[k])
    ensures Eval(Substitute(e, subst), env) == Eval(e, Compose(subst, env))
  {
    match e
    case Offset(x, _) => SubstituteSound(x, subst, env);
    case Tile(_, _) =>
    case Dimension(i, sh) =>
      var k := DimKey(i, sh);
      if k in subst {
        ClosedIff(subst[k]);
      }
  }

  /** A closed expression, and every expression under the empty substitution, is left as it
      is. */
  lemma {:induction false} SubstituteKeeps(e: Expr, subst: Subst)
    ensures Closed(e) ==> Substitute(e, subst) == e
    ensures subst == map[] ==> Substitute(e, subst) == e
  {
    if e.Offset? {
      SubstituteKeeps(e.expr, subst);
    }
  }

  /** A substitution that replaces the variable of an open expression by a closed one closes
      it. */
  lemma {:induction false} SubstituteCloses(e: Expr, subst: Subst)
    requires !Closed(e) && DimKey(Base(e).index, Base(e).shape) in subst
    requires Closed(subst[DimKey(Base(e).index, Base(e).shape)])
    ensures Closed(Substitute(e, subst))
  {
    if e.Offset? {
      SubstituteCloses(e.expr, subst);
    }
  }

  /** `substitute` as written: testing `self in subst` hashes the dimension, and its hash
      formats `self.shape.name`, a field a tuple does not have, so every dimension reached
      raises `AttributeError`. */
  function SubstituteAsWritten(e: Expr, subst: Subst): Result<Expr>
  {
    match e
    case Offset(x, off) =>
      (match SubstituteAsWritten(x, subst)
       case Err(err) => Err(err)
       case Ok(y) => Ok(Offset(y, off)))
    case Tile(_, _) => Ok(e)
    case Dimension(_, _) => Err(AttributeError)
  }

  /** As written, `substitute` raises on every open expression, even for the empty
      substitution, and only closed expressions, which it leaves as they are, get through. */
  lemma {:induction false} SubstituteAsWrittenRaises(e: Expr, subst: Subst)
    ensures SubstituteAsWritten(e, subst).Err? <==> !Closed(e)
    ensures SubstituteAsWritten(e, subst).Err? ==> SubstituteAsWritten(e, subst).error == AttributeError
    ensures SubstituteAsWritten(e, subst).Ok? ==> SubstituteAsWritten(e, subst).value == e
  {
    if e.Offset? {
      SubstituteAsWrittenRaises(e.expr, subst);
    }
  }

  /** The smallest input that shows it: `d.substitute({})` for a dimension `d` raises, where
      the corrected `Substitute` returns `d`. */
  lemma SubstituteAsWrittenCounterexample()
    ensures SubstituteAsWritten(Dimension(0, [4]), map[]) == Err(AttributeError)
    ensures Substitute(Dimension(0, [4]), map[]) == Dimension(0, [4])
  {
  }

  // ----- constraints -----

  /** The operator a constraint prints with. */
  function OpOf(c: Constraint): string
  {
    if c.Match? then "==" else ">="
  }

  /** `Constraint.closed`: either side is closed. */
  function ConstraintClosed(c: Constraint): bool
  {
    Closed(c.lhs) || Closed(c.rhs)
  }

  /** `Constraint.substitute`: a constraint of the same kind over both sides substituted. */
  function ConstraintSubstitute(c: Constraint, subst: Subst): Constraint
  {
    match c
    case Match(l, r) => Match(Substitute(l, subst), Substitute(r, subst))
    case Subsume(l, r) => Subsume(Substitute(l, subst), Substitute(r, subst))
  }

  /** `Constraint.substitute` keeps the kind and the operator, keeps a closed constraint
      closed, and leaves its closed sides unchanged. */
  lemma ConstraintSubstituteSpec(c: Constraint, subst: Subst)
    ensures ConstraintSubstitute(c, subst).Match? == c.Match?
    ensures OpOf(ConstraintSubstitute(c, subst)) == OpOf(c)
    ensures Closed(c.lhs) ==> ConstraintSubstitute(c, subst).lhs == c.lhs
    ensures Closed(c.rhs) ==> ConstraintSubstitute(c, subst).rhs == c.rhs
    ensures ConstraintClosed(c) ==> ConstraintClosed(ConstraintSubstitute(c, subst))
  {
    SubstituteKeeps(c.lhs, subst);
    SubstituteKeeps(c.rhs, subst);
  }

  /** `Constraint.substitute` as written, left side first: it raises as soon as a side
      reaches a dimension. */
  function ConstraintSubstituteAsWritten(c: Constraint, subst: Subst): Result<Constraint>
  {
    match SubstituteAsWritten(c.lhs, subst)
    case Err(err) => Err(err)
    case Ok(l) =>
      match SubstituteAsWritten(c.rhs, subst)
      case Err(err) => Err(err)
      case Ok(r) => Ok(if c.Match? then Match(l, r) else Subsume(l, r))
  }

  /** As written, a constraint survives `substitute` only when both sides are closed. */
  lemma ConstraintSubstituteAsWrittenRaises(c: Constraint, subst: Subst)
    ensures ConstraintSubstituteAsWritten(c, subst).Ok? <==> Closed(c.lhs) && Closed(c.rhs)
    ensures ConstraintSubstituteAsWritten(c, subst).Ok? ==> ConstraintSubstituteAsWritten(c, subst).value == c
  {
    SubstituteAsWrittenRaises(c.lhs, subst);
    SubstituteAsWrittenRaises(c.rhs, subst);
  }
}
