/** `Shape` and `_cast_tuple` (legate/core/solver.py:154-232): immutable integer tuples with
    componentwise arithmetic, where an int operand stands for that int in every dimension. */
module SolverShape {
  import opened Errors

  /** `Shape(shape)`: the tuple of its extents; `ndim` is its length. */
  datatype Shape = Shape(dims: seq<int>)

  /** The right operand of a shape operator, by its Python type. */
  datatype Operand =
    | ShapeOperand(shape: Shape)
    | TupleOperand(elems: seq<int>)
    | IntOperand(n: int)
    | OtherOperand(typeName: string)

  // ----- _cast_tuple -----

  /** `_cast_tuple(value, ndim)`: a shape or a tuple as it is, an int repeated `ndim` times;
      any other type raises. */
  function CastTuple(value: Operand, ndim: nat): (r: Result<seq<int>>)
    ensures r.Err? <==> value.OtherOperand?
    ensures r.Err? ==> r.error == ValueError("Cannot cast " + value.typeName + " to tuple")
    ensures value.ShapeOperand? ==> r == Ok(value.shape.dims)
    ensures value.TupleOperand? ==> r == Ok(value.elems)
    ensures value.IntOperand? ==> |r.value| == ndim && forall i :: 0 <= i < ndim ==> r.value[i] == value.n
  {
    match value
    case ShapeOperand(s) => Ok(s.dims)
    case TupleOperand(t) => Ok(t)
    case IntOperand(n) => Ok(seq(ndim, _ => n))
    case OtherOperand(name) => Err(ValueError("Cannot cast " + name + " to tuple"))
  }

  // ----- Python's integer division -----

  /** Python's `a // b`: the quotient rounded toward negative infinity. Dafny's `/` rounds so
      that the remainder is never negative, which differs when `b < 0`. */
  function FloorDiv(a: int, b: int): int
    requires b != 0
  {
    if b > 0 || a % b == 0 then a / b else a / b - 1
  }

  /** Python's `a % b`: the remainder takes the sign of the divisor. */
  function FloorMod(a: int, b: int): int
    requires b != 0
  {
    if b > 0 || a % b == 0 then a % b else a % b + b
  }

  /** The remainder lies between zero and the divisor, on the divisor's side. */
  ghost predicate FloorRemainder(r: int, b: int)
  {
    (b > 0 ==> 0 <= r < b) && (b < 0 ==> b < r <= 0)
  }

  /** `(a // b) * b + a % b == a`, with the remainder on the divisor's side of zero. */
  lemma FloorDivMod(a: int, b: int)
    requires b != 0
    ensures FloorDiv(a, b) * b + FloorMod(a, b) == a
    ensures FloorRemainder(FloorMod(a, b), b)
  {
    var q, r := a / b, a % b;
    assert q * b + r == a;
    if b < 0 && r != 0 {
      assert (q - 1) * b + (r + b) == q * b + r;
    }
  }

  /** Only one quotient and remainder satisfy `FloorDivMod`: `//` and `%` are the floor
      division of Python and nothing else. */
  lemma FloorDivUnique(a: int, b: int, q: int, r: int)
    requires b != 0 && q * b + r == a && FloorRemainder(r, b)
    ensures q == FloorDiv(a, b) && r == FloorMod(a, b)
  {
    FloorDivMod(a, b);
    var q', r' := FloorDiv(a, b), FloorMod(a, b);
    assert (q - q') * b == r' - r;
    if q > q' {
      MulMonotone(q - q', b);
    } else if q < q' {
      MulMonotone(q' - q, b);
    }
  }

  /** A nonzero multiple of `b` is at least `b` away from zero. */
  lemma MulMonotone(k: int, b: int)
    requires k >= 1 && b != 0
    ensures b > 0 ==> k * b >= b
    ensures b < 0 ==> k * b <= b
  {
    assert k * b == (k - 1) * b + b;
    if b > 0 {
      assert (k - 1) * b >= 0;
    } else {
      assert (k - 1) * b <= 0;
    }
  }

  // ----- componentwise arithmetic -----

  datatype ArithOp = Add | Sub | Mul | Mod | FloorDivide

  /** One component of `a <op> b`; `%` and `//` by zero raise. */
  function Apply(op: ArithOp, a: int, b: int): Result<int>
  {
    match op
    case Add => Ok(a + b)
    case Sub => Ok(a - b)
    case Mul => Ok(a * b)
    case Mod => if b == 0 then Err(ZeroDivisionError) else Ok(FloorMod(a, b))
    case FloorDivide => if b == 0 then Err(ZeroDivisionError) else Ok(FloorDiv(a, b))
  }

  function Min(a: nat, b: nat): nat
  {
    if a <= b then a else b
  }

  /** `tuple(a <op> b for (a, b) in zip(lh, rh))`: stops at the shorter tuple, and raises at the
      first pair that raises. */
  function Zip(op: ArithOp, lh: seq<int>, rh: seq<int>): (r: Result<seq<int>>)
    ensures r.Ok? ==> |r.value| == Min(|lh|, |rh|)
                      && forall i :: 0 <= i < |r.value| ==> Apply(op, lh[i], rh[i]) == Ok(r.value[i])
    ensures r.Err? <==> exists i :: 0 <= i < Min(|lh|, |rh|) && Apply(op, lh[i], rh[i]).Err?
    ensures r.Err? ==> r.error == ZeroDivisionError
    decreases |lh|
  {
    if lh == [] || rh == [] then Ok([])
    else match Apply(op, lh[0], rh[0])
      case Err(e) => Err(e)
      case Ok(x) =>
        match Zip(op, lh[1..], rh[1..])
        case Err(e) => Err(e)
        case Ok(xs) => Ok([x] + xs)
  }

  /** `Shape.__add__`, `__sub__`, `__mul__`, `__mod__` and `__floordiv__`: both sides cast to
      tuples of `self.ndim`, then combined pair by pair. */
  function Arith(op: ArithOp, s: Shape, other: Operand): Result<Shape>
  {
    match CastTuple(other, |s.dims|)
    case Err(e) => Err(e)
    case Ok(rh) =>
      match Zip(op, s.dims, rh)
      case Err(e) => Err(e)
      case Ok(t) => Ok(Shape(t))
  }

  /** The operand as the tuple it is cast to, against a shape of `ndim` dimensions. */
  function Tuple(other: Operand, ndim: nat): seq<int>
    requires !other.OtherOperand?
  {
    CastTuple(other, ndim).value
  }

  /** No divisor among the first `n` components is zero. */
  ghost predicate NonZero(t: seq<int>, n: nat)
  {
    forall i :: 0 <= i < n && i < |t| ==> t[i] != 0
  }

  /** The operators are componentwise: an operand of another type raises `ValueError`, a
      division by a zero component raises `ZeroDivisionError`, and otherwise the result is as
      long as the shorter side and holds each pair's result. */
  lemma ArithComponentwise(op: ArithOp, s: Shape, other: Operand)
    ensures other.OtherOperand? ==> Arith(op, s, other) == Err(ValueError("Cannot cast " + other.typeName + " to tuple"))
    ensures !other.OtherOperand? ==>
              var rh := Tuple(other, |s.dims|);
              (Arith(op, s, other).Err? <==> (op == Mod || op == FloorDivide) && !NonZero(rh, |s.dims|))
              && (Arith(op, s, other).Err? ==> Arith(op, s, other).error == ZeroDivisionError)
              && (Arith(op, s, other).Ok? ==>
                    |Arith(op, s, other).value.dims| == Min(|s.dims|, |rh|)
                    && forall i :: 0 <= i < Min(|s.dims|, |rh|) ==>
                         Apply(op, s.dims[i], rh[i]) == Ok(Arith(op, s, other).value.dims[i]))
  {
    if !other.OtherOperand? {
      var rh := Tuple(other, |s.dims|);
      if (op == Mod || op == FloorDivide) && !NonZero(rh, |s.dims|) {
        var i :| 0 <= i < |s.dims| && i < |rh| && rh[i] == 0;
        assert Apply(op, s.dims[i], rh[i]).Err?;
      }
    }
  }

  /** An int operand is broadcast: the result keeps `ndim` and combines each extent with it. */
  lemma ArithBroadcast(op: ArithOp, s: Shape, n: int)
    requires (op == Mod || op == FloorDivide) ==> n != 0
    ensures Arith(op, s, IntOperand(n)).Ok?
    ensures |Arith(op, s, IntOperand(n)).value.dims| == |s.dims|
    ensures forall i :: 0 <= i < |s.dims| ==> Apply(op, s.dims[i], n) == Ok(Arith(op, s, IntOperand(n)).value.dims[i])
  {
    ArithComponentwise(op, s, IntOperand(n));
  }

  /** A tuple of another length truncates the result to the shorter length. */
  lemma ArithTruncates(op: ArithOp, s: Shape, t: seq<int>)
    requires op == Add || op == Sub || op == Mul
    ensures Arith(op, s, TupleOperand(t)).Ok? && |Arith(op, s, TupleOperand(t)).value.dims| == Min(|s.dims|, |t|)
  {
    ArithComponentwise(op, s, TupleOperand(t));
  }

  /** Subtracting what was added gives the shape back, for an int operand or one at least as
      long as the shape. */
  lemma AddSubInverse(s: Shape, other: Operand)
    requires !other.OtherOperand? && |Tuple(other, |s.dims|)| >= |s.dims|
    ensures Arith(Add, s, other).Ok?
    ensures Arith(Sub, Arith(Add, s, other).value, other) == Ok(s)
  {
    var rh := Tuple(other, |s.dims|);
    ArithComponentwise(Add, s, other);
    var sum := Arith(Add, s, other).value;
    assert CastTuple(other, |sum.dims|) == CastTuple(other, |s.dims|);
    ArithComponentwise(Sub, sum, other);
    var back := Arith(Sub, sum, other).value;
    assert back.dims == s.dims;
  }

  /** `(s // t) * t + s % t == s` for nonzero divisors at least as long as the shape. */
  lemma DivModShape(s: Shape, other: Operand)
    requires !other.OtherOperand? && |Tuple(other, |s.dims|)| >= |s.dims| && NonZero(Tuple(other, |s.dims|), |s.dims|)
    ensures Arith(FloorDivide, s, other).Ok? && Arith(Mod, s, other).Ok?
    ensures Arith(Mul, Arith(FloorDivide, s, other).value, other).Ok?
    ensures Arith(Add, Arith(Mul, Arith(FloorDivide, s, other).value, other).value,
                  ShapeOperand(Arith(Mod, s, other).value)) == Ok(s)
  {
    var n := |s.dims|;
    var rh := Tuple(other, n);
    ArithComponentwise(FloorDivide, s, other);
    ArithComponentwise(Mod, s, other);
    var q := Arith(FloorDivide, s, other).value;
    var m := Arith(Mod, s, other).value;
    assert CastTuple(other, |q.dims|) == CastTuple(other, n);
    ArithComponentwise(Mul, q, other);
    var p := Arith(Mul, q, other).value;
    ArithComponentwise(Add, p, ShapeOperand(m));
    assert |q.dims| == |m.dims| == |p.dims| == n;
    var back := Arith(Add, p, ShapeOperand(m)).value;
    forall i | 0 <= i < n ensures back.dims[i] == s.dims[i] {
      FloorDivMod(s.dims[i], rh[i]);
      assert q.dims[i] == FloorDiv(s.dims[i], rh[i]) && m.dims[i] == FloorMod(s.dims[i], rh[i]);
      assert p.dims[i] == q.dims[i] * rh[i];
    }
    assert back.dims == s.dims;
  }

  // ----- comparison -----

  /** Python's tuple `<=`: the first differing position decides, and a prefix is smaller. */
  function LexLe(a: seq<int>, b: seq<int>): bool
    decreases |a|
  {
    if a == [] then true
    else if b == [] then false
    else if a[0] != b[0] then a[0] < b[0]
    else LexLe(a[1..], b[1..])
  }

  /** `Shape.__le__`: only tuples of equal length compare, and then lexicographically. */
  function Le(s: Shape, other: Operand): Result<bool>
  {
    match CastTuple(other, |s.dims|)
    case Err(e) => Err(e)
    case Ok(rh) => Ok(|s.dims| == |rh| && LexLe(s.dims, rh))
  }

  /** `Shape.__eq__`: the two tuples are equal. */
  function Eq(s: Shape, other: Operand): Result<bool>
  {
    match CastTuple(other, |s.dims|)
    case Err(e) => Err(e)
    case Ok(rh) => Ok(s.dims == rh)
  }

  /** `a` comes first at position `k`: equal before it, smaller at it. */
  ghost predicate FirstLess(a: seq<int>, b: seq<int>, k: nat)
  {
    k < |a| && k < |b| && a[..k] == b[..k] && a[k] < b[k]
  }

  /** Lexicographic order between equal-length tuples: equal, or smaller at the first
      difference. */
  lemma {:induction false} LexLeIff(a: seq<int>, b: seq<int>)
    requires |a| == |b|
    ensures LexLe(a, b) <==> a == b || exists k: nat :: FirstLess(a, b, k)
  {
    if a != [] {
      LexLeIff(a[1..], b[1..]);
      if a[0] == b[0] {
        if exists k: nat :: FirstLess(a[1..], b[1..], k) {
          var k: nat :| FirstLess(a[1..], b[1..], k);
          assert a[..k + 1] == [a[0]] + a[1..][..k];
          assert b[..k + 1] == [b[0]] + b[1..][..k];
          assert FirstLess(a, b, k + 1);
        }
        if exists k: nat :: FirstLess(a, b, k) {
          var k: nat :| FirstLess(a, b, k);
          assert k > 0;
          assert a[1..][..k - 1] == a[..k][1..];
          assert b[1..][..k - 1] == b[..k][1..];
          assert FirstLess(a[1..], b[1..], k - 1);
        }
        if a[1..] == b[1..] {
          assert a == [a[0]] + a[1..] && b == [b[0]] + b[1..];
        }
      } else if a[0] < b[0] {
        assert FirstLess(a, b, 0);
      } else {
        forall k: nat | FirstLess(a, b, k) ensures false {
        }
      }
    }
  }

  /** `s <= other` holds exactly for an equal-length operand that is equal or smaller at its
      first difference; an operand of another type raises. */
  lemma LeIff(s: Shape, other: Operand)
    ensures other.OtherOperand? ==> Le(s, other).Err?
    ensures !other.OtherOperand? ==>
              var rh := Tuple(other, |s.dims|);
              Le(s, other) == Ok(|s.dims| == |rh| && (s.dims == rh || exists k: nat :: FirstLess(s.dims, rh, k)))
  {
    if !other.OtherOperand? {
      var rh := Tuple(other, |s.dims|);
      if |s.dims| == |rh| {
        LexLeIff(s.dims, rh);
      }
    }
  }

  /** `<=` is not the componentwise order: (1, 5) <= (2, 0) although 5 > 0, and (1, 0) <= (1,)
      fails on length alone. */
  lemma LeNotComponentwise()
    ensures Le(Shape([1, 5]), TupleOperand([2, 0])) == Ok(true)
    ensures Le(Shape([1, 0]), TupleOperand([1])) == Ok(false)
  {
  }

  /** Lexicographic order is reflexive, antisymmetric, transitive and total. */
  lemma {:induction false} LexLeReflexive(a: seq<int>)
    ensures LexLe(a, a)
  {
    if a != [] {
      LexLeReflexive(a[1..]);
    }
  }

  lemma {:induction false} LexLeAntisymmetric(a: seq<int>, b: seq<int>)
    requires LexLe(a, b) && LexLe(b, a) && |a| == |b|
    ensures a == b
  {
    if a != [] {
      LexLeAntisymmetric(a[1..], b[1..]);
      assert a == [a[0]] + a[1..] && b == [b[0]] + b[1..];
    }
  }

  lemma {:induction false} LexLeTransitive(a: seq<int>, b: seq<int>, c: seq<int>)
    requires LexLe(a, b) && LexLe(b, c)
    ensures LexLe(a, c)
  {
    if a != [] && b != [] && c != [] && a[0] == b[0] && b[0] == c[0] {
      LexLeTransitive(a[1..], b[1..], c[1..]);
    }
  }

  lemma {:induction false} LexLeTotal(a: seq<int>, b: seq<int>)
    ensures LexLe(a, b) || LexLe(b, a)
  {
    if a != [] && b != [] && a[0] == b[0] {
      LexLeTotal(a[1..], b[1..]);
    }
  }

  /** Between shapes of one `ndim`, `<=` is a total order whose both directions give `==`. */
  lemma ShapeOrder(s: Shape, t: Shape, u: Shape)
    requires |s.dims| == |t.dims| == |u.dims|
    ensures Le(s, ShapeOperand(s)) == Ok(true)
    ensures Le(s, ShapeOperand(t)) == Ok(true) || Le(t, ShapeOperand(s)) == Ok(true)
    ensures Le(s, ShapeOperand(t)) == Ok(true) && Le(t, ShapeOperand(s)) == Ok(true) ==> Eq(s, ShapeOperand(t)) == Ok(true)
    ensures Le(s, ShapeOperand(t)) == Ok(true) && Le(t, ShapeOperand(u)) == Ok(true) ==> Le(s, ShapeOperand(u)) == Ok(true)
  {
    LexLeReflexive(s.dims);
    LexLeTotal(s.dims, t.dims);
    if LexLe(s.dims, t.dims) && LexLe(t.dims, s.dims) {
      LexLeAntisymmetric(s.dims, t.dims);
    }
    if LexLe(s.dims, t.dims) && LexLe(t.dims, u.dims) {
      LexLeTransitive(s.dims, t.dims, u.dims);
    }
  }

  /** `s == n` for an int compares every extent with `n`. */
  lemma EqBroadcast(s: Shape, n: int)
    ensures Eq(s, IntOperand(n)) == Ok(forall i :: 0 <= i < |s.dims| ==> s.dims[i] == n)
  {
    var rh := Tuple(IntOperand(n), |s.dims|);
    if forall i :: 0 <= i < |s.dims| ==> s.dims[i] == n {
      assert s.dims == rh;
    }
  }

  // ----- drop, update, insert -----

  /** Python's normalisation of a slice bound `k` against a tuple of length `n`: a negative
      bound counts from the end, and both ends are clamped. */
  function SliceBound(k: int, n: nat): (r: nat)
    ensures r <= n
    ensures 0 <= k <= n ==> r == k
  {
    if k < 0 then (if n + k < 0 then 0 else n + k)
    else if k > n then n
    else k
  }

  /** `t[:k]` */
  function Take(t: seq<int>, k: int): seq<int>
  {
    t[..SliceBound(k, |t|)]
  }

  /** `t[k:]` */
  function Skip(t: seq<int>, k: int): seq<int>
  {
    t[SliceBound(k, |t|)..]
  }

  /** `Shape.drop(dim)`: the extents before `dim` followed by those after it. */
  function Drop(s: Shape, dim: int): Shape
  {
    Shape(Take(s.dims, dim) + Skip(s.dims, dim + 1))
  }

  /** `Shape.update(dim, new_value)` */
  function Update(s: Shape, dim: int, v: int): Shape
  {
    Shape(Take(s.dims, dim) + [v] + Skip(s.dims, dim + 1))
  }

  /** `Shape.insert(dim, new_value)` */
  function Insert(s: Shape, dim: int, v: int): Shape
  {
    Shape(Take(s.dims, dim) + [v] + Skip(s.dims, dim))
  }

  /** For a dimension in range, `drop` removes exactly that extent and keeps the others in
      order. */
  lemma DropSpec(s: Shape, d: int)
    requires 0 <= d < |s.dims|
    ensures |Drop(s, d).dims| == |s.dims| - 1
    ensures forall i :: 0 <= i < d ==> Drop(s, d).dims[i] == s.dims[i]
    ensures forall i :: d <= i < |s.dims| - 1 ==> Drop(s, d).dims[i] == s.dims[i + 1]
  {
  }

  /** For a dimension in range, `update` replaces exactly that extent. */
  lemma UpdateSpec(s: Shape, d: int, v: int)
    requires 0 <= d < |s.dims|
    ensures Update(s, d, v).dims == s.dims[d := v]
  {
    assert Update(s, d, v).dims == s.dims[..d] + [v] + s.dims[d + 1..];
  }

  /** For a position in range, `insert` puts `v` there and shifts the later extents by one. */
  lemma InsertSpec(s: Shape, d: int, v: int)
    requires 0 <= d <= |s.dims|
    ensures |Insert(s, d, v).dims| == |s.dims| + 1 && Insert(s, d, v).dims[d] == v
    ensures forall i :: 0 <= i < d ==> Insert(s, d, v).dims[i] == s.dims[i]
    ensures forall i :: d <= i < |s.dims| ==> Insert(s, d, v).dims[i + 1] == s.dims[i]
  {
  }

  /** Dropping what was inserted gives the shape back. */
  lemma DropInsert(s: Shape, d: int, v: int)
    requires 0 <= d <= |s.dims|
    ensures Drop(Insert(s, d, v), d) == s
  {
    var t := Insert(s, d, v).dims;
    assert t == s.dims[..d] + [v] + s.dims[d..];
    assert t[..d] == s.dims[..d];
    assert t[d + 1..] == s.dims[d..];
    assert s.dims[..d] + s.dims[d..] == s.dims;
  }

  /** Inserting the dropped extent where it was gives the shape back. */
  lemma InsertDrop(s: Shape, d: int)
    requires 0 <= d < |s.dims|
    ensures Insert(Drop(s, d), d, s.dims[d]) == s
  {
    var t := Drop(s, d).dims;
    assert t == s.dims[..d] + s.dims[d + 1..];
    assert t[..d] == s.dims[..d];
    assert t[d..] == s.dims[d + 1..];
    assert s.dims[..d] + [s.dims[d]] + s.dims[d + 1..] == s.dims;
  }
}
