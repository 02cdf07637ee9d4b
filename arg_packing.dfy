/** The task-argument block (legate/core/launcher.py:37-115): the argument objects a launcher
    records and how each `pack` appends itself to a `BufferBuilder`. The buffer is a stream of
    typed tokens; the byte encoding of each token belongs to the buffer builder. */
module ArgPacking {
  import opened Errors
  import opened LaunchTypes

  /** The value types `ScalarArg._serializers` knows. */
  datatype Prim = Bool | Int8 | Int16 | Int32 | Int64 | Uint8 | Uint16 | Uint32 | Uint64 | Float32 | Float64

  /** A Python scalar handed to a serializer; float payloads are opaque. */
  datatype Scalar = B(b: bool) | I(i: int) | F(bits: int)

  /** A lookup key of `_serializers`: a supported type, or any other type, by name. */
  datatype TypeKey = Known(p: Prim) | Other(name: string)

  /** The legate type given to `pack_dtype`; its encoding is opaque. */
  type DtypeCode = int

  /** One `pack_*` call of the buffer builder. */
  datatype Token = Val(p: Prim, v: Scalar) | DtypeTok(d: DtypeCode) | PointTok(pt: seq<int>)

  /** An affine accessor transform: an M x N matrix and M offsets. */
  datatype Transform = Transform(m: nat, n: nat, trans: seq<seq<int>>, offset: seq<int>)

  predicate WellFormed(t: Transform)
  {
    |t.trans| == t.m && |t.offset| == t.m && forall i :: 0 <= i < |t.trans| ==> |t.trans[i]| == t.n
  }

  type AffineTransform = t: Transform | WellFormed(t) witness Transform(0, 0, [], [])

  /** The argument objects. A scalar whose dtype is a tuple or list is an `ArrayArg`. The
      region-field argument keeps its requirement key; the launcher resolves it when packing. */
  datatype Arg =
    | ScalarArg(value: Scalar, dtype: TypeKey)
    | ArrayArg(values: seq<Scalar>, dtypes: seq<TypeKey>)
    | DtypeArg(code: DtypeCode)
    | PointArg(point: seq<int>, untyped: bool)
    | RegionFieldArg(dim: int, redop: Option<int>, key: RegionReq, fieldId: FieldId, transform: Option<AffineTransform>)

  function I32(x: int): Token { Val(Int32, I(x)) }
  function U32(x: int): Token { Val(Uint32, I(x)) }
  function I64(x: int): Token { Val(Int64, I(x)) }

  /** One serializer call per value. */
  function Each(p: Prim, vs: seq<Scalar>): (r: seq<Token>)
    ensures |r| == |vs| && forall i :: 0 <= i < |vs| ==> r[i] == Val(p, vs[i])
  {
    seq(|vs|, i requires 0 <= i < |vs| => Val(p, vs[i]))
  }

  function Int64s(xs: seq<int>): (r: seq<Token>)
    ensures |r| == |xs| && forall i :: 0 <= i < |xs| ==> r[i] == I64(xs[i])
  {
    seq(|xs|, i requires 0 <= i < |xs| => I64(xs[i]))
  }

  /** The matrix entries in row-major order. */
  function Flatten(rows: seq<seq<int>>): seq<int>
  {
    if rows == [] then [] else rows[0] + Flatten(rows[1..])
  }

  /** The tail of a region-field argument: M, N, the matrix and the offsets, or -1. */
  function TransformTokens(t: Option<AffineTransform>): seq<Token>
  {
    match t
    case None => [I32(-1)]
    case Some(tr) => [I32(tr.m), I32(tr.n)] + Int64s(Flatten(tr.trans)) + Int64s(tr.offset)
  }

  /** The dimension a region-field argument announces: N of its transform when it has one. */
  function AnnouncedDim(a: Arg): int
    requires a.RegionFieldArg?
  {
    if a.transform.None? then a.dim else a.transform.value.n
  }

  /** `pack`: the tokens appended and whether it raised. What was appended before an
      exception stays in the buffer. */
  function EncodeArg(a: Arg, table: IndexTable): (seq<Token>, Outcome)
  {
    match a
    case ScalarArg(v, Known(p)) => ([Val(p, v)], Pass)
    case ScalarArg(_, Other(name)) => ([], Fail(ValueError("Unsupported data type: " + name)))
    case ArrayArg(vs, dts) =>
      if |dts| != 1 then ([], Fail(AssertionError))
      else if dts[0].Other? then ([I32(|vs|)], Fail(KeyError))
      else ([I32(|vs|)] + Each(dts[0].p, vs), Pass)
    case DtypeArg(d) => ([DtypeTok(d)], Pass)
    case PointArg(pt, untyped) => ((if untyped then [I32(|pt|)] else []) + [PointTok(pt)], Pass)
    case RegionFieldArg(_, redop, key, fid, t) =>
      var head := [I32(AnnouncedDim(a)), I32(if redop.None? then -1 else redop.value)];
      match RequirementIndex(table, key, fid)
      case Err(e) => (head, Fail(e))
      case Ok(idx) => (head + [U32(idx), U32(fid)] + TransformTokens(t), Pass)
  }

  /** The arguments packed in order; the first exception stops packing. */
  function EncodeArgs(args: seq<Arg>, table: IndexTable): (seq<Token>, Outcome)
  {
    if args == [] then ([], Pass)
    else
      var (toks, o) := EncodeArgs(args[..|args| - 1], table);
      if o.Fail? then (toks, o)
      else
        var (last, o') := EncodeArg(args[|args| - 1], table);
        (toks + last, o')
  }

  // ----- reading the block back -----

  /** What the task body reads for one argument. */
  datatype Packed =
    | PScalar(p: Prim, v: Scalar)
    | PArray(p: Prim, vs: seq<Scalar>)
    | PDtype(d: DtypeCode)
    | PPoint(pt: seq<int>, untyped: bool)
    | PRegion(dim: int, redop: int, index: nat, field: FieldId, transform: Option<AffineTransform>)

  /** What the reader expects next: its static knowledge of the argument list. */
  datatype Kind = KScalar(p: Prim) | KArray(p: Prim) | KDtype | KPoint(untyped: bool) | KRegion

  function KindOf(pk: Packed): Kind
  {
    match pk
    case PScalar(p, _) => KScalar(p)
    case PArray(p, _) => KArray(p)
    case PDtype(_) => KDtype
    case PPoint(_, untyped) => KPoint(untyped)
    case PRegion(_, _, _, _, _) => KRegion
  }

  /** What a successfully packed argument means to the reader; None when `pack` raises. */
  function Meaning(a: Arg, table: IndexTable): Option<Packed>
  {
    match a
    case ScalarArg(v, dt) => if dt.Known? then Some(PScalar(dt.p, v)) else None
    case ArrayArg(vs, dts) => if |dts| == 1 && dts[0].Known? then Some(PArray(dts[0].p, vs)) else None
    case DtypeArg(d) => Some(PDtype(d))
    case PointArg(pt, untyped) => Some(PPoint(pt, untyped))
    case RegionFieldArg(_, redop, key, fid, t) =>
      match RequirementIndex(table, key, fid)
      case Err(_) => None
      case Ok(idx) => Some(PRegion(AnnouncedDim(a), if redop.None? then -1 else redop.value, idx, fid, t))
  }

  function IntOf(t: Token, p: Prim): Option<int>
  {
    if t.Val? && t.p == p && t.v.I? then Some(t.v.i) else None
  }

  /** The first `k` tokens, which must all be values of type `p`. */
  function ReadVals(p: Prim, toks: seq<Token>, k: nat): Option<seq<Scalar>>
  {
    if k == 0 then Some([])
    else if toks == [] || !toks[0].Val? || toks[0].p != p then None
    else match ReadVals(p, toks[1..], k - 1)
      case None => None
      case Some(rest) => Some([toks[0].v] + rest)
  }

  /** The first `k` tokens, which must all be int64 integers. */
  function ReadInt64s(toks: seq<Token>, k: nat): Option<seq<int>>
  {
    if k == 0 then Some([])
    else if toks == [] || IntOf(toks[0], Int64).None? then None
    else match ReadInt64s(toks[1..], k - 1)
      case None => None
      case Some(rest) => Some([toks[0].v.i] + rest)
  }

  /** `m` rows of `n` entries, from row-major order. */
  function Unflatten(flat: seq<int>, m: nat, n: nat): (rows: seq<seq<int>>)
    requires |flat| == m * n
    ensures |rows| == m && forall i :: 0 <= i < m ==> |rows[i]| == n
  {
    if m == 0 then []
    else
      assert m * n == n + (m - 1) * n;
      [flat[..n]] + Unflatten(flat[n..], m - 1, n)
  }

  function DecodeTransform(toks: seq<Token>): Option<(Option<AffineTransform>, seq<Token>)>
  {
    if |toks| >= 1 && toks[0] == I32(-1) then Some((None, toks[1..]))
    else if |toks| < 2 || IntOf(toks[0], Int32).None? || IntOf(toks[1], Int32).None? then None
    else
      var m := toks[0].v.i;
      var n := toks[1].v.i;
      if m < 0 || n < 0 || |toks| < 2 + m * n + m then None
      else match (ReadInt64s(toks[2..], m * n), ReadInt64s(toks[2 + m * n..], m))
        case (Some(flat), Some(off)) =>
          if |flat| != m * n || |off| != m then None
          else
            var t := Transform(m, n, Unflatten(flat, m, n), off);
            Some((Some(t), toks[2 + m * n + m..]))
        case _ => None
  }

  /** Reads one argument of kind `k` off the front of the block. */
  function Decode(k: Kind, toks: seq<Token>): Option<(Packed, seq<Token>)>
  {
    match k
    case KScalar(p) =>
      if |toks| >= 1 && toks[0].Val? && toks[0].p == p then Some((PScalar(p, toks[0].v), toks[1..])) else None
    case KArray(p) =>
      if |toks| < 1 || IntOf(toks[0], Int32).None? || toks[0].v.i < 0 || |toks| < 1 + toks[0].v.i then None
      else
        var n := toks[0].v.i;
        (match ReadVals(p, toks[1..], n)
         case None => None
         case Some(vs) => Some((PArray(p, vs), toks[1 + n..])))
    case KDtype =>
      if |toks| >= 1 && toks[0].DtypeTok? then Some((PDtype(toks[0].d), toks[1..])) else None
    case KPoint(untyped) =>
      if !untyped then
        if |toks| >= 1 && toks[0].PointTok? then Some((PPoint(toks[0].pt, false), toks[1..])) else None
      else if |toks| >= 2 && toks[1].PointTok? && IntOf(toks[0], Int32) == Some(|toks[1].pt|) then
        Some((PPoint(toks[1].pt, true), toks[2..]))
      else None
    case KRegion => DecodeRegion(toks)
  }

  /** dim, redop, requirement index and field id, then the transform part. */
  function DecodeRegion(toks: seq<Token>): Option<(Packed, seq<Token>)>
  {
    if |toks| < 4 || IntOf(toks[0], Int32).None? || IntOf(toks[1], Int32).None?
       || IntOf(toks[2], Uint32).None? || IntOf(toks[3], Uint32).None? || toks[2].v.i < 0 then None
    else match DecodeTransform(toks[4..])
      case None => None
      case Some((t, rest)) => Some((PRegion(toks[0].v.i, toks[1].v.i, toks[2].v.i, toks[3].v.i, t), rest))
  }

  /** Reads a whole block whose argument kinds are known, consuming every token. */
  function DecodeAll(kinds: seq<Kind>, toks: seq<Token>): Option<seq<Packed>>
    decreases |kinds|
  {
    if kinds == [] then (if toks == [] then Some([]) else None)
    else match Decode(kinds[0], toks)
      case None => None
      case Some((pk, rest)) =>
        match DecodeAll(kinds[1..], rest)
        case None => None
        case Some(pks) => Some([pk] + pks)
  }

  function KindsOf(pks: seq<Packed>): (r: seq<Kind>)
    ensures |r| == |pks| && forall i :: 0 <= i < |pks| ==> r[i] == KindOf(pks[i])
  {
    seq(|pks|, i requires 0 <= i < |pks| => KindOf(pks[i]))
  }

  // ----- properties of packing -----

  /** `pack` raises exactly when the argument has no meaning, and then only in the ways the
      source raises: an unknown scalar type (ValueError), an element-type tuple whose length
      is not one (AssertionError), an unknown element type or a requirement missing from the
      table (KeyError). */
  lemma EncodeFailsIff(a: Arg, table: IndexTable)
    ensures EncodeArg(a, table).1.Pass? <==> Meaning(a, table).Some?
    ensures EncodeArg(a, table).1.Fail? ==>
              match a
              case ScalarArg(_, dt) => dt.Other? && EncodeArg(a, table) == ([], Fail(ValueError("Unsupported data type: " + dt.name)))
              case ArrayArg(vs, dts) =>
                if |dts| != 1 then EncodeArg(a, table) == ([], Fail(AssertionError))
                else EncodeArg(a, table) == ([I32(|vs|)], Fail(KeyError))
              case RegionFieldArg(_, _, key, fid, _) =>
                RequirementIndex(table, key, fid).Err? && |EncodeArg(a, table).0| == 2
                && EncodeArg(a, table).1 == Fail(KeyError)
              case _ => false
  {
  }

  /** Packing only appends: the block of a prefix of the arguments is a prefix of the block. */
  lemma {:induction false} EncodeArgsPrefix(args: seq<Arg>, table: IndexTable, k: nat)
    requires k <= |args|
    ensures EncodeArgs(args[..k], table).0 <= EncodeArgs(args, table).0
    ensures EncodeArgs(args[..k], table).1.Fail? ==> EncodeArgs(args, table) == EncodeArgs(args[..k], table)
  {
    if k < |args| {
      var n := |args| - 1;
      assert args[..n][..k] == args[..k];
      EncodeArgsPrefix(args[..n], table, k);
    } else {
      assert args[..k] == args;
    }
  }

  lemma {:induction false} FlattenLength(rows: seq<seq<int>>, n: nat)
    requires forall i :: 0 <= i < |rows| ==> |rows[i]| == n
    ensures |Flatten(rows)| == |rows| * n
  {
    if rows != [] {
      FlattenLength(rows[1..], n);
      assert |rows| * n == n + (|rows| - 1) * n;
    }
  }

  /** The matrix is recovered from its row-major entries. */
  lemma {:induction false} UnflattenFlatten(rows: seq<seq<int>>, m: nat, n: nat)
    requires |rows| == m && forall i :: 0 <= i < m ==> |rows[i]| == n
    ensures |Flatten(rows)| == m * n && Unflatten(Flatten(rows), m, n) == rows
  {
    FlattenLength(rows, n);
    if m > 0 {
      UnflattenFlatten(rows[1..], m - 1, n);
      var flat := Flatten(rows);
      assert flat[..n] == rows[0];
      assert flat[n..] == Flatten(rows[1..]);
    }
  }

  lemma {:induction false} ReadValsEach(p: Prim, vs: seq<Scalar>, rest: seq<Token>)
    ensures ReadVals(p, Each(p, vs) + rest, |vs|) == Some(vs)
  {
    if vs != [] {
      assert (Each(p, vs) + rest)[1..] == Each(p, vs[1..]) + rest;
      ReadValsEach(p, vs[1..], rest);
      assert [vs[0]] + vs[1..] == vs;
    }
  }

  lemma {:induction false} ReadInt64sEach(xs: seq<int>, rest: seq<Token>)
    ensures ReadInt64s(Int64s(xs) + rest, |xs|) == Some(xs)
  {
    if xs != [] {
      assert (Int64s(xs) + rest)[1..] == Int64s(xs[1..]) + rest;
      ReadInt64sEach(xs[1..], rest);
      assert [xs[0]] + xs[1..] == xs;
    }
  }

  lemma TransformRoundTrip(t: Option<AffineTransform>, rest: seq<Token>)
    ensures DecodeTransform(TransformTokens(t) + rest) == Some((t, rest))
  {
    if t.Some? {
      var tr := t.value;
      var flat := Flatten(tr.trans);
      UnflattenFlatten(tr.trans, tr.m, tr.n);
      var k := tr.m * tr.n;
      var toks := [I32(tr.m), I32(tr.n)] + (Int64s(flat) + (Int64s(tr.offset) + rest));
      assert TransformTokens(t) + rest == toks;
      assert toks[2..] == Int64s(flat) + (Int64s(tr.offset) + rest);
      assert toks[2 + k..] == Int64s(tr.offset) + rest;
      assert toks[2 + k + tr.m..] == rest;
      ReadInt64sEach(flat, Int64s(tr.offset) + rest);
      ReadInt64sEach(tr.offset, rest);
      DecodeTransformSome(toks, tr.m, tr.n, flat, tr.offset, rest);
    }
  }

  lemma DecodeTransformSome(toks: seq<Token>, m: nat, n: nat, flat: seq<int>, off: seq<int>, rest: seq<Token>)
    requires |flat| == m * n && |off| == m
    requires |toks| == 2 + m * n + m + |rest| && toks[0] == I32(m) && toks[1] == I32(n)
    requires ReadInt64s(toks[2..], m * n) == Some(flat) && ReadInt64s(toks[2 + m * n..], m) == Some(off)
    requires toks[2 + m * n + m..] == rest
    ensures DecodeTransform(toks) == Some((Some(Transform(m, n, Unflatten(flat, m, n), off)), rest))
  {
  }

  /** The block is self-delimiting: each packed argument is read back, whatever follows it. */
  lemma DecodeEncodeArg(a: Arg, table: IndexTable, rest: seq<Token>)
    requires Meaning(a, table).Some?
    ensures EncodeArg(a, table).1.Pass?
    ensures Decode(KindOf(Meaning(a, table).value), EncodeArg(a, table).0 + rest) == Some((Meaning(a, table).value, rest))
  {
    EncodeFailsIff(a, table);
    match a
    case ScalarArg(_, _) =>
    case ArrayArg(vs, dts) => DecodeEncodeArray(vs, dts[0].p, rest);
    case DtypeArg(_) =>
    case PointArg(pt, untyped) => DecodeEncodePoint(pt, untyped, rest);
    case RegionFieldArg(_, _, _, _, _) => DecodeEncodeRegion(a, table, rest);
  }

  /** A point, after its length when it is untyped. */
  lemma DecodeEncodePoint(pt: seq<int>, untyped: bool, rest: seq<Token>)
    ensures Decode(KPoint(untyped), (if untyped then [I32(|pt|)] else []) + [PointTok(pt)] + rest)
            == Some((PPoint(pt, untyped), rest))
  {
    var toks := (if untyped then [I32(|pt|)] else []) + [PointTok(pt)] + rest;
    if untyped {
      assert toks[2..] == rest;
    } else {
      assert toks[1..] == rest;
    }
  }

  /** A region-field argument whose requirement resolves: the four header integers, then the
      transform. */
  lemma DecodeEncodeRegion(a: Arg, table: IndexTable, rest: seq<Token>)
    requires a.RegionFieldArg? && RequirementIndex(table, a.key, a.fieldId).Ok?
    ensures Meaning(a, table).Some?
    ensures Decode(KRegion, EncodeArg(a, table).0 + rest) == Some((Meaning(a, table).value, rest))
  {
    var idx := RequirementIndex(table, a.key, a.fieldId).value;
    var redop := if a.redop.None? then -1 else a.redop.value;
    var head := [I32(AnnouncedDim(a)), I32(redop), U32(idx), U32(a.fieldId)];
    assert EncodeArg(a, table).0 == head + TransformTokens(a.transform);
    var toks := head + (TransformTokens(a.transform) + rest);
    assert EncodeArg(a, table).0 + rest == toks;
    assert toks[4..] == TransformTokens(a.transform) + rest;
    TransformRoundTrip(a.transform, rest);
  }

  /** An array of known element type: its length, then its elements. */
  lemma DecodeEncodeArray(vs: seq<Scalar>, p: Prim, rest: seq<Token>)
    ensures Decode(KArray(p), [I32(|vs|)] + Each(p, vs) + rest) == Some((PArray(p, vs), rest))
  {
    var toks := [I32(|vs|)] + Each(p, vs) + rest;
    assert toks == [I32(|vs|)] + (Each(p, vs) + rest);
    ReadValsEach(p, vs, rest);
    assert toks[1..] == Each(p, vs) + rest;
    assert toks[1 + |vs|..] == rest;
  }

  /** What a fully packed argument list means, argument by argument. */
  function Meanings(args: seq<Arg>, table: IndexTable): seq<Packed>
    requires forall i :: 0 <= i < |args| ==> Meaning(args[i], table).Some?
  {
    seq(|args|, i requires 0 <= i < |args| && Meaning(args[i], table).Some? => Meaning(args[i], table).value)
  }

  /** Round trip of the whole block: packing every argument without exception yields a block
      that the reader, knowing the argument kinds, decodes into exactly their meanings. */
  lemma {:induction false} DecodeEncodeArgs(args: seq<Arg>, table: IndexTable)
    requires EncodeArgs(args, table).1.Pass?
    ensures forall i :: 0 <= i < |args| ==> Meaning(args[i], table).Some?
    ensures DecodeAll(KindsOf(Meanings(args, table)), EncodeArgs(args, table).0) == Some(Meanings(args, table))
  {
    EncodeArgsAllPass(args, table);
    DecodeEncodeSuffix(args, table, 0);
  }

  /** Every argument of a block packed without exception has a meaning. */
  lemma {:induction false} EncodeArgsAllPass(args: seq<Arg>, table: IndexTable)
    requires EncodeArgs(args, table).1.Pass?
    ensures forall i :: 0 <= i < |args| ==> EncodeArg(args[i], table).1.Pass? && Meaning(args[i], table).Some?
    ensures EncodeArgs(args, table).0 == Concat(args, table)
  {
    if args != [] {
      var n := |args| - 1;
      EncodeArgsAllPass(args[..n], table);
      EncodeFailsIff(args[n], table);
      forall i | 0 <= i < n ensures Meaning(args[i], table).Some? {
        assert args[..n][i] == args[i];
        EncodeFailsIff(args[i], table);
      }
      ConcatSnoc(args, table);
    }
  }

  /** The tokens of every argument, concatenated. */
  function Concat(args: seq<Arg>, table: IndexTable): seq<Token>
  {
    if args == [] then [] else EncodeArg(args[0], table).0 + Concat(args[1..], table)
  }

  lemma {:induction false} ConcatSnoc(args: seq<Arg>, table: IndexTable)
    requires args != []
    ensures Concat(args, table) == Concat(args[..|args| - 1], table) + EncodeArg(args[|args| - 1], table).0
  {
    if |args| > 1 {
      ConcatSnoc(args[1..], table);
      assert args[1..][..|args[1..]| - 1] == args[..|args| - 1][1..];
    }
  }

  lemma {:induction false} DecodeEncodeSuffix(args: seq<Arg>, table: IndexTable, k: nat)
    requires k <= |args|
    requires forall i :: 0 <= i < |args| ==> Meaning(args[i], table).Some?
    ensures DecodeAll(KindsOf(Meanings(args[k..], table)), Concat(args[k..], table)) == Some(Meanings(args[k..], table))
    decreases |args| - k
  {
    var tail := args[k..];
    if k < |args| {
      DecodeEncodeSuffix(args, table, k + 1);
      assert tail[1..] == args[k + 1..];
      assert forall i :: 0 <= i < |tail| ==> tail[i] == args[k + i];
      SuffixStep(tail, table);
    }
  }

  /** The first argument is read back in front of the rest. */
  lemma SuffixStep(args: seq<Arg>, table: IndexTable)
    requires |args| > 0 && forall i :: 0 <= i < |args| ==> Meaning(args[i], table).Some?
    requires DecodeAll(KindsOf(Meanings(args[1..], table)), Concat(args[1..], table)) == Some(Meanings(args[1..], table))
    ensures DecodeAll(KindsOf(Meanings(args, table)), Concat(args, table)) == Some(Meanings(args, table))
  {
    MeaningsCons(args, table);
    DecodeEncodeArg(args[0], table, Concat(args[1..], table));
    DecodeAllCons(KindOf(Meaning(args[0], table).value), KindsOf(Meanings(args[1..], table)),
                  EncodeArg(args[0], table).0, Concat(args[1..], table),
                  Meaning(args[0], table).value, Meanings(args[1..], table));
  }

  /** The meanings of a non-empty list: the first one, then the others'. */
  lemma MeaningsCons(args: seq<Arg>, table: IndexTable)
    requires |args| > 0 && forall i :: 0 <= i < |args| ==> Meaning(args[i], table).Some?
    ensures Meanings(args, table) == [Meaning(args[0], table).value] + Meanings(args[1..], table)
    ensures KindsOf(Meanings(args, table)) == [KindOf(Meaning(args[0], table).value)] + KindsOf(Meanings(args[1..], table))
    ensures Concat(args, table) == EncodeArg(args[0], table).0 + Concat(args[1..], table)
  {
    assert Meanings(args, table) == [Meaning(args[0], table).value] + Meanings(args[1..], table);
  }

  /** Reading one argument and then the rest reads the whole list. */
  lemma DecodeAllCons(k: Kind, ks: seq<Kind>, toks: seq<Token>, rest: seq<Token>, pk: Packed, pks: seq<Packed>)
    requires Decode(k, toks + rest) == Some((pk, rest)) && DecodeAll(ks, rest) == Some(pks)
    ensures DecodeAll([k] + ks, toks + rest) == Some([pk] + pks)
  {
    assert ([k] + ks)[1..] == ks;
  }

  /** The buffer builder: tokens are only ever appended. */
  class BufferBuilder {
    var tokens: seq<Token>

    constructor ()
      ensures tokens == []
    {
      tokens := [];
    }

    /** `pack_bool`, `pack_8bit_int`, ..., `pack_64bit_float`: one serializer per type. */
    method PackValue(p: Prim, v: Scalar)
      modifies this
      ensures tokens == old(tokens) + [Val(p, v)]
    {
      tokens := tokens + [Val(p, v)];
    }

    method PackDtype(d: DtypeCode)
      modifies this
      ensures tokens == old(tokens) + [DtypeTok(d)]
    {
      tokens := tokens + [DtypeTok(d)];
    }

    method PackPoint(pt: seq<int>)
      modifies this
      ensures tokens == old(tokens) + [PointTok(pt)]
    {
      tokens := tokens + [PointTok(pt)];
    }
  }

  /** `ScalarArg.pack`, `DtypeArg.pack`, `PointArg.pack` and `RegionFieldArg.pack`; the launcher
      that resolves requirement keys is represented by its index table. */
  method Pack(a: Arg, table: IndexTable, buf: BufferBuilder) returns (o: Outcome)
    modifies buf
    ensures buf.tokens == old(buf.tokens) + EncodeArg(a, table).0 && o == EncodeArg(a, table).1
  {
    match a
    case ScalarArg(v, dt) =>
      if dt.Known? {
        buf.PackValue(dt.p, v);
        o := Pass;
      } else {
        o := Fail(ValueError("Unsupported data type: " + dt.name));
      }
    case ArrayArg(vs, dts) =>
      if |dts| != 1 {
        return Fail(AssertionError);
      }
      buf.PackValue(Int32, I(|vs|));
      if dts[0].Other? {
        return Fail(KeyError);
      }
      PackValues(dts[0].p, vs, buf);
      o := Pass;
    case DtypeArg(d) =>
      buf.PackDtype(d);
      o := Pass;
    case PointArg(pt, untyped) =>
      if untyped {
        buf.PackValue(Int32, I(|pt|));
      }
      buf.PackPoint(pt);
      o := Pass;
    case RegionFieldArg(dim, redop, key, fid, t) =>
      o := PackRegion(a, table, buf);
  }

  /** The elements of an array argument, one serializer call each. */
  method PackValues(p: Prim, vs: seq<Scalar>, buf: BufferBuilder)
    modifies buf
    ensures buf.tokens == old(buf.tokens) + Each(p, vs)
  {
    var i := 0;
    while i < |vs|
      invariant 0 <= i <= |vs|
      invariant buf.tokens == old(buf.tokens) + Each(p, vs[..i])
    {
      buf.PackValue(p, vs[i]);
      assert Each(p, vs[..i + 1]) == Each(p, vs[..i]) + [Val(p, vs[i])];
      i := i + 1;
    }
    assert vs[..i] == vs;
  }

  /** `RegionFieldArg.pack`: dim and redop, then the requirement index (which may raise), the
      field id and the transform. */
  method PackRegion(a: Arg, table: IndexTable, buf: BufferBuilder) returns (o: Outcome)
    requires a.RegionFieldArg?
    modifies buf
    ensures buf.tokens == old(buf.tokens) + EncodeArg(a, table).0 && o == EncodeArg(a, table).1
  {
    buf.PackValue(Int32, I(if a.transform.None? then a.dim else a.transform.value.n));
    buf.PackValue(Int32, I(if a.redop.None? then -1 else a.redop.value));
    var idx := RequirementIndex(table, a.key, a.fieldId);
    if idx.Err? {
      return Fail(idx.error);
    }
    buf.PackValue(Uint32, I(idx.value));
    buf.PackValue(Uint32, I(a.fieldId));
    o := PackTransform(a.transform, buf);
  }

  /** The transform part of `RegionFieldArg.pack`: the matrix row by row, then the offsets. */
  method PackTransform(t: Option<AffineTransform>, buf: BufferBuilder) returns (o: Outcome)
    modifies buf
    ensures buf.tokens == old(buf.tokens) + TransformTokens(t) && o == Pass
  {
    o := Pass;
    if t.None? {
      buf.PackValue(Int32, I(-1));
      return;
    }
    var tr := t.value;
    buf.PackValue(Int32, I(tr.m));
    buf.PackValue(Int32, I(tr.n));
    PackMatrix(tr, buf);
    PackInt64s(tr.offset, buf);
  }

  /** The matrix of a transform, row by row. */
  method PackMatrix(tr: AffineTransform, buf: BufferBuilder)
    modifies buf
    ensures buf.tokens == old(buf.tokens) + Int64s(Flatten(tr.trans))
  {
    var x := 0;
    while x < tr.m
      invariant 0 <= x <= tr.m
      invariant buf.tokens == old(buf.tokens) + Int64s(Flatten(tr.trans[..x]))
    {
      PackInt64s(tr.trans[x], buf);
      FlattenSnoc(tr.trans, x);
      Int64sAppend(Flatten(tr.trans[..x]), tr.trans[x]);
      x := x + 1;
    }
    assert tr.trans[..x] == tr.trans;
  }

  /** 64-bit integers, one serializer call each. */
  method PackInt64s(xs: seq<int>, buf: BufferBuilder)
    modifies buf
    ensures buf.tokens == old(buf.tokens) + Int64s(xs)
  {
    var z := 0;
    while z < |xs|
      invariant 0 <= z <= |xs|
      invariant buf.tokens == old(buf.tokens) + Int64s(xs[..z])
    {
      buf.PackValue(Int64, I(xs[z]));
      Int64sSnoc(xs[..z], xs[z]);
      assert xs[..z + 1] == xs[..z] + [xs[z]];
      z := z + 1;
    }
    assert xs[..z] == xs;
  }

  lemma Int64sAppend(xs: seq<int>, ys: seq<int>)
    ensures Int64s(xs + ys) == Int64s(xs) + Int64s(ys)
  {
  }

  lemma Int64sSnoc(xs: seq<int>, x: int)
    ensures Int64s(xs + [x]) == Int64s(xs) + [I64(x)]
  {
  }

  lemma {:induction false} FlattenSnoc(rows: seq<seq<int>>, x: nat)
    requires x < |rows|
    ensures Flatten(rows[..x + 1]) == Flatten(rows[..x]) + rows[x]
  {
    if x > 0 {
      assert rows[..x + 1][1..] == rows[1..][..x];
      assert rows[..x][1..] == rows[1..][..x - 1];
      FlattenSnoc(rows[1..], x - 1);
    } else {
      assert rows[..1][1..] == [];
    }
  }

  lemma EncodeArgsSnoc(args: seq<Arg>, i: nat, table: IndexTable)
    requires i < |args| && EncodeArgs(args[..i], table).1.Pass?
    ensures EncodeArgs(args[..i + 1], table)
            == (EncodeArgs(args[..i], table).0 + EncodeArg(args[i], table).0, EncodeArg(args[i], table).1)
  {
    assert args[..i + 1][..i] == args[..i];
  }

  /** Packs the arguments in declaration order, stopping at the first exception. */
  method PackAll(args: seq<Arg>, table: IndexTable, buf: BufferBuilder) returns (o: Outcome)
    modifies buf
    ensures buf.tokens == old(buf.tokens) + EncodeArgs(args, table).0 && o == EncodeArgs(args, table).1
  {
    ghost var start := buf.tokens;
    var i := 0;
    o := Pass;
    while i < |args|
      invariant 0 <= i <= |args|
      invariant buf.tokens == start + EncodeArgs(args[..i], table).0
      invariant o == EncodeArgs(args[..i], table).1 == Pass
    {
      o := PackNext(args, i, table, buf, start);
      if o.Fail? {
        EncodeArgsPrefix(args, table, i + 1);
        return;
      }
      i := i + 1;
    }
    assert args[..i] == args;
  }

  /** One turn of the packing loop: the next argument packs itself after the earlier ones. */
  method PackNext(args: seq<Arg>, i: nat, table: IndexTable, buf: BufferBuilder, ghost start: seq<Token>) returns (o: Outcome)
    requires i < |args| && EncodeArgs(args[..i], table).1.Pass?
    requires buf.tokens == start + EncodeArgs(args[..i], table).0
    modifies buf
    ensures buf.tokens == start + EncodeArgs(args[..i + 1], table).0 && o == EncodeArgs(args[..i + 1], table).1
  {
    EncodeArgsSnoc(args, i, table);
    o := Pack(args[i], table, buf);
  }
}
