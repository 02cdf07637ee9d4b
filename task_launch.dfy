/** `TaskLauncher` (legate/core/launcher.py:329-525): records the arguments and store accesses
    of one task, numbers the coalesced region requirements, and packs the argument block when
    the task is built. */
module TaskLaunch {
  import opened Errors
  import opened Dicts
  import opened LaunchTypes
  import opened ProjectionSets
  import opened FieldSets
  import opened ArgPacking

  /** Opaque engine handles. */
  type FutureId = nat
  type FutureMapId = nat
  type SpaceId = nat

  /** `_region_reqs` entries: a requirement and the fields it covers. */
  type Requirement = (RegionReq, seq<FieldId>)

  /** Where a store's data lives: a future, or a field of a region whose index space has
      dimension `regionDim`. */
  datatype Storage =
    | FutureBacked(future: FutureId)
    | RegionBacked(region: RegionId, field: FieldId, regionDim: int)

  /** The parts of a store the launcher reads. */
  datatype Store = Store(ndim: int, dtype: DtypeCode, shape: seq<int>, storage: Storage, transform: Option<AffineTransform>)

  /** A launch description handed to the engine. */
  datatype LaunchKind = IndexLaunch(domain: seq<int>) | SingleLaunch

  datatype Launch = Launch(
    kind: LaunchKind, taskId: int, mapperId: int, tag: int,
    argBlock: seq<Token>, reqs: seq<Requirement>,
    futures: seq<FutureId>, futureMaps: seq<FutureMapId>,
    shardingSpace: Option<SpaceId>, point: Option<seq<int>>, localFunction: bool)

  // ----- arguments recorded by add_shape and add_store -----

  function Ints(xs: seq<int>): (r: seq<Scalar>)
    ensures |r| == |xs| && forall i :: 0 <= i < |xs| ==> r[i] == I(xs[i])
  {
    seq(|xs|, i requires 0 <= i < |xs| => I(xs[i]))
  }

  /** `add_shape`: the shape as an int64 array, then the projection id and the chunk shape, or
      -1. Each assertion is checked where the source checks it. */
  function ShapeArgs(shape: seq<int>, chunk: Option<seq<int>>, proj: Option<int>): (seq<Arg>, Outcome)
  {
    if chunk.Some? && |shape| != |chunk.value| then ([], Fail(AssertionError))
    else
      var head := [ArrayArg(Ints(shape), [Known(Int64)])];
      if chunk.Some? then
        if proj.None? then (head, Fail(AssertionError))
        else (head + [ScalarArg(I(proj.value), Known(Int32)), ArrayArg(Ints(chunk.value), [Known(Int64)])], Pass)
      else if proj.Some? then (head, Fail(AssertionError))
      else (head + [ScalarArg(I(-1), Known(Int32))], Pass)
  }

  /** The five arguments `add_store` records before looking at the storage. */
  function StoreHeader(s: Store): seq<Arg>
  {
    [ScalarArg(B(s.storage.FutureBacked?), Known(Bool)), ScalarArg(I(s.ndim), Known(Int32)), DtypeArg(s.dtype)]
    + ShapeArgs(s.shape, None, None).0
  }

  /** The requirement key `add_store` records for a region-backed store. */
  function StoreKey(s: Store, proj: Proj, perm: Permission, tag: int, flags: int): RegionReq
    requires s.storage.RegionBacked?
  {
    RegionReq(s.storage.region, perm, proj, tag, flags)
  }

  /** An int64 array packs as its length and its elements. */
  lemma Int64ArrayLayout(xs: seq<int>, table: IndexTable)
    ensures EncodeArg(ArrayArg(Ints(xs), [Known(Int64)]), table) == ([I32(|xs|)] + Int64s(xs), Pass)
  {
    assert Each(Int64, Ints(xs)) == Int64s(xs);
  }

  /** Two arguments pack one after the other when the first passes. */
  lemma EncodeTwo(a: Arg, b: Arg, table: IndexTable)
    requires EncodeArg(a, table).1.Pass?
    ensures EncodeArgs([a, b], table) == (EncodeArg(a, table).0 + EncodeArg(b, table).0, EncodeArg(b, table).1)
  {
    var args := [a, b];
    assert args[..0] == [];
    EncodeArgsSnoc(args, 0, table);
    var first: seq<Token> := EncodeArg(a, table).0;
    assert [] + first == first;
    EncodeArgsSnoc(args, 1, table);
    assert args[..2] == args;
  }

  /** Three arguments pack one after the other when the first two pass. */
  lemma EncodeThree(a: Arg, b: Arg, c: Arg, table: IndexTable)
    requires EncodeArg(a, table).1.Pass? && EncodeArg(b, table).1.Pass?
    ensures EncodeArgs([a, b, c], table)
            == (EncodeArg(a, table).0 + EncodeArg(b, table).0 + EncodeArg(c, table).0, EncodeArg(c, table).1)
  {
    assert [a, b, c][..2] == [a, b];
    EncodeTwo(a, b, table);
  }

  /** `add_shape` packs the shape, then the projection id with the chunk shape, or -1. */
  lemma ShapeLayout(shape: seq<int>, chunk: Option<seq<int>>, proj: Option<int>, table: IndexTable)
    requires ShapeArgs(shape, chunk, proj).1.Pass?
    ensures EncodeArgs(ShapeArgs(shape, chunk, proj).0, table).1.Pass?
    ensures EncodeArgs(ShapeArgs(shape, chunk, proj).0, table).0
            == [I32(|shape|)] + Int64s(shape)
               + (if chunk.Some? then [I32(proj.value), I32(|chunk.value|)] + Int64s(chunk.value) else [I32(-1)])
  {
    var head := ArrayArg(Ints(shape), [Known(Int64)]);
    Int64ArrayLayout(shape, table);
    if chunk.Some? {
      var p := ScalarArg(I(proj.value), Known(Int32));
      var c := ArrayArg(Ints(chunk.value), [Known(Int64)]);
      assert ShapeArgs(shape, chunk, proj).0 == [head, p, c];
      assert EncodeArg(p, table) == ([I32(proj.value)], Pass);
      Int64ArrayLayout(chunk.value, table);
      EncodeThree(head, p, c, table);
    } else {
      var m := ScalarArg(I(-1), Known(Int32));
      assert ShapeArgs(shape, chunk, proj).0 == [head, m];
      assert EncodeArg(m, table) == ([I32(-1)], Pass);
      EncodeTwo(head, m, table);
    }
  }

  /** The header `add_store` packs: the scalar flag, ndim, the dtype, the shape and -1. */
  lemma StoreHeaderLayout(s: Store, table: IndexTable)
    ensures EncodeArgs(StoreHeader(s), table)
            == ([Val(Bool, B(s.storage.FutureBacked?)), I32(s.ndim), DtypeTok(s.dtype), I32(|s.shape|)]
                + Int64s(s.shape) + [I32(-1)], Pass)
  {
    var a := ScalarArg(B(s.storage.FutureBacked?), Known(Bool));
    var b := ScalarArg(I(s.ndim), Known(Int32));
    var c := DtypeArg(s.dtype);
    var d := ArrayArg(Ints(s.shape), [Known(Int64)]);
    var e := ScalarArg(I(-1), Known(Int32));
    var h := StoreHeader(s);
    assert h == [a, b, c, d, e];
    Int64ArrayLayout(s.shape, table);
    assert EncodeArg(a, table) == ([Val(Bool, B(s.storage.FutureBacked?))], Pass);
    assert EncodeArg(b, table) == ([I32(s.ndim)], Pass);
    assert EncodeArg(c, table) == ([DtypeTok(s.dtype)], Pass);
    assert EncodeArg(e, table) == ([I32(-1)], Pass);
    EncodeThree(a, b, c, table);
    assert h[..3] == [a, b, c];
    EncodeArgsSnoc(h, 3, table);
    EncodeArgsSnoc(h, 4, table);
    assert h[..5] == h;
    var head := [Val(Bool, B(s.storage.FutureBacked?)), I32(s.ndim), DtypeTok(s.dtype)];
    assert [Val(Bool, B(s.storage.FutureBacked?))] + [I32(s.ndim)] + [DtypeTok(s.dtype)] == head;
    assert EncodeArgs(h[..3], table) == (head, Pass);
    assert EncodeArgs(h[..4], table) == (head + ([I32(|s.shape|)] + Int64s(s.shape)), Pass);
    assert EncodeArgs(h, table) == (head + ([I32(|s.shape|)] + Int64s(s.shape)) + [I32(-1)], Pass);
    assert head + ([I32(|s.shape|)] + Int64s(s.shape)) == head + [I32(|s.shape|)] + Int64s(s.shape);
    assert head + [I32(|s.shape|)] == [Val(Bool, B(s.storage.FutureBacked?)), I32(s.ndim), DtypeTok(s.dtype), I32(|s.shape|)];
  }

  // ----- numbering the requirements -----

  /** The requirements of one region, one per group, in group order. */
  function RequirementsOf(region: RegionId, groups: seq<Group>): (r: seq<Requirement>)
    ensures |r| == |groups| && forall i :: 0 <= i < |groups| ==> r[i] == (ReqOf(region, groups[i].0), groups[i].1)
  {
    seq(|groups|, i requires 0 <= i < |groups| => (ReqOf(region, groups[i].0), groups[i].1))
  }

  /** The requirements of the first `|segs|` regions, regions in dict order. */
  function AllRequirements(regions: seq<RegionId>, segs: seq<seq<Group>>): seq<Requirement>
    requires |segs| <= |regions|
  {
    if segs == [] then []
    else AllRequirements(regions, segs[..|segs| - 1]) + RequirementsOf(regions[|segs| - 1], segs[|segs| - 1])
  }

  /** `self._region_reqs_indices[(req, field_id)] = req_idx` for each field, in order. */
  function IndexFields(table: IndexTable, req: RegionReq, fields: seq<FieldId>, idx: nat): IndexTable
  {
    if fields == [] then table
    else IndexFields(table, req, fields[..|fields| - 1], idx)[(req, fields[|fields| - 1]) := idx]
  }

  /** The table after numbering `reqs` consecutively from `base`. */
  function Numbered(table: IndexTable, base: nat, reqs: seq<Requirement>): IndexTable
  {
    if reqs == [] then table
    else
      var n := |reqs| - 1;
      IndexFields(Numbered(table, base, reqs[..n]), reqs[n].0, reqs[n].1, base + n)
  }

  ghost predicate DistinctReqs(reqs: seq<Requirement>)
  {
    forall a, b :: 0 <= a < b < |reqs| ==> reqs[a].0 != reqs[b].0
  }

  lemma {:induction false} IndexFieldsLookup(table: IndexTable, req: RegionReq, fields: seq<FieldId>, idx: nat, key: (RegionReq, FieldId))
    ensures key.0 == req && key.1 in fields ==> key in IndexFields(table, req, fields, idx) && IndexFields(table, req, fields, idx)[key] == idx
    ensures !(key.0 == req && key.1 in fields) ==>
              (key in IndexFields(table, req, fields, idx) <==> key in table)
              && (key in table ==> IndexFields(table, req, fields, idx)[key] == table[key])
  {
    if fields != [] {
      var n := |fields| - 1;
      IndexFieldsLookup(table, req, fields[..n], idx, key);
      assert key.1 in fields <==> key.1 in fields[..n] || key.1 == fields[n] by {
        assert fields == fields[..n] + [fields[n]];
      }
    }
  }

  /** Every (requirement, field) of the numbered requirements maps to its requirement's
      position, counted from `base`. */
  lemma {:induction false} NumberedLookup(table: IndexTable, base: nat, reqs: seq<Requirement>, n: nat, fid: FieldId)
    requires DistinctReqs(reqs) && n < |reqs| && fid in reqs[n].1
    ensures (reqs[n].0, fid) in Numbered(table, base, reqs)
    ensures Numbered(table, base, reqs)[(reqs[n].0, fid)] == base + n
  {
    var last := |reqs| - 1;
    var key := (reqs[n].0, fid);
    IndexFieldsLookup(Numbered(table, base, reqs[..last]), reqs[last].0, reqs[last].1, base + last, key);
    if n < last {
      NumberedLookup(table, base, reqs[..last], n, fid);
    }
  }

  /** Each requirement of a region's group appears in the concatenation. */
  lemma {:induction false} AllRequirementsContains(regions: seq<RegionId>, segs: seq<seq<Group>>, i: nat, g: nat)
    requires |segs| <= |regions| && i < |segs| && g < |segs[i]|
    ensures exists n :: 0 <= n < |AllRequirements(regions, segs)|
                        && AllRequirements(regions, segs)[n] == (ReqOf(regions[i], segs[i][g].0), segs[i][g].1)
  {
    var last := |segs| - 1;
    var prefix := AllRequirements(regions, segs[..last]);
    if i < last {
      AllRequirementsContains(regions, segs[..last], i, g);
      var n :| 0 <= n < |prefix| && prefix[n] == (ReqOf(regions[i], segs[..last][i][g].0), segs[..last][i][g].1);
      assert AllRequirements(regions, segs)[n] == prefix[n];
    } else {
      assert AllRequirements(regions, segs)[|prefix| + g] == RequirementsOf(regions[last], segs[last])[g];
    }
  }

  /** Every requirement of the concatenation belongs to one of its regions. */
  lemma {:induction false} AllRequirementsRegions(regions: seq<RegionId>, segs: seq<seq<Group>>, n: nat)
    requires |segs| <= |regions| && n < |AllRequirements(regions, segs)|
    ensures AllRequirements(regions, segs)[n].0.region in regions[..|segs|]
  {
    var last := |segs| - 1;
    var prefix := AllRequirements(regions, segs[..last]);
    if n < |prefix| {
      AllRequirementsRegions(regions, segs[..last], n);
      assert regions[..last] <= regions[..|segs|];
    } else {
      assert regions[last] in regions[..|segs|];
    }
  }

  /** Distinct regions, each with distinct keys, give distinct requirements. */
  lemma {:induction false} AllRequirementsDistinct(regions: seq<RegionId>, segs: seq<seq<Group>>)
    requires |segs| <= |regions|
    requires forall a, b :: 0 <= a < b < |regions| ==> regions[a] != regions[b]
    requires forall i :: 0 <= i < |segs| ==> DistinctKeys(segs[i])
    ensures DistinctReqs(AllRequirements(regions, segs))
  {
    if segs != [] {
      var last := |segs| - 1;
      var prefix := AllRequirements(regions, segs[..last]);
      var block := RequirementsOf(regions[last], segs[last]);
      var all := AllRequirements(regions, segs);
      AllRequirementsDistinct(regions, segs[..last]);
      forall a, b | 0 <= a < b < |all| ensures all[a].0 != all[b].0 {
        if b < |prefix| {
          assert all[a] == prefix[a] && all[b] == prefix[b];
        } else if a < |prefix| {
          AllRequirementsRegions(regions, segs[..last], a);
          assert all[a] == prefix[a];
          assert all[b].0.region == regions[last];
          assert regions[last] !in regions[..last];
        } else {
          assert all[a] == block[a - |prefix|] && all[b] == block[b - |prefix|];
          ReqKeyRoundTrip(all[a].0, regions[last], segs[last][a - |prefix|].0);
          ReqKeyRoundTrip(all[b].0, regions[last], segs[last][b - |prefix|].0);
        }
      }
    }
  }

  /** An access recorded for a field of region `i` finds its requirement once every region has
      been grouped and the groups numbered: `get_requirement_index` then never raises. */
  lemma ResolvesAfterCoalesce(model: seq<(RegionId, FieldEntries)>, segs: seq<seq<Group>>,
                              table: IndexTable, base: nat, i: nat, fid: FieldId, perm: Permission, info: ProjInfo)
    requires DistinctKeys(model) && |segs| == |model|
    requires forall j :: 0 <= j < |model| ==> FirstError(model[j].1).None? && IsGrouping(KeyView(model[j].1), segs[j])
    requires i < |model| && FieldCovers(model[i].1, fid, perm, info)
    ensures RequirementIndex(Numbered(table, base, AllRequirements(KeyList(model), segs)), ReqOf(model[i].0, Key(perm, info)), fid).Ok?
  {
    GroupedAccess(model[i].1, fid, perm, info, segs[i]);
    var g :| 0 <= g < |segs[i]| && fid in segs[i][g].1
             && (segs[i][g].0 == Key(perm, info) || segs[i][g].0 == Key(ReadWrite, info));
    forall j | 0 <= j < |segs| ensures DistinctKeys(segs[j]) { }
    GroupResolves(KeyList(model), segs, table, base, i, g, fid);
  }

  /** A field listed in a group is numbered under that group's requirement. */
  lemma GroupResolves(regions: seq<RegionId>, segs: seq<seq<Group>>, table: IndexTable, base: nat,
                      i: nat, g: nat, fid: FieldId)
    requires |segs| == |regions| && i < |segs| && g < |segs[i]| && fid in segs[i][g].1
    requires forall a, b :: 0 <= a < b < |regions| ==> regions[a] != regions[b]
    requires forall j :: 0 <= j < |segs| ==> DistinctKeys(segs[j])
    ensures (ReqOf(regions[i], segs[i][g].0), fid) in Numbered(table, base, AllRequirements(regions, segs))
  {
    var all := AllRequirements(regions, segs);
    AllRequirementsContains(regions, segs, i, g);
    var n :| 0 <= n < |all| && all[n] == (ReqOf(regions[i], segs[i][g].0), segs[i][g].1);
    AllRequirementsDistinct(regions, segs);
    NumberedLookup(table, base, all, n, fid);
  }

  lemma {:induction false} AllRequirementsSnoc(regions: seq<RegionId>, segs: seq<seq<Group>>, groups: seq<Group>)
    requires |segs| < |regions|
    ensures AllRequirements(regions, segs + [groups]) == AllRequirements(regions, segs) + RequirementsOf(regions[|segs|], groups)
  {
    assert (segs + [groups])[..|segs|] == segs;
  }

  lemma {:induction false} NumberedSnoc(table: IndexTable, base: nat, reqs: seq<Requirement>, r: Requirement)
    ensures Numbered(table, base, reqs + [r]) == IndexFields(Numbered(table, base, reqs), r.0, r.1, base + |reqs|)
  {
    assert (reqs + [r])[..|reqs|] == reqs;
  }

  /** Numbering two runs of requirements one after the other numbers their concatenation. */
  lemma {:induction false} NumberedAppend(table: IndexTable, base: nat, a: seq<Requirement>, b: seq<Requirement>)
    ensures Numbered(table, base, a + b) == Numbered(Numbered(table, base, a), base + |a|, b)
  {
    if b == [] {
      assert a + b == a;
    } else {
      var n := |b| - 1;
      NumberedAppend(table, base, a, b[..n]);
      assert (a + b)[..|a| + n] == a + b[..n];
      assert (a + b)[|a| + n] == b[n];
    }
  }

  /** One more run numbered after the runs already numbered. */
  lemma NumberedStep(table: IndexTable, base: nat, done: seq<Requirement>, before: IndexTable, len: nat,
                     run: seq<Requirement>, after: IndexTable)
    requires before == Numbered(table, base, done) && len == base + |done|
    requires after == Numbered(before, len, run)
    ensures after == Numbered(table, base, done + run)
  {
    NumberedAppend(table, base, done, run);
  }

  // ----- the region table of the launcher -----

  /** `_region_args` as values: region -> the entries of its field set, in first-touch order. */
  type RegionEntries = seq<(RegionId, FieldEntries)>

  /** The region part of `add_store`: the region's field set is created when missing (and stays
      even when the insertion raises), then receives the access. */
  function RegionInsert(model: RegionEntries, region: RegionId, fid: FieldId, perm: Permission, info: ProjInfo): (RegionEntries, Outcome)
  {
    var (fe, o) := FieldInsert(Get(model, region, []), fid, perm, info);
    (Put(model, region, fe), o)
  }

  function InfoOf(req: RegionReq): ProjInfo
  {
    ProjInfo(req.proj, req.tag, req.flags)
  }

  /** `RegionInsert` on a region already in the table updates its entry in place. */
  lemma RegionInsertFound(model: RegionEntries, i: nat, region: RegionId, fid: FieldId, perm: Permission, info: ProjInfo)
    requires Find(model, region) == Some(i)
    ensures RegionInsert(model, region, fid, perm, info)
            == (model[i := (region, FieldInsert(model[i].1, fid, perm, info).0)], FieldInsert(model[i].1, fid, perm, info).1)
  {
    var fe := FieldInsert(model[i].1, fid, perm, info).0;
    assert Put(model, region, fe) == model[i := (region, fe)];
  }

  /** `RegionInsert` on a new region appends its entry. */
  lemma RegionInsertNew(model: RegionEntries, region: RegionId, fid: FieldId, perm: Permission, info: ProjInfo)
    requires Find(model, region).None?
    ensures RegionInsert(model, region, fid, perm, info)
            == (model + [(region, FieldInsert([], fid, perm, info).0)], FieldInsert([], fid, perm, info).1)
  {
    var fe := FieldInsert([], fid, perm, info).0;
    assert Put(model, region, fe) == model + [(region, fe)];
  }

  /** The access named by a region-field argument's key has been recorded in the region table. */
  ghost predicate Records(model: RegionEntries, req: RegionReq, fid: FieldId)
  {
    FieldCovers(Get(model, req.region, []), fid, req.permission, InfoOf(req))
  }

  /** The first region, in dict order, whose field set fails to coalesce, and its exception. */
  function RegionError(model: RegionEntries): Option<Error>
  {
    if model == [] then None
    else match FirstError(model[0].1)
      case Some(e) => Some(e)
      case None => RegionError(model[1..])
  }

  /** `add_store` records its own access and keeps every access recorded before. */
  lemma RegionInsertRecords(model: RegionEntries, req: RegionReq, fid: FieldId, req': RegionReq, fid': FieldId)
    ensures Records(RegionInsert(model, req.region, fid, req.permission, InfoOf(req)).0, req, fid)
    ensures Records(model, req', fid') ==> Records(RegionInsert(model, req.region, fid, req.permission, InfoOf(req)).0, req', fid')
  {
    var fe := Get(model, req.region, []);
    var fe' := FieldInsert(fe, fid, req.permission, InfoOf(req)).0;
    FieldInsertRecords(fe, fid, req.permission, InfoOf(req), fid', req'.permission, InfoOf(req'));
    GetPut(model, req.region, fe', req.region, []);
    GetPut(model, req.region, fe', req'.region, []);
  }

  /** `RegionError` finds the first failing region. */
  lemma {:induction false} RegionErrorAt(model: RegionEntries, i: nat)
    requires i <= |model| && forall j :: 0 <= j < i ==> FirstError(model[j].1).None?
    ensures i == |model| ==> RegionError(model).None?
    ensures i < |model| && FirstError(model[i].1).Some? ==> RegionError(model) == FirstError(model[i].1)
  {
    if i > 0 {
      RegionErrorAt(model[1..], i - 1);
    }
  }

  /** Every region-field argument whose access was recorded resolves once every region has been
      grouped and numbered. */
  lemma RecordedResolves(model: RegionEntries, segs: seq<seq<Group>>, table: IndexTable, base: nat, req: RegionReq, fid: FieldId)
    requires DistinctKeys(model) && |segs| == |model|
    requires forall j :: 0 <= j < |model| ==> FirstError(model[j].1).None? && IsGrouping(KeyView(model[j].1), segs[j])
    requires Records(model, req, fid)
    ensures RequirementIndex(Numbered(table, base, AllRequirements(KeyList(model), segs)), req, fid).Ok?
  {
    var info := InfoOf(req);
    var empty: FieldEntries := [];
    assert Get(empty, fid, []) == [];
    var i := Find(model, req.region).value;
    ResolvesAfterCoalesce(model, segs, table, base, i, fid, req.permission, info);
  }

  /** Once every region has been grouped and numbered, `get_requirement_index` finds every
      region-field argument whose access was recorded. */
  lemma ArgsResolve(model: RegionEntries, args: seq<Arg>, segs: seq<seq<Group>>, table: IndexTable, base: nat)
    requires DistinctKeys(model) && |segs| == |model|
    requires forall j :: 0 <= j < |model| ==> FirstError(model[j].1).None? && IsGrouping(KeyView(model[j].1), segs[j])
    requires forall a :: a in args && a.RegionFieldArg? ==> Records(model, a.key, a.fieldId)
    ensures forall a :: a in args && a.RegionFieldArg? ==>
              RequirementIndex(Numbered(table, base, AllRequirements(KeyList(model), segs)), a.key, a.fieldId).Ok?
  {
    forall a | a in args && a.RegionFieldArg?
      ensures RequirementIndex(Numbered(table, base, AllRequirements(KeyList(model), segs)), a.key, a.fieldId).Ok?
    {
      RecordedResolves(model, segs, table, base, a.key, a.fieldId);
    }
  }

  /** No region's field set fails to coalesce. */
  ghost predicate AllCoalesce(model: RegionEntries)
  {
    forall j :: 0 <= j < |model| ==> FirstError(model[j].1).None?
  }

  /** Every requirement passes the reduction-operator check of `add`/`add_single`. */
  ghost predicate AllMaterialize(reqs: seq<Requirement>)
  {
    forall j :: 0 <= j < |reqs| ==> MaterializeOutcome(reqs[j].0).Pass?
  }

  /** `FieldSet()` followed by its first `insert`. */
  method NewFieldSet(fid: FieldId, perm: Permission, info: ProjInfo) returns (fs: FieldSet, o: Outcome)
    ensures fs.Valid() && fresh(fs.Repr)
    ensures (fs.Model, o) == FieldInsert([], fid, perm, info)
  {
    fs := new FieldSet();
    o := fs.Insert(fid, perm, info);
  }

  /** The requirements of one region's groups appended to `reqs`, each numbered by the length
      of `reqs` when it is appended and indexed under every one of its fields. */
  method AddGroups(reqs: seq<Requirement>, table: IndexTable, region: RegionId, groups: seq<Group>)
    returns (reqs': seq<Requirement>, table': IndexTable)
    ensures reqs' == reqs + RequirementsOf(region, groups)
    ensures table' == Numbered(table, |reqs|, RequirementsOf(region, groups))
  {
    reqs', table' := reqs, table;
    var g := 0;
    while g < |groups|
      invariant 0 <= g <= |groups|
      invariant reqs' == reqs + RequirementsOf(region, groups[..g])
      invariant table' == Numbered(table, |reqs|, RequirementsOf(region, groups[..g]))
    {
      var req := ReqOf(region, groups[g].0);
      NumberedSnoc(table, |reqs|, RequirementsOf(region, groups[..g]), (req, groups[g].1));
      assert RequirementsOf(region, groups[..g + 1]) == RequirementsOf(region, groups[..g]) + [(req, groups[g].1)];
      table' := IndexFieldsOf(table', req, groups[g].1, |reqs'|);
      reqs' := reqs' + [(req, groups[g].1)];
      g := g + 1;
    }
    assert groups[..g] == groups;
  }

  /** `self._region_reqs_indices[(req, field_id)] = req_idx` for every field of one group. */
  method IndexFieldsOf(table: IndexTable, req: RegionReq, fields: seq<FieldId>, reqIdx: nat) returns (table': IndexTable)
    ensures table' == IndexFields(table, req, fields, reqIdx)
  {
    table' := table;
    var f := 0;
    while f < |fields|
      invariant 0 <= f <= |fields|
      invariant table' == IndexFields(table, req, fields[..f], reqIdx)
    {
      table' := table'[(req, fields[f]) := reqIdx];
      assert fields[..f + 1][..f] == fields[..f];
      f := f + 1;
    }
    assert fields[..f] == fields;
  }

  /** The first `|segs|` regions coalesce without error, region `j` into the groups `segs[j]`. */
  ghost predicate GroupedUpTo(model: RegionEntries, segs: seq<seq<Group>>)
    decreases |segs|
  {
    |segs| <= |model|
    && (segs != [] ==>
          var n := |segs| - 1;
          GroupedUpTo(model, segs[..n]) && FirstError(model[n].1).None? && IsGrouping(KeyView(model[n].1), segs[n]))
  }

  lemma {:induction false} GroupedUpToAt(model: RegionEntries, segs: seq<seq<Group>>, j: nat)
    requires GroupedUpTo(model, segs) && j < |segs|
    ensures FirstError(model[j].1).None? && IsGrouping(KeyView(model[j].1), segs[j])
  {
    var n := |segs| - 1;
    if j < n {
      GroupedUpToAt(model, segs[..n], j);
    }
  }

  lemma GroupedUpToSnoc(model: RegionEntries, segs: seq<seq<Group>>, groups: seq<Group>)
    requires GroupedUpTo(model, segs) && |segs| < |model|
    requires FirstError(model[|segs|].1).None? && IsGrouping(KeyView(model[|segs|].1), groups)
    ensures GroupedUpTo(model, segs + [groups])
  {
    var s := segs + [groups];
    assert s[..|s| - 1] == segs && s[|s| - 1] == groups;
  }

  lemma AllGroupedAt(model: RegionEntries, segs: seq<seq<Group>>)
    requires GroupedUpTo(model, segs)
    ensures forall j :: 0 <= j < |segs| ==> FirstError(model[j].1).None? && IsGrouping(KeyView(model[j].1), segs[j])
  {
    forall j | 0 <= j < |segs| ensures FirstError(model[j].1).None? && IsGrouping(KeyView(model[j].1), segs[j]) {
      GroupedUpToAt(model, segs, j);
    }
  }

  /** `RegionError` names the region after the grouped ones, if any region fails. */
  lemma RegionErrorGrouped(model: RegionEntries, segs: seq<seq<Group>>)
    requires GroupedUpTo(model, segs)
    ensures |segs| == |model| ==> RegionError(model).None?
    ensures |segs| < |model| && FirstError(model[|segs|].1).Some? ==> RegionError(model) == FirstError(model[|segs|].1)
  {
    AllGroupedAt(model, segs);
    RegionErrorAt(model, |segs|);
  }

  /** Field sets that agree, region by region, with the region table `model`. */
  ghost predicate Agrees(regionArgs: seq<(RegionId, FieldSet)>, model: RegionEntries)
    reads set i | 0 <= i < |regionArgs| :: regionArgs[i].1
    reads set i, o | 0 <= i < |regionArgs| && o in regionArgs[i].1.Repr :: o
  {
    |regionArgs| == |model|
    && forall i :: 0 <= i < |regionArgs| ==>
         regionArgs[i].0 == model[i].0 && regionArgs[i].1.Valid() && regionArgs[i].1.Model == model[i].1
  }

  /** `field_set.coalesce()` for the region after the grouped ones. */
  method GroupNext(regionArgs: seq<(RegionId, FieldSet)>, ghost model: RegionEntries, ghost segs: seq<seq<Group>>, i: nat)
    returns (grouped: Result<seq<Group>>)
    requires Agrees(regionArgs, model) && GroupedUpTo(model, segs) && i == |segs| < |model|
    ensures grouped.Err? ==> FirstError(model[|segs|].1) == Some(grouped.error)
    ensures grouped.Ok? ==> GroupedUpTo(model, segs + [grouped.value])
  {
    grouped := regionArgs[i].1.Coalesce();
    if grouped.Ok? {
      GroupedUpToSnoc(model, segs, grouped.value);
    }
  }

  /** After the first `|segs|` regions: their requirements follow `reqs`, numbered from its
      length. */
  ghost predicate Progress(regions: seq<RegionId>, segs: seq<seq<Group>>, reqs: seq<Requirement>, table: IndexTable,
                           reqs': seq<Requirement>, table': IndexTable)
  {
    |segs| <= |regions|
    && reqs' == reqs + AllRequirements(regions, segs)
    && table' == Numbered(table, |reqs|, AllRequirements(regions, segs))
  }

  /** The groups of the next region appended and numbered. */
  method AppendRegion(ghost regions: seq<RegionId>, ghost segs: seq<seq<Group>>, ghost reqs: seq<Requirement>, ghost table: IndexTable,
                      reqs': seq<Requirement>, table': IndexTable, region: RegionId, groups: seq<Group>)
    returns (reqs'': seq<Requirement>, table'': IndexTable)
    requires Progress(regions, segs, reqs, table, reqs', table') && |segs| < |regions| && regions[|segs|] == region
    ensures Progress(regions, segs + [groups], reqs, table, reqs'', table'')
  {
    ghost var done := AllRequirements(regions, segs);
    reqs'', table'' := AddGroups(reqs', table', region, groups);
    NumberedStep(table, |reqs|, done, table', |reqs'|, RequirementsOf(region, groups), table'');
    AllRequirementsSnoc(regions, segs, groups);
  }

  /** The loop of `_coalesce_region_requirements` over the region table. */
  method CoalesceRegions(regionArgs: seq<(RegionId, FieldSet)>, ghost model: RegionEntries, reqs: seq<Requirement>, table: IndexTable)
    returns (reqs': seq<Requirement>, table': IndexTable, o: Outcome, ghost segs: seq<seq<Group>>)
    requires Agrees(regionArgs, model)
    ensures GroupedUpTo(model, segs)
    ensures o == (if RegionError(model).None? then Pass else Fail(RegionError(model).value))
    ensures o.Pass? <==> |segs| == |model|
    ensures Progress(KeyList(model), segs, reqs, table, reqs', table')
  {
    ghost var regions := KeyList(model);
    reqs', table', o, segs := reqs, table, Pass, [];
    var i := 0;
    while i < |regionArgs|
      invariant 0 <= i <= |regionArgs| && |segs| == i
      invariant GroupedUpTo(model, segs) && Progress(regions, segs, reqs, table, reqs', table')
    {
      var grouped := GroupNext(regionArgs, model, segs, i);
      if grouped.Err? {
        RegionErrorGrouped(model, segs);
        o := Fail(grouped.error);
        return;
      }
      reqs', table' := AppendRegion(regions, segs, reqs, table, reqs', table', regionArgs[i].0, grouped.value);
      segs := segs + [grouped.value];
      i := i + 1;
    }
    RegionErrorGrouped(model, segs);
  }

  const ScalarStoreMsg := "Scalar stores must be read only"

  class TaskLauncher {
    const taskId: int
    const mapperId: int
    const tag: int
    var args: seq<Arg>
    var regionArgs: seq<(RegionId, FieldSet)>
    var regionReqs: seq<Requirement>
    var indices: IndexTable
    var futureArgs: seq<FutureId>
    var futureMapArgs: seq<FutureMapId>
    var shardingSpace: Option<SpaceId>
    var point: Option<seq<int>>
    ghost var RegionModel: RegionEntries
    ghost var Repr: set<object>

    ghost predicate Valid()
      reads this`regionArgs, this`RegionModel, this`Repr, this`args, Repr - {this}
    {
      Structure() && ArgsRecorded()
    }

    /** The field sets: owned, each valid and agreeing with the region table, regions
        distinct, and no object shared between two field sets. */
    ghost predicate Structure()
      reads this`regionArgs, this`RegionModel, this`Repr, Repr - {this}
    {
      this in Repr
      && |regionArgs| == |RegionModel|
      && (forall i :: 0 <= i < |regionArgs| ==>
            regionArgs[i].1 in Repr && regionArgs[i].1.Repr <= Repr && this !in regionArgs[i].1.Repr)
      && (forall i :: 0 <= i < |regionArgs| ==>
            regionArgs[i].0 == RegionModel[i].0 && regionArgs[i].1.Valid() && regionArgs[i].1.Model == RegionModel[i].1)
      && (forall i, j :: 0 <= i < j < |regionArgs| ==>
            regionArgs[i].0 != regionArgs[j].0 && regionArgs[i].1.Repr !! regionArgs[j].1.Repr)
    }

    /** Every region-field argument names an access recorded in the region table. */
    ghost predicate ArgsRecorded()
      reads this`args, this`RegionModel
    {
      forall a :: a in args && a.RegionFieldArg? ==> Records(RegionModel, a.key, a.fieldId)
    }

    constructor (taskId: int, mapperId: int, tag: int)
      ensures Valid() && fresh(Repr)
      ensures this.taskId == taskId && this.mapperId == mapperId && this.tag == tag
      ensures args == [] && regionArgs == [] && RegionModel == [] && regionReqs == [] && indices == map[]
      ensures futureArgs == [] && futureMapArgs == [] && shardingSpace.None? && point.None?
    {
      this.taskId := taskId;
      this.mapperId := mapperId;
      this.tag := tag;
      args := [];
      regionArgs := [];
      regionReqs := [];
      indices := map[];
      futureArgs := [];
      futureMapArgs := [];
      shardingSpace := None;
      point := None;
      RegionModel := [];
      Repr := {this};
    }

    /** `add_scalar_arg` with a scalar type. */
    method AddScalarArg(v: Scalar, dtype: TypeKey)
      requires Valid()
      modifies this`args
      ensures Valid() && args == old(args) + [ScalarArg(v, dtype)]
    {
      args := args + [ScalarArg(v, dtype)];
    }

    /** `add_scalar_arg` with a tuple or list of element types. */
    method AddArrayArg(vs: seq<Scalar>, dtypes: seq<TypeKey>)
      requires Valid()
      modifies this`args
      ensures Valid() && args == old(args) + [ArrayArg(vs, dtypes)]
    {
      args := args + [ArrayArg(vs, dtypes)];
    }

    /** `add_dtype_arg`. */
    method AddDtypeArg(d: DtypeCode)
      requires Valid()
      modifies this`args
      ensures Valid() && args == old(args) + [DtypeArg(d)]
    {
      args := args + [DtypeArg(d)];
    }

    /** `add_point`. */
    method AddPoint(pt: seq<int>, untyped: bool)
      requires Valid()
      modifies this`args
      ensures Valid() && args == old(args) + [PointArg(pt, untyped)]
    {
      args := args + [PointArg(pt, untyped)];
    }

    /** `add_future`. */
    method AddFuture(f: FutureId)
      requires Valid()
      modifies this`futureArgs
      ensures Valid() && futureArgs == old(futureArgs) + [f]
    {
      futureArgs := futureArgs + [f];
    }

    /** `add_future_map`. */
    method AddFutureMap(fm: FutureMapId)
      requires Valid()
      modifies this`futureMapArgs
      ensures Valid() && futureMapArgs == old(futureMapArgs) + [fm]
    {
      futureMapArgs := futureMapArgs + [fm];
    }

    /** `set_sharding_space`. */
    method SetShardingSpace(space: SpaceId)
      requires Valid()
      modifies this`shardingSpace
      ensures Valid() && shardingSpace == Some(space)
    {
      shardingSpace := Some(space);
    }

    /** `set_point`. */
    method SetPoint(pt: seq<int>)
      requires Valid()
      modifies this`point
      ensures Valid() && point == Some(pt)
    {
      point := Some(pt);
    }

    /** `add_shape`: the arguments of `ShapeArgs`, up to the failing assertion. */
    method AddShape(shape: seq<int>, chunk: Option<seq<int>>, proj: Option<int>) returns (o: Outcome)
      requires Valid()
      modifies this`args
      ensures Valid() && (args, o) == (old(args) + ShapeArgs(shape, chunk, proj).0, ShapeArgs(shape, chunk, proj).1)
    {
      if chunk.Some? && |shape| != |chunk.value| {
        assert args + [] == args;
        return Fail(AssertionError);
      }
      AddArrayArg(Ints(shape), [Known(Int64)]);
      if chunk.Some? {
        if proj.None? {
          return Fail(AssertionError);
        }
        AddScalarArg(I(proj.value), Known(Int32));
        AddArrayArg(Ints(chunk.value), [Known(Int64)]);
        assert args == old(args) + ([ArrayArg(Ints(shape), [Known(Int64)])]
                                    + [ScalarArg(I(proj.value), Known(Int32)), ArrayArg(Ints(chunk.value), [Known(Int64)])]);
      } else {
        if proj.Some? {
          return Fail(AssertionError);
        }
        AddScalarArg(I(-1), Known(Int32));
        assert args == old(args) + ([ArrayArg(Ints(shape), [Known(Int64)])] + [ScalarArg(I(-1), Known(Int32))]);
      }
      o := Pass;
    }
  
    /** `add_store`: the five header arguments, then the future (READ only), or the access
        recorded in the region's field set followed by the region-field argument. When the
        insertion raises, the field set keeps what it recorded and no argument follows. */
    method AddStore(s: Store, proj: Proj, perm: Permission, tag: int, flags: int) returns (o: Outcome)
      requires Valid()
      modifies Repr - {this}, this`args, this`futureArgs, this`regionArgs, this`RegionModel, this`Repr
      ensures Valid() && fresh(Repr - old(Repr))
      ensures s.storage.FutureBacked? ==>
                RegionModel == old(RegionModel) && args == old(args) + StoreHeader(s)
                && (perm == Read ==> o == Pass && futureArgs == old(futureArgs) + [s.storage.future])
                && (perm != Read ==> o == Fail(ValueError(ScalarStoreMsg)) && futureArgs == old(futureArgs))
      ensures s.storage.RegionBacked? ==>
                (RegionModel, o) == RegionInsert(old(RegionModel), s.storage.region, s.storage.field, perm, ProjInfo(proj, tag, flags))
                && futureArgs == old(futureArgs)
                && args == old(args) + StoreHeader(s)
                           + (if o.Pass? then [RegionFieldArg(s.storage.regionDim, proj.redop, StoreKey(s, proj, perm, tag, flags), s.storage.field, s.transform)] else [])
    {
      AddStoreHeader(s);
      if s.storage.FutureBacked? {
        if perm != Read {
          return Fail(ValueError(ScalarStoreMsg));
        }
        AddFuture(s.storage.future);
        return Pass;
      }
      o := AddRegionStore(s, proj, perm, tag, flags);
    }

    /** The five arguments `add_store` records first: whether the store is a future, its
        dimension, its type and its shape. */
    method AddStoreHeader(s: Store)
      requires Valid()
      modifies this`args
      ensures Valid() && args == old(args) + StoreHeader(s)
    {
      AddScalarArg(B(s.storage.FutureBacked?), Known(Bool));
      AddScalarArg(I(s.ndim), Known(Int32));
      AddDtypeArg(s.dtype);
      var o := AddShape(s.shape, None, None);
    }

    /** The region part of `add_store`: the access recorded in the region's field set, then
        the region-field argument when the insertion passes. */
    method AddRegionStore(s: Store, proj: Proj, perm: Permission, tag: int, flags: int) returns (o: Outcome)
      requires Valid() && s.storage.RegionBacked?
      modifies Repr - {this}, this`args, this`regionArgs, this`RegionModel, this`Repr
      ensures Valid() && fresh(Repr - old(Repr))
      ensures (RegionModel, o) == RegionInsert(old(RegionModel), s.storage.region, s.storage.field, perm, ProjInfo(proj, tag, flags))
      ensures args == old(args) + (if o.Pass? then [RegionFieldArg(s.storage.regionDim, proj.redop, StoreKey(s, proj, perm, tag, flags), s.storage.field, s.transform)] else [])
    {
      var key := StoreKey(s, proj, perm, tag, flags);
      ghost var m0 := RegionModel;
      o := InsertAccess(s.storage.region, s.storage.field, perm, ProjInfo(proj, tag, flags));
      if o.Pass? {
        RegionInsertRecords(m0, key, s.storage.field, key, s.storage.field);
        AddRegionFieldArg(RegionFieldArg(s.storage.regionDim, proj.redop, key, s.storage.field, s.transform));
      } else {
        assert args == old(args) + [];
      }
    }

    /** The `RegionFieldArg` of `add_store`, for an access already recorded. */
    method AddRegionFieldArg(a: Arg)
      requires Valid() && a.RegionFieldArg? && Records(RegionModel, a.key, a.fieldId)
      modifies this`args
      ensures Valid() && args == old(args) + [a]
    {
      args := args + [a];
    }

    /** The region part of `add_store`: fetch or create the region's field set and insert the
        access into it. Every access recorded before stays recorded. */
    method InsertAccess(region: RegionId, fid: FieldId, perm: Permission, info: ProjInfo) returns (o: Outcome)
      requires Valid()
      modifies Repr - {this}, this`regionArgs, this`RegionModel, this`Repr
      ensures Valid() && fresh(Repr - old(Repr))
      ensures (RegionModel, o) == RegionInsert(old(RegionModel), region, fid, perm, info)
    {
      ghost var m0 := RegionModel;
      FindKeysAgree(regionArgs, RegionModel, region);
      var found := Find(regionArgs, region);
      if found.Some? {
        RegionInsertFound(RegionModel, found.value, region, fid, perm, info);
        o := InsertExisting(found.value, fid, perm, info);
      } else {
        RegionInsertNew(RegionModel, region, fid, perm, info);
        o := InsertNew(region, fid, perm, info);
      }
      forall a | a in args && a.RegionFieldArg? ensures Records(RegionModel, a.key, a.fieldId) {
        RegionInsertRecords(m0, RegionReq(region, perm, info.proj, info.tag, info.flags), fid, a.key, a.fieldId);
      }
    }
  
    /** Inserts into the field set of the `i`-th region. */
    method InsertExisting(i: nat, fid: FieldId, perm: Permission, info: ProjInfo) returns (o: Outcome)
      requires Structure() && i < |regionArgs|
      modifies regionArgs[i].1.Repr, this`RegionModel, this`Repr
      ensures Structure() && fresh(Repr - old(Repr))
      ensures RegionModel == old(RegionModel)[i := (old(RegionModel)[i].0, FieldInsert(old(RegionModel)[i].1, fid, perm, info).0)]
      ensures o == FieldInsert(old(RegionModel)[i].1, fid, perm, info).1
    {
      var fs := regionArgs[i].1;
      ghost var before := fs.Repr;
      o := fs.Insert(fid, perm, info);
      forall j | 0 <= j < |regionArgs| && j != i
        ensures regionArgs[j].1.Repr == old(regionArgs[j].1.Repr) && regionArgs[j].1.Repr !! fs.Repr
        ensures regionArgs[j].1.Valid() && regionArgs[j].1.Model == RegionModel[j].1
      {
        assert regionArgs[j].1.Repr !! before;
      }
      forall a, b | 0 <= a < b < |regionArgs| ensures regionArgs[a].1.Repr !! regionArgs[b].1.Repr {
      }
      RegionModel := RegionModel[i := (regionArgs[i].0, fs.Model)];
      Repr := Repr + fs.Repr;
      forall k | 0 <= k < |regionArgs|
        ensures regionArgs[k].1 in Repr && regionArgs[k].1.Repr <= Repr && this !in regionArgs[k].1.Repr
        ensures regionArgs[k].1.Valid() && regionArgs[k].1.Model == RegionModel[k].1
      {
        if k == i {
          assert this !in before;
        }
      }
    }

    /** Creates the field set of a new region, then inserts into it. */
    method InsertNew(region: RegionId, fid: FieldId, perm: Permission, info: ProjInfo) returns (o: Outcome)
      requires Structure() && Find(RegionModel, region).None?
      modifies this`regionArgs, this`RegionModel, this`Repr
      ensures Structure() && fresh(Repr - old(Repr))
      ensures RegionModel == old(RegionModel) + [(region, FieldInsert([], fid, perm, info).0)]
      ensures o == FieldInsert([], fid, perm, info).1
    {
      var fs;
      fs, o := NewFieldSet(fid, perm, info);
      FindKeysAgree(regionArgs, RegionModel, region);
      forall j | 0 <= j < |regionArgs| ensures regionArgs[j].1.Repr !! fs.Repr && regionArgs[j].0 != region {
        assert regionArgs[j].1.Repr <= Repr;
      }
      ghost var n := |regionArgs|;
      regionArgs, RegionModel, Repr := regionArgs + [(region, fs)], RegionModel + [(region, fs.Model)], Repr + fs.Repr;
      forall k | 0 <= k < n
        ensures regionArgs[k].1 in Repr && regionArgs[k].1.Repr <= Repr && this !in regionArgs[k].1.Repr
        ensures regionArgs[k].0 == RegionModel[k].0 && regionArgs[k].1.Valid() && regionArgs[k].1.Model == RegionModel[k].1
      {
      }
      forall a, b | 0 <= a < b < |regionArgs|
        ensures regionArgs[a].0 != regionArgs[b].0 && regionArgs[a].1.Repr !! regionArgs[b].1.Repr
      {
      }
    }
    /** `_coalesce_region_requirements`: region by region in dict order, each group of the
        region's field set becomes a requirement numbered by the current length of
        `_region_reqs`, and each of its fields is indexed under that number. A field set whose
        `coalesce` raises ends the loop, the earlier regions' requirements already added. */
    method CoalesceRegionRequirements() returns (o: Outcome, ghost segs: seq<seq<Group>>)
      requires Valid()
      modifies this`regionReqs, this`indices
      ensures |segs| <= |RegionModel|
      ensures forall j :: 0 <= j < |segs| ==>
                FirstError(RegionModel[j].1).None? && IsGrouping(KeyView(RegionModel[j].1), segs[j])
      ensures o == (if RegionError(RegionModel).None? then Pass else Fail(RegionError(RegionModel).value))
      ensures o.Pass? <==> |segs| == |RegionModel|
      ensures regionReqs == old(regionReqs) + AllRequirements(KeyList(RegionModel), segs)
      ensures indices == Numbered(old(indices), |old(regionReqs)|, AllRequirements(KeyList(RegionModel), segs))
      ensures o.Pass? ==> forall a :: a in args && a.RegionFieldArg? ==> RequirementIndex(indices, a.key, a.fieldId).Ok?
    {
      ghost var table, base := indices, |regionReqs|;
      regionReqs, indices, o, segs := CoalesceRegions(regionArgs, RegionModel, regionReqs, indices);
      AllGroupedAt(RegionModel, segs);
      if o.Pass? {
        assert DistinctKeys(RegionModel);
        ArgsResolve(RegionModel, args, segs, table, base);
      }
    }

    /** `build_task`: coalesce, pack every argument into `argbuf` in order, then describe an
        index launch over `domain`, adding each requirement (which checks its reduction
        operator), the futures and the future maps. */
    method BuildTask(domain: seq<int>, buf: BufferBuilder) returns (r: Result<Launch>, ghost segs: seq<seq<Group>>)
      requires Valid()
      modifies this`regionReqs, this`indices, buf
      ensures |segs| <= |RegionModel|
      ensures regionReqs == old(regionReqs) + AllRequirements(KeyList(RegionModel), segs)
      ensures indices == Numbered(old(indices), |old(regionReqs)|, AllRequirements(KeyList(RegionModel), segs))
      ensures forall j :: 0 <= j < |segs| ==> IsGrouping(KeyView(RegionModel[j].1), segs[j])
      ensures RegionError(RegionModel).Some? ==> r == Err(RegionError(RegionModel).value) && buf.tokens == old(buf.tokens)
      ensures RegionError(RegionModel).None? ==>
                |segs| == |RegionModel|
                && buf.tokens == old(buf.tokens) + EncodeArgs(args, indices).0
                && r == (if EncodeArgs(args, indices).1.Fail? then Err(EncodeArgs(args, indices).1.error)
                         else if !AllMaterialize(regionReqs) then Err(AssertionError)
                         else Ok(Launch(IndexLaunch(domain), taskId, mapperId, tag, buf.tokens, regionReqs,
                                        futureArgs, futureMapArgs, shardingSpace, None, false)))
      ensures r.Ok? ==> |old(buf.tokens)| <= |r.value.argBlock|
                        && (forall i :: 0 <= i < |args| ==> Meaning(args[i], indices).Some?)
                        && DecodeAll(KindsOf(Meanings(args, indices)), r.value.argBlock[|old(buf.tokens)|..]) == Some(Meanings(args, indices))
    {
      var o;
      o, segs := CoalesceRegionRequirements();
      if o.Fail? {
        return Err(o.error), segs;
      }
      o := PackAll(args, indices, buf);
      if o.Fail? {
        return Err(o.error), segs;
      }
      o := AddRequirements();
      if o.Fail? {
        return Err(o.error), segs;
      }
      DecodeEncodeArgs(args, indices);
      assert buf.tokens[|old(buf.tokens)|..] == EncodeArgs(args, indices).0;
      r := Ok(Launch(IndexLaunch(domain), taskId, mapperId, tag, buf.tokens, regionReqs,
                     futureArgs, futureMapArgs, shardingSpace, None, false));
    }

    /** `build_single_task`: as `build_task`, for a single task; it keeps the point, takes no
        future maps, and is a local function when no region was touched. */
    method BuildSingleTask(buf: BufferBuilder) returns (r: Result<Launch>, ghost segs: seq<seq<Group>>)
      requires Valid()
      modifies this`regionReqs, this`indices, buf
      ensures |segs| <= |RegionModel|
      ensures regionReqs == old(regionReqs) + AllRequirements(KeyList(RegionModel), segs)
      ensures indices == Numbered(old(indices), |old(regionReqs)|, AllRequirements(KeyList(RegionModel), segs))
      ensures forall j :: 0 <= j < |segs| ==> IsGrouping(KeyView(RegionModel[j].1), segs[j])
      ensures RegionError(RegionModel).Some? ==> r == Err(RegionError(RegionModel).value) && buf.tokens == old(buf.tokens)
      ensures RegionError(RegionModel).None? ==>
                |segs| == |RegionModel|
                && buf.tokens == old(buf.tokens) + EncodeArgs(args, indices).0
                && r == (if EncodeArgs(args, indices).1.Fail? then Err(EncodeArgs(args, indices).1.error)
                         else if !AllMaterialize(regionReqs) then Err(AssertionError)
                         else Ok(Launch(SingleLaunch, taskId, mapperId, tag, buf.tokens, regionReqs,
                                        futureArgs, [], shardingSpace, point, |RegionModel| == 0)))
      ensures r.Ok? ==> |old(buf.tokens)| <= |r.value.argBlock|
                        && (forall i :: 0 <= i < |args| ==> Meaning(args[i], indices).Some?)
                        && DecodeAll(KindsOf(Meanings(args, indices)), r.value.argBlock[|old(buf.tokens)|..]) == Some(Meanings(args, indices))
    {
      var o;
      o, segs := CoalesceRegionRequirements();
      if o.Fail? {
        return Err(o.error), segs;
      }
      o := PackAll(args, indices, buf);
      if o.Fail? {
        return Err(o.error), segs;
      }
      o := AddRequirements();
      if o.Fail? {
        return Err(o.error), segs;
      }
      DecodeEncodeArgs(args, indices);
      assert buf.tokens[|old(buf.tokens)|..] == EncodeArgs(args, indices).0;
      r := Ok(Launch(SingleLaunch, taskId, mapperId, tag, buf.tokens, regionReqs,
                     futureArgs, [], shardingSpace, point, |regionArgs| == 0));
    }

    /** The loop `req.proj.add(task, req, fields)` over `_region_reqs`, stopping at the first
        requirement whose descriptor carries a reduction operator without REDUCTION. */
    method AddRequirements() returns (o: Outcome)
      ensures o.Pass? <==> AllMaterialize(regionReqs)
      ensures o.Fail? ==> o.error == AssertionError
    {
      var k := 0;
      while k < |regionReqs|
        invariant 0 <= k <= |regionReqs|
        invariant forall j :: 0 <= j < k ==> MaterializeOutcome(regionReqs[j].0).Pass?
      {
        o := MaterializeOutcome(regionReqs[k].0);
        if o.Fail? {
          return;
        }
        k := k + 1;
      }
      o := Pass;
    }
  }
}
