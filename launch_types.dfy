/** Value types of the launch-assembly engine (legate/core/launcher.py): permissions,
    projection descriptors, region requirements and the requirement-index lookup. */
module LaunchTypes {
  import opened Errors

  /** Access modes a task requests for a field. READ_WRITE is never stored: it is split into a
      READ and a WRITE when recorded. */
  datatype Permission = NoAccess | Read | Write | ReadWrite | Reduction

  /** Opaque handles of the execution engine. */
  type RegionId = nat
  type PartitionId = nat
  type FieldId = int

  /** A projection descriptor: broadcast the whole region, or project a partition through a
      projection functor; both may carry a reduction operator. */
  datatype Proj =
    | Broadcast(redop: Option<int>)
    | Project(part: PartitionId, functor: int, redop: Option<int>)

  /** `Broadcast.__eq__` and `Project.__eq__`: a class test, then field-by-field comparison.
      They coincide with structural equality, which the rest of the model relies on. */
  function ProjEquals(a: Proj, b: Proj): (r: bool)
    ensures r <==> a == b
  {
    match a
    case Broadcast(redop) => b.Broadcast? && redop == b.redop
    case Project(part, functor, redop) =>
      b.Project? && part == b.part && functor == b.functor && redop == b.redop
  }

  /** The `(proj, tag, flags)` triple recorded with every access. */
  datatype ProjInfo = ProjInfo(proj: Proj, tag: int, flags: int)

  /** A coalesced key `(perm, proj, tag, flags)`. */
  datatype Key = Key(perm: Permission, info: ProjInfo)

  /** A concrete region requirement `(region, permission, proj, tag, flags)`. */
  datatype RegionReq = RegionReq(region: RegionId, permission: Permission, proj: Proj, tag: int, flags: int)

  /** `RegionReq.__eq__`: the five fields compared one by one. */
  function RegionReqEquals(a: RegionReq, b: RegionReq): (r: bool)
    ensures r <==> a == b
  {
    a.region == b.region && ProjEquals(a.proj, b.proj) && a.permission == b.permission
    && a.tag == b.tag && a.flags == b.flags
  }

  /** `RegionReq(region, *key)`. */
  function ReqOf(region: RegionId, k: Key): RegionReq
  {
    RegionReq(region, k.perm, k.info.proj, k.info.tag, k.info.flags)
  }

  /** The key a requirement was built from. */
  function KeyOf(r: RegionReq): Key
  {
    Key(r.permission, ProjInfo(r.proj, r.tag, r.flags))
  }

  lemma ReqKeyRoundTrip(r: RegionReq, region: RegionId, k: Key)
    ensures ReqOf(r.region, KeyOf(r)) == r
    ensures KeyOf(ReqOf(region, k)) == k && ReqOf(region, k).region == region
  {
  }

  /** `_region_reqs_indices`: (requirement, field id) to requirement index. */
  type IndexTable = map<(RegionReq, FieldId), nat>

  /** The same requirement with its permission replaced by READ_WRITE. */
  function Promoted(key: RegionReq): RegionReq
  {
    key.(permission := ReadWrite)
  }

  /** `get_requirement_index`: the exact key first, then once more with READ_WRITE, and a
      KeyError when both are missing. */
  function RequirementIndex(table: IndexTable, key: RegionReq, field: FieldId): (r: Result<nat>)
    ensures (key, field) in table ==> r == Ok(table[(key, field)])
    ensures (key, field) !in table && (Promoted(key), field) in table ==> r == Ok(table[(Promoted(key), field)])
    ensures r.Err? <==> (key, field) !in table && (Promoted(key), field) !in table
    ensures r.Err? ==> r.error == KeyError
  {
    if (key, field) in table then Ok(table[(key, field)])
    else if (Promoted(key), field) in table then Ok(table[(Promoted(key), field)])
    else Err(KeyError)
  }

  /** The check `Broadcast.add`/`add_single` and `Project.add`/`add_single` make before calling
      the engine: a descriptor with a reduction operator is only used under REDUCTION. */
  function MaterializeOutcome(req: RegionReq): (o: Outcome)
    ensures o.Pass? <==> (req.proj.redop.Some? ==> req.permission == Reduction)
    ensures o.Fail? ==> o.error == AssertionError
  {
    if req.proj.redop.None? then Pass
    else if req.permission == Reduction then Pass
    else Fail(AssertionError)
  }
}
