/** `ProjectionSet` (legate/core/launcher.py:250-301): for one (region, field), the dict from
    permission to the set of `(proj, tag, flags)` descriptors recorded under it, with the
    write-conflict check on insertion and the permission promotion of `coalesce`. */
module ProjectionSets {
  import opened Errors
  import opened Dicts
  import opened LaunchTypes

  /** `_entries`: permission -> set of descriptors, in first-insertion order. */
  type Entries = seq<(Permission, set<ProjInfo>)>

  /** The descriptors stored under `p`; empty when `p` is not a key. */
  function Bucket(es: Entries, p: Permission): set<ProjInfo>
  {
    Get(es, p, {})
  }

  /** `_create` when `p` is absent, `_update` when it is present: the descriptor joins the
      bucket, and a WRITE bucket that now holds more than one descriptor raises. The bucket has
      already grown when the exception is raised. */
  function AddEntry(es: Entries, p: Permission, info: ProjInfo): (Entries, Outcome)
  {
    var s := Bucket(es, p) + {info};
    (Put(es, p, s), if p == Write && |s| > 1 then Fail(ValueError(InterferingMsg)) else Pass)
  }

  /** `insert`: READ_WRITE is a READ insert followed by a WRITE insert of the same descriptor. */
  function InsertPerm(es: Entries, p: Permission, info: ProjInfo): (Entries, Outcome)
  {
    if p == ReadWrite then
      var (es1, o1) := AddEntry(es, Read, info);
      if o1.Fail? then (es1, o1) else AddEntry(es1, Write, info)
    else AddEntry(es, p, info)
  }

  /** Union of every bucket, the NO_ACCESS one included. */
  function Union(es: Entries): set<ProjInfo>
  {
    if es == [] then {} else Union(es[..|es| - 1]) + es[|es| - 1].1
  }

  /** What `coalesce` returns. The list of keys is represented by the set of its elements
      (Python builds it from a set, so its order is unspecified); the fall-through case returns
      the raw `(permission, descriptor-set)` pairs. */
  datatype Coalesced = Keys(keys: set<Key>) | Raw(pairs: Entries)

  /** `coalesce`: one key per descriptor when there is one permission; one READ_WRITE key when
      two or more permissions other than NO_ACCESS are present (their descriptors must all be
      the same); otherwise the raw pairs. `pop` on an empty union raises KeyError. */
  function CoalesceEntries(es: Entries): Result<Coalesced>
  {
    if |es| == 1 then Ok(Keys(KeysUnder(es[0].0, es[0].1)))
    else if |KeySet(es) - {NoAccess}| > 1 then Promote(Union(es))
    else Ok(Raw(es))
  }

  /** `[(perm, *entry) for entry in infos]`, as a set. */
  function KeysUnder(perm: Permission, infos: set<ProjInfo>): set<Key>
  {
    set e | e in infos :: Key(perm, e)
  }

  /** The promotion branch: all descriptors must be one and the same. */
  function Promote(all: set<ProjInfo>): Result<Coalesced>
  {
    if |all| > 1 then Err(ValueError(InterferingSetMsg))
    else if all == {} then Err(KeyError)
    else Ok(Keys(KeysUnder(ReadWrite, all)))
  }

  // ----- facts about sets used below -----

  lemma CardAtLeastTwo<T>(s: set<T>, a: T, b: T)
    requires a in s && b in s && a != b
    ensures |s| >= 2
  {
    assert s == (s - {a}) + {a};
    assert b in s - {a};
  }

  lemma SingletonHasOne<T>(s: set<T>, a: T)
    requires |s| == 1 && a in s
    ensures s == {a}
  {
    forall b | b in s ensures b == a {
      if b != a { CardAtLeastTwo(s, a, b); }
    }
  }

  lemma {:induction false} KeyImageCard(p: Permission, s: set<ProjInfo>)
    ensures |KeysUnder(p, s)| == |s|
    decreases |s|
  {
    if s != {} {
      var x :| x in s;
      var rest := s - {x};
      KeyImageCard(p, rest);
      assert KeysUnder(p, s) == KeysUnder(p, rest) + {Key(p, x)};
      assert Key(p, x) !in KeysUnder(p, rest);
    }
  }

  lemma {:induction false} BucketInUnion(es: Entries, p: Permission)
    ensures Bucket(es, p) <= Union(es)
    decreases |es|
  {
    match Find(es, p)
    case None =>
    case Some(i) => UnionContains(es, i);
  }

  lemma {:induction false} UnionContains(es: Entries, i: nat)
    requires i < |es|
    ensures es[i].1 <= Union(es)
    decreases |es|
  {
    if i < |es| - 1 {
      UnionContains(es[..|es| - 1], i);
    }
  }

  // ----- insertion -----

  /** `d[p] = s` replaces the bucket of `p` and no other. */
  lemma BucketPut(es: Entries, p: Permission, s: set<ProjInfo>, q: Permission)
    ensures Bucket(Put(es, p, s), q) == if q == p then s else Bucket(es, q)
  {
    GetPut(es, p, s, q, {});
  }

  /** How one non-READ_WRITE insertion changes the buckets: only the bucket of `p` grows, by
      exactly `info`, and the insertion fails exactly when `p` is WRITE and its bucket then
      holds more than one descriptor. */
  lemma AddEntryBuckets(es: Entries, p: Permission, info: ProjInfo, q: Permission)
    ensures Bucket(AddEntry(es, p, info).0, q) == if q == p then Bucket(es, q) + {info} else Bucket(es, q)
    ensures KeySet(AddEntry(es, p, info).0) == KeySet(es) + {p}
    ensures AddEntry(es, p, info).1.Fail? <==> p == Write && |Bucket(es, p) + {info}| > 1
    ensures AddEntry(es, p, info).1.Fail? ==> AddEntry(es, p, info).1.error == ValueError(InterferingMsg)
  {
    BucketPut(es, p, Bucket(es, p) + {info}, q);
    PutKeys(es, p, Bucket(es, p) + {info});
  }

  /** A READ (or NO_ACCESS, or REDUCTION) insertion always succeeds: only WRITE buckets are
      limited to one descriptor. */
  lemma NonWriteInsertAccepts(es: Entries, p: Permission, info: ProjInfo)
    requires p == Read || p == NoAccess || p == Reduction
    ensures InsertPerm(es, p, info).1 == Pass
    ensures Bucket(InsertPerm(es, p, info).0, p) == Bucket(es, p) + {info}
  {
    AddEntryBuckets(es, p, info, p);
  }

  /** Inserting READ_WRITE is exactly inserting READ, then WRITE. */
  lemma ReadWriteIsReadThenWrite(es: Entries, info: ProjInfo)
    ensures InsertPerm(es, ReadWrite, info) == InsertPerm(InsertPerm(es, Read, info).0, Write, info)
  {
    AddEntryBuckets(es, Read, info, Read);
  }

  /** READ_WRITE never becomes a key of the dict. */
  lemma ReadWriteNeverStored(es: Entries, p: Permission, info: ProjInfo)
    requires ReadWrite !in KeySet(es)
    ensures ReadWrite !in KeySet(InsertPerm(es, p, info).0)
  {
    if p == ReadWrite {
      AddEntryBuckets(es, Read, info, Read);
      AddEntryBuckets(AddEntry(es, Read, info).0, Write, info, Write);
    } else {
      AddEntryBuckets(es, p, info, p);
    }
  }

  /** A WRITE bucket holding `a` rejects a different descriptor `b`, and the rejected
      descriptor has already been added when the exception is raised. */
  lemma WriteRejectsSecond(es: Entries, a: ProjInfo, b: ProjInfo)
    requires a in Bucket(es, Write) && a != b
    ensures InsertPerm(es, Write, b).1 == Fail(ValueError(InterferingMsg))
    ensures Bucket(InsertPerm(es, Write, b).0, Write) == Bucket(es, Write) + {b}
  {
    AddEntryBuckets(es, Write, b, Write);
    CardAtLeastTwo(Bucket(es, Write) + {b}, a, b);
  }

  /** Two different WRITE descriptors for one field always interfere, in either order and
      whatever was recorded before. */
  lemma DistinctWritesInterfere(es: Entries, a: ProjInfo, b: ProjInfo)
    requires a != b
    ensures InsertPerm(InsertPerm(es, Write, a).0, Write, b).1.Fail?
    ensures InsertPerm(InsertPerm(es, Write, b).0, Write, a).1.Fail?
  {
    AddEntryBuckets(es, Write, a, Write);
    WriteRejectsSecond(InsertPerm(es, Write, a).0, a, b);
    AddEntryBuckets(es, Write, b, Write);
    WriteRejectsSecond(InsertPerm(es, Write, b).0, b, a);
  }

  /** Re-adding the descriptor a WRITE bucket already holds alone changes nothing. */
  lemma WriteReinsertUnchanged(es: Entries, a: ProjInfo)
    requires Bucket(es, Write) == {a}
    ensures InsertPerm(es, Write, a) == (es, Pass)
  {
    var i := Find(es, Write).value;
    assert es[i] == (Write, {a});
    assert {a} + {a} == {a};
    assert es[i := (Write, {a})] == es;
  }

  // ----- coalescing -----

  /** With exactly one permission key, `coalesce` yields one key per distinct descriptor of
      that bucket, with that permission, and nothing else. */
  lemma {:induction false} CoalesceOnePermission(es: Entries)
    requires |es| == 1
    ensures CoalesceEntries(es).Ok? && CoalesceEntries(es).value.Keys?
    ensures |CoalesceEntries(es).value.keys| == |es[0].1|
    ensures forall k :: k in CoalesceEntries(es).value.keys <==> k.perm == es[0].0 && k.info in es[0].1
  {
    KeyImageCard(es[0].0, es[0].1);
  }

  /** With two or more permissions other than NO_ACCESS, `coalesce` raises when the union of
      all buckets (NO_ACCESS included) has more than one descriptor. */
  lemma CoalescePromotionInterferes(es: Entries)
    requires |es| != 1 && |KeySet(es) - {NoAccess}| > 1 && |Union(es)| > 1
    ensures CoalesceEntries(es) == Err(ValueError(InterferingSetMsg))
  {
  }

  /** With two or more permissions other than NO_ACCESS, `coalesce` yields exactly one key:
      READ_WRITE with the only descriptor of the union of all buckets. */
  lemma CoalescePromotes(es: Entries, e: ProjInfo)
    requires |es| != 1 && |KeySet(es) - {NoAccess}| > 1 && Union(es) == {e}
    ensures CoalesceEntries(es) == Ok(Keys({Key(ReadWrite, e)}))
  {
    PromoteSingleton(e);
    CoalescePromotionBranch(es);
  }

  lemma PromoteSingleton(e: ProjInfo)
    ensures Promote({e}) == Ok(Keys({Key(ReadWrite, e)}))
  {
    assert KeysUnder(ReadWrite, {e}) == {Key(ReadWrite, e)};
    assert |{e}| == 1;
  }

  lemma CoalescePromotionBranch(es: Entries)
    requires |es| != 1 && |KeySet(es) - {NoAccess}| > 1
    ensures CoalesceEntries(es) == Promote(Union(es))
  {
  }

  /** NO_ACCESS next to exactly one other permission is not coalesced: the raw pairs are
      returned as they are. */
  lemma NoAccessFallsThrough(es: Entries)
    requires |es| == 2 && KeySet(es) == {NoAccess, es[0].0, es[1].0} && es[0].0 != es[1].0
    ensures CoalesceEntries(es) == Ok(Raw(es))
  {
    assert KeySet(es) - {NoAccess} <= {es[0].0, es[1].0} - {NoAccess};
    if es[0].0 == NoAccess {
      assert KeySet(es) - {NoAccess} == {es[1].0};
    } else {
      assert KeySet(es) - {NoAccess} == {es[0].0};
    }
  }

  /** Recording READ and then WRITE of one descriptor, or READ_WRITE of it, coalesces into a
      single READ_WRITE key for it. */
  lemma ReadAndWriteSameCoalesce(a: ProjInfo)
    ensures CoalesceEntries(InsertPerm(InsertPerm([], Read, a).0, Write, a).0) == Ok(Keys({Key(ReadWrite, a)}))
    ensures CoalesceEntries(InsertPerm([], ReadWrite, a).0) == Ok(Keys({Key(ReadWrite, a)}))
  {
    var es := TwoBuckets(Read, a, Write, a);
    assert {a} + {a} == {a};
    CoalescePromotes(es, a);
    ReadWriteIsReadThenWrite([], a);
  }

  /** Recording READ of one descriptor and WRITE of another makes coalescing raise. */
  lemma ReadAndWriteDifferentInterfere(a: ProjInfo, b: ProjInfo)
    requires a != b
    ensures CoalesceEntries(InsertPerm(InsertPerm([], Read, a).0, Write, b).0) == Err(ValueError(InterferingSetMsg))
  {
    var es := TwoBuckets(Read, a, Write, b);
    CardAtLeastTwo({a, b}, a, b);
    CoalescePromotionInterferes(es);
  }

  /** Two single-descriptor inserts under different permissions into an empty dict. */
  lemma TwoBuckets(p: Permission, a: ProjInfo, q: Permission, b: ProjInfo) returns (es: Entries)
    requires p != q && p != ReadWrite && q != ReadWrite
    ensures es == InsertPerm(InsertPerm([], p, a).0, q, b).0 == [(p, {a}), (q, {b})]
    ensures KeySet(es) == {p, q} && Union(es) == {a, b}
  {
    es := [(p, {a}), (q, {b})];
    assert Bucket([], p) + {a} == {a};
    assert InsertPerm([], p, a).0 == [(p, {a})];
    assert Find([(p, {a})], q) == None;
    assert Bucket([(p, {a})], q) + {b} == {b};
    assert InsertPerm([(p, {a})], q, b).0 == es;
    AppendKeySet([(p, {a})], q, {b});
    AppendKeySet([], p, {a});
    assert es[..1] == [(p, {a})] && es[..1][..0] == [];
    assert Union(es[..1]) == {a};
  }

  // ----- what has been recorded -----

  /** The access `(perm, info)` is recorded in `es`; READ_WRITE counts as READ and WRITE. */
  ghost predicate Covers(es: Entries, perm: Permission, info: ProjInfo)
  {
    if perm == ReadWrite then info in Bucket(es, Read) && info in Bucket(es, Write)
    else info in Bucket(es, perm)
  }

  /** Every bucket of `es` is contained in the same bucket of `es'`. */
  ghost predicate Grows(es: Entries, es': Entries)
  {
    forall q :: Bucket(es, q) <= Bucket(es', q)
  }

  /** An insertion only adds: it records its own access, even when it raises, and keeps every
      access recorded before. */
  lemma InsertRecords(es: Entries, p: Permission, info: ProjInfo)
    ensures Grows(es, InsertPerm(es, p, info).0)
    ensures Covers(InsertPerm(es, p, info).0, p, info)
  {
    if p == ReadWrite {
      var es1 := AddEntry(es, Read, info).0;
      forall q ensures Bucket(es, q) <= Bucket(es1, q) { AddEntryBuckets(es, Read, info, q); }
      AddEntryBuckets(es, Read, info, Read);
      if AddEntry(es, Read, info).1.Pass? {
        var es2 := AddEntry(es1, Write, info).0;
        forall q ensures Bucket(es1, q) <= Bucket(es2, q) { AddEntryBuckets(es1, Write, info, q); }
        AddEntryBuckets(es1, Write, info, Write);
        AddEntryBuckets(es1, Write, info, Read);
      }
    } else {
      forall q ensures Bucket(es, q) <= Bucket(InsertPerm(es, p, info).0, q) {
        AddEntryBuckets(es, p, info, q);
      }
      AddEntryBuckets(es, p, info, p);
    }
  }

  lemma CoversGrows(es: Entries, es': Entries, p: Permission, info: ProjInfo)
    requires Covers(es, p, info) && Grows(es, es')
    ensures Covers(es', p, info)
  {
    assert Bucket(es, Read) <= Bucket(es', Read);
    assert Bucket(es, Write) <= Bucket(es', Write);
    assert Bucket(es, p) <= Bucket(es', p);
  }

  /** The per-(region, field) object: its one field is the dict, updated in place. */
  class ProjectionSet {
    var entries: Entries

    constructor ()
      ensures entries == []
    {
      entries := [];
    }

    /** `insert` with `_create`/`_update` inlined. */
    method Insert(perm: Permission, info: ProjInfo) returns (o: Outcome)
      modifies this
      ensures (entries, o) == InsertPerm(old(entries), perm, info)
      decreases if perm == ReadWrite then 1 else 0
    {
      if perm == ReadWrite {
        o := Insert(Read, info);
        if o.Pass? {
          o := Insert(Write, info);
        }
      } else {
        var found := Find(entries, perm);
        if found.None? {
          assert Bucket(entries, perm) + {info} == {info};
          entries := entries + [(perm, {info})];
          o := Pass;
        } else {
          var s := entries[found.value].1 + {info};
          entries := entries[found.value := (perm, s)];
          o := if perm == Write && |s| > 1 then Fail(ValueError(InterferingMsg)) else Pass;
        }
      }
    }

    /** `coalesce`; the union of the buckets is accumulated in a loop, and `pop` takes its
        only element. */
    method Coalesce() returns (r: Result<Coalesced>)
      ensures r == CoalesceEntries(entries)
    {
      if |entries| == 1 {
        var perm := entries[0].0;
        return Ok(Keys(KeysUnder(perm, entries[0].1)));
      }
      var allPerms := KeySet(entries);
      if |allPerms - {NoAccess}| > 1 {
        var all: set<ProjInfo> := {};
        var i := 0;
        while i < |entries|
          invariant 0 <= i <= |entries|
          invariant all == Union(entries[..i])
        {
          assert entries[..i + 1][..i] == entries[..i];
          all := all + entries[i].1;
          i := i + 1;
        }
        assert entries[..i] == entries;
        if |all| > 1 {
          return Err(ValueError(InterferingSetMsg));
        }
        if all == {} {
          return Err(KeyError);
        }
        var e :| e in all;
        SingletonHasOne(all, e);
        assert KeysUnder(ReadWrite, all) == {Key(ReadWrite, e)};
        return Ok(Keys({Key(ReadWrite, e)}));
      }
      return Ok(Raw(entries));
    }
  }
}
