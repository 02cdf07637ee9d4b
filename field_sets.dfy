/** `FieldSet` (legate/core/launcher.py:304-326): for one region, the dict from field id to its
    projection set, and `coalesce`, which groups the fields by the key each of them coalesces
    to. */
module FieldSets {
  import opened Errors
  import opened Dicts
  import opened LaunchTypes
  import opened ProjectionSets

  /** `_fields` as values: field id -> the entries of its projection set, in first-insertion
      order. */
  type FieldEntries = seq<(FieldId, Entries)>

  /** Each field with the keys it coalesces to. */
  type FieldKeyView = seq<(FieldId, set<Key>)>

  /** One entry of the dict `coalesce` returns: a key and the fields requesting it. */
  type Group = (Key, seq<FieldId>)

  /** `FieldSet.insert` on values: the field's projection set is created empty when missing
      (and stays in the dict even when the insertion raises), then receives the access. */
  function FieldInsert(fe: FieldEntries, fid: FieldId, perm: Permission, info: ProjInfo): (FieldEntries, Outcome)
  {
    var (es, o) := InsertPerm(Get(fe, fid, []), perm, info);
    (Put(fe, fid, es), o)
  }

  /** What the grouping loop makes of one field's `coalesce()`: its keys, or the exception.
      The raw fall-through pairs hold a Python `set`, so the first `key in coalesced` raises
      TypeError (unhashable); no raw pairs at all means no key. */
  function FieldKeys(es: Entries): Result<set<Key>>
  {
    KeysFrom(CoalesceEntries(es))
  }

  function KeysFrom(c: Result<Coalesced>): Result<set<Key>>
  {
    match c
    case Err(e) => Err(e)
    case Ok(Keys(ks)) => Ok(ks)
    case Ok(Raw(pairs)) => if pairs == [] then Ok({}) else Err(TypeError)
  }

  /** The keys of a field that coalesces without error. */
  function KeysOf(es: Entries): set<Key>
  {
    if FieldKeys(es).Ok? then FieldKeys(es).value else {}
  }

  function KeyView(fe: FieldEntries): (kv: FieldKeyView)
    ensures |kv| == |fe|
    ensures forall i :: 0 <= i < |fe| ==> kv[i] == (fe[i].0, KeysOf(fe[i].1))
  {
    seq(|fe|, i requires 0 <= i < |fe| => (fe[i].0, KeysOf(fe[i].1)))
  }

  /** What coalescing each field makes, in dict order. */
  function Results(fe: FieldEntries): (rs: seq<Result<set<Key>>>)
    ensures |rs| == |fe| && forall i :: 0 <= i < |fe| ==> rs[i] == FieldKeys(fe[i].1)
  {
    seq(|fe|, i requires 0 <= i < |fe| => FieldKeys(fe[i].1))
  }

  /** The exception of the first outcome that is one. */
  function FirstErr(rs: seq<Result<set<Key>>>): Option<Error>
  {
    if rs == [] then None
    else match FirstErr(rs[..|rs| - 1])
      case Some(e) => Some(e)
      case None => if rs[|rs| - 1].Err? then Some(rs[|rs| - 1].error) else None
  }

  /** The exception of the first field, in dict order, whose coalescing raises. */
  function FirstError(fe: FieldEntries): Option<Error>
  {
    FirstErr(Results(fe))
  }

  /** Every key some field coalesces to. */
  function KeysIn(kv: FieldKeyView): set<Key>
  {
    if kv == [] then {} else KeysIn(kv[..|kv| - 1]) + kv[|kv| - 1].1
  }

  /** The fields whose keys include `k`, in dict order. */
  function Members(kv: FieldKeyView, k: Key): seq<FieldId>
  {
    if kv == [] then []
    else Members(kv[..|kv| - 1], k) + if k in kv[|kv| - 1].1 then [kv[|kv| - 1].0] else []
  }

  /** The position of the first field whose keys include `k` (the last position when none
      does). */
  function FirstField(kv: FieldKeyView, k: Key): (r: nat)
    ensures kv != [] ==> r < |kv|
  {
    if kv == [] then 0
    else
      var n := |kv| - 1;
      if k in KeysIn(kv[..n]) then FirstField(kv[..n], k) else n
  }

  /** The first field of each key of `groups`, in order. */
  function Ranks(kv: FieldKeyView, groups: seq<Group>): (r: seq<nat>)
    ensures |r| == |groups|
  {
    seq(|groups|, i requires 0 <= i < |groups| => FirstField(kv, groups[i].0))
  }

  ghost predicate Sorted(r: seq<int>)
  {
    forall i, j :: 0 <= i < j < |r| ==> r[i] <= r[j]
  }

  /** The keys of `groups` come in the order of the first field requesting them. */
  ghost predicate InOrder(kv: FieldKeyView, groups: seq<Group>)
  {
    Sorted(Ranks(kv, groups))
  }

  /** `groups` is what `coalesce` returns for `kv`: one entry per key that some field coalesces
      to, no key twice, each key listing exactly the fields that request it in dict order, and
      the keys ordered by the first field requesting them (keys of one field come in set
      order). */
  ghost predicate IsGrouping(kv: FieldKeyView, groups: seq<Group>)
  {
    DistinctKeys(groups)
    && KeySet(groups) == KeysIn(kv)
    && (forall i :: 0 <= i < |groups| ==> groups[i].1 == Members(kv, groups[i].0))
    && InOrder(kv, groups)
  }

  /** The body of the inner loop: `coalesced[key].append(field_id)` when the key is present,
      `coalesced[key] = [field_id]` otherwise. */
  function AddMember(groups: seq<Group>, k: Key, fid: FieldId): seq<Group>
  {
    Put(groups, k, Get(groups, k, []) + [fid])
  }

  /** The access `(perm, info)` has been recorded for field `fid`. */
  ghost predicate FieldCovers(fe: FieldEntries, fid: FieldId, perm: Permission, info: ProjInfo)
  {
    Covers(Get(fe, fid, []), perm, info)
  }

  // ----- facts about the grouping -----

  lemma {:induction false} KeysInIff(kv: FieldKeyView, k: Key)
    ensures k in KeysIn(kv) <==> exists i :: 0 <= i < |kv| && k in kv[i].1
  {
    if kv != [] {
      var n := |kv| - 1;
      KeysInIff(kv[..n], k);
      if k in KeysIn(kv[..n]) {
        var i :| 0 <= i < n && k in kv[..n][i].1;
        assert k in kv[i].1;
      }
      if exists i :: 0 <= i < |kv| && k in kv[i].1 {
        var i :| 0 <= i < |kv| && k in kv[i].1;
        if i < n { assert k in kv[..n][i].1; }
      }
    }
  }

  /** A field is listed for a key exactly when its keys include it. */
  lemma {:induction false} MembersIff(kv: FieldKeyView, k: Key, fid: FieldId)
    ensures fid in Members(kv, k) <==> exists i :: 0 <= i < |kv| && kv[i].0 == fid && k in kv[i].1
  {
    if kv != [] {
      var n := |kv| - 1;
      MembersIff(kv[..n], k, fid);
      if fid in Members(kv[..n], k) {
        var i :| 0 <= i < n && kv[..n][i].0 == fid && k in kv[..n][i].1;
        assert kv[i].0 == fid && k in kv[i].1;
      }
      if exists i :: 0 <= i < |kv| && kv[i].0 == fid && k in kv[i].1 {
        var i :| 0 <= i < |kv| && kv[i].0 == fid && k in kv[i].1;
        if i < n { assert kv[..n][i].0 == fid && k in kv[..n][i].1; }
      }
    }
  }

  /** A key no field coalesces to has no members. */
  lemma {:induction false} MembersOutside(kv: FieldKeyView, k: Key)
    requires k !in KeysIn(kv)
    ensures Members(kv, k) == []
  {
    if kv != [] {
      MembersOutside(kv[..|kv| - 1], k);
    }
  }

  /** Appending a field that coalesces to no key changes no grouping. */
  lemma GroupingEmptyField(kv: FieldKeyView, fid: FieldId, groups: seq<Group>)
    requires IsGrouping(kv, groups)
    ensures IsGrouping(kv + [(fid, {})], groups)
  {
    var kv' := kv + [(fid, {})];
    assert kv'[..|kv'| - 1] == kv;
    assert KeysIn(kv') == KeysIn(kv);
    forall k | k in KeysIn(kv) ensures FirstField(kv', k) == FirstField(kv, k) && Members(kv', k) == Members(kv, k) {
    }
    forall i | 0 <= i < |groups| ensures Ranks(kv', groups)[i] == Ranks(kv, groups)[i] {
      assert groups[i].0 in KeySet(groups);
    }
    assert Ranks(kv', groups) == Ranks(kv, groups);
  }

  /** One step of the inner loop keeps the grouping exact: the last field now also coalesces
      to `k`, and `k`'s entry gains that field at its end (or is created). */
  lemma GroupingStep(kv: FieldKeyView, fid: FieldId, done: set<Key>, k: Key, groups: seq<Group>)
    requires k !in done && IsGrouping(kv + [(fid, done)], groups)
    ensures IsGrouping(kv + [(fid, done + {k})], AddMember(groups, k, fid))
  {
    var before := kv + [(fid, done)];
    var after := kv + [(fid, done + {k})];
    var g' := AddMember(groups, k, fid);
    PutKeys(groups, k, Get(groups, k, []) + [fid]);
    assert before[..|before| - 1] == kv;
    assert after[..|after| - 1] == kv;
    assert KeysIn(after) == KeysIn(before) + {k};
    forall q | q != k ensures Members(after, q) == Members(before, q) {
    }
    assert Members(after, k) == Members(before, k) + [fid] by {
      assert Members(before, k) == Members(kv, k);
    }
    AddMemberKeys(groups, k, fid);
    if k !in KeysIn(before) {
      MembersOutside(before, k);
    }
    forall i | 0 <= i < |g'| ensures g'[i].1 == Members(after, g'[i].0) {
      GetPut(groups, k, Get(groups, k, []) + [fid], g'[i].0, []);
      if g'[i].0 != k {
        FindFirst(g', g'[i].0, i);
      }
    }
    GroupingStepOrder(kv, fid, done, k, groups);
  }

  /** The ordering half of `GroupingStep`: the old keys keep their first fields and a new key's
      first field is the last one. */
  lemma GroupingStepOrder(kv: FieldKeyView, fid: FieldId, done: set<Key>, k: Key, groups: seq<Group>)
    requires IsGrouping(kv + [(fid, done)], groups)
    ensures InOrder(kv + [(fid, done + {k})], AddMember(groups, k, fid))
  {
    var before := kv + [(fid, done)];
    var after := kv + [(fid, done + {k})];
    var g' := AddMember(groups, k, fid);
    assert before[..|before| - 1] == kv && after[..|after| - 1] == kv;
    AddMemberKeys(groups, k, fid);
    var r := Ranks(before, groups);
    var r' := Ranks(after, g');
    forall i | 0 <= i < |r| ensures r'[i] == r[i] <= |kv| {
      var q := groups[i].0;
      assert FirstField(after, q) == if q in KeysIn(kv) then FirstField(kv, q) else |kv|;
    }
    if |r'| > |r| {
      assert KeysIn(before) == KeysIn(kv) + done;
      assert r'[|r|] == FirstField(after, k) == |kv|;
    }
    RanksExtend(r, r', |kv|);
  }

  /** `AddMember` keeps the keys in place and appends a key it did not have at the end. */
  lemma AddMemberKeys(groups: seq<Group>, k: Key, fid: FieldId)
    ensures var g' := AddMember(groups, k, fid);
            (|g'| == |groups| || (|g'| == |groups| + 1 && g'[|groups|].0 == k && k !in KeySet(groups)))
            && forall i :: 0 <= i < |groups| ==> g'[i].0 == groups[i].0
  {
    PutShape(groups, k, Get(groups, k, []) + [fid]);
  }

  /** Ranks stay sorted when the old ones are kept and the largest possible one is appended. */
  lemma RanksExtend(r: seq<int>, r': seq<int>, top: int)
    requires Sorted(r) && |r| <= |r'| <= |r| + 1
    requires forall i :: 0 <= i < |r| ==> r'[i] == r[i] <= top
    requires |r'| > |r| ==> r'[|r|] == top
    ensures Sorted(r')
  {
  }

  /** The first exception is `None` exactly when every outcome is a value; otherwise it is
      the exception of an outcome all of whose predecessors are values. */
  lemma {:induction false} FirstErrIsFirst(rs: seq<Result<set<Key>>>)
    ensures FirstErr(rs).None? <==> forall i :: 0 <= i < |rs| ==> rs[i].Ok?
    ensures FirstErr(rs).Some? ==> exists i :: 0 <= i < |rs| && rs[i] == Err(FirstErr(rs).value)
                                     && forall j :: 0 <= j < i ==> rs[j].Ok?
  {
    if rs != [] {
      var n := |rs| - 1;
      FirstErrIsFirst(rs[..n]);
      assert forall i :: 0 <= i < n ==> rs[..n][i] == rs[i];
      if FirstErr(rs[..n]).Some? {
        var i :| 0 <= i < n && rs[..n][i] == Err(FirstErr(rs[..n]).value)
                 && forall j :: 0 <= j < i ==> rs[..n][j].Ok?;
        assert rs[i] == Err(FirstErr(rs).value);
      }
    }
  }

  /** Once a prefix has failed, the whole sequence fails the same way. */
  lemma {:induction false} FirstErrPrefix(rs: seq<Result<set<Key>>>, i: nat)
    requires i <= |rs| && FirstErr(rs[..i]).Some?
    ensures FirstErr(rs) == FirstErr(rs[..i])
  {
    if i < |rs| {
      var n := |rs| - 1;
      assert rs[..n][..i] == rs[..i];
      FirstErrPrefix(rs[..n], i);
    } else {
      assert rs[..i] == rs;
    }
  }

  /** One step of the outer loop of `coalesce`, after a prefix without error. */
  lemma FirstErrStep(rs: seq<Result<set<Key>>>, i: nat)
    requires i < |rs| && FirstErr(rs[..i]) == None
    ensures rs[i].Err? ==> FirstErr(rs) == Some(rs[i].error)
    ensures rs[i].Ok? ==> FirstErr(rs[..i + 1]) == None
  {
    var p := rs[..i + 1];
    assert p[..i] == rs[..i] && p[i] == rs[i];
    if rs[i].Err? {
      FirstErrPrefix(rs, i + 1);
    }
  }

  /** Grouping a dict fails exactly when some field fails, with the exception of the first
      one. */
  lemma FirstErrorIsFirst(fe: FieldEntries)
    ensures FirstError(fe).None? <==> forall i :: 0 <= i < |fe| ==> FieldKeys(fe[i].1).Ok?
    ensures FirstError(fe).Some? ==> exists i :: 0 <= i < |fe| && FieldKeys(fe[i].1) == Err(FirstError(fe).value)
                                       && forall j :: 0 <= j < i ==> FieldKeys(fe[j].1).Ok?
  {
    var rs := Results(fe);
    FirstErrIsFirst(rs);
    if FirstErr(rs).Some? {
      var i :| 0 <= i < |rs| && rs[i] == Err(FirstErr(rs).value) && forall j :: 0 <= j < i ==> rs[j].Ok?;
      assert FieldKeys(fe[i].1) == Err(FirstError(fe).value);
    }
  }

  lemma KeyViewSnoc(fe: FieldEntries, i: nat)
    requires i < |fe|
    ensures KeyView(fe[..i + 1]) == KeyView(fe[..i]) + [(fe[i].0, KeysOf(fe[i].1))]
  {
    var a := KeyView(fe[..i + 1]);
    var b := KeyView(fe[..i]) + [(fe[i].0, KeysOf(fe[i].1))];
    assert |a| == |b|;
    forall j | 0 <= j < |a| ensures a[j] == b[j] {
      if j < i {
        assert fe[..i + 1][j] == fe[..i][j];
      }
    }
  }

  // ----- recorded accesses end up in a group -----

  /** `FieldSet.insert` records its access on its field, even when it raises, and keeps every
      access recorded before. */
  lemma FieldInsertRecords(fe: FieldEntries, fid: FieldId, perm: Permission, info: ProjInfo,
                           fid': FieldId, perm': Permission, info': ProjInfo)
    ensures FieldCovers(FieldInsert(fe, fid, perm, info).0, fid, perm, info)
    ensures FieldCovers(fe, fid', perm', info') ==> FieldCovers(FieldInsert(fe, fid, perm, info).0, fid', perm', info')
  {
    var es := Get(fe, fid, []);
    var es' := InsertPerm(es, perm, info).0;
    InsertRecords(es, perm, info);
    GetPut(fe, fid, es', fid, []);
    GetPut(fe, fid, es', fid', []);
    if FieldCovers(fe, fid', perm', info') && fid' == fid {
      CoversGrows(es, es', perm', info');
    }
  }

  /** NO_ACCESS next to one other permission: the raw pairs reach the grouping dict, whose
      `key in coalesced` cannot hash the descriptor set they hold, so the field fails. */
  lemma NoAccessFieldFails(es: Entries)
    requires |es| == 2 && KeySet(es) == {NoAccess, es[0].0, es[1].0} && es[0].0 != es[1].0
    ensures FieldKeys(es) == Err(TypeError)
  {
    NoAccessFallsThrough(es);
  }

  /** A recorded access shows up among the keys of its field: under its own permission, or
      promoted to READ_WRITE. */
  lemma CoveredKeyPresent(es: Entries, perm: Permission, info: ProjInfo)
    requires Covers(es, perm, info) && FieldKeys(es).Ok?
    ensures Key(perm, info) in KeysOf(es) || Key(ReadWrite, info) in KeysOf(es)
  {
    if |es| == 1 {
      CoveredSingle(es, perm, info);
    } else if |KeySet(es) - {NoAccess}| > 1 {
      CoveredPromoted(es, perm, info);
    }
  }

  /** A projection set with one bucket coalesces to that bucket's keys. */
  lemma CoveredSingle(es: Entries, perm: Permission, info: ProjInfo)
    requires |es| == 1 && Covers(es, perm, info)
    ensures Key(perm, info) in KeysUnder(es[0].0, es[0].1)
  {
    assert forall q :: Find(es, q).Some? ==> q == es[0].0;
    assert info in es[0].1;
  }

  /** The promotion branch keeps a recorded descriptor, under READ_WRITE. */
  lemma CoveredPromoted(es: Entries, perm: Permission, info: ProjInfo)
    requires Covers(es, perm, info) && |Union(es)| <= 1
    ensures Key(ReadWrite, info) in KeysUnder(ReadWrite, Union(es))
  {
    var q := if perm == ReadWrite then Read else perm;
    BucketInUnion(es, q);
  }

  /** The property the launcher relies on: an access recorded for a field, in a field set that
      groups without error, belongs to a group listing that field under the access's key or
      its READ_WRITE promotion. */
  lemma GroupedAccess(fe: FieldEntries, fid: FieldId, perm: Permission, info: ProjInfo, groups: seq<Group>)
    requires FieldCovers(fe, fid, perm, info) && FirstError(fe).None? && IsGrouping(KeyView(fe), groups)
    ensures exists i :: 0 <= i < |groups| && fid in groups[i].1
                        && (groups[i].0 == Key(perm, info) || groups[i].0 == Key(ReadWrite, info))
  {
    var j :| Find(fe, fid) == Some(j);
    FirstErrorIsFirst(fe);
    CoveredKeyPresent(fe[j].1, perm, info);
    var k := if Key(perm, info) in KeysOf(fe[j].1) then Key(perm, info) else Key(ReadWrite, info);
    var kv := KeyView(fe);
    assert k in kv[j].1;
    KeysInIff(kv, k);
    var i :| 0 <= i < |groups| && groups[i].0 == k;
    MembersIff(kv, k, fid);
  }

  /** The inner loop of `coalesce`: the keys of one field, in set order, are entered into the
      grouping dict. */
  method GroupField(ghost kv: FieldKeyView, groups: seq<Group>, fid: FieldId, ks: set<Key>) returns (r: seq<Group>)
    requires IsGrouping(kv, groups)
    ensures IsGrouping(kv + [(fid, ks)], r)
  {
    GroupingEmptyField(kv, fid, groups);
    r := groups;
    var todo := ks;
    var done: set<Key> := {};
    while todo != {}
      invariant done + todo == ks && done !! todo
      invariant IsGrouping(kv + [(fid, done)], r)
      decreases todo
    {
      var k :| k in todo;
      GroupingStep(kv, fid, done, k, r);
      r := AddMember(r, k, fid);
      done := done + {k};
      todo := todo - {k};
    }
  }

  // ----- two small scenarios -----

  /** Keys and members of two fields with one key each. */
  lemma TwoFieldFacts(kv: FieldKeyView, fa: FieldId, fb: FieldId, ka: Key, kb: Key)
    requires kv == [(fa, {ka}), (fb, {kb})]
    ensures KeysIn(kv) == {ka, kb}
    ensures ka == kb ==> Members(kv, ka) == [fa, fb]
    ensures ka != kb ==> Members(kv, ka) == [fa] && Members(kv, kb) == [fb]
    ensures ka != kb ==> FirstField(kv, ka) == 0 && FirstField(kv, kb) == 1
  {
    assert kv[..1] == [(fa, {ka})] && kv[..1][..0] == [];
    assert KeysIn(kv[..1]) == {ka};
    assert Members(kv[..1], ka) == [fa];
    assert Members(kv[..1], kb) == if ka == kb then [fa] else [];
  }

  /** Two fields with the same key: one entry listing both, in dict order. */
  lemma SharedKeyGroup(kv: FieldKeyView, fa: FieldId, fb: FieldId, k: Key, groups: seq<Group>)
    requires kv == [(fa, {k}), (fb, {k})] && IsGrouping(kv, groups)
    ensures groups == [(k, [fa, fb])]
  {
    TwoFieldFacts(kv, fa, fb, k, k);
    DistinctKeySetCard(groups);
    assert groups[0].0 in KeySet(groups);
  }

  /** Two fields with different keys: two entries, the first field's key first. */
  lemma DistinctKeyGroups(kv: FieldKeyView, fa: FieldId, fb: FieldId, ka: Key, kb: Key, groups: seq<Group>)
    requires kv == [(fa, {ka}), (fb, {kb})] && ka != kb && IsGrouping(kv, groups)
    ensures groups == [(ka, [fa]), (kb, [fb])]
  {
    TwoFieldFacts(kv, fa, fb, ka, kb);
    DistinctKeySetCard(groups);
    assert |groups| == 2;
    assert groups[0].0 in KeySet(groups) && groups[1].0 in KeySet(groups);
    assert Ranks(kv, groups)[0] <= Ranks(kv, groups)[1];
  }

  /** Field `fa` accessed with READ and then field `fb` with `perm` (READ or WRITE), through the
      same descriptor: each field coalesces to its one key. */
  lemma TwoAccessesView(fa: FieldId, fb: FieldId, perm: Permission, p: ProjInfo)
    requires fa != fb && (perm == Read || perm == Write)
    ensures var fe := FieldInsert(FieldInsert([], fa, Read, p).0, fb, perm, p).0;
            FirstError(fe) == None && KeyView(fe) == [(fa, {Key(Read, p)}), (fb, {Key(perm, p)})]
  {
    var es := [(Read, {p})];
    var es' := [(perm, {p})];
    OneAccess([], fa, Read, p);
    assert [] + [(fa, es)] == [(fa, es)];
    assert forall i :: 0 <= i < 1 ==> [(fa, es)][i].0 == fa;
    OneAccess([(fa, es)], fb, perm, p);
    assert FieldInsert(FieldInsert([], fa, Read, p).0, fb, perm, p).0 == [(fa, es), (fb, es')];
    FirstErrIsFirst(Results([(fa, es), (fb, es')]));
    PairView(fa, fb, es, es', Key(Read, p), Key(perm, p));
  }

  /** Two fields, each coalescing to one key. */
  lemma PairView(fa: FieldId, fb: FieldId, es: Entries, es': Entries, ka: Key, kb: Key)
    requires FieldKeys(es) == Ok({ka}) && FieldKeys(es') == Ok({kb})
    ensures KeyView([(fa, es), (fb, es')]) == [(fa, {ka}), (fb, {kb})]
  {
  }

  /** A READ or WRITE access recorded for a field not yet in the dict. */
  lemma OneAccess(fe: FieldEntries, fid: FieldId, perm: Permission, p: ProjInfo)
    requires fid !in KeySet(fe) && (perm == Read || perm == Write)
    ensures FieldInsert(fe, fid, perm, p) == (fe + [(fid, [(perm, {p})])], Pass)
    ensures FieldKeys([(perm, {p})]) == Ok({Key(perm, p)})
  {
    assert forall j :: 0 <= j < |fe| ==> fe[j].0 in KeySet(fe);
    assert Bucket([], perm) + {p} == {p};
    var none: Entries := [];
    PutShape(none, perm, {p});
    assert none + [(perm, {p})] == [(perm, {p})] && |{p}| == 1;
    assert AddEntry(none, perm, p) == ([(perm, {p})], Pass);
    PutShape(fe, fid, [(perm, {p})]);
    assert KeysUnder(perm, {p}) == {Key(perm, p)};
  }

  /** Two fields read through the same descriptor: one requirement covering both fields, in
      insertion order. */
  lemma SharedReadOneGroup(fa: FieldId, fb: FieldId, p: ProjInfo, groups: seq<Group>)
    requires fa != fb
    requires IsGrouping(KeyView(FieldInsert(FieldInsert([], fa, Read, p).0, fb, Read, p).0), groups)
    ensures groups == [(Key(Read, p), [fa, fb])]
  {
    TwoAccessesView(fa, fb, Read, p);
    SharedKeyGroup(KeyView(FieldInsert(FieldInsert([], fa, Read, p).0, fb, Read, p).0), fa, fb, Key(Read, p), groups);
  }

  /** One field read and another written through the same descriptor: two requirements, the
      READ one first. */
  lemma ReadThenWriteTwoGroups(fa: FieldId, fb: FieldId, p: ProjInfo, groups: seq<Group>)
    requires fa != fb
    requires IsGrouping(KeyView(FieldInsert(FieldInsert([], fa, Read, p).0, fb, Write, p).0), groups)
    ensures groups == [(Key(Read, p), [fa]), (Key(Write, p), [fb])]
  {
    TwoAccessesView(fa, fb, Write, p);
    DistinctKeyGroups(KeyView(FieldInsert(FieldInsert([], fa, Read, p).0, fb, Write, p).0), fa, fb, Key(Read, p), Key(Write, p), groups);
  }

  /** The per-region object: field id -> projection set, each updated in place. */
  class FieldSet {
    var fields: seq<(FieldId, ProjectionSet)>
    ghost var Model: FieldEntries
    ghost var Repr: set<object>

    ghost predicate Valid()
      reads this, Repr
    {
      this in Repr
      && |fields| == |Model|
      && (forall i :: 0 <= i < |fields| ==> fields[i].1 in Repr && fields[i].0 == Model[i].0)
      && (forall i :: 0 <= i < |fields| ==> fields[i].1.entries == Model[i].1)
      && (forall i, j :: 0 <= i < j < |fields| ==> fields[i].0 != fields[j].0 && fields[i].1 != fields[j].1)
    }

    constructor ()
      ensures Valid() && fresh(Repr) && Model == []
    {
      fields := [];
      Model := [];
      Repr := {this};
    }

    /** `insert`. */
    method Insert(fid: FieldId, perm: Permission, info: ProjInfo) returns (o: Outcome)
      requires Valid()
      modifies Repr
      ensures Valid() && fresh(Repr - old(Repr))
      ensures (Model, o) == FieldInsert(old(Model), fid, perm, info)
    {
      FindKeysAgree(fields, Model, fid);
      PutShape(Model, fid, InsertPerm(Get(Model, fid, []), perm, info).0);
      var found := Find(fields, fid);
      if found.Some? {
        o := InsertAt(found.value, perm, info);
      } else {
        o := Append(fid, perm, info);
      }
    }

    /** The projection set of the `i`-th field receives the access. */
    method InsertAt(i: nat, perm: Permission, info: ProjInfo) returns (o: Outcome)
      requires Valid() && i < |fields|
      modifies fields[i].1, this`Model
      ensures Valid() && Repr == old(Repr)
      ensures var (es, o') := InsertPerm(old(Model)[i].1, perm, info);
              Model == old(Model)[i := (old(Model)[i].0, es)] && o == o'
    {
      var ps := fields[i].1;
      o := ps.Insert(perm, info);
      Model := Model[i := (fields[i].0, ps.entries)];
    }

    /** A new field with an empty projection set, which then receives the access. */
    method Append(fid: FieldId, perm: Permission, info: ProjInfo) returns (o: Outcome)
      requires Valid() && Find(Model, fid).None?
      modifies this
      ensures Valid() && fresh(Repr - old(Repr))
      ensures var (es, o') := InsertPerm([], perm, info);
              Model == old(Model) + [(fid, es)] && o == o'
    {
      var ps := new ProjectionSet();
      fields := fields + [(fid, ps)];
      Repr := Repr + {ps};
      o := ps.Insert(perm, info);
      Model := Model + [(fid, ps.entries)];
    }

    /** `coalesce`: every field's keys, in dict order, are entered into the grouping dict. */
    method Coalesce() returns (r: Result<seq<Group>>)
      requires Valid()
      ensures r.Err? <==> FirstError(Model).Some?
      ensures r.Err? ==> r.error == FirstError(Model).value
      ensures r.Ok? ==> IsGrouping(KeyView(Model), r.value)
    {
      var coalesced: seq<Group> := [];
      var i := 0;
      while i < |fields|
        invariant 0 <= i <= |fields|
        invariant FirstErr(Results(Model)[..i]) == None
        invariant IsGrouping(KeyView(Model[..i]), coalesced)
      {
        var c := fields[i].1.Coalesce();
        var keys := KeysFrom(c);
        assert keys == FieldKeys(Model[i].1) && fields[i].0 == Model[i].0;
        assert keys.Ok? ==> keys.value == KeysOf(Model[i].1);
        FirstErrStep(Results(Model), i);
        KeyViewSnoc(Model, i);
        if keys.Err? {
          return Err(keys.error);
        }
        coalesced := GroupField(KeyView(Model[..i]), coalesced, fields[i].0, keys.value);
        i := i + 1;
      }
      assert Model[..i] == Model && Results(Model)[..i] == Results(Model);
      return Ok(coalesced);
    }
  }
}
