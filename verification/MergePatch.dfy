/**
 JSON Merge Patch (section 2 of RFC 7396): merge_patch and generate_merge_patch.
 */
module MergePatch {
  import opened Wrappers
  import opened CStrings
  import opened Json
  import opened Sorting
  import opened Compare
  import opened CompareSorted
  import opened Rearranged
  import opened CompareInPlace

  // ---------- merging ----------

  /** merge_patch; None stands for a target that is not there. */
  function Merge(target: Option<JSON>, patch: JSON, cs: bool): JSON
    decreases patch
  {
    if !patch.Object? then patch
    else
      var base := if target.Some? && target.value.Object? then target.value.members else [];
      Object(MergeMembers(base, patch.members, cs))
  }

  function Lookup(ms: seq<Member>, key: CStr, cs: bool): Option<JSON> {
    var i := FindKey(ms, key, cs);
    if i < |ms| then Some(ms[i].value) else None
  }

  function MergeMembers(ms: seq<Member>, patch: seq<Member>, cs: bool): seq<Member>
    decreases patch
  {
    if patch == [] then ms
    else
      var p, rest := patch[0], Detach(ms, patch[0].key, cs);
      if p.value.Null? then MergeMembers(rest, patch[1..], cs)
      else MergeMembers(rest + [Member(p.key, Merge(Lookup(ms, p.key, cs), p.value, cs))], patch[1..], cs)
  }

  /** merge_patch with its loop. */
  method MergeInto(target: Option<JSON>, patch: JSON, cs: bool) returns (r: JSON)
    ensures r == Merge(target, patch, cs)
    decreases patch
  {
    if !patch.Object? {
      return patch;
    }
    var ms := MergeEach(if target.Some? && target.value.Object? then target.value.members else [], patch.members, cs);
    return Object(ms);
  }

  method MergeEach(members: seq<Member>, patch: seq<Member>, cs: bool) returns (ms: seq<Member>)
    ensures ms == MergeMembers(members, patch, cs)
    decreases patch, 1
  {
    ms := members;
    var i := 0;
    assert patch[0..] == patch;
    while i < |patch|
      invariant 0 <= i <= |patch|
      invariant MergeMembers(ms, patch[i..], cs) == MergeMembers(members, patch, cs)
    {
      MergeStep(ms, patch, i, cs);
      ms := MergeMember(ms, patch[i], cs);
      i := i + 1;
    }
  }

  /** The body of the loop over the members of the patch. */
  method MergeMember(ms: seq<Member>, p: Member, cs: bool) returns (r: seq<Member>)
    ensures r == if p.value.Null? then Detach(ms, p.key, cs)
                 else Detach(ms, p.key, cs) + [Member(p.key, Merge(Lookup(ms, p.key, cs), p.value, cs))]
    decreases p, 0
  {
    var j := GetObjectItem(ms, p.key, cs);
    r := if j < |ms| then ms[..j] + ms[j + 1..] else ms;
    if !p.value.Null? {
      var replacement := MergeInto(if j < |ms| then Some(ms[j].value) else None, p.value, cs);
      r := r + [Member(p.key, replacement)];
    }
  }

  lemma MergeStep(ms: seq<Member>, patch: seq<Member>, i: nat, cs: bool)
    requires i < |patch|
    ensures var p, rest := patch[i], Detach(ms, patch[i].key, cs);
            MergeMembers(ms, patch[i..], cs) ==
            if p.value.Null? then MergeMembers(rest, patch[i + 1..], cs)
            else MergeMembers(rest + [Member(p.key, Merge(Lookup(ms, p.key, cs), p.value, cs))], patch[i + 1..], cs)
  {
    assert patch[i..][0] == patch[i] && patch[i..][1..] == patch[i + 1..];
  }

  const NOTHING := Scalar(Null)

  ghost function GetField(fields: map<CStr, Tree>, k: CStr): Option<Tree> {
    if k in fields then Some(fields[k]) else None
  }

  /** The MergePatch function of section 2 of RFC 7396 on maps. */
  ghost function MergeTree(target: Option<Tree>, patch: Tree): Tree
    decreases patch
  {
    if !patch.Obj? then patch
    else
      var base := if target.Some? && target.value.Obj? then target.value.fields else map[];
      Obj(map k | k in base.Keys + patch.fields.Keys && (k in patch.fields ==> patch.fields[k] != NOTHING) ::
            if k in patch.fields then MergeTree(GetField(base, k), patch.fields[k]) else base[k])
  }

  ghost function MergeFields(base: map<CStr, Tree>, patch: map<CStr, Tree>): map<CStr, Tree> {
    map k | k in base.Keys + patch.Keys && (k in patch ==> patch[k] != NOTHING) ::
      if k in patch then MergeTree(GetField(base, k), patch[k]) else base[k]
  }

  lemma MergeFieldsRemove(base: map<CStr, Tree>, patch: map<CStr, Tree>, k: CStr)
    requires k !in patch
    ensures MergeFields(base - {k}, patch) == MergeFields(base, patch[k := NOTHING])
  {
  }

  lemma MergeFieldsUpdate(base: map<CStr, Tree>, patch: map<CStr, Tree>, k: CStr, p: Tree)
    requires k !in patch && p != NOTHING
    ensures MergeFields((base - {k})[k := MergeTree(GetField(base, k), p)], patch) == MergeFields(base, patch[k := p])
  {
    var b := (base - {k})[k := MergeTree(GetField(base, k), p)];
    assert forall x :: x in patch ==> GetField(b, x) == GetField(base, x);
  }

  lemma LookupMeaning(ms: seq<Member>, key: CStr, cs: bool)
    ensures var found := Lookup(ms, key, cs);
            GetField(CanonMembers(ms, cs), Fold(key, cs)) == if found.Some? then Some(Canon(found.value, cs)) else None
  {
    LookupIsMap(ms, key, cs);
  }

  /** merge_patch computes RFC 7396 on meanings, and keeps keys distinct. */
  lemma {:induction false} MergeMeaning(target: Option<JSON>, patch: JSON, cs: bool)
    requires DistinctKeys(patch, cs) && (target.Some? ==> DistinctKeys(target.value, cs))
    ensures DistinctKeys(Merge(target, patch, cs), cs)
    ensures Canon(Merge(target, patch, cs), cs) ==
            MergeTree(if target.Some? then Some(Canon(target.value, cs)) else None, Canon(patch, cs))
    decreases patch
  {
    if patch.Object? {
      var ms := if target.Some? && target.value.Object? then target.value.members else [];
      MergeMembersMeaning(ms, patch.members, cs);
    }
  }

  lemma {:induction false} MergeMembersMeaning(ms: seq<Member>, patch: seq<Member>, cs: bool)
    requires DistinctKeys(Object(ms), cs) && DistinctKeys(Object(patch), cs)
    ensures DistinctKeys(Object(MergeMembers(ms, patch, cs)), cs)
    ensures CanonMembers(MergeMembers(ms, patch, cs), cs) == MergeFields(CanonMembers(ms, cs), CanonMembers(patch, cs))
    decreases patch, 1
  {
    var base := CanonMembers(ms, cs);
    if patch == [] {
      assert MergeFields(base, map[]) == base;
    } else {
      var p, rest, later := patch[0], Detach(ms, patch[0].key, cs), CanonMembers(patch[1..], cs);
      var k := Fold(p.key, cs);
      HeadKeyIsNew(patch, cs);
      DetachDistinct(ms, p.key, cs);
      DetachRemovesKey(ms, p.key, cs);
      forall i | 0 <= i < |rest| ensures DistinctKeys(rest[i].value, cs) { assert rest[i] in ms; }
      if p.value.Null? {
        MergeMembersMeaning(rest, patch[1..], cs);
        MergeFieldsRemove(base, later, k);
      } else {
        var next := MergedMember(ms, p, cs);
        MergeMembersMeaning(next, patch[1..], cs);
        NotNullMeaning(p.value, cs);
        MergeFieldsUpdate(base, later, k, Canon(p.value, cs));
      }
    }
  }

  /** One member of the patch merged into the object. */
  lemma {:induction false} MergedMember(ms: seq<Member>, p: Member, cs: bool) returns (next: seq<Member>)
    requires DistinctKeys(Object(ms), cs) && DistinctKeys(p.value, cs)
    requires DistinctKeys(Object(Detach(ms, p.key, cs)), cs)
    ensures next == Detach(ms, p.key, cs) + [Member(p.key, Merge(Lookup(ms, p.key, cs), p.value, cs))]
    ensures DistinctKeys(Object(next), cs)
    ensures var k := Fold(p.key, cs);
            var merged := MergeTree(GetField(CanonMembers(ms, cs), k), Canon(p.value, cs));
            CanonMembers(next, cs) == CanonMembers(Detach(ms, p.key, cs), cs)[k := merged]
    decreases p, 0
  {
    var found := Lookup(ms, p.key, cs);
    LookupMeaning(ms, p.key, cs);
    MergeMeaning(found, p.value, cs);
    DetachDistinct(ms, p.key, cs);
    var v := Merge(found, p.value, cs);
    AppendAddsKey(Detach(ms, p.key, cs), p.key, v, cs);
    next := Detach(ms, p.key, cs) + [Member(p.key, v)];
  }

  lemma NotNullMeaning(v: JSON, cs: bool)
    ensures Canon(v, cs) == NOTHING <==> v.Null?
  {
  }

  lemma HeadKeyIsNew(ms: seq<Member>, cs: bool)
    requires ms != [] && DistinctKeys(Object(ms), cs)
    ensures Fold(ms[0].key, cs) !in CanonMembers(ms[1..], cs)
    ensures DistinctKeys(Object(ms[1..]), cs)
  {
    MapKeys(ms[1..], cs);
  }

  // ---------- generating ----------

  /** generate_merge_patch; None is the NULL it returns when there is nothing to do. */
  function GenerateMerge(from: JSON, to: JSON, cs: bool): Option<JSON>
    decreases Size(from), 1
  {
    if !to.Object? || !from.Object? then Some(to)
    else
      SortedSizes(from.members, cs);
      var patch := GenerateMembers(SortMembers(from.members, cs), SortMembers(to.members, cs), cs, Size(from));
      if patch == [] then None else Some(Object(patch))
  }

  /** The walk over the sorted members; it compares names with strcmp and recurses ignoring case. */
  function GenerateMembers(xs: seq<Member>, ys: seq<Member>, cs: bool, ghost bound: nat): seq<Member>
    requires forall i :: 0 <= i < |xs| ==> Size(xs[i].value) < bound
    decreases bound, 0, |xs| + |ys|
  {
    if xs == [] && ys == [] then []
    else if ys == [] || (xs != [] && StrCmp(xs[0].key, ys[0].key) < 0) then
      [Member(xs[0].key, Null)] + GenerateMembers(xs[1..], ys, cs, bound)
    else if xs == [] || StrCmp(xs[0].key, ys[0].key) > 0 then
      [ys[0]] + GenerateMembers(xs, ys[1..], cs, bound)
    else
      CommonPatch(xs[0], ys[0], cs, bound) + GenerateMembers(xs[1..], ys[1..], cs, bound)
  }

  /** The entry for a common key: the values are compared first, which rearranges them. */
  function CommonPatch(x: Member, y: Member, cs: bool, ghost bound: nat): seq<Member>
    requires Size(x.value) < bound
    decreases bound, 0, 0
  {
    if CompareJson(x.value, y.value, cs) then []
    else
      CompareKeeps(x.value, y.value, cs);
      var p := GenerateMerge(AfterCompare(x.value, y.value, cs), AfterCompare(y.value, x.value, cs), false);
      if p.None? then [] else [Member(y.key, p.value)]
  }

  /** What generate_merge_patch leaves of its first operand; of the second it leaves the same with the roles changed. */
  function AfterMergeDiff(v: JSON, w: JSON, cs: bool): JSON
    decreases Size(v), 1
  {
    if !v.Object? || !w.Object? then v
    else
      SortedSizes(v.members, cs);
      Object(AfterMergeWalk(SortMembers(v.members, cs), SortMembers(w.members, cs), cs, Size(v)))
  }

  function AfterMergeWalk(xs: seq<Member>, ys: seq<Member>, cs: bool, ghost bound: nat): seq<Member>
    requires forall i :: 0 <= i < |xs| ==> Size(xs[i].value) < bound
    decreases bound, 0, |xs| + |ys|
  {
    if xs == [] || ys == [] then xs
    else if StrCmp(xs[0].key, ys[0].key) < 0 then [xs[0]] + AfterMergeWalk(xs[1..], ys, cs, bound)
    else if StrCmp(xs[0].key, ys[0].key) > 0 then AfterMergeWalk(xs, ys[1..], cs, bound)
    else
      [Member(xs[0].key, AfterCommon(xs[0].value, ys[0].value, cs, bound))] +
      AfterMergeWalk(xs[1..], ys[1..], cs, bound)
  }

  function AfterCommon(v: JSON, w: JSON, cs: bool, ghost bound: nat): JSON
    requires Size(v) < bound
    decreases bound, 0, 0
  {
    CompareKeeps(v, w, cs);
    var v', w' := AfterCompare(v, w, cs), AfterCompare(w, v, cs);
    if CompareJson(v, w, cs) then v' else AfterMergeDiff(v', w', false)
  }

  /** It is only rearranged. */
  lemma {:induction false} MergeDiffKeeps(v: JSON, w: JSON, cs: bool)
    ensures Keeps(v, AfterMergeDiff(v, w, cs))
    decreases Size(v), 1
  {
    if v.Object? && w.Object? {
      var xs, ys := SortMembers(v.members, cs), SortMembers(w.members, cs);
      SortedSizes(v.members, cs);
      MergeWalkKeeps(xs, ys, cs, Size(v));
      KeepsObject(v.members, cs, AfterMergeWalk(xs, ys, cs, Size(v)));
    }
  }

  lemma {:induction false} MergeWalkKeeps(xs: seq<Member>, ys: seq<Member>, cs: bool, bound: nat)
    requires forall i :: 0 <= i < |xs| ==> Size(xs[i].value) < bound
    ensures Pairwise(xs, AfterMergeWalk(xs, ys, cs, bound))
    decreases bound, 0, |xs| + |ys|
  {
    if xs == [] || ys == [] {
    } else if StrCmp(xs[0].key, ys[0].key) < 0 {
      MergeWalkKeeps(xs[1..], ys, cs, bound);
      PairwiseCons(xs, xs[0].value, AfterMergeWalk(xs[1..], ys, cs, bound));
    } else if StrCmp(xs[0].key, ys[0].key) > 0 {
      MergeWalkKeeps(xs, ys[1..], cs, bound);
    } else {
      CommonKeeps(xs[0].value, ys[0].value, cs, bound);
      MergeWalkKeeps(xs[1..], ys[1..], cs, bound);
      PairwiseCons(xs, AfterCommon(xs[0].value, ys[0].value, cs, bound), AfterMergeWalk(xs[1..], ys[1..], cs, bound));
    }
  }

  lemma CommonKeeps(v: JSON, w: JSON, cs: bool, bound: nat)
    requires Size(v) < bound
    ensures Keeps(v, AfterCommon(v, w, cs, bound))
    decreases bound, 0, 0
  {
    CompareKeeps(v, w, cs);
    if !CompareJson(v, w, cs) {
      var v', w' := AfterCompare(v, w, cs), AfterCompare(w, v, cs);
      MergeDiffKeeps(v', w', false);
      KeepsThen(v, v', AfterMergeDiff(v', w', false));
    }
  }

  /** generate_merge_patch with its loop: the patch, and both operands as they are afterwards. */
  method GenerateMergePatch(from: JSON, to: JSON, cs: bool) returns (patch: Option<JSON>, from': JSON, to': JSON)
    ensures patch == GenerateMerge(from, to, cs)
    ensures from' == AfterMergeDiff(from, to, cs) && to' == AfterMergeDiff(to, from, cs)
    decreases Size(from), 1
  {
    if !to.Object? || !from.Object? {
      return Some(to), from, to;
    }
    SortedSizes(from.members, cs);
    SortedSizes(to.members, cs);
    var xs, ys := SortMembers(from.members, cs), SortMembers(to.members, cs);
    var members, xs', ys' := GenerateWalking(xs, ys, cs, Size(from), Size(to));
    return if members == [] then None else Some(Object(members)), Object(xs'), Object(ys');
  }

  method GenerateWalking(xs: seq<Member>, ys: seq<Member>, cs: bool, ghost bound: nat, ghost other: nat)
    returns (members: seq<Member>, xs': seq<Member>, ys': seq<Member>)
    requires forall i :: 0 <= i < |xs| ==> Size(xs[i].value) < bound
    requires forall i :: 0 <= i < |ys| ==> Size(ys[i].value) < other
    ensures members == GenerateMembers(xs, ys, cs, bound)
    ensures xs' == AfterMergeWalk(xs, ys, cs, bound) && ys' == AfterMergeWalk(ys, xs, cs, other)
    decreases bound, 0, 1
  {
    var x, y := xs, ys;
    members, xs', ys' := [], [], [];
    while x != [] || y != []
      invariant forall i :: 0 <= i < |x| ==> Size(x[i].value) < bound
      invariant forall i :: 0 <= i < |y| ==> Size(y[i].value) < other
      invariant members + GenerateMembers(x, y, cs, bound) == GenerateMembers(xs, ys, cs, bound)
      invariant xs' + AfterMergeWalk(x, y, cs, bound) == AfterMergeWalk(xs, ys, cs, bound)
      invariant ys' + AfterMergeWalk(y, x, cs, other) == AfterMergeWalk(ys, xs, cs, other)
      decreases |x| + |y|
    {
      var more, dx, dy;
      more, dx, dy, x, y := GenerateMember(x, y, cs, bound, other);
      Regroup(members, more, GenerateMembers(x, y, cs, bound));
      Regroup(xs', dx, AfterMergeWalk(x, y, cs, bound));
      Regroup(ys', dy, AfterMergeWalk(y, x, cs, other));
      members, xs', ys' := members + more, xs' + dx, ys' + dy;
    }
  }

  /** The body of the loop: what it adds to the patch, and the members it passes. */
  method GenerateMember(x: seq<Member>, y: seq<Member>, cs: bool, ghost bound: nat, ghost other: nat)
    returns (more: seq<Member>, dx: seq<Member>, dy: seq<Member>, x': seq<Member>, y': seq<Member>)
    requires x != [] || y != []
    requires forall i :: 0 <= i < |x| ==> Size(x[i].value) < bound
    requires forall i :: 0 <= i < |y| ==> Size(y[i].value) < other
    ensures (x' == x || (x != [] && x' == x[1..])) && (y' == y || (y != [] && y' == y[1..])) && |x'| + |y'| < |x| + |y|
    ensures more + GenerateMembers(x', y', cs, bound) == GenerateMembers(x, y, cs, bound)
    ensures dx + AfterMergeWalk(x', y', cs, bound) == AfterMergeWalk(x, y, cs, bound)
    ensures dy + AfterMergeWalk(y', x', cs, other) == AfterMergeWalk(y, x, cs, other)
    decreases bound, 0, 0
  {
    var diff;
    if x != [] {
      if y != [] {
        diff := CompareStrings(x[0].key, y[0].key, true);
        StrCmpFlip(x[0].key, y[0].key);
      } else {
        diff := -1;
      }
    } else {
      diff := 1;
    }
    x', y', dx, dy := x, y, [], [];
    if diff < 0 {
      more, dx, x' := [Member(x[0].key, Null)], [x[0]], x[1..];
    } else if diff > 0 {
      more, dy, y' := [y[0]], [y[0]], y[1..];
    } else {
      var same, v, w := CompareWalking(x[0].value, y[0].value, cs);
      CompareSymmetric(x[0].value, y[0].value, cs);
      more := [];
      if !same {
        CompareKeeps(x[0].value, y[0].value, cs);
        var nested;
        nested, v, w := GenerateMergePatch(v, w, false);
        if nested.Some? {
          more := [Member(y[0].key, nested.value)];
        }
      }
      dx, dy, x', y' := [Member(x[0].key, v)], [Member(y[0].key, w)], x[1..], y[1..];
    }
  }
}
