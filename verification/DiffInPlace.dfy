/**
 What create_patches leaves of its operands: objects that face each other are sorted, and so are those under common
 keys and at common positions.
 */
module DiffInPlace {
  import opened CStrings
  import opened Json
  import opened Sorting
  import opened Compare
  import opened CompareSorted
  import opened Rearranged

  /** What is left of the first operand; of the second it is the same with the roles changed. */
  function AfterDiff(v: JSON, w: JSON, cs: bool): JSON
    decreases Size(v), 1
  {
    if !SameType(v, w) then v
    else match v
      case Array(items) =>
        Array(seq(|items|, i requires 0 <= i < |items| =>
          if i < |w.items| then AfterDiff(items[i], w.items[i], cs) else items[i]))
      case Object(ms) =>
        SortedSizes(ms, cs);
        Object(AfterDiffWalk(SortMembers(ms, cs), SortMembers(w.members, cs), cs, Size(v)))
      case _ => v
  }

  function AfterDiffWalk(xs: seq<Member>, ys: seq<Member>, cs: bool, ghost bound: nat): seq<Member>
    requires forall i :: 0 <= i < |xs| ==> Size(xs[i].value) < bound
    decreases bound, 0, |xs| + |ys|
  {
    if xs == [] || ys == [] then xs
    else if CompareKeys(xs[0].key, ys[0].key, cs) < 0 then [xs[0]] + AfterDiffWalk(xs[1..], ys, cs, bound)
    else if CompareKeys(xs[0].key, ys[0].key, cs) > 0 then AfterDiffWalk(xs, ys[1..], cs, bound)
    else
      [Member(xs[0].key, AfterDiff(xs[0].value, ys[0].value, cs))] + AfterDiffWalk(xs[1..], ys[1..], cs, bound)
  }

  /** One round of the walk, told by how the first names compare; without one of them the other one is passed. */
  lemma WalkPasses(xs: seq<Member>, ys: seq<Member>, cs: bool, bound: nat, diff: int)
    requires xs != [] || ys != []
    requires forall i :: 0 <= i < |xs| ==> Size(xs[i].value) < bound
    requires if xs == [] then diff > 0 else if ys == [] then diff < 0 else diff == CompareKeys(xs[0].key, ys[0].key, cs)
    ensures diff < 0 ==> AfterDiffWalk(xs, ys, cs, bound) == [xs[0]] + AfterDiffWalk(xs[1..], ys, cs, bound)
    ensures diff > 0 ==> AfterDiffWalk(xs, ys, cs, bound) == [] + AfterDiffWalk(xs, ys[1..], cs, bound)
    ensures diff == 0 ==>
              AfterDiffWalk(xs, ys, cs, bound) ==
              [Member(xs[0].key, AfterDiff(xs[0].value, ys[0].value, cs))] + AfterDiffWalk(xs[1..], ys[1..], cs, bound)
  {
  }

  /** The first n elements as they are left, the others untouched. */
  ghost predicate ItemsDone(xs: seq<JSON>, ys: seq<JSON>, n: nat, xs': seq<JSON>, cs: bool) {
    |xs'| == |xs| && forall j :: 0 <= j < |xs| ==>
      xs'[j] == if j < n && j < |ys| then AfterDiff(xs[j], ys[j], cs) else xs[j]
  }

  lemma ItemsLeft(xs: seq<JSON>, ys: seq<JSON>, n: nat, xs': seq<JSON>, cs: bool)
    requires ItemsDone(xs, ys, n, xs', cs) && (n >= |xs| || n >= |ys|)
    ensures Array(xs') == AfterDiff(Array(xs), Array(ys), cs)
  {
    assert xs' == AfterDiff(Array(xs), Array(ys), cs).items;
  }

  /** The operands are only rearranged. */
  lemma {:induction false} DiffKeeps(v: JSON, w: JSON, cs: bool)
    ensures Keeps(v, AfterDiff(v, w, cs))
    decreases Size(v), 1
  {
    if SameType(v, w) && v.Array? {
      var xs, r := v.items, AfterDiff(v, w, cs).items;
      forall i | 0 <= i < |xs| ensures Keeps(xs[i], r[i]) {
        if i < |w.items| {
          DiffKeeps(xs[i], w.items[i], cs);
        }
      }
      KeepsItems(xs, r);
    } else if SameType(v, w) && v.Object? {
      var xs, ys := SortMembers(v.members, cs), SortMembers(w.members, cs);
      SortedSizes(v.members, cs);
      DiffWalkKeeps(xs, ys, cs, Size(v));
      KeepsObject(v.members, cs, AfterDiffWalk(xs, ys, cs, Size(v)));
    }
  }

  lemma {:induction false} DiffWalkKeeps(xs: seq<Member>, ys: seq<Member>, cs: bool, bound: nat)
    requires forall i :: 0 <= i < |xs| ==> Size(xs[i].value) < bound
    ensures Pairwise(xs, AfterDiffWalk(xs, ys, cs, bound))
    decreases bound, 0, |xs| + |ys|
  {
    if xs == [] || ys == [] {
    } else if CompareKeys(xs[0].key, ys[0].key, cs) < 0 {
      DiffWalkKeeps(xs[1..], ys, cs, bound);
      PairwiseCons(xs, xs[0].value, AfterDiffWalk(xs[1..], ys, cs, bound));
    } else if CompareKeys(xs[0].key, ys[0].key, cs) > 0 {
      DiffWalkKeeps(xs, ys[1..], cs, bound);
    } else {
      DiffKeeps(xs[0].value, ys[0].value, cs);
      DiffWalkKeeps(xs[1..], ys[1..], cs, bound);
      PairwiseCons(xs, AfterDiff(xs[0].value, ys[0].value, cs), AfterDiffWalk(xs[1..], ys[1..], cs, bound));
    }
  }
}
