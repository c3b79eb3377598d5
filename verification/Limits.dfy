/**
 Where diff then patch ends: keys with '~' or '/'.
 */
module Limits {
  import opened Wrappers
  import opened CStrings
  import opened Json
  import opened Sorting
  import opened Compare
  import opened CompareSorted
  import opened Pointer
  import opened Patch
  import opened PatchEffect
  import opened PatchLaw

  const FILL: cchar := 'x'

  function Slashes(s: CStr): nat {
    if s == [] then 0 else (if s[0] == '/' then 1 else 0) + Slashes(s[1..])
  }

  /** From position i on the buffer holds an encoded key, up to its end. */
  ghost predicate Encoded(buf: seq<char>, i: nat, s: CStr)
    decreases s
  {
    if s == [] then i == |buf| - 1
    else
      var one := EncodeChar(s[0], FILL);
      i + |one| < |buf| && buf[i] == one[0] && (|one| == 2 ==> buf[i + 1] == '1') && Encoded(buf, i + |one|, s[1..])
  }

  lemma {:induction false} EncodedInside(buf: seq<char>, i: nat, s: CStr)
    requires Encoded(buf, i, s)
    ensures i < |buf|
  {
  }

  /** Writing behind the reading position does not touch the encoded rest. */
  lemma {:induction false} EncodedUpdate(buf: seq<char>, i: nat, s: CStr, d: nat, c: char)
    requires Encoded(buf, i, s) && d < i < |buf|
    ensures Encoded(buf[d := c], i, s)
    decreases s
  {
    if s != [] {
      EncodedInside(buf, i + |EncodeChar(s[0], FILL)|, s[1..]);
      EncodedUpdate(buf, i + |EncodeChar(s[0], FILL)|, s[1..], d, c);
    }
  }

  lemma TerminatedUpdate(buf: seq<char>, d: nat, c: char)
    requires Terminated(buf) && d < |buf| - 1 && c != '\0'
    ensures Terminated(buf[d := c])
  {
    var buf' := buf[d := c];
    forall i | 0 <= i < |buf| ensures Ends(buf', i) <==> i == |buf| - 1 {
      assert Ends(buf, i) <==> i == |buf| - 1;
    }
  }

  lemma {:induction false} EncodedBehind(p: seq<char>, s: CStr)
    ensures Encoded(p + EncodeOver(s, FILL) + ['\0'], |p|, s)
    decreases s
  {
    if s != [] {
      var one, rest := EncodeChar(s[0], FILL), EncodeOver(s[1..], FILL);
      var buf := p + EncodeOver(s, FILL) + ['\0'];
      assert buf == p + one + rest + ['\0'];
      assert buf[|p|] == one[0] && (|one| == 2 ==> buf[|p| + 1] == one[1]);
      EncodedBehind(p + one, s[1..]);
    }
  }

  /** The buffer that decoding starts from. */
  lemma {:induction false} EncodedKey(key: CStr) returns (buf: seq<char>)
    ensures buf == EncodeOver(key, FILL) + ['\0'] && Terminated(buf) && Encoded(buf, 0, key)
  {
    buf := EncodeOver(key, FILL) + ['\0'];
    EncodedBehind([], key);
    assert [] + EncodeOver(key, FILL) + ['\0'] == buf;
  }

  /** One character of the key through the decoding loop. */
  lemma {:induction false} DecodeStep(buf: seq<char>, d: nat, i: nat, s: CStr)
    requires d <= i && Encoded(buf, i, s) && s != [] && Terminated(buf)
    ensures i + |EncodeChar(s[0], FILL)| < |buf|
    ensures DecodeFrom(buf, d, i) == if s[0] == '~' then DecodeFrom(buf[d + 1 := '/'], d + 1, i + 2)
                                     else if s[0] == '/' then DecodeFrom(buf, d + 2, i + 2)
                                     else DecodeFrom(buf, d + 1, i + 1)
  {
    EncodedInside(buf, i + |EncodeChar(s[0], FILL)|, s[1..]);
    assert !Ends(buf, i);
  }

  /** A string of n characters that starts like another buffer. */
  ghost predicate Leaves(r: seq<char>, n: nat, buf: seq<char>, same: nat) {
    same <= n < |r| && |r| == |buf| && r[n] == '\0'
    && (forall k :: 0 <= k < n ==> r[k] != '\0') && (forall k :: 0 <= k < same ==> r[k] == buf[k])
  }

  /**
   What the decoding loop leaves of an encoded key: as many characters as it stepped over, those up to the
   writing position as they were.
   */
  lemma {:induction false} DecodeShape(buf: seq<char>, d: nat, i: nat, s: CStr)
    requires d <= i && Encoded(buf, i, s) && Terminated(buf)
    ensures Leaves(DecodeFrom(buf, d, i), d + |s| + Slashes(s), buf, if s == [] then d else d + 1)
    decreases |s|, 1
  {
    if s == [] {
      forall k | 0 <= k < |buf| ensures buf[k] == '\0' <==> k == |buf| - 1 {
        assert Ends(buf, k) <==> k == |buf| - 1;
      }
    } else if s[0] == '~' {
      ShapeTilde(buf, d, i, s);
    } else {
      ShapePlain(buf, d, i, s);
    }
  }

  lemma {:induction false} ShapeTilde(buf: seq<char>, d: nat, i: nat, s: CStr)
    requires d <= i && Encoded(buf, i, s) && Terminated(buf) && s != [] && s[0] == '~'
    ensures Leaves(DecodeFrom(buf, d, i), d + |s| + Slashes(s), buf, d + 1)
    decreases |s|, 0
  {
    var rest, buf' := s[1..], buf[d + 1 := '/'];
    DecodeStep(buf, d, i, s);
    EncodedUpdate(buf, i + 2, rest, d + 1, '/');
    TerminatedUpdate(buf, d + 1, '/');
    DecodeShape(buf', d + 1, i + 2, rest);
    var n := d + |s| + Slashes(s);
    assert n == d + 1 + |rest| + Slashes(rest);
    LeavesFewer(DecodeFrom(buf', d + 1, i + 2), n, buf', if rest == [] then d + 1 else d + 2, buf, d + 1);
  }

  lemma {:induction false} ShapePlain(buf: seq<char>, d: nat, i: nat, s: CStr)
    requires d <= i && Encoded(buf, i, s) && Terminated(buf) && s != [] && s[0] != '~'
    ensures Leaves(DecodeFrom(buf, d, i), d + |s| + Slashes(s), buf, d + 1)
    decreases |s|, 0
  {
    var rest, k := s[1..], |EncodeChar(s[0], FILL)|;
    DecodeStep(buf, d, i, s);
    DecodeShape(buf, d + k, i + k, rest);
    var n := d + |s| + Slashes(s);
    assert n == d + k + |rest| + Slashes(rest);
    LeavesFewer(DecodeFrom(buf, d + k, i + k), n, buf, if rest == [] then d + k else d + k + 1, buf, d + 1);
  }

  lemma LeavesFewer(r: seq<char>, n: nat, buf: seq<char>, same: nat, buf': seq<char>, same': nat)
    requires Leaves(r, n, buf, same) && same' <= same && |buf'| == |buf|
             && forall k :: 0 <= k < same' && k < |buf| ==> buf'[k] == buf[k]
    ensures Leaves(r, n, buf', same')
  {
  }

  lemma {:induction false} CStringOfLeft(r: seq<char>, n: nat)
    requires n < |r| && r[n] == '\0' && forall k :: 0 <= k < n ==> r[k] != '\0'
    ensures CStringOf(r) == r[..n]
    decreases n
  {
    if n > 0 {
      CStringOfLeft(r[1..], n - 1);
      assert r[..n] == [r[0]] + r[1..][..n - 1];
    }
  }

  lemma {:induction false} DecodedOver(key: CStr)
    ensures |DecodeToken(EncodeOver(key, FILL))| == |key| + Slashes(key)
  {
    var buf := EncodedKey(key);
    DecodeShape(buf, 0, 0, key);
    CStringOfLeft(DecodeFrom(buf, 0, 0), |key| + Slashes(key));
  }

  /** Up to the first '~' nothing happens. */
  lemma {:induction false} DecodeTo(buf: seq<char>, i: nat, j: nat, s: CStr)
    requires Encoded(buf, i, s) && j <= |s| && Clean(s[..j]) && Terminated(buf)
    ensures i + j < |buf| && Encoded(buf, i + j, s[j..]) && DecodeFrom(buf, i, i) == DecodeFrom(buf, i + j, i + j)
    decreases j
  {
    if j == 0 {
      assert s[0..] == s;
    } else {
      assert s[..j][0] == s[0];
      DecodeStep(buf, i, i, s);
      assert s[1..][..j - 1] == s[..j][1..] && s[1..][j - 1..] == s[j..];
      DecodeTo(buf, i + 1, j - 1, s[1..]);
    }
  }

  lemma {:induction false} CleanPrefix(s: CStr, j: nat)
    requires j <= |s| && Clean(s[..j])
    ensures j <= |EncodeOver(s, FILL)| && EncodeOver(s, FILL)[..j] == s[..j]
    decreases j
  {
    if j > 0 {
      assert s[..j][0] == s[0] && s[1..][..j - 1] == s[..j][1..];
      CleanPrefix(s[1..], j - 1);
      assert s[..j] == [s[0]] + s[1..][..j - 1];
    }
  }

  /** What decoding leaves of a key with its first '~' at j. */
  lemma {:induction false} TildeLeaves(buf: seq<char>, key: CStr, j: nat)
    requires Encoded(buf, 0, key) && Terminated(buf) && j < |key| && Clean(key[..j]) && key[j] == '~'
    ensures j + 2 < |buf| && buf[j] == '~'
    ensures Leaves(DecodeFrom(buf, 0, 0), |key| + Slashes(key[j + 1..]), buf[j + 1 := '/'],
                   if j + 1 == |key| then j + 1 else j + 2)
  {
    var s, rest := key[j..], key[j + 1..];
    assert s[1..] == rest;
    DecodeTo(buf, 0, j, key);
    DecodeStep(buf, j, j, s);
    EncodedUpdate(buf, j + 2, rest, j + 1, '/');
    TerminatedUpdate(buf, j + 1, '/');
    DecodeShape(buf[j + 1 := '/'], j + 1, j + 2, rest);
    assert |key| + Slashes(rest) == j + 1 + |rest| + Slashes(rest);
  }

  /** The first '~' of a key stays and what follows it becomes '/'; at the very end of the key it just stays. */
  lemma {:induction false} DecodedTilde(key: CStr, j: nat)
    requires j < |key| && Clean(key[..j]) && key[j] == '~'
    ensures var name := DecodeToken(EncodeOver(key, FILL));
            j + 1 < |key| ==> |name| > j + 1 && name[j + 1] == '/'
    ensures j + 1 == |key| ==> DecodeToken(EncodeOver(key, FILL)) == key
  {
    var buf := EncodedKey(key);
    TildeLeaves(buf, key, j);
    var r, n := DecodeFrom(buf, 0, 0), |key| + Slashes(key[j + 1..]);
    CStringOfLeft(r, n);
    if j + 1 == |key| {
      CleanPrefix(key, j);
      assert buf[..j] == key[..j] && r[..j] == buf[..j];
      assert r[..n] == r[..j] + [r[j]] && key == key[..j] + [key[j]];
    }
  }

  /** Keys the removal code can find again: without '/' and '~', or with a single '~' as their last character. */
  predicate Removable(key: CStr) {
    Clean(key) || (key != [] && key[|key| - 1] == '~' && Clean(key[..|key| - 1]))
  }

  lemma {:induction false} SlashesZero(s: CStr)
    ensures Slashes(s) == 0 <==> forall i :: 0 <= i < |s| ==> s[i] != '/'
  {
    if s != [] {
      SlashesZero(s[1..]);
      assert s == [s[0]] + s[1..];
    }
  }

  lemma {:induction false} FirstTilde(s: CStr) returns (j: nat)
    requires !Clean(s) && Slashes(s) == 0
    ensures j < |s| && s[j] == '~' && Clean(s[..j])
  {
    SlashesZero(s);
    j := 0;
    while s[j] != '~'
      invariant j < |s| && (forall i :: 0 <= i < j ==> s[i] != '~') && exists i :: j <= i < |s| && s[i] == '~'
      decreases |s| - j
    {
      j := j + 1;
    }
  }

  /** What a generated patch calls the key, over memory filled with one byte. */
  function PatchName(key: CStr): CStr { DecodeToken(EncodeToken(key, Filled(FILL))) }

  /**
   Decoding an encoded key gives a string as long as the key, and longer by one for every '/'; behind a
   '/' at the very start nothing is left of it.
   */
  lemma DecodedLength(key: CStr)
    ensures |PatchName(key)| == if key != [] && key[0] == '/' then 0 else |key| + Slashes(key)
  {
    TokenOver(key, FILL);
    if key != [] && key[0] == '/' {
      DecodeClean([]);
    } else {
      DecodedOver(key);
    }
  }

  /** The name a generated removal looks for is the key exactly for removable keys. */
  lemma RemovedName(key: CStr)
    ensures Fold(PatchName(key), false) == Fold(key, false) <==> Removable(key)
  {
    DecodedLength(key);
    if Slashes(key) > 0 {
      assert |Fold(PatchName(key), false)| != |Fold(key, false)|;
      if Removable(key) {
        RemovableSlashes(key);
      }
    } else {
      SlashesZero(key);
      TokenOver(key, FILL);
      RemovedPlain(key);
    }
  }

  lemma RemovedPlain(key: CStr)
    requires Slashes(key) == 0
    ensures Fold(DecodeToken(EncodeOver(key, FILL)), false) == Fold(key, false) <==> Removable(key)
  {
    var name := DecodeToken(EncodeOver(key, FILL));
    DecodedOver(key);
    if Clean(key) {
      TokenOver(key, FILL);
      CleanEncoding(key, Filled(FILL));
      DecodeClean(key);
    } else {
      var j := FirstTilde(key);
      DecodedTilde(key, j);
      SlashesZero(key);
      if j + 1 < |key| {
        assert Fold(name, false)[j + 1] != Fold(key, false)[j + 1];
        assert j < |key| - 1 && key[..|key| - 1][j] == '~';
      } else {
        assert key[..|key| - 1] == key[..j];
      }
    }
  }

  lemma {:induction false} NoSlashInside(s: CStr)
    ensures forall i :: 0 <= i < |EncodeOver(s, FILL)| ==> EncodeOver(s, FILL)[i] != '/'
  {
    if s != [] {
      NoSlashInside(s[1..]);
    }
  }

  lemma {:induction false} MemoryUnseen(s: CStr, mem: Memory, other: Memory, k: nat)
    requires Slashes(s) == 0
    ensures EncodeBytes(s, mem, k) == EncodeBytes(s, other, k)
    decreases s
  {
    if s != [] {
      MemoryUnseen(s[1..], mem, other, k + |EncodeChar(s[0], mem(k))|);
    }
  }

  lemma RemovableSlashes(key: CStr)
    requires Removable(key)
    ensures Slashes(key) == 0
  {
    SlashesZero(key);
    forall i | 0 <= i < |key| ensures key[i] != '/' {
      if !Clean(key) && i < |key| - 1 {
        assert key[..|key| - 1][i] == key[i];
      }
    }
  }

  /** The status of the patches for taking away the only member of an object. */
  function RemovalStatus(key: CStr, v: JSON, junk: Memory): int {
    var from := Object([Member(key, v)]);
    ApplyAll(from, PatchesFor(EditsFor([], from, Object([]), false, junk)), false).0
  }

  lemma RemovalSteps(key: CStr, v: JSON, junk: Memory)
    ensures EditsFor([], Object([Member(key, v)]), Object([]), false, junk) == [Remove([], EncodeToken(key, junk))]
  {
    var xs: seq<Member> := [Member(key, v)];
    assert SortMembers(xs, false) == xs && SortMembers([], false) == [];
    SortedSizes(xs, false);
    assert ObjectEdits([], xs[1..], [], false, junk, Size(Object(xs))) == [];
  }

  lemma {:induction false} TopLevelCut(ms: seq<Member>, enc: CStr)
    requires forall i :: 0 <= i < |enc| ==> enc[i] != '/'
    ensures DetachPath(Object(ms), "/" + enc, false).Some? <==> FindKey(ms, DecodeToken(enc), false) < |ms|
  {
    var path := "/" + enc;
    assert path[0] == '/' && path[1..] == enc && path[..0] == [];
    assert forall i :: 0 < i < |path| ==> path[i] == enc[i - 1];
    assert LastSlash(path) == Some(0);
    assert GetItem(Object(ms), [], false) == Some(Object(ms));
  }

  lemma OnlyPatch(v: JSON, patch: JSON)
    ensures ApplyAll(v, [patch], false).0 == ApplyPatch(v, patch, false).0
  {
    assert [patch][1..] == [];
  }

  lemma TokenInside(key: CStr)
    ensures forall i :: 0 <= i < |EncodeToken(key, Filled(FILL))| ==> EncodeToken(key, Filled(FILL))[i] != '/'
  {
    TokenOver(key, FILL);
    NoSlashInside(key);
  }

  lemma RemovalFinds(key: CStr, v: JSON)
    ensures RemovalStatus(key, v, Filled(FILL)) == 0 <==> Fold(PatchName(key), false) == Fold(key, false)
  {
    var enc, ms := EncodeToken(key, Filled(FILL)), [Member(key, v)];
    var path := "/" + enc;
    RemovalSteps(key, v, Filled(FILL));
    TokenInside(key);
    TopLevelCut(ms, enc);
    ApplyRemove(Object(ms), path, false);
    OnlyPatch(Object(ms), Compose(REMOVE_OP, path, None));
    assert PathOf([]) + "/" + enc == path;
    assert [Remove([], enc)][1..] == [];
    assert PatchesFor([Remove([], enc)]) == [Compose(REMOVE_OP, path, None)];
  }

  /**
   Diff then patch for the only member of an object, over every key: the removal works, whatever fresh
   memory holds, exactly for removable keys.
   */
  lemma RemovalWorksIff(key: CStr, v: JSON)
    ensures (forall junk: Memory :: RemovalStatus(key, v, junk) == 0) <==> Removable(key)
  {
    RemovedName(key);
    RemovalFinds(key, v);
    if Removable(key) {
      RemovableSlashes(key);
      forall junk: Memory ensures RemovalStatus(key, v, junk) == 0 {
        MemoryUnseen(key, BehindPath(junk), BehindPath(Filled(FILL)), 0);
        RemovalSteps(key, v, junk);
        RemovalSteps(key, v, Filled(FILL));
      }
    } else {
      assert RemovalStatus(key, v, Filled(FILL)) != 0;
    }
  }

  // ---------- the exact condition on the keys ----------

  /** No array is longer than a size_t can count. */
  predicate ArraysFit(v: JSON)
    decreases v
  {
    match v
    case Array(items) => |items| < SIZE_T_RANGE && forall i :: 0 <= i < |items| ==> ArraysFit(items[i])
    case Object(ms) => forall i :: 0 <= i < |ms| ==> ArraysFit(ms[i].value)
    case _ => true
  }

  /** Documents over these names. */
  ghost predicate Fit(v: JSON, names: iset<CStr>, cs: bool) {
    DistinctKeys(v, cs) && KeysIn(v, names) && ArraysFit(v)
  }

  ghost predicate CleanNames(names: iset<CStr>) {
    forall n :: n in names ==> Clean(n)
  }

  lemma {:induction false} FitIsPatchable(v: JSON, names: iset<CStr>)
    requires Fit(v, names, false) && CleanNames(names)
    ensures Patchable(v)
    decreases v
  {
    match v
    case Array(items) =>
      forall i | 0 <= i < |items| ensures Patchable(items[i]) { FitIsPatchable(items[i], names); }
    case Object(ms) =>
      forall i | 0 <= i < |ms| ensures Clean(ms[i].key) && Patchable(ms[i].value) {
        assert ms[i].key in names;
        FitIsPatchable(ms[i].value, names);
      }
    case _ =>
  }

  /** The documents diff then patch is for: `doc` means what `from` means, and `to` holds no raw or invalid items. */
  ghost predicate PatchInput(doc: JSON, from: JSON, to: JSON, names: iset<CStr>, cs: bool) {
    Fit(doc, names, cs) && Fit(from, names, cs) && Fit(to, names, cs) && Plain(to) && Canon(doc, cs) == Canon(from, cs)
  }

  /** What diff then patch should do: succeed, and lead to what `to` means. */
  ghost predicate PatchReaches(doc: JSON, from: JSON, to: JSON, cs: bool, junk: Memory) {
    var done := ApplyAll(doc, PatchesFor(EditsFor([], from, to, cs, junk)), cs);
    done.0 == 0 && Canon(done.1, cs) == Canon(to, cs)
  }

  function Holding(key: CStr, items: seq<JSON>): JSON { Object([Member(key, Array(items))]) }

  lemma ElementEdits(key: CStr, cs: bool, junk: Memory)
    ensures EditsFor([], Holding(key, []), Holding(key, [True]), cs, junk) ==
            [Add([EncodeToken(key, junk)], LAST_INDEX, True)]
  {
    var xs, ys := Holding(key, []).members, Holding(key, [True]).members;
    var at := [EncodeToken(key, junk)];
    assert SortMembers(xs, cs) == xs && SortMembers(ys, cs) == ys;
    SortedSizes(xs, cs);
    CompareKeysOrder(key, key, key, cs);
    CleanEncoding(LAST_INDEX, junk);
    assert [True][0..] == [True] && [True][1..] == [];
    assert Additions(at, LAST_INDEX, [True]) == [Add(at, LAST_INDEX, True)] + [];
    assert ArrayEdits(at, [], [True], 0, cs, junk) == [Add(at, LAST_INDEX, True)];
    assert [] + at == at && EditsFor(at, Array([]), Array([True]), cs, junk) == [Add(at, LAST_INDEX, True)];
    var none := ObjectEdits([], xs[1..], ys[1..], cs, junk, Size(Object(xs)));
    assert none == [];
    assert ObjectEdits([], xs, ys, cs, junk, Size(Object(xs))) == [Add(at, LAST_INDEX, True)] + none;
  }

  /**
   For every key with '~' or '/', giving the array under it an element fails: its patch leads to no parent,
   so the status is 9 and the document stays as it was.
   */
  lemma UncleanKeyMisses(key: CStr, cs: bool)
    requires !Clean(key)
    ensures var from, to := Holding(key, []), Holding(key, [True]);
            ApplyAll(from, PatchesFor(EditsFor([], from, to, cs, Filled(FILL))), cs) == (9, from)
  {
    var from, tok := Holding(key, []), EncodeToken(key, Filled(FILL));
    var at: seq<CStr> := [tok];
    var e := Add(at, LAST_INDEX, True);
    ElementEdits(key, cs, Filled(FILL));
    assert [e][1..] == [] && PatchesFor([e]) == [PatchFor(e)] + [];
    NoParent(key, at, cs);
    ApplyAdd(from, PathOf(at) + "/" + LAST_INDEX, True, cs);
  }

  lemma NoParent(key: CStr, at: seq<CStr>, cs: bool)
    requires !Clean(key) && at == [EncodeToken(key, Filled(FILL))]
    ensures AddAt(Holding(key, []), PathOf(at) + "/" + LAST_INDEX, cs, True) == (9, Holding(key, []))
  {
    var from, tok := Holding(key, []), at[0];
    EscapingFails(key, cs);
    assert FindPointer(from.members, tok, cs) == 1;
    assert at[1..] == [] && PathOf(at) == "/" + tok + [] && PathOf(at)[1..] == tok;
    SplitPath(at, LAST_INDEX);
    assert GetItem(from, PathOf(at), cs) == None;
  }

  lemma HoldingIsInput(key: CStr, names: iset<CStr>, cs: bool)
    requires key in names
    ensures PatchInput(Holding(key, []), Holding(key, []), Holding(key, [True]), names, cs)
    ensures Canon(Holding(key, []), cs) != Canon(Holding(key, [True]), cs)
  {
    var xs, ys := Holding(key, []).members, Holding(key, [True]).members;
    assert xs[0].value == Array([]) && ys[0].value == Array([True]);
    assert Fit(Array([]), names, cs) && Fit(Array([True]), names, cs) && Plain(Array([True]));
    assert Fit(Object(xs), names, cs) && Fit(Object(ys), names, cs) && Plain(Object(ys));
    MapValue(xs, 0, cs);
    MapValue(ys, 0, cs);
    assert |Canon(Array([]), cs).elems| != |Canon(Array([True]), cs).elems|;
  }

  /**
   Over any set of names, diff then patch reaches its target, for all documents over them and whatever fresh
   memory holds, if and only if no name has '~' or '/' in it.
   */
  lemma PatchReachesIff(names: iset<CStr>)
    ensures (forall doc, from, to, junk :: PatchInput(doc, from, to, names, false) ==>
               PatchReaches(doc, from, to, false, junk)) <==>
            CleanNames(names)
  {
    if CleanNames(names) {
      forall doc, from, to, junk | PatchInput(doc, from, to, names, false)
        ensures PatchReaches(doc, from, to, false, junk)
      {
        FitIsPatchable(from, names);
        FitIsPatchable(to, names);
        DiffThenPatchComparesEqual(doc, from, to, junk);
      }
    } else {
      var key :| key in names && !Clean(key);
      UncleanKeyMisses(key, false);
      HoldingIsInput(key, names, false);
      var from, to := Holding(key, []), Holding(key, [True]);
      assert !PatchReaches(from, from, to, false, Filled(FILL));
    }
  }

  /** A removable key is not enough: the one with a single '~' at its end can be removed but not changed below. */
  lemma RemovableIsNotEnough(key: CStr, v: JSON, junk: Memory)
    requires Removable(key) && !Clean(key)
    ensures RemovalStatus(key, v, junk) == 0
    ensures var from, to := Holding(key, []), Holding(key, [True]);
            ApplyAll(from, PatchesFor(EditsFor([], from, to, false, Filled(FILL))), false) == (9, from)
  {
    RemovalWorksIff(key, v);
    UncleanKeyMisses(key, false);
  }
}
