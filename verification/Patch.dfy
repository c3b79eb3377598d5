/**
 JSON Patch (section 4 of RFC 6902): applying a patch to a document and generating one from
 two documents.
 */
module Patch {
  import opened Wrappers
  import opened CStrings
  import opened Json
  import opened Sorting
  import opened Compare
  import opened CompareSorted
  import opened CompareInPlace
  import opened DiffInPlace
  import opened Pointer

  // ---------- applying ----------

  const OP_NAME: CStr := "op"
  const PATH_NAME: CStr := "path"
  const VALUE_NAME: CStr := "value"
  const FROM_NAME: CStr := "from"
  const ADD_OP: CStr := "add"
  const REMOVE_OP: CStr := "remove"
  const REPLACE_OP: CStr := "replace"
  const MOVE_OP: CStr := "move"
  const COPY_OP: CStr := "copy"
  const TEST_OP: CStr := "test"
  const LAST_INDEX: CStr := "-"

  datatype Operation = INVALID | ADD | REMOVE | REPLACE | MOVE | COPY | TEST

  /** get_object_item on a patch. */
  function Field(patch: JSON, name: CStr, cs: bool): Option<JSON> {
    if !patch.Object? then None
    else
      var i := FindKey(patch.members, name, cs);
      if i < |patch.members| then Some(patch.members[i].value) else None
  }

  function DecodeOperation(patch: JSON, cs: bool): Operation {
    var op := Field(patch, OP_NAME, cs);
    if !(op.Some? && op.value.String?) then INVALID
    else if op.value.str == ADD_OP then ADD
    else if op.value.str == REMOVE_OP then REMOVE
    else if op.value.str == REPLACE_OP then REPLACE
    else if op.value.str == MOVE_OP then MOVE
    else if op.value.str == COPY_OP then COPY
    else if op.value.str == TEST_OP then TEST
    else INVALID
  }

  /** strrchr(p, '/') */
  function LastSlash(p: CStr): (r: Option<nat>)
    ensures r.Some? ==> r.value < |p| && p[r.value] == '/' && forall i :: r.value < i < |p| ==> p[i] != '/'
    ensures r.None? ==> forall i :: 0 <= i < |p| ==> p[i] != '/'
  {
    if p == [] then None
    else if p[|p| - 1] == '/' then Some(|p| - 1)
    else LastSlash(p[..|p| - 1])
  }

  /** The string a FROM_NAME member carries, if it carries one. */
  function ValueString(v: JSON): Option<CStr> {
    match v
    case String(s) => Some(s)
    case Raw(s) => Some(s)
    case _ => None
  }

  /** Taking a child out of an array or object; members are always found ignoring case. */
  function DetachFrom(parent: JSON, name: CStr): Option<(JSON, JSON)> {
    match parent
    case Array(items) =>
      var i := DecodeIndex(name);
      if i.None? || i.value >= |items| then None
      else Some((items[i.value], Array(items[..i.value] + items[i.value + 1..])))
    case Object(ms) =>
      var i := FindKey(ms, name, false);
      if i == |ms| then None else Some((ms[i].value, Object(Detach(ms, name, false))))
    case _ => None
  }

  /** detach_path: the item cut out and the document without it. */
  function DetachPath(v: JSON, path: CStr, cs: bool): Option<(JSON, JSON)> {
    var slash := LastSlash(path);
    if slash.None? then None
    else
      var parentPath, name := path[..slash.value], DecodeToken(path[slash.value + 1..]);
      var parent := GetItem(v, parentPath, cs);
      var cut := if parent.None? then None else DetachFrom(parent.value, name);
      if cut.None? then None else Some((cut.value.0, SetItem(v, parentPath, cs, cut.value.1)))
  }

  /** Putting a child into an array or object. */
  function AddTo(parent: JSON, name: CStr, cs: bool, value: JSON): (int, JSON) {
    match parent
    case Array(items) =>
      if name == LAST_INDEX then (0, Array(items + [value]))
      else
        var i := DecodeIndex(name);
        if i.None? then (11, parent)
        else if i.value > |items| then (10, parent)
        else (0, Array(items[..i.value] + [value] + items[i.value..]))
    case Object(ms) => (0, Object(Detach(ms, name, cs) + [Member(name, value)]))
    case _ => (9, parent)
  }

  /** The end of apply_patch: put a value at a path whose parent exists. */
  function AddAt(v: JSON, path: CStr, cs: bool, value: JSON): (r: (int, JSON))
    ensures r.0 == 0 || r.0 == 9 || r.0 == 10 || r.0 == 11
  {
    var slash := LastSlash(path);
    if slash.None? then (9, v)
    else
      var parentPath, name := path[..slash.value], DecodeToken(path[slash.value + 1..]);
      var parent := GetItem(v, parentPath, cs);
      if parent.None? then (9, v)
      else
        var (status, newParent) := AddTo(parent.value, name, cs, value);
        if status != 0 then (status, v) else (0, SetItem(v, parentPath, cs, newParent))
  }

  predicate HasPath(patch: JSON, cs: bool) {
    Field(patch, PATH_NAME, cs).Some? && Field(patch, PATH_NAME, cs).value.String?
  }

  /** apply_patch: the status it returns and the document it leaves. */
  function ApplyPatch(v: JSON, patch: JSON, cs: bool): (r: (int, JSON))
    ensures r.0 == 2 <==> !HasPath(patch, cs)
    ensures r.0 == 3 <==> HasPath(patch, cs) && DecodeOperation(patch, cs) == INVALID
  {
    var path := Field(patch, PATH_NAME, cs);
    if !(path.Some? && path.value.String?) then (2, v)
    else
      var p, op, value := path.value.str, DecodeOperation(patch, cs), Field(patch, VALUE_NAME, cs);
      match op
      case INVALID => (3, v)
      case TEST =>
        var item := GetItem(v, p, cs);
        if item.None? || value.None? then (1, v)
        else
          var left := AfterCompare(item.value, value.value, cs);
          (if CompareJson(item.value, value.value, cs) then 0 else 1, SetItem(v, p, cs, left))
      case REMOVE =>
        if p == [] then (0, Invalid)
        else
          var cut := DetachPath(v, p, cs);
          if cut.None? then (13, v) else (0, cut.value.1)
      case REPLACE =>
        if p == [] then if value.None? then (7, v) else (0, value.value)
        else
          var cut := DetachPath(v, p, cs);
          if cut.None? then (13, v)
          else if value.None? then (7, cut.value.1)
          else AddAt(cut.value.1, p, cs, value.value)
      case ADD =>
        if value.None? then (7, v)
        else if p == [] then (0, value.value)
        else AddAt(v, p, cs, value.value)
      case MOVE =>
        var from := Field(patch, FROM_NAME, cs);
        if from.None? then (4, v)
        else
          var source := ValueString(from.value);
          var cut := if source.None? then None else DetachPath(v, source.value, cs);
          if cut.None? then (5, v) else AddAt(cut.value.1, p, cs, cut.value.0)
      case COPY =>
        var from := Field(patch, FROM_NAME, cs);
        if from.None? then (4, v)
        else
          var source := ValueString(from.value);
          var item := if source.None? then None else GetItem(v, source.value, cs);
          if item.None? then (5, v) else AddAt(v, p, cs, item.value)
  }

  /** The patch loop of cJSONUtils_ApplyPatches. */
  function ApplyAll(v: JSON, patches: seq<JSON>, cs: bool): (int, JSON)
    decreases |patches|
  {
    if patches == [] then (0, v)
    else
      var (status, w) := ApplyPatch(v, patches[0], cs);
      if status != 0 then (status, w) else ApplyAll(w, patches[1..], cs)
  }

  lemma ApplyNext(v: JSON, patches: seq<JSON>, i: nat, cs: bool)
    requires i < |patches|
    ensures ApplyAll(v, patches[i..], cs) ==
            var done := ApplyPatch(v, patches[i], cs);
            if done.0 != 0 then done else ApplyAll(done.1, patches[i + 1..], cs)
  {
    assert patches[i..][1..] == patches[i + 1..];
  }

  /** A document that patches are applied to in place. */
  class Document {
    var root: JSON

    constructor (root: JSON)
      ensures this.root == root
    {
      this.root := root;
    }

    /** detach_path */
    method DetachItem(path: CStr, cs: bool) returns (item: Option<JSON>)
      modifies this
      ensures var cut := DetachPath(old(root), path, cs);
              if cut.None? then item.None? && root == old(root) else item == Some(cut.value.0) && root == cut.value.1
    {
      item := None;
      var slash := LastSlash(path);
      if slash.None? {
        return;
      }
      var parentPath, name := path[..slash.value], DecodeToken(path[slash.value + 1..]);
      var parent := GetItemFromPointer(root, parentPath, cs);
      if parent.Some? {
        var cut := DetachChild(parent.value, name);
        if cut.Some? {
          item := Some(cut.value.0);
          root := SetItem(root, parentPath, cs, cut.value.1);
        }
      }
    }

    /** The last part of detach_path: an array element by its index, a member by its name ignoring case. */
    method DetachChild(parent: JSON, name: CStr) returns (cut: Option<(JSON, JSON)>)
      ensures cut == DetachFrom(parent, name)
    {
      cut := None;
      if parent.Array? {
        var items := parent.items;
        var i := DecodeArrayIndex(name);
        if i.Some? && i.value < |items| {
          cut := Some((items[i.value], Array(items[..i.value] + items[i.value + 1..])));
        }
      } else if parent.Object? {
        var ms := parent.members;
        var i := GetObjectItem(ms, name, false);
        if i < |ms| {
          cut := Some((ms[i].value, Object(ms[..i] + ms[i + 1..])));
        }
      }
    }

    /** The end of apply_patch. */
    method AddItem(path: CStr, cs: bool, value: JSON) returns (status: int)
      modifies this
      ensures (status, root) == AddAt(old(root), path, cs, value)
    {
      var slash := LastSlash(path);
      if slash.None? {
        return 9;
      }
      var parentPath, name := path[..slash.value], DecodeToken(path[slash.value + 1..]);
      var parent := GetItemFromPointer(root, parentPath, cs);
      if parent.None? {
        return 9;
      }
      var newParent;
      status, newParent := AddChild(parent.value, name, cs, value);
      if status == 0 {
        root := SetItem(root, parentPath, cs, newParent);
      }
    }

    /** Its last branches: into an array at an index or behind the end, into an object under a name. */
    method AddChild(parent: JSON, name: CStr, cs: bool, value: JSON) returns (status: int, newParent: JSON)
      ensures (status, newParent) == AddTo(parent, name, cs, value)
    {
      newParent := parent;
      if parent.Array? {
        var items := parent.items;
        if name == LAST_INDEX {
          return 0, Array(items + [value]);
        }
        var i := DecodeArrayIndex(name);
        if i.None? {
          return 11, parent;
        }
        if i.value > |items| {
          return 10, parent;
        }
        return 0, Array(items[..i.value] + [value] + items[i.value..]);
      } else if parent.Object? {
        var ms := parent.members;
        var i := GetObjectItem(ms, name, cs);
        var rest := if i < |ms| then ms[..i] + ms[i + 1..] else ms;
        return 0, Object(rest + [Member(name, value)]);
      }
      status := 9;
    }

    /** apply_patch */
    method Apply(patch: JSON, cs: bool) returns (status: int)
      modifies this
      ensures (status, root) == ApplyPatch(old(root), patch, cs)
    {
      var path := Field(patch, PATH_NAME, cs);
      if path.None? || !path.value.String? {
        return 2;
      }
      var p, op, value := path.value.str, DecodeOperation(patch, cs), Field(patch, VALUE_NAME, cs);
      if op == INVALID {
        return 3;
      }
      if op == TEST {
        var item := GetItemFromPointer(root, p, cs);
        if item.None? || value.None? {
          return 1;
        }
        var equal, left, _ := CompareWalking(item.value, value.value, cs);
        root := SetItem(root, p, cs, left);
        return if equal then 0 else 1;
      }
      if p == [] {
        if op == REMOVE {
          root := Invalid;
          return 0;
        }
        if op == REPLACE || op == ADD {
          if value.None? {
            return 7;
          }
          root := value.value;
          return 0;
        }
      }
      if op == REMOVE || op == REPLACE {
        var gone := DetachItem(p, cs);
        if gone.None? {
          return 13;
        }
        if op == REMOVE {
          return 0;
        }
      }
      if op == MOVE || op == COPY {
        var from := Field(patch, FROM_NAME, cs);
        if from.None? {
          return 4;
        }
        var source := ValueString(from.value);
        value := None;
        if source.Some? {
          if op == MOVE {
            value := DetachItem(source.value, cs);
          } else {
            value := GetItemFromPointer(root, source.value, cs);
          }
        }
        if value.None? {
          return 5;
        }
      } else if value.None? {
        return 7;
      }
      status := AddItem(p, cs, value.value);
    }

    /** cJSONUtils_ApplyPatches and its case-sensitive twin. */
    method ApplyPatches(patches: JSON, cs: bool) returns (status: int)
      modifies this
      ensures if !patches.Array? then status == 1 && root == old(root)
              else (status, root) == ApplyAll(old(root), patches.items, cs)
    {
      if !patches.Array? {
        return 1;
      }
      status := ApplyEach(patches.items, cs);
    }

    method ApplyEach(patches: seq<JSON>, cs: bool) returns (status: int)
      modifies this
      ensures (status, root) == ApplyAll(old(root), patches, cs)
    {
      ghost var outcome := ApplyAll(root, patches, cs);
      var i := 0;
      assert patches[0..] == patches;
      while i < |patches|
        invariant 0 <= i <= |patches|
        invariant outcome == ApplyAll(root, patches[i..], cs)
      {
        ApplyNext(root, patches, i, cs);
        status := Apply(patches[i], cs);
        if status != 0 {
          return;
        }
        i := i + 1;
      }
      return 0;
    }
  }

  // ---------- generating ----------

  /** compose_patch: the patch object for an operation at a path. */
  function Compose(op: CStr, path: CStr, value: Option<JSON>): JSON {
    Object([Member(OP_NAME, String(op)), Member(PATH_NAME, String(path))] +
           if value.None? then [] else [Member(VALUE_NAME, value.value)])
  }

  /** One generated patch, its path as the list of the tokens it is made of. */
  datatype Edit =
    | Remove(at: seq<CStr>, name: CStr)
    | Add(at: seq<CStr>, name: CStr, value: JSON)
    | Replace(at: seq<CStr>, value: JSON)

  function PatchFor(e: Edit): JSON {
    match e
    case Remove(at, name) => Compose(REMOVE_OP, PathOf(at) + "/" + name, None)
    case Add(at, name, value) => Compose(ADD_OP, PathOf(at) + "/" + name, Some(value))
    case Replace(at, value) => Compose(REPLACE_OP, PathOf(at), Some(value))
  }

  function PatchesFor(es: seq<Edit>): seq<JSON> {
    if es == [] then [] else [PatchFor(es[0])] + PatchesFor(es[1..])
  }

  lemma {:induction false} PatchesForConcat(a: seq<Edit>, b: seq<Edit>)
    ensures PatchesFor(a + b) == PatchesFor(a) + PatchesFor(b)
  {
    if a == [] {
      assert a + b == b;
    } else {
      assert (a + b)[1..] == a[1..] + b;
      PatchesForConcat(a[1..], b);
    }
  }

  /** create_patches below the tokens at; junk is what fresh memory holds behind the path. */
  function EditsFor(at: seq<CStr>, from: JSON, to: JSON, cs: bool, junk: Memory): seq<Edit>
    decreases Size(from), 1
  {
    if !SameType(from, to) then [Replace(at, to)]
    else match from
      case Number(n) => if n != to.num then [Replace(at, to)] else []
      case String(s) => if s != to.str then [Replace(at, to)] else []
      case Array(items) => ArrayEdits(at, items, to.items, 0, cs, junk)
      case Object(ms) =>
        SortedSizes(ms, cs);
        ObjectEdits(at, SortMembers(ms, cs), SortMembers(to.members, cs), cs, junk, Size(from))
      case _ => []
  }

  /** The element loops: common elements, then removals at one index, then additions at the end. */
  function ArrayEdits(at: seq<CStr>, from: seq<JSON>, to: seq<JSON>, i: nat, cs: bool, junk: Memory): seq<Edit>
    requires i <= |from| && i <= |to|
    decreases SizeOfItems(from) + 1, 0, |from| - i
  {
    if i < |from| && i < |to| then
      EditsFor(at + [Decimal(i)], from[i], to[i], cs, junk) + ArrayEdits(at, from, to, i + 1, cs, junk)
    else
      Removals(at, EncodeToken(Decimal(i), junk), |from| - i) + Additions(at, EncodeToken(LAST_INDEX, junk), to[i..])
  }

  function Removals(at: seq<CStr>, index: CStr, count: nat): seq<Edit> {
    if count == 0 then [] else [Remove(at, index)] + Removals(at, index, count - 1)
  }

  function Additions(at: seq<CStr>, index: CStr, to: seq<JSON>): seq<Edit> {
    if to == [] then [] else [Add(at, index, to[0])] + Additions(at, index, to[1..])
  }

  /** The walk over the sorted members of both objects. */
  function ObjectEdits(at: seq<CStr>, xs: seq<Member>, ys: seq<Member>, cs: bool, junk: Memory,
                       ghost bound: nat): seq<Edit>
    requires forall i :: 0 <= i < |xs| ==> Size(xs[i].value) < bound
    decreases bound, 0, |xs| + |ys|
  {
    if xs == [] && ys == [] then []
    else if ys == [] || (xs != [] && CompareKeys(xs[0].key, ys[0].key, cs) < 0) then
      [Remove(at, EncodeToken(xs[0].key, junk))] + ObjectEdits(at, xs[1..], ys, cs, junk, bound)
    else if xs == [] || CompareKeys(xs[0].key, ys[0].key, cs) > 0 then
      [Add(at, EncodeToken(ys[0].key, junk), ys[0].value)] + ObjectEdits(at, xs, ys[1..], cs, junk, bound)
    else
      EditsFor(at + [EncodeToken(xs[0].key, junk)], xs[0].value, ys[0].value, cs, junk) +
      ObjectEdits(at, xs[1..], ys[1..], cs, junk, bound)
  }

  /** Allocate, and sprintf("%s/", path): the path, a slash and the terminator in fresh memory. */
  method PrintPath(path: CStr, room: nat, junk: Memory) returns (buf: array<char>)
    ensures fresh(buf) && buf.Length == |path| + 1 + room + 1
    ensures buf[..|path| + 1] == path + "/"
    ensures forall j :: |path| < j < buf.Length ==> buf[j] == BehindPath(junk)(j - |path| - 1)
  {
    var start := |path| + 1;
    buf := new char[start + room + 1](i => if i < start then 'x' else junk(i - start));
    for i := 0 to |path|
      invariant forall j :: 0 <= j < i ==> buf[j] == path[j]
      invariant forall j :: start <= j < buf.Length ==> buf[j] == junk(j - start)
    {
      buf[i] := path[i];
    }
    buf[|path|] := '/';
    buf[start] := '\0';
  }

  /** The path of a patch: the suffix is encoded over the terminator, and readers see a C string. */
  method JoinPath(path: CStr, suffix: CStr, junk: Memory) returns (full: CStr)
    ensures full == path + "/" + EncodeToken(suffix, junk)
  {
    ghost var bytes := EncodeBytes(suffix, BehindPath(junk), 0);
    var n, start := |EncodeBytes(suffix, BehindPath(junk), 0)|, |path| + 1;
    var buf := PrintPath(path, n, junk);
    EncodeStringAsPointer(buf, start, suffix, BehindPath(junk));
    assert buf[..start] == path + "/";
    assert buf[..] == buf[..start] + buf[start..start + n] + ['\0'];
    assert path + "/" + bytes + ['\0'] + [] == path + "/" + bytes + ['\0'];
    CStringOfTerminated(path + "/" + bytes, []);
    CStringOfPrefix(path + "/", bytes);
    full := CStringOf(buf[..]);
  }

  /** create_patches with its loops, and what they leave of the operands; the path is the string of the tokens at. */
  method AppendPatches(patches: seq<JSON>, path: CStr, from: JSON, to: JSON, cs: bool, junk: Memory,
                       ghost at: seq<CStr>)
    returns (r: seq<JSON>, from': JSON, to': JSON)
    requires path == PathOf(at)
    ensures r == patches + PatchesFor(EditsFor(at, from, to, cs, junk))
    ensures from' == AfterDiff(from, to, cs) && to' == AfterDiff(to, from, cs)
    decreases Size(from), 1
  {
    r, from', to' := patches, from, to;
    if !SameType(from, to) {
      r := r + [Compose(REPLACE_OP, path, Some(to))];
    } else if from.Number? {
      if from.num != to.num {
        r := r + [Compose(REPLACE_OP, path, Some(to))];
      }
    } else if from.String? {
      if from.str != to.str {
        r := r + [Compose(REPLACE_OP, path, Some(to))];
      }
    } else if from.Array? {
      var xs, ys;
      r, xs, ys := AppendArrayPatches(r, path, from.items, to.items, cs, junk, at);
      from', to' := Array(xs), Array(ys);
    } else if from.Object? {
      SortedSizes(from.members, cs);
      SortedSizes(to.members, cs);
      var xs, ys := SortMembers(from.members, cs), SortMembers(to.members, cs);
      r, xs, ys := AppendObjectPatches(r, path, xs, ys, cs, junk, at, Size(from), Size(to));
      from', to' := Object(xs), Object(ys);
    }
  }

  method AppendArrayPatches(patches: seq<JSON>, path: CStr, from: seq<JSON>, to: seq<JSON>, cs: bool, junk: Memory,
                            ghost at: seq<CStr>)
    returns (r: seq<JSON>, xs: seq<JSON>, ys: seq<JSON>)
    requires path == PathOf(at)
    ensures r == patches + PatchesFor(ArrayEdits(at, from, to, 0, cs, junk))
    ensures Array(xs) == AfterDiff(Array(from), Array(to), cs) && Array(ys) == AfterDiff(Array(to), Array(from), cs)
    decreases SizeOfItems(from) + 1, 0, 1
  {
    r, xs, ys := patches, from, to;
    var index := 0;
    ghost var all := PatchesFor(ArrayEdits(at, from, to, 0, cs, junk));
    while index < |from| && index < |to|
      invariant 0 <= index <= |from| && index <= |to|
      invariant r + PatchesFor(ArrayEdits(at, from, to, index, cs, junk)) == patches + all
      invariant ItemsDone(from, to, index, xs, cs) && ItemsDone(to, from, index, ys, cs)
    {
      var x, y;
      r, x, y := AppendElementPatches(r, path, from, to, index, cs, junk, at);
      xs, ys, index := xs[index := x], ys[index := y], index + 1;
    }
    ItemsLeft(from, to, index, xs, cs);
    ItemsLeft(to, from, index, ys, cs);
    r := AppendRests(r, path, from, to, index, cs, junk, at);
  }

  /** One round of the first loop for arrays. */
  method AppendElementPatches(patches: seq<JSON>, path: CStr, from: seq<JSON>, to: seq<JSON>, index: nat, cs: bool,
                              junk: Memory, ghost at: seq<CStr>)
    returns (r: seq<JSON>, x: JSON, y: JSON)
    requires path == PathOf(at) && index < |from| && index < |to|
    ensures x == AfterDiff(from[index], to[index], cs) && y == AfterDiff(to[index], from[index], cs)
    ensures r + PatchesFor(ArrayEdits(at, from, to, index + 1, cs, junk)) ==
            patches + PatchesFor(ArrayEdits(at, from, to, index, cs, junk))
    decreases SizeOfItems(from) + 1, 0, 0
  {
    CommonElement(at, from, to, index, cs, junk);
    PathOfSnoc(at, Decimal(index));
    var elementPath := path + "/" + Decimal(index);
    r, x, y := AppendPatches(patches, elementPath, from[index], to[index], cs, junk, at + [Decimal(index)]);
    Regroup(patches, PatchesFor(EditsFor(at + [Decimal(index)], from[index], to[index], cs, junk)),
            PatchesFor(ArrayEdits(at, from, to, index + 1, cs, junk)));
  }

  lemma CommonElement(at: seq<CStr>, from: seq<JSON>, to: seq<JSON>, i: nat, cs: bool, junk: Memory)
    requires i < |from| && i < |to|
    ensures PatchesFor(ArrayEdits(at, from, to, i, cs, junk)) ==
            PatchesFor(EditsFor(at + [Decimal(i)], from[i], to[i], cs, junk)) +
            PatchesFor(ArrayEdits(at, from, to, i + 1, cs, junk))
  {
    PatchesForConcat(EditsFor(at + [Decimal(i)], from[i], to[i], cs, junk), ArrayEdits(at, from, to, i + 1, cs, junk));
  }

  /** The second and third loop for arrays. */
  method AppendRests(patches: seq<JSON>, path: CStr, from: seq<JSON>, to: seq<JSON>, index: nat, cs: bool, junk: Memory,
                     ghost at: seq<CStr>)
    returns (r: seq<JSON>)
    requires path == PathOf(at) && index <= |from| && index <= |to| && (index == |from| || index == |to|)
    ensures r == patches + PatchesFor(ArrayEdits(at, from, to, index, cs, junk))
  {
    ghost var gone, extra := Removals(at, EncodeToken(Decimal(index), junk), |from| - index),
                             Additions(at, EncodeToken(LAST_INDEX, junk), to[index..]);
    PatchesForConcat(gone, extra);
    r := AppendRemovals(patches, path, index, |from| - index, junk, at);
    r := AppendAdditions(r, path, to[index..], junk, at);
    Regroup(patches, PatchesFor(gone), PatchesFor(extra));
  }

  method AppendRemovals(patches: seq<JSON>, path: CStr, index: nat, count: nat, junk: Memory, ghost at: seq<CStr>)
    returns (r: seq<JSON>)
    requires path == PathOf(at)
    ensures r == patches + PatchesFor(Removals(at, EncodeToken(Decimal(index), junk), count))
  {
    r := patches;
    var left := count;
    ghost var name := EncodeToken(Decimal(index), junk);
    while left > 0
      invariant 0 <= left
      invariant r + PatchesFor(Removals(at, name, left)) == patches + PatchesFor(Removals(at, name, count))
    {
      var full := JoinPath(path, Decimal(index), junk);
      r := r + [Compose(REMOVE_OP, full, None)];
      left := left - 1;
    }
  }

  method AppendAdditions(patches: seq<JSON>, path: CStr, to: seq<JSON>, junk: Memory, ghost at: seq<CStr>)
    returns (r: seq<JSON>)
    requires path == PathOf(at)
    ensures r == patches + PatchesFor(Additions(at, EncodeToken(LAST_INDEX, junk), to))
  {
    r := patches;
    var next := to;
    ghost var name := EncodeToken(LAST_INDEX, junk);
    while next != []
      invariant r + PatchesFor(Additions(at, name, next)) == patches + PatchesFor(Additions(at, name, to))
      decreases |next|
    {
      var full := JoinPath(path, LAST_INDEX, junk);
      r := r + [Compose(ADD_OP, full, Some(next[0]))];
      next := next[1..];
    }
  }

  method AppendObjectPatches(patches: seq<JSON>, path: CStr, xs: seq<Member>, ys: seq<Member>, cs: bool, junk: Memory,
                             ghost at: seq<CStr>, ghost bound: nat, ghost other: nat)
    returns (r: seq<JSON>, xs': seq<Member>, ys': seq<Member>)
    requires path == PathOf(at)
    requires forall i :: 0 <= i < |xs| ==> Size(xs[i].value) < bound
    requires forall i :: 0 <= i < |ys| ==> Size(ys[i].value) < other
    ensures r == patches + PatchesFor(ObjectEdits(at, xs, ys, cs, junk, bound))
    ensures xs' == AfterDiffWalk(xs, ys, cs, bound) && ys' == AfterDiffWalk(ys, xs, cs, other)
    decreases bound, 0, 1
  {
    r, xs', ys' := patches, [], [];
    var x, y := xs, ys;
    ghost var all := PatchesFor(ObjectEdits(at, xs, ys, cs, junk, bound));
    while x != [] || y != []
      invariant forall i :: 0 <= i < |x| ==> Size(x[i].value) < bound
      invariant forall i :: 0 <= i < |y| ==> Size(y[i].value) < other
      invariant r + PatchesFor(ObjectEdits(at, x, y, cs, junk, bound)) == patches + all
      invariant xs' + AfterDiffWalk(x, y, cs, bound) == AfterDiffWalk(xs, ys, cs, bound)
      invariant ys' + AfterDiffWalk(y, x, cs, other) == AfterDiffWalk(ys, xs, cs, other)
      decreases |x| + |y|
    {
      var dx, dy;
      r, dx, dy, x, y := AppendMemberPatches(r, path, x, y, cs, junk, at, bound, other);
      Regroup(xs', dx, AfterDiffWalk(x, y, cs, bound));
      Regroup(ys', dy, AfterDiffWalk(y, x, cs, other));
      xs', ys' := xs' + dx, ys' + dy;
    }
  }

  /** The body of the loop over the members of both objects: the patches, and the members it passes. */
  method AppendMemberPatches(patches: seq<JSON>, path: CStr, xs: seq<Member>, ys: seq<Member>, cs: bool, junk: Memory,
                             ghost at: seq<CStr>, ghost bound: nat, ghost other: nat)
    returns (r: seq<JSON>, dx: seq<Member>, dy: seq<Member>, x: seq<Member>, y: seq<Member>)
    requires path == PathOf(at) && (xs != [] || ys != [])
    requires forall i :: 0 <= i < |xs| ==> Size(xs[i].value) < bound
    requires forall i :: 0 <= i < |ys| ==> Size(ys[i].value) < other
    ensures (x == xs || (xs != [] && x == xs[1..])) && (y == ys || (ys != [] && y == ys[1..]))
    ensures |x| + |y| < |xs| + |ys|
    ensures r + PatchesFor(ObjectEdits(at, x, y, cs, junk, bound)) ==
            patches + PatchesFor(ObjectEdits(at, xs, ys, cs, junk, bound))
    ensures dx + AfterDiffWalk(x, y, cs, bound) == AfterDiffWalk(xs, ys, cs, bound)
    ensures dy + AfterDiffWalk(y, x, cs, other) == AfterDiffWalk(ys, xs, cs, other)
    decreases bound, 0, 0
  {
    var diff;
    if xs == [] {
      diff := 1;
    } else if ys == [] {
      diff := -1;
    } else {
      diff := CompareStrings(xs[0].key, ys[0].key, cs);
      CompareKeysOrder(xs[0].key, ys[0].key, ys[0].key, cs);
    }
    ObjectStep(at, xs, ys, cs, junk, bound);
    WalkPasses(xs, ys, cs, bound, diff);
    WalkPasses(ys, xs, cs, other, -diff);
    x, y, dx, dy := xs, ys, [], [];
    if diff == 0 {
      ghost var tok := EncodeToken(xs[0].key, junk);
      var newPath := JoinPath(path, xs[0].key, junk);
      PathOfSnoc(at, tok);
      ghost var one := PatchesFor(EditsFor(at + [tok], xs[0].value, ys[0].value, cs, junk));
      ghost var rest := PatchesFor(ObjectEdits(at, xs[1..], ys[1..], cs, junk, bound));
      var v, w;
      r, v, w := AppendPatches(patches, newPath, xs[0].value, ys[0].value, cs, junk, at + [tok]);
      dx, dy, x, y := [Member(xs[0].key, v)], [Member(ys[0].key, w)], xs[1..], ys[1..];
      Regroup(patches, one, rest);
    } else if diff < 0 {
      var full := JoinPath(path, xs[0].key, junk);
      r := patches + [Compose(REMOVE_OP, full, None)];
      dx, x := [xs[0]], xs[1..];
      Regroup(patches, [PatchFor(Remove(at, EncodeToken(xs[0].key, junk)))],
              PatchesFor(ObjectEdits(at, x, y, cs, junk, bound)));
    } else {
      var full := JoinPath(path, ys[0].key, junk);
      r := patches + [Compose(ADD_OP, full, Some(ys[0].value))];
      dy, y := [ys[0]], ys[1..];
      Regroup(patches, [PatchFor(Add(at, EncodeToken(ys[0].key, junk), ys[0].value))],
              PatchesFor(ObjectEdits(at, x, y, cs, junk, bound)));
    }
  }

  /** One round of the walk over two objects. */
  lemma ObjectStep(at: seq<CStr>, xs: seq<Member>, ys: seq<Member>, cs: bool, junk: Memory, bound: nat)
    requires xs != [] || ys != []
    requires forall i :: 0 <= i < |xs| ==> Size(xs[i].value) < bound
    ensures PatchesFor(ObjectEdits(at, xs, ys, cs, junk, bound)) ==
            if ys == [] || (xs != [] && CompareKeys(xs[0].key, ys[0].key, cs) < 0) then
              [PatchFor(Remove(at, EncodeToken(xs[0].key, junk)))] +
              PatchesFor(ObjectEdits(at, xs[1..], ys, cs, junk, bound))
            else if xs == [] || CompareKeys(xs[0].key, ys[0].key, cs) > 0 then
              [PatchFor(Add(at, EncodeToken(ys[0].key, junk), ys[0].value))] +
              PatchesFor(ObjectEdits(at, xs, ys[1..], cs, junk, bound))
            else
              PatchesFor(EditsFor(at + [EncodeToken(xs[0].key, junk)], xs[0].value, ys[0].value, cs, junk)) +
              PatchesFor(ObjectEdits(at, xs[1..], ys[1..], cs, junk, bound))
  {
    if xs != [] && ys != [] && CompareKeys(xs[0].key, ys[0].key, cs) == 0 {
      PatchesForConcat(EditsFor(at + [EncodeToken(xs[0].key, junk)], xs[0].value, ys[0].value, cs, junk),
                       ObjectEdits(at, xs[1..], ys[1..], cs, junk, bound));
    }
  }

  /** cJSONUtils_GeneratePatches and its case-sensitive twin: the patches, and both operands as they are afterwards. */
  method GeneratePatches(from: JSON, to: JSON, cs: bool, junk: Memory) returns (patches: JSON, from': JSON, to': JSON)
    ensures patches == Array(PatchesFor(EditsFor([], from, to, cs, junk)))
    ensures from' == AfterDiff(from, to, cs) && to' == AfterDiff(to, from, cs)
  {
    var ps;
    ps, from', to' := AppendPatches([], "", from, to, cs, junk, []);
    patches := Array(ps);
  }
}
