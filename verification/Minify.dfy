/**
 cJSON_Minify: white space and comments leave the text, in place.
 */
module Minify {
  import opened Wrappers
  import opened CStrings
  import opened Json
  import opened Text
  import opened Parsing
  import opened Tokens

  predicate IsBlank(c: char) { c == ' ' || c == '\t' || c == '\r' || c == '\n' }

  /** The end of a // comment: the line end or the terminator. */
  function LineEnd(c: seq<char>, i: nat): (e: nat)
    requires Terminated(c) && i < |c|
    ensures i <= e < |c| && (c[i] == '/' ==> i < e)
    decreases |c| - i
  {
    assert Ends(c, i) <==> i == |c| - 1;
    if c[i] == '\0' || c[i] == '\n' then i else LineEnd(c, i + 1)
  }

  /** Where a block comment closes; None is the terminator. */
  function CommentEnd(c: seq<char>, i: nat): (e: Option<nat>)
    requires Terminated(c) && i < |c|
    ensures e.Some? ==> i <= e.value && e.value + 2 < |c|
    decreases |c| - i
  {
    assert Ends(c, i) <==> i == |c| - 1;
    if c[i] == '\0' then None
    else if c[i] == '*' && c[i + 1] == '/' then (assert !Ends(c, i + 1); Some(i))
    else CommentEnd(c, i + 1)
  }

  function Put(out: seq<char>, rest: Option<seq<char>>): Option<seq<char>> {
    match rest
    case None => None
    case Some(s) => Some(out + s)
  }

  /**
   What is left of the text from position i on. None: a string or a block comment does not end, and
   the code runs over the terminator.
   */
  function Minified(c: seq<char>, i: nat): Option<seq<char>>
    requires Terminated(c) && i < |c|
    decreases |c| - i
  {
    assert Ends(c, i) <==> i == |c| - 1;
    if c[i] == '\0' then Some([])
    else if IsBlank(c[i]) then Minified(c, i + 1)
    else if c[i] == '/' && c[i + 1] == '/' then Minified(c, LineEnd(c, i))
    else if c[i] == '/' && c[i + 1] == '*' then
      var e := CommentEnd(c, i);
      if e.None? then None else Minified(c, e.value + 2)
    else if c[i] == '\"' then
      var e := ScanEnd(c, i + 1);
      if e.None? then None
      else
        assert Ends(c, e.value) <==> e.value == |c| - 1;
        Put(c[i..e.value + 1], Minified(c, e.value + 1))
    else Put([c[i]], Minified(c, i + 1))
  }

  // ---------- the loop ----------

  /** The result is what is already written and then what is left of the rest. */
  ghost predicate Written(goal: Option<seq<char>>, done: seq<char>, c: seq<char>, i: nat)
    requires Terminated(c) && i < |c|
  {
    goal == Put(done, Minified(c, i))
  }

  lemma WrittenStep(goal: Option<seq<char>>, done: seq<char>, c: seq<char>, i: nat, out: seq<char>, e: nat)
    requires Terminated(c) && i < |c| && e < |c| && Written(goal, done, c, i)
             && Minified(c, i) == Put(out, Minified(c, e))
    ensures Written(goal, done + out, c, e)
  {
    if Minified(c, e).Some? {
      Regroup(done, out, Minified(c, e).value);
    }
  }

  lemma PutNothing(rest: Option<seq<char>>)
    ensures Put([], rest) == rest
  {
    if rest.Some? {
      assert [] + rest.value == rest.value;
    }
  }

  /** From position i on the text has not been touched. */
  ghost predicate Unread(a: array<char>, c: seq<char>, i: nat)
    reads a
  {
    a.Length == |c| && i < |c| && forall k :: i <= k < |c| ==> a[k] == c[k]
  }

  /** The bytes written from `at` on are those read from i on, up to e. */
  ghost predicate Copied(a: array<char>, c: seq<char>, at: nat, i: nat, e: nat)
    requires a.Length == |c| && at <= i <= e <= |c|
    reads a
  {
    forall k :: at <= k < at + (e - i) ==> a[k] == c[k + (i - at)]
  }

  /** One more byte of a piece that is read from i on and written from `at` on. */
  method CopyByte(a: array<char>, ghost c: seq<char>, ghost at: nat, ghost i: nat, into: nat, e: nat)
    requires at <= i <= e && e + 1 < |c| && into - at == e - i && Unread(a, c, e) && Copied(a, c, at, i, e)
    modifies a
    ensures Unread(a, c, e + 1) && Copied(a, c, at, i, e + 1)
    ensures forall k :: 0 <= k < at ==> a[k] == old(a[k])
  {
    a[into] := a[e];
  }

  lemma AtEnd(c: seq<char>, i: nat)
    requires Terminated(c) && i < |c|
    ensures c[i] == '\0' <==> i == |c| - 1
  {
    assert Ends(c, i) <==> i == |c| - 1;
  }

  /** One character of a literal, with the one behind a backslash; at the terminator it stops. */
  method CopyCharacter(a: array<char>, ghost c: seq<char>, ghost at: nat, ghost i: nat, into: nat, e: nat)
    returns (ok: bool, n: nat)
    requires Terminated(c) && at <= i <= e < |c| - 1 && into - at == e - i && Unread(a, c, e) && Copied(a, c, at, i, e)
    requires c[e] != '\"'
    modifies a
    ensures ok ==> e + n < |c| && Unread(a, c, e + n) && Copied(a, c, at, i, e + n) && 0 < n
    ensures if ok then ScanEnd(c, e) == ScanEnd(c, e + n) else ScanEnd(c, e).None?
    ensures forall k :: 0 <= k < at ==> a[k] == old(a[k])
  {
    n := 0;
    if a[e] == '\\' {
      CopyByte(a, c, at, i, into, e);
      n := 1;
      AtEnd(c, e + 1);
      if a[e + 1] == '\0' {
        return false, n;
      }
    }
    CopyByte(a, c, at, i, into + n, e + n);
    n := n + 1;
    ok := true;
  }

  /** The copying loop for a string literal at i: it stays behind the reading position. */
  method CopyLiteral(a: array<char>, ghost c: seq<char>, i: nat, at: nat) returns (ok: bool, e: nat)
    requires Terminated(c) && Unread(a, c, i) && at <= i && c[i] == '\"'
    modifies a
    ensures ok <==> ScanEnd(c, i + 1).Some?
    ensures ok ==> e == ScanEnd(c, i + 1).value + 1 && Unread(a, c, e) && Copied(a, c, at, i, e)
    ensures forall k :: 0 <= k < at ==> a[k] == old(a[k])
  {
    ghost var goal := ScanEnd(c, i + 1);
    AtEnd(c, i);
    CopyByte(a, c, at, i, at, i);
    var into := at + 1;
    e := i + 1;
    while a[e] != '\0' && a[e] != '\"'
      invariant i < e < |c| && into - at == e - i && Unread(a, c, e) && Copied(a, c, at, i, e)
      invariant forall k :: 0 <= k < at ==> a[k] == old(a[k])
      invariant ScanEnd(c, e) == goal
      decreases |c| - e
    {
      AtEnd(c, e);
      var n;
      ok, n := CopyCharacter(a, c, at, i, into, e);
      if !ok {
        return false, e;
      }
      into, e := into + n, e + n;
    }
    AtEnd(c, e);
    if a[e] == '\0' {
      return false, e;
    }
    CopyByte(a, c, at, i, into, e);
    e := e + 1;
    ok := true;
  }

  method SkipLine(a: array<char>, ghost c: seq<char>, i: nat) returns (e: nat)
    requires Terminated(c) && Unread(a, c, i)
    ensures e == LineEnd(c, i)
  {
    e := i;
    while a[e] != '\0' && a[e] != '\n'
      invariant i <= e < |c| && LineEnd(c, e) == LineEnd(c, i)
      decreases |c| - e
    {
      AtEnd(c, e);
      e := e + 1;
    }
  }

  method SkipComment(a: array<char>, ghost c: seq<char>, i: nat) returns (e: nat)
    requires Terminated(c) && Unread(a, c, i)
    ensures i <= e < |c| && CommentEnd(c, i) == if c[e] == '\0' then None else Some(e)
  {
    e := i;
    AtEnd(c, e);
    while a[e] != '\0' && !(a[e] == '*' && a[e + 1] == '/')
      invariant i <= e < |c| && CommentEnd(c, e) == CommentEnd(c, i)
      invariant c[e] == '\0' || e + 1 < |c|
      decreases |c| - e
    {
      e := e + 1;
      AtEnd(c, e);
    }
  }

  /** White space and comments. */
  predicate Skips(c: seq<char>, i: nat)
    requires i + 1 < |c|
  {
    IsBlank(c[i]) || (c[i] == '/' && (c[i + 1] == '/' || c[i + 1] == '*'))
  }

  /** A round that only reads. */
  method SkipRound(a: array<char>, ghost c: seq<char>, json: nat) returns (ok: bool, next: nat)
    requires Terminated(c) && Unread(a, c, json) && json + 1 < |c| && Skips(c, json)
    ensures if ok then json < next < |c| && Minified(c, json) == Minified(c, next) else Minified(c, json).None?
  {
    AtEnd(c, json);
    ok := true;
    if IsBlank(a[json]) {
      next := json + 1;
    } else if a[json + 1] == '/' {
      next := SkipLine(a, c, json);
    } else {
      next := SkipComment(a, c, json);
      if a[next] == '\0' {
        return false, next;
      }
      next := next + 2;
    }
  }

  /** A round that copies: a string literal or any other character. */
  method CopyRound(a: array<char>, ghost c: seq<char>, json: nat, into: nat) returns (ok: bool, next: nat)
    requires Terminated(c) && Unread(a, c, json) && into <= json && json + 1 < |c| && !Skips(c, json)
    modifies a
    ensures if ok then json < next && Unread(a, c, next) && Copied(a, c, into, json, next)
                       && Minified(c, json) == Put(c[json..next], Minified(c, next))
            else Minified(c, json).None?
    ensures forall k :: 0 <= k < into ==> a[k] == old(a[k])
  {
    AtEnd(c, json);
    if a[json] == '\"' {
      ok, next := CopyLiteral(a, c, json, into);
    } else {
      CopyByte(a, c, into, json, into, json);
      ok, next := true, json + 1;
      assert c[json..next] == [c[json]];
    }
  }

  /**
   cJSON_Minify on a buffer that holds a C string. `ok` is false where the code would read over the
   terminator; otherwise the buffer holds the shorter text, and writing never overtook reading.
   */
  method MinifyInPlace(a: array<char>) returns (ok: bool, into: nat)
    requires Terminated(a[..])
    modifies a
    ensures ok <==> Minified(old(a[..]), 0).Some?
    ensures ok ==> into < a.Length && a[..into] == Minified(old(a[..]), 0).value && a[into] == '\0'
  {
    ghost var c := a[..];
    ghost var goal := Minified(c, 0);
    ghost var done: seq<char> := [];
    PutNothing(goal);
    var json := 0;
    into := 0;
    while a[json] != '\0'
      invariant into <= json < |c| && Unread(a, c, json) && a[..into] == done && Written(goal, done, c, json)
      decreases |c| - json
    {
      AtEnd(c, json);
      var next;
      if IsBlank(a[json]) || (a[json] == '/' && (a[json + 1] == '/' || a[json + 1] == '*')) {
        ok, next := SkipRound(a, c, json);
        if !ok {
          return false, into;
        }
      } else {
        ok, next := CopyRound(a, c, json, into);
        if !ok {
          return false, into;
        }
        WrittenStep(goal, done, c, json, c[json..next], next);
        into, done := into + (next - json), done + c[json..next];
        assert a[..into] == done;
      }
      json := next;
    }
    a[into] := '\0';
    ok := true;
    assert done + [] == done;
  }
}
