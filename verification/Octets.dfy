module Octets {

  type byte = x: int | 0 <= x < 256

  type Ip = s: seq<byte> | |s| == 4 witness [0, 0, 0, 0]

  /** The n bytes in memory from p on. */
  function Bytes(mem: nat -> byte, p: nat, n: nat): (s: seq<byte>)
    ensures |s| == n
    ensures forall i :: 0 <= i < n ==> s[i] == mem(p + i)
  {
    seq(n, i requires 0 <= i < n => mem(p + i))
  }

  /** Memory holds these bytes from p on. */
  ghost predicate Holds(mem: nat -> byte, p: nat, s: seq<byte>) {
    forall i :: 0 <= i < |s| ==> mem(p + i) == s[i]
  }

  lemma HoldsSplit(mem: nat -> byte, p: nat, a: seq<byte>, b: seq<byte>)
    requires Holds(mem, p, a + b)
    ensures Holds(mem, p, a) && Holds(mem, p + |a|, b)
  {
    forall i | 0 <= i < |a| ensures mem(p + i) == a[i] {
      assert (a + b)[i] == a[i];
    }
    forall i | 0 <= i < |b| ensures mem(p + |a| + i) == b[i] {
      assert (a + b)[|a| + i] == b[i];
      assert mem(p + (|a| + i)) == (a + b)[|a| + i];
    }
  }

  /** Writes a run of bytes at k: `*p++ = ...`, byte by byte. */
  method Put(opt: array<byte>, k: nat, s: seq<byte>) returns (k': nat)
    requires k + |s| <= opt.Length
    modifies opt
    ensures k' == k + |s| && opt[..k'] == old(opt[..k]) + s
  {
    ghost var before := opt[..k];
    var i := 0;
    while i < |s|
      invariant 0 <= i <= |s| && opt[..k + i] == before + s[..i]
    {
      opt[k + i] := s[i];
      i := i + 1;
    }
    assert s[..i] == s;
    k' := k + |s|;
  }
}
