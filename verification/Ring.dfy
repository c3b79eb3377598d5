/**
 The socket buffers of the chip: rings behind 16-bit pointers that wrap on their own.
 */
module Ring {
  import opened Octets

  const WRAP := 0x1_0000

  /** The buffer sizes the chip can be set to. */
  predicate IsSize(n: int) { n == 1024 || n == 2048 || n == 4096 || n == 8192 || n == 16384 }

  /** A pointer register after an advance. */
  function Advance(p: nat, n: nat): nat { (p + n) % WRAP }

  /** Where a pointer stands on a ring. */
  function Place(p: nat, size: nat): (i: nat)
    requires IsSize(size)
    ensures i < size
  {
    p % size
  }

  /** Wrapping the pointer does not move it on the ring. */
  lemma WrapKeepsPlace(p: nat, size: nat)
    requires IsSize(size)
    ensures Place(p % WRAP, size) == Place(p, size)
  {
    if size == 1024 {
      assert p % 0x1_0000 % 1024 == p % 1024;
    } else if size == 2048 {
      assert p % 0x1_0000 % 2048 == p % 2048;
    } else if size == 4096 {
      assert p % 0x1_0000 % 4096 == p % 4096;
    } else if size == 8192 {
      assert p % 0x1_0000 % 8192 == p % 8192;
    } else {
      assert p % 0x1_0000 % 16384 == p % 16384;
    }
  }

  /** Two places closer than one round of the ring are different. */
  lemma DifferentPlaces(p: nat, q: nat, size: nat)
    requires IsSize(size) && p < q < p + size
    ensures Place(p, size) != Place(q, size)
  {
    if size == 1024 {
      assert p % 1024 != q % 1024;
    } else if size == 2048 {
      assert p % 2048 != q % 2048;
    } else if size == 4096 {
      assert p % 4096 != q % 4096;
    } else if size == 8192 {
      assert p % 8192 != q % 8192;
    } else {
      assert p % 16384 != q % 16384;
    }
  }

  /** The n bytes from a pointer on. */
  ghost function Window(ring: seq<byte>, start: nat, n: nat): (w: seq<byte>)
    requires IsSize(|ring|)
    ensures |w| == n
    ensures forall i :: 0 <= i < n ==> w[i] == ring[Place(start + i, |ring|)]
  {
    seq(n, i requires 0 <= i < n => ring[Place(start + i, |ring|)])
  }

  lemma WindowSplit(ring: seq<byte>, start: nat, n: nat, m: nat)
    requires IsSize(|ring|)
    ensures Window(ring, start, n + m) == Window(ring, start, n) + Window(ring, start + n, m)
  {
    var a, b, c := Window(ring, start, n + m), Window(ring, start, n), Window(ring, start + n, m);
    forall i | 0 <= i < n + m ensures a[i] == (b + c)[i] {
      if i >= n {
        assert c[i - n] == ring[Place(start + n + (i - n), |ring|)];
      }
    }
  }

  lemma WindowWrap(ring: seq<byte>, start: nat, n: nat)
    requires IsSize(|ring|)
    ensures Window(ring, start % WRAP, n) == Window(ring, start, n)
  {
    var a, b := Window(ring, start % WRAP, n), Window(ring, start, n);
    forall i | 0 <= i < n ensures a[i] == b[i] {
      WrapKeepsPlace(start + i, |ring|);
      WrapKeepsPlace(start % WRAP + i, |ring|);
      assert (start % WRAP + i) % WRAP == (start + i) % WRAP;
    }
  }

  /** Writing one byte behind a window leaves the window alone, as long as both fit the ring. */
  lemma WindowKeeps(ring: seq<byte>, ring': seq<byte>, start: nat, n: nat, at: nat)
    requires IsSize(|ring|) && |ring'| == |ring| && start + n <= at < start + |ring|
    requires forall j :: 0 <= j < |ring| && j != Place(at, |ring|) ==> ring'[j] == ring[j]
    ensures Window(ring', start, n) == Window(ring, start, n)
  {
    var a, b := Window(ring', start, n), Window(ring, start, n);
    forall i | 0 <= i < n ensures a[i] == b[i] {
      DifferentPlaces(start + i, at, |ring|);
    }
  }

  /** How many bytes lie between a read and a write pointer. */
  function Filled(rd: nat, wr: nat): nat
    requires rd < WRAP && wr < WRAP
  {
    (wr - rd) % WRAP
  }

  lemma FilledAdvance(rd: nat, wr: nat, n: nat)
    requires rd < WRAP && wr < WRAP
    ensures Filled(rd, wr) + n < WRAP ==> Filled(rd, Advance(wr, n)) == Filled(rd, wr) + n
    ensures n <= Filled(rd, wr) ==> Filled(Advance(rd, n), wr) == Filled(rd, wr) - n
  {
  }

  /** WIZCHIP_WRITE_BUF: bytes go into the ring from a pointer on; what was waiting there stays. */
  method WriteRing(ring: array<byte>, ptr: nat, data: seq<byte>, ghost start: nat, ghost n: nat)
    requires IsSize(ring.Length) && ptr < WRAP && start < WRAP && ptr == Advance(start, n) && n + |data| <= ring.Length
    modifies ring
    ensures Window(ring[..], start, n + |data|) == old(Window(ring[..], start, n)) + data
  {
    ghost var before := Window(ring[..], start, n);
    var i := 0;
    WindowSplit(ring[..], start, n, 0);
    while i < |data|
      invariant 0 <= i <= |data|
      invariant Window(ring[..], start, n + i) == before + data[..i]
    {
      ghost var was := ring[..];
      ring[Place((ptr + i) % WRAP, ring.Length)] := data[i];
      SamePlace(start, n, ptr, i, ring.Length);
      WindowKeeps(was, ring[..], start, n + i, start + n + i);
      WindowSplit(ring[..], start, n + i, 1);
      i := i + 1;
    }
    assert data[..i] == data;
  }

  lemma SamePlace(start: nat, n: nat, ptr: nat, i: nat, size: nat)
    requires IsSize(size) && ptr == Advance(start, n)
    ensures Place((ptr + i) % WRAP, size) == Place(start + n + i, size)
  {
    WrapKeepsPlace(start + n + i, size);
    assert (ptr + i) % WRAP == (start + n + i) % WRAP;
  }

  /** WIZCHIP_READ_BUF */
  method ReadRing(ring: array<byte>, ptr: nat, len: nat) returns (data: seq<byte>)
    requires IsSize(ring.Length) && ptr < WRAP
    ensures data == Window(ring[..], ptr, len)
  {
    data := [];
    var i := 0;
    while i < len
      invariant 0 <= i <= len && data == Window(ring[..], ptr, i)
    {
      WrapKeepsPlace(ptr + i, ring.Length);
      data := data + [ring[Place((ptr + i) % WRAP, ring.Length)]];
      WindowSplit(ring[..], ptr, i, 1);
      i := i + 1;
    }
  }
}
