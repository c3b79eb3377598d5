/**
 Domain names in DNS messages: the query builder and the name reader (sections 3.1 and 4.1.4 of RFC 1035).
 */
module Dns {
  import opened Wrappers
  import opened Octets

  const DOT: byte := 46
  const MAX_CNAME := 24
  const MAX_BUF := 256

  /** A name: the bytes in front of the terminator. */
  type Name = seq<byte>

  // ---------- names as labels ----------

  /** Where the next dot is, or the end of the name. */
  function NextDot(name: Name, i: nat): (d: nat)
    requires i <= |name|
    ensures i <= d <= |name| && (d < |name| ==> name[d] == DOT)
    decreases |name| - i
  {
    if i < |name| && name[i] != DOT then NextDot(name, i + 1) else i
  }

  /** The labels that dns_makequery writes, from position i on: it stops at the first empty one. */
  function Labels(name: Name, i: nat): seq<seq<byte>>
    requires i <= |name|
    decreases |name| - i, 1
  {
    var d := NextDot(name, i);
    if d == i then [] else [name[i..d]] + LabelsBehind(name, d)
  }

  function LabelsBehind(name: Name, d: nat): seq<seq<byte>>
    requires d <= |name|
    decreases |name| - d, 0
  {
    if d == |name| then [] else Labels(name, d + 1)
  }

  predicate AllShort(labels: seq<seq<byte>>) { forall i :: 0 <= i < |labels| ==> |labels[i]| < 256 }

  /** A name on the wire: each label behind its length, and a zero. */
  ghost function Encode(labels: seq<seq<byte>>): seq<byte>
    requires AllShort(labels)
  {
    if labels == [] then [0] else [|labels[0]|] + labels[0] + Encode(labels[1..])
  }

  /** A name for people: a dot behind every label. */
  function Dotted(labels: seq<seq<byte>>): seq<byte> {
    if labels == [] then [] else labels[0] + [DOT] + Dotted(labels[1..])
  }

  /** No empty label from position i on. */
  ghost predicate Clean(name: Name, i: nat)
    requires i <= |name|
    decreases |name| - i
  {
    var d := NextDot(name, i);
    d > i && (d < |name| ==> Clean(name, d + 1))
  }

  lemma {:induction false} LabelsJoin(name: Name, i: nat)
    requires i <= |name| && Clean(name, i)
    ensures Dotted(Labels(name, i)) == name[i..] + [DOT]
    decreases |name| - i
  {
    var d := NextDot(name, i);
    var l, rest := name[i..d], LabelsBehind(name, d);
    assert ([l] + rest)[1..] == rest;
    if d < |name| {
      LabelsJoin(name, d + 1);
      assert name[i..] == l + [DOT] + name[d + 1..];
    } else {
      assert name[i..] == l;
    }
  }

  lemma {:induction false} LabelsBound(name: Name, i: nat)
    requires i <= |name|
    ensures forall k :: 0 <= k < |Labels(name, i)| ==> 0 < |Labels(name, i)[k]| <= |name|
    decreases |name| - i
  {
    var d := NextDot(name, i);
    if d > i {
      var rest := LabelsBehind(name, d);
      if d < |name| {
        LabelsBound(name, d + 1);
        assert rest == Labels(name, d + 1);
      }
      assert Labels(name, i) == [name[i..d]] + rest;
    }
  }

  lemma {:induction false} NextDotInside(name: Name, tail: Name, i: nat)
    requires i <= |name| && tail != [] && tail[0] == DOT
    ensures NextDot(name + tail, i) == NextDot(name, i)
    decreases |name| - i
  {
    if i < |name| && name[i] != DOT {
      NextDotInside(name, tail, i + 1);
    }
  }

  /** A final dot adds no label, and whatever stands behind two dots in a row is lost. */
  lemma {:induction false} LabelsStop(name: Name, tail: Name, i: nat)
    requires i <= |name| && Clean(name, i) && tail != [] && tail[0] == DOT && (|tail| > 1 ==> tail[1] == DOT)
    ensures Labels(name + tail, i) == Labels(name, i)
    decreases |name| - i
  {
    var whole, d := name + tail, NextDot(name, i);
    NextDotInside(name, tail, i);
    assert whole[i..d] == name[i..d];
    if d < |name| {
      LabelsStop(name, tail, d + 1);
    } else {
      assert whole[d] == tail[0] && (|tail| > 1 ==> whole[d + 1] == tail[1]);
      assert NextDot(whole, d + 1) == d + 1;
      assert LabelsBehind(whole, d) == [];
    }
  }

  // ---------- dns_makequery ----------

  function Sixteen(x: nat): seq<byte> { [x / 256 % 256, x % 256] }

  function QueryHeader(id: nat, op: nat): (s: seq<byte>)
    ensures |s| == 12
  {
    Sixteen(id) + Sixteen((op * 2048 + 0x0100) % 0x1_0000) + Sixteen(1) + Sixteen(0) + Sixteen(0) + Sixteen(0)
  }

  /**
   The header as section 4.1.1 of RFC 1035 lays it out: the identifier; in the third byte the response bit and the
   operation, both from `op`, no authoritative answer, no truncation, recursion desired; no other flags; one question
   and no records.
   */
  lemma QueryHeaderFields(id: nat, op: nat)
    ensures var h := QueryHeader(id, op);
            && h[0] as int * 256 + h[1] == id % 0x1_0000
            && h[2] / 128 == op / 16 % 2 && h[2] / 8 % 16 == op % 16
            && h[2] / 4 % 2 == 0 && h[2] / 2 % 2 == 0 && h[2] % 2 == 1 && h[3] == 0
            && h[4..] == [0, 1, 0, 0, 0, 0, 0, 0]
  {
    SixteenReads(id);
    FlagByte(op);
    FlagBits(op, op % 32);
  }

  lemma SixteenReads(x: nat)
    ensures Sixteen(x)[0] as int * 256 + Sixteen(x)[1] == x % 0x1_0000
  {
    var q, r := x / 0x1_0000, x % 0x1_0000;
    assert x == q * 0x1_0000 + r;
    assert x / 256 == q * 256 + r / 256 && x % 256 == r % 256;
  }

  lemma FlagByte(op: nat)
    ensures Sixteen((op * 2048 + 0x0100) % 0x1_0000) == [op % 32 * 8 + 1, 0]
  {
    FlagBytes(op % 32, op / 32);
  }

  lemma FlagBytes(low: nat, high: nat)
    requires low < 32
    ensures ((high * 32 + low) * 2048 + 0x0100) % 0x1_0000 == low * 2048 + 0x0100
    ensures (low * 2048 + 0x0100) / 256 == low * 8 + 1 && (low * 2048 + 0x0100) % 256 == 0
  {
    assert (high * 32 + low) * 2048 + 0x0100 == high * 0x1_0000 + (low * 2048 + 0x0100);
  }

  lemma FlagBits(op: nat, low: nat)
    requires low == op % 32
    ensures var x := low * 8 + 1;
            x / 128 == op / 16 % 2 && x / 8 % 16 == op % 16 && x / 4 % 2 == 0 && x / 2 % 2 == 0 && x % 2 == 1
  {
    var x, high := low * 8 + 1, op / 32;
    assert x / 8 == low && x / 4 == low * 2 && x / 2 == low * 4;
    assert op == high * 32 + low && op / 16 == high * 2 + low / 16;
    assert x / 128 == low / 16;
  }

  /** dns_makequery; the copy of the name on its stack has room for MAX_CNAME bytes. */
  method MakeQuery(id: nat, op: nat, name: Name, buf: array<byte>) returns (n: nat)
    requires |name| < MAX_CNAME && buf.Length == MAX_BUF
    modifies buf
    ensures n <= |name| + 18
    ensures AllShort(Labels(name, 0))
         && buf[..n] == QueryHeader(id, op) + Encode(Labels(name, 0)) + [0, 1, 0, 1]
  {
    var header := QueryHeader(id, op);
    var cp := Put(buf, 0, header);
    assert buf[..cp] == header;
    cp := PutName(buf, cp, name);
    WireEncodes(name, 0);
    n := Put(buf, cp, [0, 1, 0, 1]);
  }

  /** The name on the wire, label by label as the loop writes it. */
  function Wire(name: Name, i: nat): seq<byte>
    requires i <= |name| < 256
    decreases |name| - i, 1
  {
    var d := NextDot(name, i);
    if d == i then [0] else [d - i] + name[i..d] + WireBehind(name, d)
  }

  function WireBehind(name: Name, d: nat): seq<byte>
    requires d <= |name| < 256
    decreases |name| - d, 0
  {
    if d == |name| then [0] else Wire(name, d + 1)
  }

  /** It is the encoding of the labels. */
  lemma {:induction false} WireEncodes(name: Name, i: nat)
    requires i <= |name| < 256
    ensures AllShort(Labels(name, i)) && Wire(name, i) == Encode(Labels(name, i))
    decreases |name| - i, 1
  {
    var d := NextDot(name, i);
    if i < d {
      WireBehindEncodes(name, d);
      EncodeOne(name[i..d], LabelsBehind(name, d));
    }
  }

  lemma {:induction false} WireBehindEncodes(name: Name, d: nat)
    requires d <= |name| < 256
    ensures AllShort(LabelsBehind(name, d)) && WireBehind(name, d) == Encode(LabelsBehind(name, d))
    decreases |name| - d, 0
  {
    if d < |name| {
      WireEncodes(name, d + 1);
    }
  }

  lemma {:induction false} EncodeOne(l: seq<byte>, rest: seq<seq<byte>>)
    requires |l| < 256 && AllShort(rest)
    ensures AllShort([l] + rest) && Encode([l] + rest) == [|l|] + l + Encode(rest)
  {
    assert ([l] + rest)[1..] == rest;
  }

  lemma {:induction false} WireStep(goal: seq<byte>, done: seq<byte>, name: Name, i: nat, d: nat)
    requires i <= |name| < 256 && d == NextDot(name, i) && goal == done + Wire(name, i)
    ensures goal == if d == i then done + [0] else done + [d - i] + name[i..d] + WireBehind(name, d)
  {
    if d > i {
      RegroupFour(done, [d - i], name[i..d], WireBehind(name, d));
    }
  }

  /** The labelling loop. */
  method PutName(buf: array<byte>, start: nat, name: Name) returns (cp: nat)
    requires |name| < MAX_CNAME && start + |name| + 2 <= buf.Length
    modifies buf
    ensures start < cp <= start + |name| + 2 && buf[..cp] == old(buf[..start]) + Wire(name, 0)
  {
    ghost var done := buf[..start];
    ghost var goal := done + Wire(name, 0);
    cp := start;
    var i := 0;
    while true
      invariant 0 <= i <= |name| && cp == start + i && buf[..cp] == done && goal == done + Wire(name, i)
      decreases |name| - i
    {
      var d := FindDot(name, i);
      WireStep(goal, done, name, i, d);
      cp := Put(buf, cp, [d - i]);
      if d == i {
        return;
      }
      cp := Put(buf, cp, name[i..d]);
      done := done + [d - i] + name[i..d];
      if d == |name| {
        cp := Put(buf, cp, [0]);
        return;
      }
      i := d + 1;
    }
  }

  lemma RegroupFour(a: seq<byte>, b: seq<byte>, c: seq<byte>, d: seq<byte>)
    ensures a + (b + c + d) == a + b + c + d
  {
  }

  /** strchr */
  method FindDot(name: Name, i: nat) returns (d: nat)
    requires i <= |name|
    ensures d == NextDot(name, i)
  {
    d := i;
    while d < |name| && name[d] != DOT
      invariant i <= d <= |name| && NextDot(name, d) == NextDot(name, i)
    {
      d := d + 1;
    }
  }

  // ---------- parse_name ----------

  /** One round: the length and place of the next segment, whether a pointer led there, and the bytes read for it. */
  function Segment(mem: nat -> byte, cp: nat): (r: (nat, nat, bool))
    ensures r.0 < 256
  {
    if mem(cp) >= 0xC0 then
      var q := (mem(cp) % 0x40) as int * 256 + mem(cp + 1);
      (mem(q), q + 1, true)
    else (mem(cp), cp + 1, false)
  }

  /**
   The loop of parse_name: the dotted text and the length of the compressed name, or None where the room
   is used up. Whatever the message, a round takes two or more of the room, so pointers cannot go round.
   */
  function Segments(mem: nat -> byte, cp: nat, room: nat, indirect: bool): Option<(seq<byte>, nat)>
    decreases room
  {
    var (slen, at, jump) := Segment(mem, cp);
    var counted := if indirect then 0 else if jump then 2 else 1;
    if slen == 0 then Some(([], counted))
    else if room < slen + 1 then None
    else
      var rest := Segments(mem, at + slen, room - (slen + 1), indirect || jump);
      if rest.None? then None
      else Some((Bytes(mem, at, slen) + [DOT] + rest.value.0,
                 counted + (if indirect || jump then 0 else slen) + rest.value.1))
  }

  /** The text behind the loop: the root is a single dot. */
  function NameText(text: seq<byte>): seq<byte> { if text == [] then [DOT] else text }

  /** The text never outgrows the room, but for the root's dot; the terminator comes on top of it. */
  lemma {:induction false} TextFits(mem: nat -> byte, cp: nat, room: nat, indirect: bool)
    ensures Segments(mem, cp, room, indirect).Some? ==> |Segments(mem, cp, room, indirect).value.0| <= room
    decreases room
  {
    var (slen, at, jump) := Segment(mem, cp);
    if 0 < slen < room {
      TextFits(mem, at + slen, room - (slen + 1), indirect || jump);
    }
  }

  /** The head of a round: the length byte, and the pointer if it is one. */
  method ReadLength(mem: nat -> byte, cp: nat, indirect: bool)
    returns (slen: nat, at: nat, indirect': bool, counted: nat)
    ensures (slen, at) == (Segment(mem, cp).0, Segment(mem, cp).1) && indirect' == (indirect || Segment(mem, cp).2)
    ensures counted == if indirect then 0 else if Segment(mem, cp).2 then 2 else 1
  {
    slen, at, indirect', counted := mem(cp), cp + 1, indirect, 0;
    if !indirect {
      counted := 1;
    }
    if slen >= 0xC0 {
      if !indirect {
        counted := 2;
      }
      indirect' := true;
      at := (slen % 0x40) * 256 + mem(at);
      slen := mem(at);
      at := at + 1;
    }
  }

  /** One round of parse_name: the segment, if there is one and it fits the room. */
  method ParseRound(mem: nat -> byte, cp: nat, room: nat, indirect: bool, buf: array<byte>, n: nat, clen: nat,
                    ghost goal: Option<(seq<byte>, nat)>)
    returns (slen: nat, cp': nat, jumped: bool, counted: nat, n': nat)
    requires n + room <= buf.Length && goal == Extend(buf[..n], clen, Segments(mem, cp, room, indirect))
    modifies buf
    ensures slen == 0 ==> n' == n && buf[..n] == old(buf[..n]) && goal == Some((buf[..n], clen + counted))
    ensures slen > 0 && room < slen + 1 ==> goal.None?
    ensures slen > 0 && room >= slen + 1 ==> n' == n + slen + 1
    ensures slen > 0 && room >= slen + 1 ==>
              goal == Extend(buf[..n'], clen + counted, Segments(mem, cp', room - (slen + 1), jumped))
  {
    ghost var done := buf[..n];
    var at;
    slen, at, jumped, counted := ReadLength(mem, cp, indirect);
    ghost var tail := SegmentsStep(goal, done, clen, mem, cp, room, indirect, slen, at, jumped, counted);
    cp', n' := at + slen, n;
    if slen > 0 && room >= slen + 1 {
      if !jumped {
        counted := counted + slen;
      }
      n' := CopySegment(mem, at, slen, buf, n);
    }
  }

  /** The loop of parse_name: clen is -1 when the room is used up. */
  method ParseSegments(mem: nat -> byte, compressed: nat, buf: array<byte>, len: nat) returns (clen: int, n: nat)
    requires buf.Length >= len
    modifies buf
    ensures clen == -1 <==> Segments(mem, compressed, len, false).None?
    ensures clen != -1 ==> n <= len && Segments(mem, compressed, len, false) == Some((buf[..n], clen))
  {
    ghost var goal := Segments(mem, compressed, len, false);
    var cp: nat, room: nat, indirect := compressed, len, false;
    clen, n := 0, 0;
    ExtendStart(goal);
    assert buf[..n] == [];
    while true
      invariant room <= len && n == len - room && 0 <= clen
      invariant goal == Extend(buf[..n], clen, Segments(mem, cp, room, indirect))
      decreases room
    {
      var slen, counted;
      slen, cp, indirect, counted, n := ParseRound(mem, cp, room, indirect, buf, n, clen, goal);
      if slen == 0 {
        return clen + counted, n;
      }
      if room < slen + 1 {
        return -1, n;
      }
      room, clen := room - (slen + 1), clen + counted;
    }
  }

  /**
   parse_name into a buffer of at least `len` bytes; n is how many bytes it writes. The final dot of the
   root and the terminator are not counted against `len`, so they can go over the end of the buffer.
   */
  method ParseName(mem: nat -> byte, compressed: nat, buf: array<byte>, len: nat)
    returns (clen: int, n: nat, overrun: bool)
    requires buf.Length >= len
    modifies buf
    ensures clen == -1 <==> Segments(mem, compressed, len, false).None?
    ensures clen != -1 ==> clen == Segments(mem, compressed, len, false).value.1
    ensures clen != -1 ==> n == |NameText(Segments(mem, compressed, len, false).value.0)| + 1
    ensures overrun <==> clen != -1 && n > buf.Length
    ensures clen != -1 && !overrun ==> buf[..n] == NameText(Segments(mem, compressed, len, false).value.0) + [0]
  {
    overrun := false;
    clen, n := ParseSegments(mem, compressed, buf, len);
    if clen != -1 {
      ghost var text := buf[..n];
      if n == 0 {
        overrun := PutByte(buf, n, DOT);
        n := n + 1;
      }
      assert !overrun ==> buf[..n] == NameText(text);
      var over := PutByte(buf, n, 0);
      overrun, n := overrun || over, n + 1;
    }
  }

  /** `*buf++ = b`, where it still is the buffer. */
  method PutByte(buf: array<byte>, n: nat, b: byte) returns (over: bool)
    modifies buf
    ensures over <==> n >= buf.Length
    ensures over ==> buf[..] == old(buf[..])
    ensures !over ==> buf[..n + 1] == old(buf[..n]) + [b]
  {
    over := n >= buf.Length;
    if !over {
      buf[n] := b;
    }
  }

  /**
   On any message, the name and its terminator outgrow the room exactly if the text fills it, or for the root with
   room below two.
   */
  lemma OverrunsIff(mem: nat -> byte, cp: nat, room: nat)
    requires Segments(mem, cp, room, false).Some?
    ensures var text := Segments(mem, cp, room, false).value.0;
            |NameText(text)| + 1 > room <==> (text != [] && |text| == room) || (text == [] && room < 2)
  {
    TextFits(mem, cp, room, false);
  }

  lemma ExtendStart(goal: Option<(seq<byte>, nat)>)
    ensures Extend([], 0, goal) == goal
  {
    if goal.Some? {
      assert [] + goal.value.0 == goal.value.0;
    }
  }

  /** One round of the loop, on the goal it works towards. */
  lemma {:induction false} SegmentsStep(goal: Option<(seq<byte>, nat)>, done: seq<byte>, clen: nat, mem: nat -> byte,
                                        cp: nat, room: nat, indirect: bool, slen: nat, at: nat, jumped: bool,
                                        counted: nat)
    returns (tail: Option<(seq<byte>, nat)>)
    requires goal == Extend(done, clen, Segments(mem, cp, room, indirect))
    requires (slen, at) == (Segment(mem, cp).0, Segment(mem, cp).1) && jumped == (indirect || Segment(mem, cp).2)
    requires counted == if indirect then 0 else if Segment(mem, cp).2 then 2 else 1
    ensures slen == 0 ==> goal == Some((done, clen + counted))
    ensures slen > 0 && room < slen + 1 ==> goal.None?
    ensures slen > 0 && room >= slen + 1 ==>
              goal ==
              Extend(done + (Bytes(mem, at, slen) + [DOT]), clen + (if jumped then counted else counted + slen), tail)
              && tail == Segments(mem, at + slen, room - (slen + 1), jumped)
  {
    tail := None;
    if slen == 0 {
      assert done + [] == done;
    } else if room >= slen + 1 {
      tail := Segments(mem, at + slen, room - (slen + 1), jumped);
      ExtendStep(done, clen, Bytes(mem, at, slen) + [DOT], if jumped then counted else counted + slen, tail);
    }
  }

  function Extend(text: seq<byte>, counted: nat, rest: Option<(seq<byte>, nat)>): Option<(seq<byte>, nat)> {
    match rest
    case None => None
    case Some((t, c)) => Some((text + t, counted + c))
  }

  lemma ExtendStep(done: seq<byte>, counted: nat, text: seq<byte>, more: nat, rest: Option<(seq<byte>, nat)>)
    ensures Extend(done, counted, Extend(text, more, rest)) == Extend(done + text, counted + more, rest)
  {
    if rest.Some? {
      assert done + (text + rest.value.0) == done + text + rest.value.0;
    }
  }

  method CopySegment(mem: nat -> byte, cp: nat, slen: nat, buf: array<byte>, n: nat) returns (n': nat)
    requires n + slen + 1 <= buf.Length
    modifies buf
    ensures n' == n + slen + 1 && buf[..n'] == old(buf[..n]) + (Bytes(mem, cp, slen) + [DOT])
  {
    ghost var before := buf[..n];
    var i := 0;
    while i < slen
      invariant 0 <= i <= slen && buf[..n + i] == before + Bytes(mem, cp, i)
    {
      buf[n + i] := mem(cp + i);
      i := i + 1;
    }
    buf[n + i] := DOT;
    n' := n + slen + 1;
    assert buf[..n'] == before + (Bytes(mem, cp, slen) + [DOT]);
  }

  // ---------- reading back what was written ----------

  /** A label on the wire is the next segment. */
  lemma {:induction false} LabelHere(mem: nat -> byte, p: nat, l: seq<byte>, rest: seq<byte>)
    requires |l| < 0xC0 && Holds(mem, p, [|l|] + l + rest)
    ensures Segment(mem, p) == (|l|, p + 1, false) && Bytes(mem, p + 1, |l|) == l && Holds(mem, p + 1 + |l|, rest)
  {
    assert [|l|] + l + rest == [|l|] + (l + rest);
    HoldsSplit(mem, p, [|l|], l + rest);
    assert mem(p + 0) == [|l|][0];
    HoldsSplit(mem, p + 1, l, rest);
  }

  /** Encoded labels read back as the dotted name, with exactly their encoded length, if and only if there is room. */
  lemma {:induction false} ReadsLabels(mem: nat -> byte, p: nat, room: nat, labels: seq<seq<byte>>)
    requires forall i :: 0 <= i < |labels| ==> 0 < |labels[i]| < 0xC0
    requires Holds(mem, p, Encode(labels))
    ensures Segments(mem, p, room, false)
         == if |Dotted(labels)| <= room then Some((Dotted(labels), |Encode(labels)|)) else None
    decreases |labels|
  {
    if labels == [] {
      assert mem(p + 0) == Encode(labels)[0];
    } else {
      var l, rest := labels[0], labels[1..];
      LabelHere(mem, p, l, Encode(rest));
      if room >= |l| + 1 {
        ReadsLabels(mem, p + 1 + |l|, room - (|l| + 1), rest);
      }
    }
  }

  /**
   The reader on a query: at byte 12 of the message that dns_makequery builds, parse_name finds the queried
   name and a final dot, for every name without empty labels; it reports the encoded length, and fails
   exactly when the room is too small.
   */
  lemma QueryReads(mem: nat -> byte, id: nat, op: nat, name: Name, room: nat)
    requires |name| < 0xC0 && Clean(name, 0)
    requires AllShort(Labels(name, 0))
          && Holds(mem, 0, QueryHeader(id, op) + Encode(Labels(name, 0)) + [0, 1, 0, 1])
    ensures Segments(mem, 12, room, false)
         == if |name| + 1 <= room then Some((name + [DOT], |name| + 2)) else None
  {
    ReadsBehind(mem, QueryHeader(id, op), name, room);
  }

  /** A name behind any twelve bytes. */
  lemma {:induction false} ReadsBehind(mem: nat -> byte, header: seq<byte>, name: Name, room: nat)
    requires |name| < 0xC0 && Clean(name, 0) && |header| == 12
    requires AllShort(Labels(name, 0)) && Holds(mem, 0, header + Encode(Labels(name, 0)) + [0, 1, 0, 1])
    ensures Segments(mem, 12, room, false)
         == if |name| + 1 <= room then Some((name + [DOT], |name| + 2)) else None
  {
    var labels := Labels(name, 0);
    LabelsBound(name, 0);
    HoldsSplit(mem, 0, header + Encode(labels), [0, 1, 0, 1]);
    HoldsSplit(mem, 0, header, Encode(labels));
    ReadsLabels(mem, 12, room, labels);
    LabelsJoin(name, 0);
    assert name[0..] == name;
    EncodedLength(labels);
  }

  /** For encoded labels: an overrun exactly if the dotted name fills the room, or for the root with room below two. */
  lemma LabelsOverrunIff(mem: nat -> byte, p: nat, room: nat, labels: seq<seq<byte>>)
    requires (forall i :: 0 <= i < |labels| ==> 0 < |labels[i]| < 0xC0) && Holds(mem, p, Encode(labels))
    ensures Segments(mem, p, room, false).Some? && |NameText(Segments(mem, p, room, false).value.0)| + 1 > room
       <==> |Dotted(labels)| == room || (labels == [] && room < 2)
  {
    ReadsLabels(mem, p, room, labels);
    if labels != [] {
      assert Dotted(labels) != [];
    }
  }

  /**
   The client's own queries, read into a buffer of MAX_CNAME bytes as the question reader does: the name is
   always accepted, and its terminator goes over the end exactly if the name has 23 bytes.
   */
  lemma QueryOverrunsIff(mem: nat -> byte, id: nat, op: nat, name: Name)
    requires |name| < MAX_CNAME && Clean(name, 0) && AllShort(Labels(name, 0))
    requires Holds(mem, 0, QueryHeader(id, op) + Encode(Labels(name, 0)) + [0, 1, 0, 1])
    ensures Segments(mem, 12, MAX_CNAME, false).Some?
    ensures |NameText(Segments(mem, 12, MAX_CNAME, false).value.0)| + 1 > MAX_CNAME <==> |name| == 23
  {
    QueryReads(mem, id, op, name, MAX_CNAME);
  }

  lemma {:induction false} EncodedLength(labels: seq<seq<byte>>)
    requires AllShort(labels)
    ensures |Encode(labels)| == |Dotted(labels)| + 1
  {
    if labels != [] {
      EncodedLength(labels[1..]);
    }
  }
}
