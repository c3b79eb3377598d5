/**
 Compressed names (section 4.1.4 of RFC 1035): labels that end in a zero, or in a pointer to the rest of the name.
 */
module DnsPointers {
  import opened Wrappers
  import opened Octets
  import opened Dns

  /** A name as a message spells it: labels up to the end, or up to a pointer to where the name goes on. */
  datatype Spelling = Last(labels: seq<seq<byte>>) | Onward(labels: seq<seq<byte>>, target: nat, rest: Spelling)

  function AllLabels(n: Spelling): seq<seq<byte>> {
    match n
    case Last(labels) => labels
    case Onward(labels, _, rest) => labels + AllLabels(rest)
  }

  /** The bytes where the spelling starts: every label behind its length, and a zero or a pointer of two bytes. */
  ghost function Spelled(n: Spelling): seq<byte>
    requires AllShort(n.labels) && (n.Onward? ==> n.target < 0x4000)
    decreases |n.labels|
  {
    if n.labels != [] then [|n.labels[0]|] + n.labels[0] + Spelled(n.(labels := n.labels[1..]))
    else if n.Last? then [0]
    else [0xC0 + n.target / 0x100, n.target % 0x100]
  }

  function Jumps(n: Spelling): nat {
    if n.Last? then 0 else 1 + Jumps(n.rest)
  }

  /** Memory holds the spelling from p on, and what its pointers lead to. */
  ghost predicate Stored(mem: nat -> byte, p: nat, n: Spelling)
    decreases n
  {
    && (forall i :: 0 <= i < |n.labels| ==> 0 < |n.labels[i]| < 0xC0)
    && (n.Onward? ==> n.target < 0x4000 && Stored(mem, n.target, n.rest) && (n.rest.Onward? ==> n.rest.labels != []))
    && Holds(mem, p, Spelled(n))
  }

  /** What the reader should find: the dotted name if there is room for it, and the bytes it takes where it starts. */
  ghost function Expected(n: Spelling, room: nat, indirect: bool): Option<(seq<byte>, nat)>
    requires AllShort(n.labels) && (n.Onward? ==> n.target < 0x4000)
  {
    var text := Dotted(AllLabels(n));
    if |text| <= room then Some((text, if indirect then 0 else |Spelled(n)|)) else None
  }

  /** The second result with some text and some bytes counted in front. */
  ghost predicate Follows(r: Option<(seq<byte>, nat)>, text: seq<byte>, counted: nat, rest: Option<(seq<byte>, nat)>) {
    && (r.Some? <==> rest.Some?)
    && (r.Some? ==> r.value.0 == text + rest.value.0 && r.value.1 == counted + rest.value.1)
  }

  /** A pointer: reading goes on where it leads. */
  lemma JumpReads(mem: nat -> byte, p: nat, q: nat, room: nat, indirect: bool)
    requires q < 0x4000 && mem(p) == 0xC0 + q / 0x100 && mem(p + 1) == q % 0x100 && mem(q) < 0xC0
    ensures Follows(Segments(mem, p, room, indirect), [], if indirect then 0 else 2, Segments(mem, q, room, true))
  {
    assert mem(p) % 0x40 * 256 + mem(p + 1) == q;
    assert Segment(mem, p) == (mem(q), q + 1, true) && Segment(mem, q) == (mem(q), q + 1, false);
    var a, b := Segments(mem, p, room, indirect), Segments(mem, q, room, true);
    if b.Some? {
      assert [] + b.value.0 == b.value.0;
      if 0 < mem(q) && mem(q) + 1 <= room {
        var rest := Segments(mem, q + 1 + mem(q), room - (mem(q) + 1), true);
        assert b.value.0 == Bytes(mem, q + 1, mem(q)) + [DOT] + rest.value.0 && b.value.1 == rest.value.1;
        assert a.value.0 == b.value.0;
      }
    }
  }

  /** A label: it is copied, and reading goes on behind it. */
  lemma LabelReads(mem: nat -> byte, p: nat, l: seq<byte>, rest: seq<byte>, room: nat, indirect: bool)
    requires 0 < |l| < 0xC0 && Holds(mem, p, [|l|] + l + rest)
    ensures Holds(mem, p + 1 + |l|, rest)
    ensures room < |l| + 1 ==> Segments(mem, p, room, indirect).None?
    ensures room >= |l| + 1 ==>
              Follows(Segments(mem, p, room, indirect), l + [DOT], if indirect then 0 else 1 + |l|,
                      Segments(mem, p + 1 + |l|, room - (|l| + 1), indirect))
  {
    LabelHere(mem, p, l, rest);
  }

  lemma StartsBelowPointers(mem: nat -> byte, p: nat, n: Spelling)
    requires Stored(mem, p, n) && (n.Onward? ==> n.labels != [])
    ensures mem(p) < 0xC0
  {
    assert mem(p + 0) == Spelled(n)[0];
  }

  lemma TailStored(mem: nat -> byte, p: nat, n: Spelling)
    requires Stored(mem, p, n) && n.labels != []
    ensures var l, tail := n.labels[0], n.(labels := n.labels[1..]);
            Holds(mem, p, [|l|] + l + Spelled(tail)) && Stored(mem, p + 1 + |l|, tail)
  {
    var l, tail := n.labels[0], n.(labels := n.labels[1..]);
    assert [|l|] + l + Spelled(tail) == [|l|] + (l + Spelled(tail));
    HoldsSplit(mem, p, [|l|], l + Spelled(tail));
    HoldsSplit(mem, p + 1, l, Spelled(tail));
  }

  /** The expectation for a name with a label in front. */
  lemma ExpectedLabel(n: Spelling, room: nat, indirect: bool)
    requires AllShort(n.labels) && (n.Onward? ==> n.target < 0x4000) && n.labels != []
    ensures var l, tail := n.labels[0], n.(labels := n.labels[1..]);
            && (room < |l| + 1 ==> Expected(n, room, indirect).None?)
            && (room >= |l| + 1 ==>
                  Follows(Expected(n, room, indirect), l + [DOT], if indirect then 0 else 1 + |l|,
                          Expected(tail, room - (|l| + 1), indirect)))
  {
    var l, all := n.labels[0], AllLabels(n.(labels := n.labels[1..]));
    assert AllLabels(n) == [l] + all && ([l] + all)[1..] == all;
    assert Dotted(AllLabels(n)) == l + [DOT] + Dotted(all);
  }

  /** And for one that is a pointer. */
  lemma ExpectedPointer(n: Spelling, room: nat, indirect: bool)
    requires n.labels == [] && n.Onward? && n.target < 0x4000
    requires AllShort(n.rest.labels) && (n.rest.Onward? ==> n.rest.target < 0x4000)
    ensures Follows(Expected(n, room, indirect), [], if indirect then 0 else 2, Expected(n.rest, room, true))
  {
    var all := AllLabels(n.rest);
    assert AllLabels(n) == [] + all == all;
    assert [] + Dotted(all) == Dotted(all);
  }

  lemma SameFollows(a: Option<(seq<byte>, nat)>, b: Option<(seq<byte>, nat)>, text: seq<byte>, counted: nat,
                    rest: Option<(seq<byte>, nat)>)
    requires Follows(a, text, counted, rest) && Follows(b, text, counted, rest)
    ensures a == b
  {
  }

  /**
   Compressed names are read as all their labels, wherever the pointers lead; the length returned is that of the
   spelling where it starts; and the reader accepts them exactly if there is room.
   */
  lemma {:induction false} ReadsSpelling(mem: nat -> byte, p: nat, n: Spelling, room: nat, indirect: bool)
    requires Stored(mem, p, n)
    ensures Segments(mem, p, room, indirect) == Expected(n, room, indirect)
    decreases Jumps(n), |n.labels|, 1
  {
    if n.labels != [] {
      ReadsLabelled(mem, p, n, room, indirect);
    } else if n.Onward? {
      PointerHere(mem, p, n);
      StartsBelowPointers(mem, n.target, n.rest);
      JumpReads(mem, p, n.target, room, indirect);
      ReadsSpelling(mem, n.target, n.rest, room, true);
      ExpectedPointer(n, room, indirect);
      SameFollows(Segments(mem, p, room, indirect), Expected(n, room, indirect), [], if indirect then 0 else 2,
                  Expected(n.rest, room, true));
    } else {
      EndReads(mem, p, n, room, indirect);
    }
  }

  lemma {:induction false} ReadsLabelled(mem: nat -> byte, p: nat, n: Spelling, room: nat, indirect: bool)
    requires Stored(mem, p, n) && n.labels != []
    ensures Segments(mem, p, room, indirect) == Expected(n, room, indirect)
    decreases Jumps(n), |n.labels|, 0
  {
    var l, tail := n.labels[0], n.(labels := n.labels[1..]);
    var fits, left: nat := room >= |l| + 1, if room >= |l| + 1 then room - (|l| + 1) else 0;
    TailStored(mem, p, n);
    LabelReads(mem, p, l, Spelled(tail), room, indirect);
    ExpectedLabel(n, room, indirect);
    var rest := Expected(tail, left, indirect);
    if fits {
      ReadsSpelling(mem, p + 1 + |l|, tail, left, indirect);
    }
    SameLabelled(Segments(mem, p, room, indirect), Expected(n, room, indirect), l + [DOT],
                 if indirect then 0 else 1 + |l|, rest, fits);
  }

  lemma SameLabelled(a: Option<(seq<byte>, nat)>, b: Option<(seq<byte>, nat)>, text: seq<byte>, counted: nat,
                     rest: Option<(seq<byte>, nat)>, fits: bool)
    requires if fits then Follows(a, text, counted, rest) && Follows(b, text, counted, rest) else a.None? && b.None?
    ensures a == b
  {
  }

  lemma PointerHere(mem: nat -> byte, p: nat, n: Spelling)
    requires Stored(mem, p, n) && n.Onward? && n.labels == []
    ensures mem(p) == 0xC0 + n.target / 0x100 && mem(p + 1) == n.target % 0x100
  {
    assert mem(p + 0) == Spelled(n)[0] && mem(p + 1) == Spelled(n)[1];
  }

  lemma EndReads(mem: nat -> byte, p: nat, n: Spelling, room: nat, indirect: bool)
    requires Stored(mem, p, n) && n.Last? && n.labels == []
    ensures Segments(mem, p, room, indirect) == Expected(n, room, indirect)
  {
    assert mem(p + 0) == Spelled(n)[0];
  }

  /** As servers answer: the two bytes C0 0C, anywhere in a message that starts with the query, are the queried name. */
  lemma QueriedName(mem: nat -> byte, id: nat, op: nat, name: Name, p: nat, room: nat)
    requires |name| < 0xC0 && Dns.Clean(name, 0) && AllShort(Labels(name, 0))
    requires Holds(mem, 0, QueryHeader(id, op) + Encode(Labels(name, 0)) + [0, 1, 0, 1])
    requires mem(p) == 0xC0 && mem(p + 1) == 0x0C
    ensures Segments(mem, p, room, false) == if |name| + 1 <= room then Some((name + [DOT], 2)) else None
  {
    var labels, header := Labels(name, 0), QueryHeader(id, op);
    LabelsBound(name, 0);
    HoldsSplit(mem, 0, header + Encode(labels), [0, 1, 0, 1]);
    HoldsSplit(mem, 0, header, Encode(labels));
    PointerToLabels(mem, 12, labels, p, room);
    LabelsJoin(name, 0);
    assert name[0..] == name;
  }

  lemma PointerToLabels(mem: nat -> byte, q: nat, labels: seq<seq<byte>>, p: nat, room: nat)
    requires q < 0x4000 && (forall i :: 0 <= i < |labels| ==> 0 < |labels[i]| < 0xC0)
    requires Holds(mem, q, Encode(labels)) && Holds(mem, p, [0xC0 + q / 0x100, q % 0x100])
    ensures Segments(mem, p, room, false) == if |Dotted(labels)| <= room then Some((Dotted(labels), 2)) else None
  {
    var there := Last(labels);
    var here := Onward([], q, there);
    SpelledLast(labels);
    assert Spelled(here) == [0xC0 + q / 0x100, q % 0x100];
    ReadsSpelling(mem, p, here, room, false);
    assert AllLabels(here) == [] + labels == labels;
    assert |Spelled(here)| == 2;
  }

  lemma {:induction false} SpelledLast(labels: seq<seq<byte>>)
    requires AllShort(labels)
    ensures Spelled(Last(labels)) == Encode(labels)
    decreases |labels|
  {
    if labels != [] {
      SpelledLast(labels[1..]);
    }
  }

  /** A pointer to a pointer is not followed: the second one is taken for a label of at least 192 bytes. */
  lemma PointerToPointer(mem: nat -> byte, p: nat, room: nat, indirect: bool)
    requires mem(p) >= 0xC0 && mem(mem(p) % 0x40 * 0x100 + mem(p + 1)) >= 0xC0
    ensures room <= 192 ==> Segments(mem, p, room, indirect).None?
    ensures Segments(mem, p, room, indirect).Some? ==>
              var q := mem(p) % 0x40 * 0x100 + mem(p + 1);
              Bytes(mem, q + 1, mem(q)) <= Segments(mem, p, room, indirect).value.0
  {
  }
}
