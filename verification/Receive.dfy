/**
 recvfrom on a UDP socket: datagrams come out of the receive ring in pieces.
 */
module Receive {
  import opened Wrappers
  import opened Octets
  import opened Ring

  const PACK_FIRST: byte := 0x80
  const PACK_REMAINED: byte := 0x01
  const PACK_COMPLETED: byte := 0x00

  datatype Frame = Frame(ip: Ip, port: nat, payload: seq<byte>)

  ghost predicate IsFrame(f: Frame) { f.port < WRAP && |f.payload| + 8 < WRAP }

  ghost predicate AllFrames(fs: seq<Frame>) { forall i :: 0 <= i < |fs| ==> IsFrame(fs[i]) }

  /** A datagram in the ring: address, port and length in front of the data. */
  function Encode(f: Frame): (s: seq<byte>)
    requires f.port < WRAP && |f.payload| + 8 < WRAP
    ensures |s| == 8 + |f.payload|
  {
    Header(f) + f.payload
  }

  function Header(f: Frame): (s: seq<byte>)
    requires f.port < WRAP && |f.payload| + 8 < WRAP
    ensures |s| == 8
  {
    f.ip + [f.port / 256, f.port % 256, |f.payload| / 256, |f.payload| % 256]
  }

  ghost function EncodeAll(fs: seq<Frame>): seq<byte>
    requires AllFrames(fs)
  {
    if fs == [] then [] else Encode(fs[0]) + EncodeAll(fs[1..])
  }

  lemma {:induction false} EncodeAppend(fs: seq<Frame>, f: Frame)
    requires AllFrames(fs) && IsFrame(f)
    ensures EncodeAll(fs + [f]) == EncodeAll(fs) + Encode(f)
  {
    if fs == [] {
      assert [] + [f] == [f] && [f][1..] == [];
    } else {
      assert (fs + [f])[1..] == fs[1..] + [f];
      EncodeAppend(fs[1..], f);
    }
  }

  // ---------- what the socket does, on values ----------

  /** The unread rest of the datagram being read, and the datagrams behind it. */
  datatype Rx = Rx(current: seq<byte>, queue: seq<Frame>)

  /** The datagram a read works on: the one being read, or the next one. */
  function Opened(rx: Rx): Rx
    requires rx.current != [] || rx.queue != []
  {
    if rx.current != [] then rx else Rx(rx.queue[0].payload, rx.queue[1..])
  }

  function Count(rx: Rx, len: nat): (n: nat)
    requires rx.current != [] || rx.queue != []
    ensures n <= |Opened(rx).current| && n <= len
  {
    if len < |Opened(rx).current| then len else |Opened(rx).current|
  }

  function Chunk(rx: Rx, len: nat): seq<byte>
    requires rx.current != [] || rx.queue != []
  {
    Opened(rx).current[..Count(rx, len)]
  }

  function Rest(rx: Rx, len: nat): Rx
    requires rx.current != [] || rx.queue != []
  {
    Opened(rx).(current := Opened(rx).current[Count(rx, len)..])
  }

  // ---------- the socket on its ring ----------

  datatype Result = BadLength | Closed | Waits | Data(bytes: seq<byte>)

  class UdpSocket {
    const ring: array<byte>
    var rd: nat
    var wr: nat
    var remained: nat
    var packInfo: byte
    ghost var rx: Rx

    ghost predicate Valid()
      reads this, ring
    {
      IsSize(ring.Length) && rd < WRAP && wr < WRAP && Filled(rd, wr) <= ring.Length
      && AllFrames(rx.queue)
      && Window(ring[..], rd, Filled(rd, wr)) == rx.current + EncodeAll(rx.queue)
      && remained == |rx.current|
      && packInfo == (if remained != 0 then PACK_FIRST + PACK_REMAINED else PACK_COMPLETED)
    }

    constructor (size: nat)
      requires IsSize(size)
      ensures Valid() && fresh(ring) && ring.Length == size && rx == Rx([], [])
    {
      ring := new byte[size];
      rd, wr, remained, packInfo, rx := 0, 0, 0, PACK_COMPLETED, Rx([], []);
    }

    /** The chip stores a datagram if there is room for it and its header. */
    method Deliver(f: Frame) returns (stored: bool)
      requires Valid() && IsFrame(f)
      modifies this, ring
      ensures Valid() && stored == (old(Filled(rd, wr)) + 8 + |f.payload| <= ring.Length)
      ensures rx == if stored then old(rx).(queue := old(rx).queue + [f]) else old(rx)
    {
      var data := Encode(f);
      stored := Filled(rd, wr) + |data| <= ring.Length;
      if stored {
        WriteRing(ring, wr, data, rd, Filled(rd, wr));
        FilledAdvance(rd, wr, |data|);
        wr := Advance(wr, |data|);
        EncodeAppend(rx.queue, f);
        Regroup(rx.current, EncodeAll(rx.queue), data);
        rx := rx.(queue := rx.queue + [f]);
      }
    }

    /** wiz_recv_data and the RECV command */
    method Take(len: nat) returns (data: seq<byte>)
      requires IsSize(ring.Length) && rd < WRAP && wr < WRAP && len <= Filled(rd, wr) <= ring.Length
      modifies this`rd
      ensures rd < WRAP && Filled(rd, wr) == old(Filled(rd, wr)) - len
      ensures old(Window(ring[..], rd, Filled(rd, wr))) == data + Window(ring[..], rd, Filled(rd, wr))
      ensures |data| == len
    {
      ghost var n := Filled(rd, wr);
      data := ReadRing(ring, rd, len);
      WindowSplit(ring[..], rd, len, n - len);
      WindowWrap(ring[..], rd + len, n - len);
      FilledAdvance(rd, wr, len);
      rd := Advance(rd, len);
    }

    /**
     recvfrom. With nothing to read it reports SOCK_BUSY or, in blocking mode, goes on waiting: Waits.
     A socket found closed loses to a datagram that is already being read.
     */
    method RecvFrom(len: nat, closed: bool) returns (r: Result, ip: Ip, port: nat)
      requires Valid()
      modifies this
      ensures Valid()
      ensures len == 0 ==> r == BadLength
      ensures len > 0 && old(rx).current == [] && closed ==> r == Closed
      ensures len > 0 && old(rx) == Rx([], []) && !closed ==> r == Waits
      ensures !r.Data? ==> rx == old(rx)
      ensures len > 0 && (old(rx).current != [] || (old(rx).queue != [] && !closed)) ==>
                r == Data(Chunk(old(rx), len)) && rx == Rest(old(rx), len)
      ensures r.Data? && old(rx).current == [] && old(rx).queue != [] ==>
                ip == old(rx).queue[0].ip && port == old(rx).queue[0].port
    {
      ip, port := [0, 0, 0, 0], 0;
      if len == 0 {
        return BadLength, ip, port;
      }
      if remained == 0 {
        var waiting := Filled(rd, wr);
        if closed {
          return Closed, ip, port;
        }
        if waiting == 0 {
          NothingWaiting();
          return Waits, ip, port;
        }
        ip, port := ReadHeader();
      }
      ghost var all := rx.current;
      var n := if len < remained then len else remained;
      var data := Take(n);
      SplitTwo(data, Window(ring[..], rd, Filled(rd, wr)), all, EncodeAll(rx.queue), n);
      rx := rx.(current := all[n..]);
      remained := remained - n;
      var marked := if packInfo % 2 == 1 then packInfo else packInfo + PACK_REMAINED;
      packInfo := if remained != 0 then marked else PACK_COMPLETED;
      r := Data(data);
    }

    lemma NothingWaiting()
      requires Valid() && remained == 0 && Filled(rd, wr) == 0
      ensures rx == Rx([], [])
    {
    }

    /** The header of the next datagram. */
    method ReadHeader() returns (ip: Ip, port: nat)
      requires Valid() && remained == 0 && Filled(rd, wr) != 0
      modifies this
      ensures old(rx).queue != [] && rx == Opened(old(rx).(current := []))
      ensures ip == old(rx).queue[0].ip && port == old(rx).queue[0].port
      ensures rd < WRAP && wr < WRAP && Filled(rd, wr) <= ring.Length && remained == |rx.current|
      ensures Window(ring[..], rd, Filled(rd, wr)) == rx.current + EncodeAll(rx.queue)
      ensures packInfo == PACK_FIRST
    {
      ghost var f, rest := rx.queue[0], rx.queue[1..];
      QueueHead(rx.queue);
      ghost var tail := f.payload + EncodeAll(rest);
      assert Window(ring[..], rd, Filled(rd, wr)) == Header(f) + tail;
      var head := Take(8);
      SplitTwo(head, Window(ring[..], rd, Filled(rd, wr)), Header(f), tail, 8);
      assert head == Header(f) && [] + tail == tail;
      HeaderReads(f);
      ip, port := head[..4], head[4] as int * 256 + head[5];
      remained := head[6] as int * 256 + head[7];
      packInfo := PACK_FIRST;
      rx := Rx(f.payload, rest);
    }
  }

  lemma QueueHead(queue: seq<Frame>)
    requires AllFrames(queue)
    ensures queue != [] ==> EncodeAll(queue) == Header(queue[0]) + (queue[0].payload + EncodeAll(queue[1..]))
    ensures queue == [] ==> EncodeAll(queue) == []
  {
    if queue != [] {
      var f := queue[0];
      Regroup(Header(f), f.payload, EncodeAll(queue[1..]));
    }
  }

  lemma HeaderReads(f: Frame)
    requires IsFrame(f)
    ensures var h := Header(f);
            h[..4] == f.ip && h[4] as int * 256 + h[5] == f.port && h[6] as int * 256 + h[7] == |f.payload|
  {
  }

  // ---------- reassembly over every run ----------

  datatype Event = Arrives(frame: Frame) | Read(len: nat)

  function After(rx: Rx, e: Event): Rx {
    match e
    case Arrives(f) => rx.(queue := rx.queue + [f])
    case Read(len) => if rx == Rx([], []) || len == 0 then rx else Rest(rx, len)
  }

  function AfterAll(rx: Rx, es: seq<Event>): Rx
    decreases |es|
  {
    if es == [] then rx else AfterAll(After(rx, es[0]), es[1..])
  }

  /** What a caller puts together: whole datagrams, and the pieces of the one that still has PACK_REMAINED set. */
  datatype Log = Log(whole: seq<seq<byte>>, part: seq<byte>)

  function Collect(log: Log, rx: Rx, e: Event): Log {
    if e.Arrives? || rx == Rx([], []) || e.len == 0 then log
    else if Rest(rx, e.len).current == [] then Log(log.whole + [log.part + Chunk(rx, e.len)], [])
    else Log(log.whole, log.part + Chunk(rx, e.len))
  }

  function CollectAll(log: Log, rx: Rx, es: seq<Event>): Log
    decreases |es|
  {
    if es == [] then log else CollectAll(Collect(log, rx, es[0]), After(rx, es[0]), es[1..])
  }

  function Payloads(fs: seq<Frame>): (ps: seq<seq<byte>>)
    ensures |ps| == |fs|
    ensures forall i :: 0 <= i < |fs| ==> ps[i] == fs[i].payload
  {
    seq(|fs|, i requires 0 <= i < |fs| => fs[i].payload)
  }

  /** The datagrams that arrived during a run. */
  function Arrived(es: seq<Event>): seq<seq<byte>> {
    if es == [] then [] else (if es[0].Arrives? then [es[0].frame.payload] else []) + Arrived(es[1..])
  }

  /** The datagrams that are through, the one being read with its unread rest, and those still waiting. */
  function Accounted(log: Log, rx: Rx): seq<seq<byte>> {
    log.whole + (if rx.current != [] then [log.part + rx.current] else []) + Payloads(rx.queue)
  }

  lemma EventAccounted(log: Log, rx: Rx, e: Event)
    requires rx.current == [] ==> log.part == []
    ensures After(rx, e).current == [] ==> Collect(log, rx, e).part == []
    ensures Accounted(Collect(log, rx, e), After(rx, e)) ==
            Accounted(log, rx) + (if e.Arrives? then [e.frame.payload] else [])
  {
    if e.Arrives? {
      assert Payloads(rx.queue + [e.frame]) == Payloads(rx.queue) + [e.frame.payload];
    } else if rx != Rx([], []) && e.len > 0 {
      ReadAccounted(log, rx, e.len);
    }
  }

  lemma ReadAccounted(log: Log, rx: Rx, len: nat)
    requires (rx.current == [] ==> log.part == []) && rx != Rx([], []) && len > 0
    ensures Accounted(Collect(log, rx, Read(len)), Rest(rx, len)) == Accounted(log, rx)
  {
    var unread, n := Opened(rx), Count(rx, len);
    var c := unread.current;
    assert c == c[..n] + c[n..];
    Regroup(log.part, c[..n], c[n..]);
    if rx.current == [] {
      assert rx.queue == [rx.queue[0]] + rx.queue[1..];
      assert Payloads(rx.queue) == [c] + Payloads(unread.queue);
      assert log.part + c == c;
    }
    assert Accounted(log, rx) == log.whole + [log.part + c] + Payloads(unread.queue);
    if c[n..] == [] {
      assert c[..n] == c;
      assert log.whole + [log.part + c] + [] == log.whole + [log.part + c];
    }
  }

  /**
   Over any stream of datagrams and any reads, what a caller collects, split where PACK_REMAINED goes out,
   is the datagrams in order: those already through, then the current one as far as it was read.
   */
  lemma {:induction false} Reassembly(log: Log, rx: Rx, es: seq<Event>)
    requires rx.current == [] ==> log.part == []
    ensures Accounted(CollectAll(log, rx, es), AfterAll(rx, es)) == Accounted(log, rx) + Arrived(es)
    ensures AfterAll(rx, es).current == [] ==> CollectAll(log, rx, es).part == []
    decreases |es|
  {
    if es != [] {
      var next, after := Collect(log, rx, es[0]), After(rx, es[0]);
      var first := if es[0].Arrives? then [es[0].frame.payload] else [];
      EventAccounted(log, rx, es[0]);
      Reassembly(next, after, es[1..]);
      ThreeJoined(Accounted(log, rx), first, Arrived(es[1..]));
      assert Accounted(next, after) == Accounted(log, rx) + first;
      assert CollectAll(log, rx, es) == CollectAll(next, after, es[1..]);
      assert AfterAll(rx, es) == AfterAll(after, es[1..]);
    }
  }

  lemma ThreeJoined(a: seq<seq<byte>>, b: seq<seq<byte>>, c: seq<seq<byte>>)
    ensures a + b + c == a + (b + c)
  {
  }

  // ---------- every datagram gets through ----------

  /**
   What one read hands over: all that is left of the datagram if it fits, and otherwise as much as fits; the rest of
   it stays, the datagrams behind it are not touched.
   */
  lemma ReadTakes(rx: Rx, len: nat)
    requires len > 0 && (rx.current != [] || rx.queue != [])
    ensures var unread := if rx.current != [] then rx.current else rx.queue[0].payload;
            && Chunk(rx, len) + Rest(rx, len).current == unread
            && (len >= |unread| ==> Chunk(rx, len) == unread && Rest(rx, len).current == [])
            && (len < |unread| ==> |Chunk(rx, len)| == len)
            && Rest(rx, len).queue == if rx.current != [] then rx.queue else rx.queue[1..]
  {
    var unread, n := Opened(rx).current, Count(rx, len);
    assert unread[..n] + unread[n..] == unread;
  }

  /** How many reads it takes at most until nothing is left: a byte each, and one for every datagram still unopened. */
  function Unread(rx: Rx): nat { |rx.current| + Queued(rx.queue) }

  function Queued(fs: seq<Frame>): nat {
    if fs == [] then 0 else |fs[0].payload| + 1 + Queued(fs[1..])
  }

  ghost predicate Reads(es: seq<Event>) { forall i :: 0 <= i < |es| ==> es[i].Read? && es[i].len > 0 }

  /** Enough reads, of whatever lengths, put every datagram together. */
  lemma {:induction false} EnoughReads(log: Log, rx: Rx, es: seq<Event>)
    requires (rx.current == [] ==> log.part == []) && Reads(es) && |es| >= Unread(rx)
    ensures AfterAll(rx, es) == Rx([], []) && CollectAll(log, rx, es) == Log(Accounted(log, rx), [])
    decreases |es|
  {
    if es == [] {
      assert Accounted(log, rx) == log.whole + [] + [];
    } else {
      EventAccounted(log, rx, es[0]);
      if rx != Rx([], []) {
        ReadTakes(rx, es[0].len);
      }
      EnoughReads(Collect(log, rx, es[0]), After(rx, es[0]), es[1..]);
    }
  }

  lemma {:induction false} RunsJoin(log: Log, rx: Rx, a: seq<Event>, b: seq<Event>)
    ensures AfterAll(rx, a + b) == AfterAll(AfterAll(rx, a), b)
    ensures CollectAll(log, rx, a + b) == CollectAll(CollectAll(log, rx, a), AfterAll(rx, a), b)
    decreases |a|
  {
    if a == [] {
      assert a + b == b;
    } else {
      assert (a + b)[1..] == a[1..] + b;
      RunsJoin(Collect(log, rx, a[0]), After(rx, a[0]), a[1..], b);
    }
  }

  /** So after any run, as many reads as bytes and datagrams are left give the caller all that arrived, in order. */
  lemma AllGetThrough(es: seq<Event>, more: seq<Event>)
    requires Reads(more) && |more| >= Unread(AfterAll(Rx([], []), es))
    ensures CollectAll(Log([], []), Rx([], []), es + more) == Log(Arrived(es), [])
  {
    var log, rx := Log([], []), Rx([], []);
    Reassembly(log, rx, es);
    RunsJoin(log, rx, es, more);
    EnoughReads(CollectAll(log, rx, es), AfterAll(rx, es), more);
    assert Accounted(log, rx) == [];
    assert [] + Arrived(es) == Arrived(es);
  }

  /** Two ways to cut the same bytes. */
  lemma SplitTwo(a: seq<byte>, b: seq<byte>, x: seq<byte>, y: seq<byte>, n: nat)
    requires a + b == x + y && |a| == n <= |x|
    ensures a == x[..n] && b == x[n..] + y
  {
    assert a == (a + b)[..n] == (x + y)[..n];
    assert b == (a + b)[n..] == (x + y)[n..];
  }
}
