/**
 send on a TCP socket: bytes go through the transmit ring, one SEND command at a time.
 */
module Transmit {
  import opened Octets
  import opened Ring

  datatype Result = BadLength | BadStatus | Busy | Timeout | Sent(count: nat)

  /**
   What the chip says when send looks: whether the connection stands, whether it still does behind the gate, and
   whether a SEND has timed out.
   */
  datatype Status = Status(connected: bool, still: bool, timeout: bool)

  // ---------- on values ----------

  /**
   The bytes still in the ring, those on the wire and those a close threw away, sock_is_sending and the SENDOK flag.
   */
  datatype Tx = Tx(pending: seq<byte>, wire: seq<byte>, dropped: seq<byte>, sending: bool, sendOk: bool, closed: bool)

  function Min(a: nat, b: nat): nat { if a < b then a else b }

  /** close: the flags are released, and what was not sent is lost. */
  function Close(t: Tx): Tx {
    t.(pending := [], dropped := t.dropped + t.pending, sending := false, sendOk := false, closed := true)
  }

  /** send, with a ring of this size. */
  function Send(t: Tx, size: nat, data: seq<byte>, s: Status): (Tx, Result) {
    if data == [] then (t, BadLength)
    else if t.closed || !s.connected then (t, BadStatus)
    else if t.sending && !t.sendOk then if s.timeout then (Close(t), Timeout) else (t, Busy)
    else if !s.still then (Close(t), BadStatus)
    else
      var n := Min(|data|, size);
      (t.(pending := t.pending + data[..n], sending := true, sendOk := false), Sent(n))
  }

  /** The chip puts n more bytes on the wire, and reports SENDOK behind the last one. */
  function Drain(t: Tx, n: nat): Tx {
    if n == 0 || n > |t.pending| then t
    else t.(pending := t.pending[n..], wire := t.wire + t.pending[..n], sendOk := n == |t.pending|)
  }

  /** A SEND is in the chip's hands exactly while bytes are pending, and SENDOK waits to be seen only behind it. */
  ghost predicate Consistent(t: Tx, size: nat) {
    |t.pending| <= size && (t.pending != [] ==> t.sending && !t.sendOk) && (t.sendOk ==> t.sending)
    && (t.sending && !t.sendOk ==> t.pending != []) && (t.dropped != [] ==> t.closed) && (t.closed ==> t.pending == [])
  }

  /** What left, what is still in the ring, and what a close threw away. */
  function Everything(t: Tx): seq<byte> { t.wire + t.pending + t.dropped }

  datatype Event = Sends(data: seq<byte>, status: Status) | Drains(n: nat)

  function After(t: Tx, size: nat, e: Event): Tx {
    match e
    case Sends(data, s) => Send(t, size, data, s).0
    case Drains(n) => Drain(t, n)
  }

  function AfterAll(t: Tx, size: nat, es: seq<Event>): Tx
    decreases |es|
  {
    if es == [] then t else AfterAll(After(t, size, es[0]), size, es[1..])
  }

  /** What the callers were told is sent, in order. */
  function Accepted(t: Tx, size: nat, es: seq<Event>): seq<byte>
    decreases |es|
  {
    if es == [] then []
    else
      (if es[0].Sends? && Send(t, size, es[0].data, es[0].status).1.Sent?
       then es[0].data[..Min(|es[0].data|, size)] else [])
      + Accepted(After(t, size, es[0]), size, es[1..])
  }

  lemma EventKeeps(t: Tx, size: nat, e: Event)
    requires Consistent(t, size) && size > 0
    ensures Consistent(After(t, size, e), size)
  {
    if e.Sends? && e.data != [] {
      assert e.data[..Min(|e.data|, size)] != [];
    }
  }

  /**
   A new SEND goes out only when the one before it has reported SENDOK; the ring is empty then, so there
   is always room for as much as it can hold.
   */
  lemma SendsOneAtATime(t: Tx, size: nat, data: seq<byte>, s: Status)
    requires Consistent(t, size) && size > 0 && Send(t, size, data, s).1.Sent?
    ensures t.pending == [] && (t.sending ==> t.sendOk)
    ensures Send(t, size, data, s).1 == Sent(Min(|data|, size))
            && Send(t, size, data, s).0.pending == data[..Min(|data|, size)]
  {
  }

  /**
   Which of the five answers send gives, each exactly when: nothing to send; no connection, or one that is lost behind
   the gate; a SEND on its way that has timed out, or has not; and otherwise, with nothing on its way, as many bytes
   as the ring can hold.
   */
  lemma SendAnswersIff(t: Tx, size: nat, data: seq<byte>, s: Status)
    requires Consistent(t, size) && size > 0
    ensures var (u, r), underway := Send(t, size, data, s), t.pending != [];
            && (r == BadLength <==> data == [])
            && (r == BadStatus <==> data != [] && (t.closed || !s.connected || (!underway && !s.still)))
            && (r == Timeout <==> data != [] && !t.closed && s.connected && underway && s.timeout)
            && (r == Busy <==> data != [] && !t.closed && s.connected && underway && !s.timeout)
            && (r.Sent? <==> data != [] && !t.closed && s.connected && !underway && s.still)
            && (r.Sent? ==> r.count == Min(|data|, size) > 0)
  {
  }

  /**
   What send leaves: an open socket is closed exactly by a timeout or a connection lost behind the gate, which throws
   away what is on its way; bytes are put into the ring exactly when they are reported as sent.
   */
  lemma SendLeaves(t: Tx, size: nat, data: seq<byte>, s: Status)
    requires Consistent(t, size) && size > 0
    ensures var (u, r), underway := Send(t, size, data, s), t.pending != [];
            && u.wire == t.wire
            && (u.closed <==> t.closed || (data != [] && s.connected && if underway then s.timeout else !s.still))
            && u.dropped == (if u.closed && !t.closed then t.dropped + t.pending else t.dropped)
            && u.pending == (if u.closed then [] else if r.Sent? then data[..r.count] else t.pending)
            && (!r.Sent? && u.closed == t.closed ==> u == t)
  {
  }

  /** A whole buffer goes out: pieces that fit the ring are offered one after the other, and the chip sends each. */
  ghost function PieceByPiece(pieces: seq<seq<byte>>, s: Status): seq<Event> {
    if pieces == [] then [] else [Sends(pieces[0], s), Drains(|pieces[0]|)] + PieceByPiece(pieces[1..], s)
  }

  function Joined(pieces: seq<seq<byte>>): seq<byte> {
    if pieces == [] then [] else pieces[0] + Joined(pieces[1..])
  }

  lemma {:induction false} PiecesGoOut(t: Tx, size: nat, pieces: seq<seq<byte>>, s: Status)
    requires Consistent(t, size) && !t.closed && t.pending == [] && s.connected && s.still
    requires forall i :: 0 <= i < |pieces| ==> 0 < |pieces[i]| <= size
    ensures AfterAll(t, size, PieceByPiece(pieces, s)).wire == t.wire + Joined(pieces)
    ensures AfterAll(t, size, PieceByPiece(pieces, s)).pending == []
    decreases |pieces|
  {
    if pieces != [] {
      var piece, rest := pieces[0], PieceByPiece(pieces[1..], s);
      var u := Send(t, size, piece, s).0;
      var v := Drain(u, |piece|);
      assert piece[..|piece|] == piece && u.pending == [] + piece;
      assert v.wire == t.wire + piece && v.pending == [];
      TwoEvents(t, size, Sends(piece, s), Drains(|piece|), rest);
      PiecesGoOut(v, size, pieces[1..], s);
      assert t.wire + piece + Joined(pieces[1..]) == t.wire + Joined(pieces);
    } else {
      assert t.wire + [] == t.wire;
    }
  }

  lemma TwoEvents(t: Tx, size: nat, a: Event, b: Event, rest: seq<Event>)
    ensures AfterAll(t, size, [a, b] + rest) == AfterAll(After(After(t, size, a), size, b), size, rest)
  {
    assert ([a, b] + rest)[1..] == [b] + rest && ([b] + rest)[1..] == rest;
    assert AfterAll(After(t, size, a), size, [b] + rest) == AfterAll(After(After(t, size, a), size, b), size, rest);
  }

  lemma EventConserves(t: Tx, size: nat, e: Event)
    requires Consistent(t, size)
    ensures Everything(After(t, size, e)) == Everything(t) + Accepted(t, size, [e])
  {
    assert [e][1..] == [];
    if e.Drains? && 0 < e.n <= |t.pending| {
      assert t.pending == t.pending[..e.n] + t.pending[e.n..];
    }
  }

  /**
   Over any run, what has left, what is still in the ring and what a close threw away are the accepted
   bytes, in order; nothing is thrown away while the socket is open.
   */
  lemma {:induction false} BytesInOrder(t: Tx, size: nat, es: seq<Event>)
    requires Consistent(t, size) && size > 0
    ensures Consistent(AfterAll(t, size, es), size)
    ensures Everything(AfterAll(t, size, es)) == Everything(t) + Accepted(t, size, es)
    decreases |es|
  {
    if es != [] {
      var e, rest := es[0], es[1..];
      var u := After(t, size, e);
      EventKeeps(t, size, e);
      EventConserves(t, size, e);
      assert [e][1..] == [] && [e][0] == e;
      BytesInOrder(u, size, rest);
      assert Accepted(t, size, es) == Accepted(t, size, [e]) + Accepted(u, size, rest);
    }
  }

  // ---------- on the ring ----------

  class TcpSocket {
    const ring: array<byte>
    var rd: nat
    var wr: nat
    var sending: bool
    var sendOk: bool
    var closed: bool
    ghost var wire: seq<byte>
    ghost var dropped: seq<byte>

    /** What the ring holds between its pointers is what is pending. */
    ghost function Value(): Tx
      requires IsSize(ring.Length) && rd < WRAP && wr < WRAP
      reads this, ring
    {
      Tx(Window(ring[..], rd, Filled(rd, wr)), wire, dropped, sending, sendOk, closed)
    }

    ghost predicate Valid()
      reads this, ring
    {
      IsSize(ring.Length) && rd < WRAP && wr < WRAP && Consistent(Value(), ring.Length)
    }

    constructor (size: nat)
      requires IsSize(size)
      ensures Valid() && fresh(ring) && ring.Length == size && Value() == Tx([], [], [], false, false, false)
    {
      ring := new byte[size];
      rd, wr, sending, sendOk, closed, wire, dropped := 0, 0, false, false, false, [], [];
    }

    /** wiz_send_data */
    method Store(data: seq<byte>)
      requires IsSize(ring.Length) && rd < WRAP && wr < WRAP && Filled(rd, wr) + |data| <= ring.Length
      modifies this`wr, ring
      ensures wr < WRAP && Value() == old(Value()).(pending := old(Value()).pending + data)
    {
      WriteRing(ring, wr, data, rd, Filled(rd, wr));
      FilledAdvance(rd, wr, |data|);
      wr := Advance(wr, |data|);
    }

    /** close, on what send has to do with: the CLOSE command leaves nothing to transmit. */
    method CloseSocket()
      requires IsSize(ring.Length) && rd < WRAP && wr < WRAP
      modifies this
      ensures rd < WRAP && wr < WRAP && Value() == Close(old(Value()))
    {
      dropped := dropped + Window(ring[..], rd, Filled(rd, wr));
      rd := wr;
      sending, sendOk, closed := false, false, true;
    }

    /** send */
    method SendBytes(buf: seq<byte>, s: Status) returns (r: Result)
      requires Valid() && |buf| < WRAP
      modifies this, ring
      ensures Valid() && (Value(), r) == Send(old(Value()), ring.Length, buf, s)
      ensures r.Sent? ==> old(rd == wr)
    {
      if |buf| == 0 {
        return BadLength;
      }
      if closed || !s.connected {
        return BadStatus;
      }
      if sending {
        if sendOk {
          sendOk, sending := false, false;
        } else if s.timeout {
          CloseSocket();
          return Timeout;
        } else {
          return Busy;
        }
      }
      assert Filled(rd, wr) == 0;
      var len := |buf|;
      if len > ring.Length {
        len := ring.Length;
      }
      var free := ring.Length - Filled(rd, wr);
      assert len <= free;
      if !s.still {
        CloseSocket();
        return BadStatus;
      }
      Store(buf[..len]);
      sending := true;
      r := Sent(len);
      assert Value().pending == old(Value()).pending + buf[..len];
    }

    /** The chip sends n bytes of the current command. */
    method Transmits(n: nat)
      requires Valid() && 0 < n <= Filled(rd, wr)
      modifies this
      ensures Valid() && Value() == Drain(old(Value()), n)
    {
      ghost var all := Filled(rd, wr);
      WindowSplit(ring[..], rd, n, all - n);
      WindowWrap(ring[..], rd + n, all - n);
      FilledAdvance(rd, wr, n);
      wire := wire + Window(ring[..], rd, n);
      rd := Advance(rd, n);
      sendOk := rd == wr;
    }
  }
}
