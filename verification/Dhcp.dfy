/**
 The DHCP client: DHCP_run, its timeouts and retries, over every sequence of polls and ticks
 (client behaviour of section 4.4 of RFC 2131).
 */
module Dhcp {
  import opened Wrappers
  import opened Octets
  import opened DhcpOptions
  import opened DhcpFields

  const MAX_RETRY := 2
  const WAIT_TIME := 10
  const INFINITE_LEASE := 0xFFFF_FFFF
  const U32 := 0x1_0000_0000
  const SERVER_PORT := 67
  const ZERO_IP: Ip := [0, 0, 0, 0]
  const BROADCAST: Ip := [255, 255, 255, 255]

  datatype State = Init | Discover | Request | Leased | Rerequest | Stop

  datatype Result = Failed | Running | IpLeased | IpChanged | Stopped

  /** The client's variables. */
  datatype Client = Client(state: State, retries: nat, tick: nat, next: nat, xid: nat,
                           address: Ip, previous: Ip, info: Info, mac: Mac, host: Host)

  /** A datagram on the client's port; its options in memory from 0 up to `length`. */
  datatype Message = Message(port: nat, chaddr: Mac, yiaddr: Ip, options: nat -> byte, length: nat)

  /** What DHCP_run finds outside: a message or none, the value of an unset variable, the answer to the ARP probe. */
  datatype Poll = Poll(message: Option<Message>, unset: byte, unique: bool)

  /** A message as it goes out: destination, transaction, unicast flag, the client's address and the option field. */
  datatype Sent = Sent(to: Ip, xid: nat, unicast: bool, ciaddr: Ip, options: seq<byte>)

  datatype Step = Step(client: Client, result: Result, sent: seq<Sent>)

  // ---------- DHCP_run ----------

  /** Whether parseDHCPMSG reads the options of the message at all. */
  predicate Reads(c: Client, p: Poll) {
    p.message.Some? && p.message.value.port == SERVER_PORT && p.message.value.chaddr == c.mac
  }

  /** The options read, if any; the message type is reset first. */
  function Parsed(c: Client, p: Poll): Info {
    if Reads(c, p) then OptionLoop(p.message.value.options, 0, p.message.value.length, c.info.(kind := 0)) else c.info
  }

  /** The message type parseDHCPMSG returns; from a foreign port it is whatever the variable held. */
  function TypeOf(c: Client, p: Poll): byte {
    if Reads(c, p) then Parsed(c, p).kind
    else if p.message.Some? && p.message.value.port != SERVER_PORT then p.unset
    else 0
  }

  function ResetTimeout(c: Client): Client {
    c.(tick := 0, next := WAIT_TIME, retries := 0)
  }

  /** send_DHCP_DISCOVER */
  function DiscoverFrom(c: Client): Sent {
    DiscoverField(c.mac, c.host);
    Sent(BROADCAST, c.xid, false, ZERO_IP, OptionField(DiscoverOptions(c.mac, c.host)))
  }

  /** send_DHCP_REQUEST */
  function RequestFrom(c: Client): Sent {
    var renewing := c.state == Leased || c.state == Rerequest;
    var to := if renewing then c.info.server else BROADCAST;
    RequestField(c.mac, c.host, c.address, c.info.server, to);
    Sent(to, c.xid, renewing, if renewing then c.address else ZERO_IP,
         OptionField(RequestOptions(c.mac, c.host, c.address, c.info.server, to)))
  }

  /** send_DHCP_DECLINE */
  function DeclineFrom(c: Client): Sent {
    DeclineField(c.mac, c.address, c.info.server);
    Sent(BROADCAST, c.xid, true, ZERO_IP, OptionField(DeclineOptions(c.mac, c.address, c.info.server)))
  }

  /** check_DHCP_timeout */
  function CheckTimeout(c: Client): Step {
    if c.retries < MAX_RETRY then
      if c.next < c.tick then
        Step(c.(tick := 0, next := WAIT_TIME, retries := c.retries + 1), Running,
             match c.state
             case Discover => [DiscoverFrom(c)]
             case Request => [RequestFrom(c)]
             case Rerequest => [RequestFrom(c)]
             case _ => [])
      else Step(c, Running, [])
    else
      match c.state
      case Discover => Step(ResetTimeout(c.(state := Init)), Failed, [])
      case Request => Step(ResetTimeout(c.(state := Discover)), Running, [DiscoverFrom(c)])
      case Rerequest => Step(ResetTimeout(c.(state := Discover)), Running, [DiscoverFrom(c)])
      case _ => Step(ResetTimeout(c), Running, [])
  }

  /** The branch of DHCP_run for each state, with the message read. */
  function InDiscover(d: Client, kind: byte, p: Poll): Step {
    if kind == OFFER && p.message.Some? then
      var e := d.(address := p.message.value.yiaddr);
      Step(e.(state := Request), Running, [RequestFrom(e)])
    else CheckTimeout(d)
  }

  function InRequest(d: Client, kind: byte, unique: bool): Step {
    if kind == ACK then
      if unique then Step(ResetTimeout(d).(state := Leased), Running, [])
      else Step(ResetTimeout(d).(state := Init), Running, [DeclineFrom(d)])
    else if kind == NAK then Step(ResetTimeout(d).(state := Discover), Running, [])
    else CheckTimeout(d)
  }

  function InLeased(d: Client): Step {
    if d.info.lease != INFINITE_LEASE && d.info.lease / 2 < d.tick then
      var e := d.(previous := d.address, xid := (d.xid + 1) % U32);
      Step(ResetTimeout(e).(state := Rerequest), IpLeased, [RequestFrom(e)])
    else Step(d, IpLeased, [])
  }

  function InRerequest(d: Client, kind: byte): Step {
    if kind == ACK then
      Step(ResetTimeout(d).(state := Leased), if d.previous != d.address then IpChanged else IpLeased, [])
    else if kind == NAK then Step(ResetTimeout(d).(state := Discover), IpLeased, [])
    else CheckTimeout(d)
  }

  /** DHCP_run */
  function Run(c: Client, p: Poll): Step {
    if c.state == Stop then Step(c, Stopped, [])
    else
      var d := c.(info := Parsed(c, p));
      match c.state
      case Init => Step(d.(address := ZERO_IP, state := Discover), Running, [DiscoverFrom(d)])
      case Discover => InDiscover(d, TypeOf(c, p), p)
      case Request => InRequest(d, TypeOf(c, p), p.unique)
      case Leased => InLeased(d)
      case Rerequest => InRerequest(d, TypeOf(c, p))
      case Stop => Step(c, Stopped, [])
  }

  // ---------- the client on its variables ----------

  class DhcpClient {
    var state: State
    var retries: nat
    var tick: nat
    var next: nat
    var xid: nat
    var address: Ip
    var previous: Ip
    var info: Info
    const mac: Mac
    const host: Host

    ghost function Value(): Client
      reads this
    {
      Client(state, retries, tick, next, xid, address, previous, info, mac, host)
    }

    /** DHCP_init on variables that have their initial values. */
    constructor (mac: Mac, host: Host)
      ensures Value() == Fresh(mac, host)
    {
      this.mac, this.host := mac, host;
      state, retries, tick, next, xid := Init, 0, 0, WAIT_TIME, 1;
      address, previous := ZERO_IP, ZERO_IP;
      info := NO_INFO;
    }

    /** reset_DHCP_timeout */
    method ResetTimer()
      modifies this`tick, this`next, this`retries
      ensures Value() == ResetTimeout(old(Value()))
    {
      tick, next, retries := 0, WAIT_TIME, 0;
    }

    /** DHCP_time_handler */
    method TimeHandler()
      modifies this`tick
      ensures Value() == Ticked(old(Value()))
    {
      tick := (tick + 1) % U32;
    }

    /** parseDHCPMSG */
    method ParseMessage(p: Poll) returns (kind: byte)
      modifies this`info
      ensures Value() == old(Value()).(info := Parsed(old(Value()), p))
      ensures kind == TypeOf(old(Value()), p)
    {
      if p.message.None? {
        return 0;
      }
      var m := p.message.value;
      kind := p.unset;
      if m.port == SERVER_PORT {
        if m.chaddr != mac {
          return 0;
        }
        info := ReadOptions(m.options, 0, m.length, info.(kind := 0));
        kind := info.kind;
      }
    }

    /** send_DHCP_DISCOVER, the option field filled byte by byte. */
    method SendDiscover() returns (sent: seq<Sent>)
      ensures sent == [DiscoverFrom(Value())]
    {
      var opt := new byte[OPT_SIZE];
      FillDiscover(opt, mac, host);
      OnlyField(opt[..], DiscoverOptions(mac, host));
      sent := [Sent(BROADCAST, xid, false, ZERO_IP, opt[..])];
    }

    /** send_DHCP_REQUEST: to the server when renewing, to everyone otherwise. */
    method SendRequest() returns (sent: seq<Sent>)
      ensures sent == [RequestFrom(Value())]
    {
      var to, renewing, ciaddr := BROADCAST, false, ZERO_IP;
      if state == Leased || state == Rerequest {
        to, renewing, ciaddr := info.server, true, address;
      }
      var opt := new byte[OPT_SIZE];
      FillRequest(opt, mac, host, address, info.server, to);
      OnlyField(opt[..], RequestOptions(mac, host, address, info.server, to));
      sent := [Sent(to, xid, renewing, ciaddr, opt[..])];
    }

    /** send_DHCP_DECLINE */
    method SendDecline() returns (sent: seq<Sent>)
      ensures sent == [DeclineFrom(Value())]
    {
      var opt := new byte[OPT_SIZE];
      FillDecline(opt, mac, address, info.server);
      OnlyField(opt[..], DeclineOptions(mac, address, info.server));
      sent := [Sent(BROADCAST, xid, true, ZERO_IP, opt[..])];
    }

    /** check_DHCP_timeout */
    method CheckTimer() returns (result: Result, sent: seq<Sent>)
      modifies this
      ensures Step(Value(), result, sent) == CheckTimeout(old(Value()))
    {
      result, sent := Running, [];
      if retries < MAX_RETRY {
        if next < tick {
          match state {
            case Discover => sent := SendDiscover();
            case Request => sent := SendRequest();
            case Rerequest => sent := SendRequest();
            case _ =>
          }
          tick := 0;
          next := tick + WAIT_TIME;
          retries := retries + 1;
        }
      } else {
        match state {
          case Discover => state, result := Init, Failed;
          case Request =>
            sent := SendDiscover();
            state := Discover;
          case Rerequest =>
            sent := SendDiscover();
            state := Discover;
          case _ =>
        }
        ResetTimer();
      }
    }

    /** DHCP_run */
    method RunOnce(p: Poll) returns (result: Result, sent: seq<Sent>)
      modifies this
      ensures Step(Value(), result, sent) == Run(old(Value()), p)
    {
      if state == Stop {
        return Stopped, [];
      }
      var kind := ParseMessage(p);
      match state
      case Init =>
        result, sent := Running, [];
        address := ZERO_IP;
        sent := SendDiscover();
        state := Discover;
      case Discover => result, sent := RunDiscover(kind, p);
      case Request => result, sent := RunRequest(kind, p.unique);
      case Leased => result, sent := RunLeased();
      case Rerequest => result, sent := RunRerequest(kind);
      case Stop =>
    }

    method RunDiscover(kind: byte, p: Poll) returns (result: Result, sent: seq<Sent>)
      requires state == Discover && (kind == OFFER ==> p.message.Some?)
      modifies this
      ensures Step(Value(), result, sent) == InDiscover(old(Value()), kind, p)
    {
      result := Running;
      if kind == OFFER {
        address := p.message.value.yiaddr;
        sent := SendRequest();
        state := Request;
      } else {
        result, sent := CheckTimer();
      }
    }

    method RunRequest(kind: byte, unique: bool) returns (result: Result, sent: seq<Sent>)
      requires state == Request
      modifies this
      ensures Step(Value(), result, sent) == InRequest(old(Value()), kind, unique)
    {
      result, sent := Running, [];
      if kind == ACK {
        if unique {
          ResetTimer();
          state := Leased;
        } else {
          sent := SendDecline();
          ResetTimer();
          state := Init;
        }
      } else if kind == NAK {
        ResetTimer();
        state := Discover;
      } else {
        result, sent := CheckTimer();
      }
    }

    method RunLeased() returns (result: Result, sent: seq<Sent>)
      requires state == Leased
      modifies this
      ensures Step(Value(), result, sent) == InLeased(old(Value()))
    {
      result, sent := IpLeased, [];
      if info.lease != INFINITE_LEASE && info.lease / 2 < tick {
        previous, xid := address, (xid + 1) % U32;
        sent := SendRequest();
        ResetTimer();
        state := Rerequest;
      }
    }

    method RunRerequest(kind: byte) returns (result: Result, sent: seq<Sent>)
      requires state == Rerequest
      modifies this
      ensures Step(Value(), result, sent) == InRerequest(old(Value()), kind)
    {
      result, sent := IpLeased, [];
      if kind == ACK {
        if previous != address {
          result := IpChanged;
        }
        ResetTimer();
        state := Leased;
      } else if kind == NAK {
        ResetTimer();
        state := Discover;
      } else {
        result, sent := CheckTimer();
      }
    }

    /** DHCP_stop */
    method Halt()
      modifies this`state
      ensures Value() == old(Value()).(state := Stop)
    {
      state := Stop;
    }
  }

  const NO_INFO: Info := Info(0, ZERO_IP, ZERO_IP, ZERO_IP, INFINITE_LEASE, ZERO_IP)

  function Fresh(mac: Mac, host: Host): Client {
    Client(Init, 0, 0, WAIT_TIME, 1, ZERO_IP, ZERO_IP, NO_INFO, mac, host)
  }

  // ---------- runs ----------

  datatype Event = Polled(poll: Poll) | Second | Halted | Restarted

  function Ticked(c: Client): Client {
    c.(tick := (c.tick + 1) % U32)
  }

  function After(c: Client, e: Event): Client {
    match e
    case Polled(p) => Run(c, p).client
    case Second => Ticked(c)
    case Halted => c.(state := Stop)
    case Restarted => ResetTimeout(c.(state := Init, xid := 1))
  }

  function AfterAll(c: Client, es: seq<Event>): Client
    decreases |es|
  {
    if es == [] then c else AfterAll(After(c, es[0]), es[1..])
  }

  /**
   What happened on the wire: the last OFFER taken in DISCOVER, and since then an ACK taken in REQUEST and its probe.
   */
  datatype History = History(offer: Option<Ip>, acked: bool, unique: bool)

  function Note(h: History, c: Client, e: Event): History {
    if !e.Polled? then h
    else if c.state == Discover && TypeOf(c, e.poll) == OFFER && e.poll.message.Some? then
      History(Some(e.poll.message.value.yiaddr), false, false)
    else if c.state == Request && TypeOf(c, e.poll) == ACK then h.(acked := true, unique := e.poll.unique)
    else h
  }

  function NoteAll(h: History, c: Client, es: seq<Event>): History
    decreases |es|
  {
    if es == [] then h else NoteAll(Note(h, c, es[0]), After(c, es[0]), es[1..])
  }

  /** What holds in every reachable state. */
  ghost predicate Consistent(c: Client, h: History) {
    c.retries <= MAX_RETRY && c.next == WAIT_TIME && c.tick < U32
    && (c.state == Request || c.state == Leased || c.state == Rerequest ==> h.offer == Some(c.address))
    && (c.state == Leased || c.state == Rerequest ==> h.acked && h.unique)
    && (c.state == Rerequest ==> c.previous == c.address)
  }

  lemma EventKeeps(c: Client, h: History, e: Event)
    requires Consistent(c, h)
    ensures Consistent(After(c, e), Note(h, c, e))
  {
  }

  lemma {:induction false} EventsKeep(c: Client, h: History, es: seq<Event>)
    requires Consistent(c, h)
    ensures Consistent(AfterAll(c, es), NoteAll(h, c, es))
    decreases |es|
  {
    if es != [] {
      EventKeeps(c, h, es[0]);
      EventsKeep(After(c, es[0]), Note(h, c, es[0]), es[1..]);
    }
  }

  /**
   The address history: after any run, in REQUEST, LEASED and REREQUEST the allocated address is the one
   of the last OFFER; LEASED and REREQUEST also mean an ACK and a passed probe since; and REREQUEST that
   the address asked for is the address held.
   */
  lemma AddressHistory(mac: Mac, host: Host, es: seq<Event>)
    ensures var c, h := AfterAll(Fresh(mac, host), es), NoteAll(History(None, false, false), Fresh(mac, host), es);
            Consistent(c, h)
  {
    EventsKeep(Fresh(mac, host), History(None, false, false), es);
  }

  /** So renewal never reports a changed address, on any run and any reply. */
  lemma NeverChanged(mac: Mac, host: Host, es: seq<Event>, p: Poll)
    ensures Run(AfterAll(Fresh(mac, host), es), p).result != IpChanged
  {
    AddressHistory(mac, host, es);
  }

  /** The data of the options with this code in a message. */
  function Carried(s: Sent, code: byte): seq<seq<byte>> {
    var opts := OptionsOf(s.options);
    if opts.None? then [] else Found(opts.value, code)
  }

  /** What the three messages say, by option code. */
  lemma SentCarry(c: Client, code: byte)
    ensures Carried(DiscoverFrom(c), code) == Found(DiscoverOptions(c.mac, c.host), code)
    ensures Carried(RequestFrom(c), code)
         == Found(RequestOptions(c.mac, c.host, c.address, c.info.server, RequestFrom(c).to), code)
    ensures Carried(DeclineFrom(c), code) == Found(DeclineOptions(c.mac, c.address, c.info.server), code)
    ensures code == 53 ==> Carried(DiscoverFrom(c), code) == [[1]] && Carried(RequestFrom(c), code) == [[3]]
    ensures code == 53 ==> Carried(DeclineFrom(c), code) == [[4]]
  {
    DiscoverField(c.mac, c.host);
    RequestField(c.mac, c.host, c.address, c.info.server, RequestFrom(c).to);
    DeclineField(c.mac, c.address, c.info.server);
    DiscoverCarries(c.mac, c.host, code);
    RequestCarries(c.mac, c.host, c.address, c.info.server, RequestFrom(c).to, code);
    DeclineCarries(c.mac, c.address, c.info.server, code);
  }

  /** What a call of DHCP_run sends, and the variables it is made from: DISCOVER, REQUEST, DECLINE or nothing. */
  lemma WhatIsSent(c: Client, p: Poll) returns (d: Client, kind: byte)
    ensures var step := Run(c, p);
            || (kind == 0 && step.sent == [])
            || (kind == DISCOVER && step.sent == [DiscoverFrom(d)] && step.client.state == Discover)
            || (kind == REQUEST && step.sent == [RequestFrom(d)]
                && (step.client.state == Request || step.client.state == Rerequest))
            || (kind == DECLINE && step.sent == [DeclineFrom(d)] && step.client.state == Init)
    ensures d.address == Run(c, p).client.address || (kind != REQUEST && c.state == Init)
    ensures d.info == Run(c, p).client.info || c.state == Stop
    ensures d.state == Leased || d.state == Rerequest <==> c.state == Leased || c.state == Rerequest
    ensures kind == REQUEST && c.state == Discover ==> TypeOf(c, p) == OFFER && p.message.Some?
    ensures kind == REQUEST && c.state == Discover ==> d.address == p.message.value.yiaddr
    ensures kind == REQUEST && c.state != Discover ==>
              d.address == c.address && (c.state == Request || c.state == Leased || c.state == Rerequest)
    ensures kind == DECLINE ==> d.address == c.address && c.state == Request && TypeOf(c, p) == ACK
  {
    d, kind := c.(info := Parsed(c, p)), 0;
    if |Run(c, p).sent| > 0 {
      if c.state == Init {
        kind := DISCOVER;
      } else if c.state == Discover {
        kind := if TypeOf(c, p) == OFFER && p.message.Some? then REQUEST else DISCOVER;
      } else if c.state == Request && TypeOf(c, p) == ACK {
        kind := DECLINE;
      } else {
        kind := if c.state == Leased || c.retries < MAX_RETRY then REQUEST else DISCOVER;
      }
      if c.state == Discover && kind == REQUEST {
        d := d.(address := p.message.value.yiaddr);
      } else if c.state == Leased {
        d := d.(previous := d.address, xid := (d.xid + 1) % U32);
      }
    }
  }

  /**
   Whatever the state and the input, at most one message goes out, and its type, option 53, says where the client is
   behind it: DISCOVER in DISCOVER, REQUEST in REQUEST or REREQUEST, DECLINE back in INIT.
   */
  lemma MessageFitsState(c: Client, p: Poll)
    ensures |Run(c, p).sent| <= 1
    ensures forall s :: s in Run(c, p).sent ==> Fits(s, Run(c, p).client.state)
  {
    var d, kind := WhatIsSent(c, p);
    SentCarry(d, 53);
  }

  /** The type of a message and the state it belongs to. */
  ghost predicate Fits(s: Sent, state: State) {
    || (Carried(s, 53) == [[1]] && state == Discover)
    || (Carried(s, 53) == [[3]] && (state == Request || state == Rerequest))
    || (Carried(s, 53) == [[4]] && state == Init)
  }

  /**
   Every REQUEST ever sent, read off its bytes: a first one goes to 255.255.255.255 from no address and asks, in
   option 50, for the address of the last OFFER, naming the server in option 54; a renewal goes to the server, from
   the address of the last OFFER.
   */
  lemma RequestsAskForOffer(mac: Mac, host: Host, es: seq<Event>, p: Poll, s: Sent)
    requires s in Run(AfterAll(Fresh(mac, host), es), p).sent && Carried(s, 53) == [[3]]
    ensures var state := AfterAll(Fresh(mac, host), es).state;
            var offer := NoteAll(History(None, false, false), Fresh(mac, host), es + [Polled(p)]).offer;
            var server := AfterAll(Fresh(mac, host), es + [Polled(p)]).info.server;
            && offer.Some? && (s.unicast <==> state == Leased || state == Rerequest)
            && (!s.unicast ==> s.to == [255, 255, 255, 255] && s.ciaddr == [0, 0, 0, 0])
            && (!s.unicast ==> Carried(s, 50) == [offer.value] && Carried(s, 54) == [server])
            && (s.unicast ==> s.to == server && s.ciaddr == offer.value)
  {
    var c, h := Fresh(mac, host), History(None, false, false);
    AddressHistory(mac, host, es);
    NoteAppend(h, c, es, Polled(p));
    AfterAppend(c, es, Polled(p));
    RequestSays(AfterAll(c, es), NoteAll(h, c, es), p, s);
  }

  /** Every DECLINE ever sent refuses the address of the last OFFER, to everyone, naming the server. */
  lemma DeclinesOffer(mac: Mac, host: Host, es: seq<Event>, p: Poll, s: Sent)
    requires s in Run(AfterAll(Fresh(mac, host), es), p).sent && Carried(s, 53) == [[4]]
    ensures var offer := NoteAll(History(None, false, false), Fresh(mac, host), es).offer;
            var server := AfterAll(Fresh(mac, host), es + [Polled(p)]).info.server;
            && offer.Some? && Carried(s, 50) == [offer.value] && Carried(s, 54) == [server]
            && s.to == [255, 255, 255, 255]
  {
    AddressHistory(mac, host, es);
    AfterAppend(Fresh(mac, host), es, Polled(p));
    DeclineSays(AfterAll(Fresh(mac, host), es), NoteAll(History(None, false, false), Fresh(mac, host), es), p, s);
  }

  lemma DeclineSays(c: Client, h: History, p: Poll, s: Sent)
    requires Consistent(c, h) && s in Run(c, p).sent && Carried(s, 53) == [[4]]
    ensures h.offer.Some? && Carried(s, 50) == [h.offer.value] && Carried(s, 54) == [Run(c, p).client.info.server]
    ensures s.to == [255, 255, 255, 255]
  {
    var d, kind := WhatIsSent(c, p);
    SentCarry(d, 53);
    DeclineCarries(d.mac, d.address, d.info.server, 50);
    DeclineCarries(d.mac, d.address, d.info.server, 54);
    SentCarry(d, 50);
    SentCarry(d, 54);
  }

  lemma RequestSays(c: Client, h: History, p: Poll, s: Sent)
    requires Consistent(c, h) && s in Run(c, p).sent && Carried(s, 53) == [[3]]
    ensures var offer, server := Note(h, c, Polled(p)).offer, Run(c, p).client.info.server;
            && offer.Some? && (s.unicast <==> c.state == Leased || c.state == Rerequest)
            && (!s.unicast ==> s.to == [255, 255, 255, 255] && s.ciaddr == [0, 0, 0, 0])
            && (!s.unicast ==> Carried(s, 50) == [offer.value] && Carried(s, 54) == [server])
            && (s.unicast ==> s.to == server && s.ciaddr == offer.value)
  {
    var d, kind := WhatIsSent(c, p);
    SentCarry(d, 53);
    RequestCarries(d.mac, d.host, d.address, d.info.server, s.to, 50);
    RequestCarries(d.mac, d.host, d.address, d.info.server, s.to, 54);
    SentCarry(d, 50);
    SentCarry(d, 54);
  }

  lemma {:induction false} AfterAppend(c: Client, es: seq<Event>, e: Event)
    ensures AfterAll(c, es + [e]) == After(AfterAll(c, es), e)
    decreases |es|
  {
    if es == [] {
      assert [] + [e] == [e] && [e][1..] == [];
    } else {
      assert (es + [e])[1..] == es[1..] + [e];
      AfterAppend(After(c, es[0]), es[1..], e);
    }
  }

  lemma {:induction false} NoteAppend(h: History, c: Client, es: seq<Event>, e: Event)
    ensures NoteAll(h, c, es + [e]) == Note(NoteAll(h, c, es), AfterAll(c, es), e)
    decreases |es|
  {
    if es == [] {
      assert [] + [e] == [e] && [e][1..] == [];
    } else {
      assert (es + [e])[1..] == es[1..] + [e];
      NoteAppend(Note(h, c, es[0]), After(c, es[0]), es[1..], e);
    }
  }

  // ---------- a silent server ----------

  const SILENCE: Poll := Poll(None, 0, false)

  /** Ticks and polls that find no message. */
  predicate Silent(e: Event) { e == Second || (e.Polled? && e.poll.message.None?) }

  predicate Waiting(c: Client) { c.state == Discover || c.state == Request || c.state == Rerequest }

  /** How many messages are still to be sent before the client gives up. */
  function Rank(c: Client): nat
    requires Waiting(c) && c.retries <= MAX_RETRY
  {
    (if c.state == Discover then 0 else MAX_RETRY + 1) + (MAX_RETRY - c.retries)
  }

  /** A poll that finds the time over, or the retries used up. */
  predicate Due(c: Client, e: Event) { e.Polled? && (c.retries >= MAX_RETRY || c.next < c.tick) }

  datatype Outcome = Outcome(client: Client, failed: bool, sent: nat, due: nat)

  /** A run up to the first DHCP_FAILED: how many messages went out and how many polls were due. */
  function Play(c: Client, es: seq<Event>): Outcome
    decreases |es|, 1
  {
    if es == [] then Outcome(c, false, 0, 0)
    else if es[0].Polled? then PlayPoll(c, es[0], es[1..])
    else Play(After(c, es[0]), es[1..])
  }

  function PlayPoll(c: Client, e: Event, es: seq<Event>): Outcome
    requires e.Polled?
    decreases |es|, 2
  {
    var due, step := if Due(c, e) then 1 else 0, Run(c, e.poll);
    if step.result == Failed then Outcome(step.client, true, |step.sent|, due)
    else
      var rest := Play(step.client, es);
      rest.(sent := rest.sent + |step.sent|, due := rest.due + due)
  }

  /**
   One event of a silent run: a due poll sends one message and takes one off the rank, or fails at rank
   zero and is back in INIT; everything else changes neither.
   */
  lemma SilentStep(c: Client, e: Event)
    requires Waiting(c) && c.retries <= MAX_RETRY && Silent(e)
    ensures Due(c, e) && Rank(c) == 0 ==>
              Run(c, e.poll).result == Failed && Run(c, e.poll).client.state == Init && Run(c, e.poll).sent == []
    ensures Due(c, e) && Rank(c) > 0 ==>
              Run(c, e.poll).result == Running && |Run(c, e.poll).sent| == 1
              && Waiting(After(c, e)) && After(c, e).retries <= MAX_RETRY && Rank(After(c, e)) == Rank(c) - 1
    ensures !Due(c, e) ==> Waiting(After(c, e)) && After(c, e).retries <= MAX_RETRY && Rank(After(c, e)) == Rank(c)
    ensures !Due(c, e) && e.Polled? ==>
              Run(c, e.poll).result == Running && Run(c, e.poll).sent == [] && After(c, e) == c
  {
  }

  /**
   Without replies the client gives up at exactly the due poll that finds its rank used up, having sent
   as many messages as its rank was, at most five.
   */
  lemma {:induction false} SilentServer(c: Client, es: seq<Event>)
    requires Waiting(c) && c.retries <= MAX_RETRY && forall e :: e in es ==> Silent(e)
    ensures var o := Play(c, es);
            (o.failed <==> o.due > Rank(c)) && (o.failed ==> o.client.state == Init && o.sent == Rank(c) <= 5)
            && (!o.failed ==>
                  o.sent == o.due && Waiting(o.client) && o.client.retries <= MAX_RETRY
                  && Rank(o.client) == Rank(c) - o.sent)
    decreases |es|
  {
    if es != [] {
      assert es[0] in es;
      SilentStep(c, es[0]);
      if !(Due(c, es[0]) && Rank(c) == 0) {
        SilentServer(After(c, es[0]), es[1..]);
      }
    }
  }

  /** A waiting client that hears nothing sends again at the first poll more than ten seconds behind the last one. */
  lemma ResendsBehindTen(mac: Mac, host: Host, es: seq<Event>)
    ensures var c := AfterAll(Fresh(mac, host), es);
            Waiting(c) && c.retries < 2 ==> (Run(c, SILENCE).sent != [] <==> c.tick > 10)
  {
    AddressHistory(mac, host, es);
  }

  function Seconds(n: nat): seq<Event> { seq(n, i => Second) }

  /** One second more than the waiting time, and a poll; n times over. */
  function Rounds(n: nat): seq<Event> {
    if n == 0 then [] else Seconds(WAIT_TIME + 1) + ([Polled(SILENCE)] + Rounds(n - 1))
  }

  lemma {:induction false} PlaySecond(c: Client, es: seq<Event>)
    ensures Play(c, [Second] + es) == Play(Ticked(c), es)
  {
    assert ([Second] + es)[1..] == es;
  }

  lemma {:induction false} PlaySeconds(c: Client, n: nat, es: seq<Event>)
    requires c.tick + n < U32
    ensures Play(c, Seconds(n) + es) == Play(c.(tick := c.tick + n), es)
    decreases n
  {
    if n == 0 {
      assert Seconds(0) + es == es;
    } else {
      assert Seconds(n) + es == [Second] + (Seconds(n - 1) + es);
      PlaySecond(c, Seconds(n - 1) + es);
      PlaySeconds(Ticked(c), n - 1, es);
      assert Ticked(c).(tick := Ticked(c).tick + (n - 1)) == c.(tick := c.tick + n);
    }
  }

  /** With time going on, the client fails in a number of rounds that its state tells in advance, at most six. */
  lemma {:induction false} SilentRounds(c: Client)
    requires Waiting(c) && c.retries <= MAX_RETRY && c.next == WAIT_TIME && c.tick + WAIT_TIME + 1 < U32
    ensures Rank(c) + 1 <= 6
    ensures Play(c, Rounds(Rank(c) + 1)).failed && Play(c, Rounds(Rank(c) + 1)).sent == Rank(c)
    ensures Play(c, Rounds(Rank(c) + 1)).client.state == Init
    decreases Rank(c)
  {
    var n := Rank(c);
    var rest := [Polled(SILENCE)] + Rounds(n);
    var d := c.(tick := c.tick + (WAIT_TIME + 1));
    PlaySeconds(c, WAIT_TIME + 1, rest);
    assert rest[0] == Polled(SILENCE) && rest[1..] == Rounds(n);
    SilentStep(d, rest[0]);
    if n > 0 {
      SilentRounds(After(d, rest[0]));
    }
  }

  // ---------- renewing ----------

  lemma {:induction false} SecondsPass(c: Client, n: nat)
    requires c.tick + n < U32
    ensures AfterAll(c, Seconds(n)) == c.(tick := c.tick + n)
    decreases n
  {
    if n > 0 {
      assert Seconds(n)[1..] == Seconds(n - 1);
      SecondsPass(Ticked(c), n - 1);
    }
  }

  /** A lease begins with the ACK that grants or renews it: the seconds count from there. */
  lemma LeaseBegins(c: Client, p: Poll)
    requires c.state != Leased && Run(c, p).client.state == Leased
    ensures TypeOf(c, p) == ACK && Run(c, p).client.tick == 0 && Run(c, p).client.info == Parsed(c, p)
  {
  }

  /**
   A client with a lease asks for it again at the first poll behind half of it, counted in seconds since the lease
   began, and never if the lease is infinite; until then a poll changes nothing.
   */
  lemma RenewsBehindHalf(c: Client, n: nat)
    requires c.state == Leased && c.tick + n < U32
    ensures var step := Run(AfterAll(c, Seconds(n)), SILENCE);
            var late := c.info.lease != 0xFFFF_FFFF && 2 * (c.tick + n) > c.info.lease;
            && step.result == IpLeased && (|step.sent| == 1 <==> late)
            && (step.client.state == Rerequest <==> late) && (!late ==> step.client == AfterAll(c, Seconds(n)))
            && (late ==> step.client.xid == (c.xid + 1) % U32 && step.client.tick == 0)
  {
    SecondsPass(c, n);
    var d := c.(tick := c.tick + n);
    LeasedPoll(d);
    assert d.(info := Parsed(d, SILENCE)) == d;
  }

  lemma LeasedPoll(d: Client)
    requires d.state == Leased
    ensures var step, late := InLeased(d), d.info.lease != 0xFFFF_FFFF && 2 * d.tick > d.info.lease;
            && step.result == IpLeased && (|step.sent| == 1 <==> late)
            && (step.client.state == Rerequest <==> late) && (!late ==> step.client == d)
            && (late ==> step.client.xid == (d.xid + 1) % U32 && step.client.tick == 0)
  {
  }

  // ---------- which messages are taken ----------

  /** A datagram whose message type parseDHCPMSG never sets. */
  predicate Foreign(p: Poll) { p.message.Some? && p.message.value.port != SERVER_PORT }

  /**
   Read from the server port for this client's hardware address, or foreign while the unset type happens to say so.
   */
  predicate Taken(c: Client, p: Poll, kind: byte) {
    (Reads(c, p) && Parsed(c, p).kind == kind) || (Foreign(p) && p.unset == kind)
  }

  /** OFFER, ACK and NAK, the types 2, 5 and 6 of RFC 2132, move the client exactly when they are taken. */
  lemma MessagesTaken(c: Client, p: Poll)
    ensures c.state == Discover ==> (Run(c, p).client.state == Request <==> Taken(c, p, 2))
    ensures c.state == Request ==> (Run(c, p).client.state == Leased <==> Taken(c, p, 5) && p.unique)
    ensures c.state == Request ==> (Run(c, p).client.state == Init <==> Taken(c, p, 5) && !p.unique)
    ensures c.state == Rerequest ==> (Run(c, p).client.state == Leased <==> Taken(c, p, 5))
    ensures c.state == Request || c.state == Rerequest ==> (Taken(c, p, 6) ==> Run(c, p).client.state == Discover)
  {
  }

  /**
   Where the message type comes from: nothing received or another client's message is 0, a port other than 67 leaves
   what the variable held, and otherwise it is the last option 53 of a well-formed list, or 0 without one.
   */
  lemma TypeByMessage(c: Client, p: Poll)
    ensures p.message.None? ==> TypeOf(c, p) == 0
    ensures p.message.Some? && p.message.value.port != 67 ==> TypeOf(c, p) == p.unset
    ensures p.message.Some? && p.message.value.port == 67 && p.message.value.chaddr != c.mac ==> TypeOf(c, p) == 0
    ensures p.message.Some? && p.message.value.port == 67 && p.message.value.chaddr == c.mac ==>
              var opts := Walk(p.message.value.options, 0, p.message.value.length);
              opts.Some? && (forall o :: o in opts.value ==> Sized(o)) ==>
                [TypeOf(c, p)] == LastOr(Found(opts.value, 53), [0])
  {
    if Reads(c, p) {
      var m := p.message.value;
      var opts := Walk(m.options, 0, m.length);
      if opts.Some? && forall o :: o in opts.value ==> Sized(o) {
        LoopIsWalk(m.options, 0, m.length, c.info.(kind := 0));
        TypeByCode(opts.value, c.info.(kind := 0));
      }
    }
  }

  /** The message type depends on the unset variable exactly for foreign datagrams. */
  lemma TypeIsSetIff(c: Client, p: Poll)
    ensures (forall u: byte :: TypeOf(c, p.(unset := u)) == TypeOf(c, p)) <==> !Foreign(p)
  {
    var u: byte := if p.unset == 0 then 1 else 0;
    if Foreign(p) {
      assert TypeOf(c, p.(unset := u)) != TypeOf(c, p);
    }
  }

  /**
   What DHCP_run does is settled by its inputs if and only if the datagram is not foreign or the state looks at no
   message.
   */
  lemma RunIsSetIff(c: Client, p: Poll)
    ensures (forall u: byte :: Run(c, p.(unset := u)) == Run(c, p)) <==> !Foreign(p) || !Waiting(c)
  {
    if Foreign(p) && Waiting(c) {
      MessagesTaken(c, p.(unset := OFFER));
      MessagesTaken(c, p.(unset := ACK));
      MessagesTaken(c, p.(unset := 0));
      assert Run(c, p.(unset := OFFER)) != Run(c, p.(unset := 0)) || Run(c, p.(unset := ACK)) != Run(c, p.(unset := 0));
    }
  }
}
