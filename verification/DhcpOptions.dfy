/**
 The option field of DHCP messages: the loop that reads a reply and the three senders that write
 requests (option format of section 2 of RFC 2132).
 */
module DhcpOptions {
  import opened Wrappers
  import opened Octets

  const PAD: byte := 0
  const SUBNET_MASK: byte := 1
  const ROUTERS: byte := 3
  const DNS: byte := 6
  const HOST_NAME: byte := 12
  const DOMAIN_NAME: byte := 15
  const ROUTER_DISCOVERY: byte := 31
  const STATIC_ROUTE: byte := 33
  const REQUESTED_IP: byte := 50
  const LEASE_TIME: byte := 51
  const MESSAGE_TYPE: byte := 53
  const SERVER_ID: byte := 54
  const PARAM_REQUEST: byte := 55
  const T1: byte := 58
  const T2: byte := 59
  const CLIENT_ID: byte := 61
  const END: byte := 255

  const OPT_SIZE := 312
  const COOKIE: seq<byte> := [0x63, 0x82, 0x53, 0x63]

  /** What the client keeps of a reply's options. */
  datatype Info = Info(kind: byte, subnet: Ip, gateway: Ip, dns: Ip, lease: nat, server: Ip)

  // ---------- options as a list ----------

  datatype Opt = Opt(code: byte, data: seq<byte>)

  /** A generic walk over type, length and value, up to the end option or the end of the message. */
  function Walk(mem: nat -> byte, p: nat, e: nat): Option<seq<Opt>>
    decreases e - p
  {
    if p > e then None
    else if p == e || mem(p) == END then Some([])
    else if mem(p) == PAD then Walk(mem, p + 1, e)
    else if p + 1 >= e then None
    else
      var rest := Walk(mem, p + 2 + mem(p + 1), e);
      if rest.None? then None else Some([Opt(mem(p), Bytes(mem, p + 2, mem(p + 1)))] + rest.value)
  }

  /** Options the client reads have their defined sizes; routers and servers come as a list. */
  predicate Sized(o: Opt) {
    (o.code == MESSAGE_TYPE ==> |o.data| == 1)
    && (o.code == SUBNET_MASK || o.code == LEASE_TIME || o.code == SERVER_ID ==> |o.data| == 4)
    && (o.code == ROUTERS || o.code == DNS ==> |o.data| >= 4)
  }

  function BigEndian(s: seq<byte>): nat {
    if s == [] then 0 else BigEndian(s[..|s| - 1]) * 256 + s[|s| - 1]
  }

  /** What one option means to the client. */
  function Apply(o: Opt, info: Info): Info
    requires Sized(o)
  {
    if o.code == MESSAGE_TYPE then info.(kind := o.data[0])
    else if o.code == SUBNET_MASK then info.(subnet := o.data)
    else if o.code == ROUTERS then info.(gateway := o.data[..4])
    else if o.code == DNS then info.(dns := o.data[..4])
    else if o.code == LEASE_TIME then info.(lease := BigEndian(o.data))
    else if o.code == SERVER_ID then info.(server := o.data)
    else info
  }

  function ApplyAll(opts: seq<Opt>, info: Info): Info
    requires forall o :: o in opts ==> Sized(o)
  {
    if opts == [] then info else ApplyAll(opts[1..], Apply(opts[0], info))
  }

  // ---------- the option loop of parseDHCPMSG ----------

  /** One round of the loop: the new information and the new position. */
  function Round(mem: nat -> byte, p: nat, e: nat, info: Info): (r: (Info, nat))
    requires p < e
    ensures r.1 > p
  {
    var code := mem(p);
    if code == END then (info, e)
    else if code == PAD then (info, p + 1)
    else if code == MESSAGE_TYPE then (info.(kind := mem(p + 2)), p + 3)
    else if code == SUBNET_MASK then (info.(subnet := Four(mem, p + 2)), p + 6)
    else if code == ROUTERS then (info.(gateway := Four(mem, p + 2)), p + 6 + mem(p + 1) - 4)
    else if code == DNS then (info.(dns := Four(mem, p + 2)), p + 6 + mem(p + 1) - 4)
    else if code == LEASE_TIME then
      (info.(lease := ((mem(p + 2) * 256 + mem(p + 3)) * 256 + mem(p + 4)) * 256 + mem(p + 5)), p + 6)
    else if code == SERVER_ID then (info.(server := Four(mem, p + 2)), p + 6)
    else (info, p + 2 + mem(p + 1))
  }

  function Four(mem: nat -> byte, p: nat): Ip {
    [mem(p), mem(p + 1), mem(p + 2), mem(p + 3)]
  }

  function OptionLoop(mem: nat -> byte, p: nat, e: nat, info: Info): Info
    decreases e - p
  {
    if p >= e then info
    else
      var (next, q) := Round(mem, p, e, info);
      OptionLoop(mem, q, e, next)
  }

  /** The loop itself; it may read over the end, so memory goes on behind the message. */
  method ReadOptions(mem: nat -> byte, start: nat, e: nat, before: Info) returns (info: Info)
    ensures info == OptionLoop(mem, start, e, before)
  {
    var p := start;
    info := before;
    while p < e
      invariant OptionLoop(mem, p, e, info) == OptionLoop(mem, start, e, before)
      decreases e - p
    {
      ghost var round := Round(mem, p, e, info);
      var code, length: int := mem(p), mem(p + 1);
      if code == END {
        p := e;
      } else if code == PAD {
        p := p + 1;
      } else if code == MESSAGE_TYPE {
        info, p := info.(kind := mem(p + 2)), p + 3;
      } else if code == SUBNET_MASK {
        info, p := info.(subnet := Four(mem, p + 2)), p + 6;
      } else if code == ROUTERS {
        info, p := info.(gateway := Four(mem, p + 2)), p + 6;
        p := p + (length - 4);
      } else if code == DNS {
        info, p := info.(dns := Four(mem, p + 2)), p + 6;
        p := p + (length - 4);
      } else if code == LEASE_TIME {
        var lease: nat := mem(p + 2);
        lease := lease * 256 + mem(p + 3);
        lease := lease * 256 + mem(p + 4);
        lease := lease * 256 + mem(p + 5);
        info, p := info.(lease := lease), p + 6;
      } else if code == SERVER_ID {
        info, p := info.(server := Four(mem, p + 2)), p + 6;
      } else {
        p := p + 2 + length;
      }
      assert (info, p) == round;
    }
  }

  lemma BigEndianFour(s: seq<byte>)
    requires |s| == 4
    ensures BigEndian(s) == ((s[0] as int * 256 + s[1]) * 256 + s[2]) * 256 + s[3]
  {
    var a, b, c := s[..3], s[..2], s[..1];
    assert a[..2] == b && b[..1] == c && c[..0] == [];
    assert BigEndian(c) == s[0];
    assert BigEndian(b) == BigEndian(c) * 256 + s[1];
    assert BigEndian(a) == BigEndian(b) * 256 + s[2];
  }

  /** One round on an option of its defined size is that option's meaning. */
  lemma RoundApplies(mem: nat -> byte, p: nat, e: nat, info: Info)
    requires p + 1 < e && mem(p) != PAD && mem(p) != END
    requires Sized(Opt(mem(p), Bytes(mem, p + 2, mem(p + 1))))
    ensures Round(mem, p, e, info) == (Apply(Opt(mem(p), Bytes(mem, p + 2, mem(p + 1))), info), p + 2 + mem(p + 1))
  {
    var data := Bytes(mem, p + 2, mem(p + 1));
    if |data| >= 4 {
      assert data[..4] == Four(mem, p + 2);
      if |data| == 4 {
        assert data == data[..4];
        BigEndianFour(data);
      }
    }
  }

  /** The hand-written loop extracts what the generic walk finds, on every well-formed list. */
  lemma {:induction false} LoopIsWalk(mem: nat -> byte, p: nat, e: nat, info: Info)
    requires Walk(mem, p, e).Some? && forall o :: o in Walk(mem, p, e).value ==> Sized(o)
    ensures OptionLoop(mem, p, e, info) == ApplyAll(Walk(mem, p, e).value, info)
    decreases e - p
  {
    if p < e && mem(p) == PAD {
      LoopIsWalk(mem, p + 1, e, info);
    } else if p < e && mem(p) != END {
      var opts := Walk(mem, p, e).value;
      assert opts[0] in opts;
      RoundApplies(mem, p, e, info);
      var (next, q) := Round(mem, p, e, info);
      assert opts[1..] == Walk(mem, q, e).value;
      LoopIsWalk(mem, q, e, next);
    }
  }

  // ---------- staying in step ----------

  /** The positions the loop stands at, the last one included. */
  ghost function LoopTrail(mem: nat -> byte, p: nat, e: nat, info: Info): (t: seq<nat>)
    ensures t != [] && t[0] == p
    decreases e - p
  {
    if p >= e then [p]
    else
      var (next, q) := Round(mem, p, e, info);
      [p] + LoopTrail(mem, q, e, next)
  }

  /** The positions of the generic walk. */
  ghost function WalkTrail(mem: nat -> byte, p: nat, e: nat): (t: seq<nat>)
    requires Walk(mem, p, e).Some?
    ensures t != [] && t[0] == p
    decreases e - p
  {
    if p == e then [p]
    else if mem(p) == END then [p, e]
    else if mem(p) == PAD then [p] + WalkTrail(mem, p + 1, e)
    else [p] + WalkTrail(mem, p + 2 + mem(p + 1), e)
  }

  /** Options over which the loop steps as far as they reach; lists of routers and servers may have any length. */
  predicate InStep(o: Opt) {
    (o.code == MESSAGE_TYPE ==> |o.data| == 1)
    && (o.code == SUBNET_MASK || o.code == LEASE_TIME || o.code == SERVER_ID ==> |o.data| == 4)
  }

  lemma RoundInStep(mem: nat -> byte, p: nat, e: nat, info: Info)
    requires p + 1 < e && mem(p) != PAD && mem(p) != END
    ensures Round(mem, p, e, info).1 == p + 2 + mem(p + 1) <==> InStep(Opt(mem(p), Bytes(mem, p + 2, mem(p + 1))))
  {
  }

  /**
   On every list the generic walk accepts, the loop stands where the walk stands if and only if every
   message type has length 1 and every subnet mask, lease time and server identifier has length 4.
   */
  lemma {:induction false} LoopInStepIff(mem: nat -> byte, p: nat, e: nat, info: Info)
    requires Walk(mem, p, e).Some?
    ensures LoopTrail(mem, p, e, info) == WalkTrail(mem, p, e) <==> forall o :: o in Walk(mem, p, e).value ==> InStep(o)
    decreases e - p
  {
    if p < e && mem(p) == END {
      assert LoopTrail(mem, p, e, info) == [p] + [e];
    } else if p < e && mem(p) == PAD {
      LoopInStepIff(mem, p + 1, e, info);
      SameTails(p, LoopTrail(mem, p + 1, e, info), WalkTrail(mem, p + 1, e));
    } else if p < e {
      var (next, q) := Round(mem, p, e, info);
      var o, q' := Opt(mem(p), Bytes(mem, p + 2, mem(p + 1))), p + 2 + mem(p + 1);
      var rest := Walk(mem, q', e).value;
      RoundInStep(mem, p, e, info);
      SameTails(p, LoopTrail(mem, q, e, next), WalkTrail(mem, q', e));
      assert Walk(mem, p, e).value == [o] + rest;
      assert o in [o] + rest;
      if q == q' {
        LoopInStepIff(mem, q, e, next);
        assert forall x :: x in [o] + rest <==> x == o || x in rest;
      }
    }
  }

  lemma SameTails(p: nat, s: seq<nat>, t: seq<nat>)
    ensures [p] + s == [p] + t <==> s == t
  {
    assert ([p] + s)[1..] == s && ([p] + t)[1..] == t;
  }

  const ODD_OPTIONS: seq<byte> := [SUBNET_MASK, 5, 255, 255, 255, 0, MESSAGE_TYPE, 2, 1, 5]

  function OddMemory(i: nat): byte { if i < |ODD_OPTIONS| then ODD_OPTIONS[i] else 0 }

  /**
   Off the defined sizes the two part: a subnet mask of five bytes leaves the loop inside the option,
   and it takes the length of the next option for a message type.
   */
  lemma LoopNeedsSizes(info: Info)
    ensures Walk(OddMemory, 0, 10) == Some([Opt(SUBNET_MASK, [255, 255, 255, 0, MESSAGE_TYPE]), Opt(2, [5])])
    ensures OptionLoop(OddMemory, 0, 10, info).kind == 1
  {
    assert Bytes(OddMemory, 2, 5) == [255, 255, 255, 0, MESSAGE_TYPE];
    assert Bytes(OddMemory, 9, 1) == [5];
    assert Walk(OddMemory, 10, 10) == Some([]);
    var a, b := Opt(SUBNET_MASK, [255, 255, 255, 0, MESSAGE_TYPE]), Opt(2, [5]);
    assert [b] + [] == [b] && [a] + [b] == [a, b];
    assert Walk(OddMemory, 7, 10) == Some([b]);
    assert Walk(OddMemory, 0, 10) == Some([a] + [b]);
    var (second, q) := Round(OddMemory, 0, 10, info);
    assert q == 6;
    var (third, r) := Round(OddMemory, 6, 10, second);
    assert r == 9 && third.kind == 1;
    assert Round(OddMemory, 9, 10, third) == (third, 11);
    assert OptionLoop(OddMemory, 11, 10, third) == third;
    assert OptionLoop(OddMemory, 9, 10, third) == third;
    assert OptionLoop(OddMemory, 6, 10, second) == third;
  }

  // ---------- the senders ----------

  /** An option as it goes over the wire. */
  predicate Sendable(o: Opt) { o.code != PAD && o.code != END && |o.data| < 256 }

  function Encode(o: Opt): seq<byte>
    requires Sendable(o)
  {
    [o.code, |o.data|] + o.data
  }

  function EncodeAll(opts: seq<Opt>): seq<byte>
    requires forall o :: o in opts ==> Sendable(o)
  {
    if opts == [] then [] else Encode(opts[0]) + EncodeAll(opts[1..])
  }

  /** The whole option field: cookie, options, end option and zeros. */
  ghost predicate IsField(field: seq<byte>, opts: seq<Opt>)
    requires forall o :: o in opts ==> Sendable(o)
  {
    var used := COOKIE + EncodeAll(opts) + [END];
    |field| == OPT_SIZE && |used| <= OPT_SIZE && field[..|used|] == used
    && forall i :: |used| <= i < OPT_SIZE ==> field[i] == 0
  }

  /** That field, for options that fit it. */
  function OptionField(opts: seq<Opt>): seq<byte>
    requires forall o :: o in opts ==> Sendable(o)
  {
    var used := COOKIE + EncodeAll(opts) + [END];
    if |used| <= OPT_SIZE then used + seq(OPT_SIZE - |used|, i => 0) else used
  }

  lemma OnlyField(field: seq<byte>, opts: seq<Opt>)
    requires (forall o :: o in opts ==> Sendable(o)) && IsField(field, opts)
    ensures field == OptionField(opts)
  {
    var used := COOKIE + EncodeAll(opts) + [END];
    assert field == field[..|used|] + field[|used|..];
    assert field[|used|..] == seq(OPT_SIZE - |used|, i => 0);
  }

  lemma FieldFits(opts: seq<Opt>)
    requires (forall o :: o in opts ==> Sendable(o)) && 5 + |EncodeAll(opts)| <= OPT_SIZE
    ensures IsField(OptionField(opts), opts)
  {
    var used := COOKIE + EncodeAll(opts) + [END];
    assert OptionField(opts)[..|used|] == used;
  }

  /** The generic walk reads encoded options back. */
  lemma {:induction false} WalkEncoded(mem: nat -> byte, p: nat, e: nat, opts: seq<Opt>)
    requires forall o :: o in opts ==> Sendable(o)
    requires Holds(mem, p, EncodeAll(opts) + [END]) && p + |EncodeAll(opts)| < e
    ensures Walk(mem, p, e) == Some(opts)
    decreases |opts|
  {
    if opts == [] {
      assert (EncodeAll(opts) + [END])[0] == END;
      assert mem(p + 0) == END;
    } else {
      var o := opts[0];
      assert o in opts;
      var head, rest: seq<byte> := [o.code, |o.data|], EncodeAll(opts[1..]);
      assert EncodeAll(opts) + [END] == head + (o.data + (rest + [END]));
      HoldsSplit(mem, p, head, o.data + (rest + [END]));
      assert mem(p + 0) == head[0] && mem(p + 1) == head[1];
      HoldsSplit(mem, p + 2, o.data, rest + [END]);
      assert Bytes(mem, p + 2, |o.data|) == o.data;
      WalkEncoded(mem, p + 2 + |o.data|, e, opts[1..]);
      assert opts == [o] + opts[1..];
    }
  }

  /** The host name: its length is filled in behind the loop that copies it. */
  method PutHostName(opt: array<byte>, k: nat, host: seq<byte>) returns (k': nat)
    requires |host| < 256 && k + 2 + |host| <= opt.Length
    modifies opt
    ensures k' == k + 2 + |host| && opt[..k'] == old(opt[..k]) + Encode(Opt(HOST_NAME, host))
  {
    ghost var before := opt[..k];
    k' := Put(opt, k, [HOST_NAME, 0]);
    var i := 0;
    while i < |host|
      invariant 0 <= i <= |host| && k' == k + 2 + i
      invariant opt[..k'] == before + [HOST_NAME, 0] + host[..i]
    {
      opt[k'] := host[i];
      i, k' := i + 1, k' + 1;
    }
    opt[k' - (i + 1)] := i;
    assert host[..i] == host;
    assert opt[..k'] == before + ([HOST_NAME, |host|] + host);
  }

  /** The end option and zeros up to the end of the field. */
  method Finish(opt: array<byte>, k: nat)
    requires opt.Length == OPT_SIZE && k < OPT_SIZE
    modifies opt
    ensures opt[..k + 1] == old(opt[..k]) + [END]
    ensures forall i :: k < i < OPT_SIZE ==> opt[i] == 0
  {
    ghost var before := opt[..k];
    opt[k] := END;
    var i := k + 1;
    while i < OPT_SIZE
      invariant k < i <= OPT_SIZE && opt[..k + 1] == before + [END]
      invariant forall j :: k < j < i ==> opt[j] == 0
    {
      opt[i] := 0;
      i := i + 1;
    }
  }

  type Mac = s: seq<byte> | |s| == 6 witness [0, 0, 0, 0, 0, 0]

  const DISCOVER: byte := 1
  const OFFER: byte := 2
  const REQUEST: byte := 3
  const DECLINE: byte := 4
  const ACK: byte := 5
  const NAK: byte := 6

  function Common(kind: byte, mac: Mac): seq<Opt> {
    [Opt(MESSAGE_TYPE, [kind]), Opt(CLIENT_ID, [1] + mac)]
  }

  function Addresses(ip: Ip, server: Ip): seq<Opt> {
    [Opt(REQUESTED_IP, ip), Opt(SERVER_ID, server)]
  }

  function DiscoverOptions(mac: Mac, host: seq<byte>): seq<Opt> {
    Common(DISCOVER, mac) + [Opt(HOST_NAME, host), Opt(PARAM_REQUEST, [SUBNET_MASK, ROUTERS, DNS, DOMAIN_NAME, T1, T2])]
  }

  /** Requested address and server go along when the message is broadcast, or the server ends in 255. */
  function RequestOptions(mac: Mac, host: seq<byte>, ip: Ip, server: Ip, destination: Ip): seq<Opt> {
    Common(REQUEST, mac) + (if destination[3] == 255 then Addresses(ip, server) else [])
    + [Opt(HOST_NAME, host),
       Opt(PARAM_REQUEST, [SUBNET_MASK, ROUTERS, DNS, DOMAIN_NAME, T1, T2, ROUTER_DISCOVERY, STATIC_ROUTE])]
  }

  function DeclineOptions(mac: Mac, ip: Ip, server: Ip): seq<Opt> {
    Common(DECLINE, mac) + Addresses(ip, server)
  }

  lemma {:induction false} EncodeAppend(opts: seq<Opt>, o: Opt)
    requires (forall x :: x in opts ==> Sendable(x)) && Sendable(o)
    ensures EncodeAll(opts + [o]) == EncodeAll(opts) + Encode(o)
  {
    if opts == [] {
      assert [o][1..] == [] && [] + [o] == [o];
    } else {
      assert (opts + [o])[1..] == opts[1..] + [o];
      EncodeAppend(opts[1..], o);
    }
  }

  /** What the senders have written so far. */
  ghost predicate Wrote(opt: array<byte>, k: nat, opts: seq<Opt>)
    reads opt
  {
    k <= opt.Length && (forall o :: o in opts ==> Sendable(o)) && opt[..k] == COOKIE + EncodeAll(opts)
  }

  method PutOption(opt: array<byte>, k: nat, o: Opt, ghost done: seq<Opt>) returns (k': nat)
    requires Wrote(opt, k, done) && Sendable(o) && k + 2 + |o.data| <= opt.Length
    modifies opt
    ensures k' == k + 2 + |o.data| && Wrote(opt, k', done + [o])
  {
    k' := Put(opt, k, Encode(o));
    EncodeAppend(done, o);
  }

  method PutName(opt: array<byte>, k: nat, host: seq<byte>, ghost done: seq<Opt>) returns (k': nat)
    requires Wrote(opt, k, done) && |host| < 256 && k + 2 + |host| <= opt.Length
    modifies opt
    ensures k' == k + 2 + |host| && Wrote(opt, k', done + [Opt(HOST_NAME, host)])
  {
    k' := PutHostName(opt, k, host);
    EncodeAppend(done, Opt(HOST_NAME, host));
  }

  method PutCommon(opt: array<byte>, kind: byte, mac: Mac) returns (k: nat)
    requires opt.Length == OPT_SIZE
    modifies opt
    ensures k == 16 && Wrote(opt, k, Common(kind, mac))
  {
    k := Put(opt, 0, COOKIE);
    k := PutOption(opt, k, Opt(MESSAGE_TYPE, [kind]), []);
    k := PutOption(opt, k, Opt(CLIENT_ID, [1] + mac), [Opt(MESSAGE_TYPE, [kind])]);
  }

  method PutAddresses(opt: array<byte>, k: nat, ip: Ip, server: Ip, ghost done: seq<Opt>) returns (k': nat)
    requires opt.Length == OPT_SIZE && k + 12 <= OPT_SIZE && Wrote(opt, k, done)
    modifies opt
    ensures k' == k + 12 && Wrote(opt, k', done + Addresses(ip, server))
  {
    k' := PutOption(opt, k, Opt(REQUESTED_IP, ip), done);
    k' := PutOption(opt, k', Opt(SERVER_ID, server), done + [Opt(REQUESTED_IP, ip)]);
    assert done + [Opt(REQUESTED_IP, ip)] + [Opt(SERVER_ID, server)] == done + Addresses(ip, server);
  }

  method FinishField(opt: array<byte>, k: nat, ghost opts: seq<Opt>)
    requires opt.Length == OPT_SIZE && k < OPT_SIZE && Wrote(opt, k, opts)
    modifies opt
    ensures (forall o :: o in opts ==> Sendable(o)) && IsField(opt[..], opts)
  {
    Finish(opt, k);
    assert opt[..][..k + 1] == opt[..k + 1];
  }

  /** send_DHCP_DISCOVER: every host name of up to 255 bytes fits. */
  method FillDiscover(opt: array<byte>, mac: Mac, host: seq<byte>)
    requires opt.Length == OPT_SIZE && |host| < 256
    modifies opt
    ensures forall o :: o in DiscoverOptions(mac, host) ==> Sendable(o)
    ensures IsField(opt[..], DiscoverOptions(mac, host))
  {
    var k := PutCommon(opt, DISCOVER, mac);
    ghost var done := Common(DISCOVER, mac);
    k := PutName(opt, k, host, done);
    done := done + [Opt(HOST_NAME, host)];
    var wanted := Opt(PARAM_REQUEST, [SUBNET_MASK, ROUTERS, DNS, DOMAIN_NAME, T1, T2]);
    k := PutOption(opt, k, wanted, done);
    assert done + [wanted] == DiscoverOptions(mac, host);
    FinishField(opt, k, DiscoverOptions(mac, host));
  }

  /** send_DHCP_REQUEST */
  method FillRequest(opt: array<byte>, mac: Mac, host: seq<byte>, ip: Ip, server: Ip, destination: Ip)
    requires opt.Length == OPT_SIZE && |host| < 256
    modifies opt
    ensures forall o :: o in RequestOptions(mac, host, ip, server, destination) ==> Sendable(o)
    ensures IsField(opt[..], RequestOptions(mac, host, ip, server, destination))
  {
    var k := PutCommon(opt, REQUEST, mac);
    ghost var done := Common(REQUEST, mac);
    if destination[3] == 255 {
      k := PutAddresses(opt, k, ip, server, done);
      done := done + Addresses(ip, server);
    }
    k := PutName(opt, k, host, done);
    var wanted := Opt(PARAM_REQUEST, [SUBNET_MASK, ROUTERS, DNS, DOMAIN_NAME, T1, T2, ROUTER_DISCOVERY, STATIC_ROUTE]);
    k := PutOption(opt, k, wanted, done + [Opt(HOST_NAME, host)]);
    ghost var all := RequestOptions(mac, host, ip, server, destination);
    assert done + [Opt(HOST_NAME, host)] + [wanted] == all;
    FinishField(opt, k, all);
  }

  /** send_DHCP_DECLINE */
  method FillDecline(opt: array<byte>, mac: Mac, ip: Ip, server: Ip)
    requires opt.Length == OPT_SIZE
    modifies opt
    ensures forall o :: o in DeclineOptions(mac, ip, server) ==> Sendable(o)
    ensures IsField(opt[..], DeclineOptions(mac, ip, server))
  {
    var k := PutCommon(opt, DECLINE, mac);
    k := PutAddresses(opt, k, ip, server, Common(DECLINE, mac));
    FinishField(opt, k, DeclineOptions(mac, ip, server));
  }

  /** The options of all three senders can be sent, and have the sizes a reader expects. */
  lemma SentOptionsSized(mac: Mac, host: seq<byte>, ip: Ip, server: Ip, destination: Ip)
    requires |host| < 256
    ensures forall o :: o in DiscoverOptions(mac, host) ==> Sendable(o) && Sized(o)
    ensures forall o :: o in RequestOptions(mac, host, ip, server, destination) ==> Sendable(o) && Sized(o)
    ensures forall o :: o in DeclineOptions(mac, ip, server) ==> Sendable(o) && Sized(o)
  {
    forall kind: byte ensures forall o :: o in Common(kind, mac) ==> Sendable(o) && Sized(o) {
      assert |[1] + mac| == 7;
    }
  }

  /** A field the senders fill is well formed, and the option loop reads its options back. */
  lemma FieldReads(field: seq<byte>, opts: seq<Opt>, mem: nat -> byte, info: Info)
    requires forall o :: o in opts ==> Sendable(o) && Sized(o)
    requires IsField(field, opts) && Holds(mem, 0, field)
    ensures Walk(mem, 4, OPT_SIZE) == Some(opts)
    ensures OptionLoop(mem, 4, OPT_SIZE, info) == ApplyAll(opts, info)
  {
    var tail := EncodeAll(opts) + [END];
    var used := COOKIE + EncodeAll(opts) + [END];
    assert used == COOKIE + tail;
    assert field == COOKIE + tail + field[|used|..];
    HoldsSplit(mem, 0, COOKIE + tail, field[|used|..]);
    HoldsSplit(mem, 0, COOKIE, tail);
    WalkEncoded(mem, 4, OPT_SIZE, opts);
    LoopIsWalk(mem, 4, OPT_SIZE, info);
  }

  lemma {:induction false} ApplyConcat(a: seq<Opt>, b: seq<Opt>, info: Info)
    requires (forall o :: o in a ==> Sized(o)) && (forall o :: o in b ==> Sized(o))
    ensures ApplyAll(a + b, info) == ApplyAll(b, ApplyAll(a, info))
    decreases |a|
  {
    if a == [] {
      assert a + b == b;
    } else {
      assert (a + b)[1..] == a[1..] + b;
      ApplyConcat(a[1..], b, Apply(a[0], info));
    }
  }

  lemma ApplyTwo(x: Opt, y: Opt, info: Info)
    requires Sized(x) && Sized(y)
    ensures ApplyAll([x, y], info) == Apply(y, Apply(x, info))
  {
    assert [x, y][1..] == [y] && [y][1..] == [];
    assert ApplyAll([y], Apply(x, info)) == ApplyAll([], Apply(y, Apply(x, info)));
  }

  /** Reading the three messages back: their type, and the server they name. */
  lemma SentReads(mac: Mac, host: seq<byte>, ip: Ip, server: Ip, destination: Ip, info: Info)
    requires |host| < 256
    ensures (forall o :: o in DiscoverOptions(mac, host) ==> Sized(o))
         && ApplyAll(DiscoverOptions(mac, host), info) == info.(kind := DISCOVER)
    ensures (forall o :: o in RequestOptions(mac, host, ip, server, destination) ==> Sized(o))
         && ApplyAll(RequestOptions(mac, host, ip, server, destination), info)
            == info.(kind := REQUEST, server := if destination[3] == 255 then server else info.server)
    ensures (forall o :: o in DeclineOptions(mac, ip, server) ==> Sized(o))
         && ApplyAll(DeclineOptions(mac, ip, server), info) == info.(kind := DECLINE, server := server)
  {
    SentOptionsSized(mac, host, ip, server, destination);
    CommonReads(DISCOVER, mac, info);
    CommonReads(REQUEST, mac, info);
    CommonReads(DECLINE, mac, info);
    var name, some, more := Opt(HOST_NAME, host), Opt(PARAM_REQUEST, [SUBNET_MASK, ROUTERS, DNS, DOMAIN_NAME, T1, T2]),
                            Opt(PARAM_REQUEST,
                                [SUBNET_MASK, ROUTERS, DNS, DOMAIN_NAME, T1, T2, ROUTER_DISCOVERY, STATIC_ROUTE]);
    ApplyConcat(Common(DISCOVER, mac), [name, some], info);
    ApplyTwo(name, some, info.(kind := DISCOVER));
    var middle := if destination[3] == 255 then Addresses(ip, server) else [];
    ApplyConcat(Common(REQUEST, mac), middle, info);
    ApplyConcat(Common(REQUEST, mac) + middle, [name, more], info);
    ApplyTwo(Opt(REQUESTED_IP, ip), Opt(SERVER_ID, server), info.(kind := REQUEST));
    ApplyTwo(name, more, ApplyAll(Common(REQUEST, mac) + middle, info));
    ApplyConcat(Common(DECLINE, mac), Addresses(ip, server), info);
    ApplyTwo(Opt(REQUESTED_IP, ip), Opt(SERVER_ID, server), info.(kind := DECLINE));
  }

  lemma CommonReads(kind: byte, mac: Mac, info: Info)
    ensures (forall o :: o in Common(kind, mac) ==> Sized(o))
            && ApplyAll(Common(kind, mac), info) == info.(kind := kind)
  {
    ApplyTwo(Opt(MESSAGE_TYPE, [kind]), Opt(CLIENT_ID, [1] + mac), info);
  }
}
