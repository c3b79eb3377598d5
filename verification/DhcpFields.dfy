/**
 The option field by the option codes of RFC 2132: what each message that is sent carries, and what is taken from a
 reply.
 */
module DhcpFields {
  import opened Wrappers
  import opened Octets
  import opened DhcpOptions

  /** The data of every option with this code, in order. */
  function Found(opts: seq<Opt>, code: byte): seq<seq<byte>> {
    if opts == [] then []
    else (if opts[0].code == code then [opts[0].data] else []) + Found(opts[1..], code)
  }

  lemma {:induction false} FoundConcat(a: seq<Opt>, b: seq<Opt>, code: byte)
    ensures Found(a + b, code) == Found(a, code) + Found(b, code)
    decreases |a|
  {
    if a == [] {
      assert a + b == b;
    } else {
      assert (a + b)[1..] == a[1..] + b;
      FoundConcat(a[1..], b, code);
    }
  }

  lemma FoundTwo(x: Opt, y: Opt, code: byte)
    ensures Found([x, y], code) == (if x.code == code then [x.data] else []) + (if y.code == code then [y.data] else [])
  {
    assert [x, y][1..] == [y] && [y][1..] == [];
    assert Found([y], code) == if y.code == code then [y.data] else [];
  }

  // ---------- what is sent ----------

  /** Memory that starts with these bytes. */
  function MemoryOf(bytes: seq<byte>): nat -> byte { (i: nat) => if i < |bytes| then bytes[i] else 0 }

  /** The options in a field of 312 bytes, behind the magic cookie; None where there is no cookie or no end. */
  function OptionsOf(field: seq<byte>): Option<seq<Opt>> {
    if |field| != 312 || field[..4] != [0x63, 0x82, 0x53, 0x63] then None else Walk(MemoryOf(field), 4, 312)
  }

  /** A filled field holds its options and nothing else. */
  lemma FieldHolds(field: seq<byte>, opts: seq<Opt>)
    requires (forall o :: o in opts ==> Sendable(o) && Sized(o)) && IsField(field, opts)
    ensures OptionsOf(field) == Some(opts)
  {
    FieldReads(field, opts, MemoryOf(field), Info(0, [0, 0, 0, 0], [0, 0, 0, 0], [0, 0, 0, 0], 0, [0, 0, 0, 0]));
    var used := COOKIE + EncodeAll(opts) + [END];
    assert COOKIE == used[..4];
    assert field[..4] == field[..|used|][..4];
  }

  lemma CommonCarries(kind: byte, mac: Mac, code: byte)
    ensures Found(Common(kind, mac), code) == if code == 53 then [[kind]] else if code == 61 then [[1] + mac] else []
  {
    FoundTwo(Opt(MESSAGE_TYPE, [kind]), Opt(CLIENT_ID, [1] + mac), code);
  }

  lemma AddressesCarry(ip: Ip, server: Ip, code: byte)
    ensures Found(Addresses(ip, server), code) == if code == 50 then [ip] else if code == 54 then [server] else []
  {
    FoundTwo(Opt(REQUESTED_IP, ip), Opt(SERVER_ID, server), code);
  }

  /** A DISCOVER carries type 1, the client identifier, the host name and the list of wanted parameters. */
  lemma DiscoverCarries(mac: Mac, host: seq<byte>, code: byte)
    ensures Found(DiscoverOptions(mac, host), code) ==
            if code == 53 then [[1]]
            else if code == 61 then [[1] + mac]
            else if code == 12 then [host]
            else if code == 55 then [[1, 3, 6, 15, 58, 59]]
            else []
  {
    var name, wanted := Opt(HOST_NAME, host), Opt(PARAM_REQUEST, [SUBNET_MASK, ROUTERS, DNS, DOMAIN_NAME, T1, T2]);
    CommonCarries(DISCOVER, mac, code);
    FoundTwo(name, wanted, code);
    FoundConcat(Common(DISCOVER, mac), [name, wanted], code);
  }

  /**
   A REQUEST carries type 3 and the same; the requested address and the server identifier go along exactly if the
   destination ends in 255.
   */
  lemma RequestCarries(mac: Mac, host: seq<byte>, ip: Ip, server: Ip, destination: Ip, code: byte)
    ensures Found(RequestOptions(mac, host, ip, server, destination), code) ==
            if code == 53 then [[3]]
            else if code == 61 then [[1] + mac]
            else if code == 50 && destination[3] == 255 then [ip]
            else if code == 54 && destination[3] == 255 then [server]
            else if code == 12 then [host]
            else if code == 55 then [[1, 3, 6, 15, 58, 59, 31, 33]]
            else []
  {
    var name, wanted := Opt(HOST_NAME, host),
                        Opt(PARAM_REQUEST,
                            [SUBNET_MASK, ROUTERS, DNS, DOMAIN_NAME, T1, T2, ROUTER_DISCOVERY, STATIC_ROUTE]);
    var middle := if destination[3] == 255 then Addresses(ip, server) else [];
    CommonCarries(REQUEST, mac, code);
    AddressesCarry(ip, server, code);
    FoundTwo(name, wanted, code);
    FoundConcat(Common(REQUEST, mac), middle, code);
    FoundConcat(Common(REQUEST, mac) + middle, [name, wanted], code);
  }

  /** A DECLINE carries type 4, the client identifier, the declined address and the server identifier. */
  lemma DeclineCarries(mac: Mac, ip: Ip, server: Ip, code: byte)
    ensures Found(DeclineOptions(mac, ip, server), code) ==
            if code == 53 then [[4]]
            else if code == 61 then [[1] + mac]
            else if code == 50 then [ip]
            else if code == 54 then [server]
            else []
  {
    CommonCarries(DECLINE, mac, code);
    AddressesCarry(ip, server, code);
    FoundConcat(Common(DECLINE, mac), Addresses(ip, server), code);
  }

  // ---------- the fields as they are sent ----------

  type Host = s: seq<byte> | |s| < 256 witness []

  lemma {:induction false} EncodeConcat(a: seq<Opt>, b: seq<Opt>)
    requires (forall o :: o in a ==> Sendable(o)) && forall o :: o in b ==> Sendable(o)
    ensures EncodeAll(a + b) == EncodeAll(a) + EncodeAll(b)
    decreases |a|
  {
    if a == [] {
      assert a + b == b;
    } else {
      assert (a + b)[1..] == a[1..] + b;
      EncodeConcat(a[1..], b);
    }
  }

  lemma EncodeTwo(x: Opt, y: Opt)
    requires Sendable(x) && Sendable(y)
    ensures |EncodeAll([x, y])| == 4 + |x.data| + |y.data|
  {
    assert [x, y][1..] == [y] && [y][1..] == [];
    assert EncodeAll([y]) == Encode(y) + [];
  }

  lemma CommonSize(kind: byte, mac: Mac)
    ensures (forall o :: o in Common(kind, mac) ==> Sendable(o)) && |EncodeAll(Common(kind, mac))| == 12
  {
    EncodeTwo(Opt(MESSAGE_TYPE, [kind]), Opt(CLIENT_ID, [1] + mac));
  }

  lemma FieldOf(opts: seq<Opt>)
    requires (forall o :: o in opts ==> Sendable(o) && Sized(o)) && 5 + |EncodeAll(opts)| <= OPT_SIZE
    ensures OptionsOf(OptionField(opts)) == Some(opts)
  {
    FieldFits(opts);
    FieldHolds(OptionField(opts), opts);
  }

  /** The fields of the three messages hold the options of the three messages. */
  lemma DiscoverField(mac: Mac, host: Host)
    ensures forall o :: o in DiscoverOptions(mac, host) ==> Sendable(o)
    ensures OptionsOf(OptionField(DiscoverOptions(mac, host))) == Some(DiscoverOptions(mac, host))
  {
    SentOptionsSized(mac, host, [0, 0, 0, 0], [0, 0, 0, 0], [0, 0, 0, 0]);
    var name, wanted := Opt(HOST_NAME, host), Opt(PARAM_REQUEST, [SUBNET_MASK, ROUTERS, DNS, DOMAIN_NAME, T1, T2]);
    CommonSize(DISCOVER, mac);
    EncodeTwo(name, wanted);
    EncodeConcat(Common(DISCOVER, mac), [name, wanted]);
    FieldOf(DiscoverOptions(mac, host));
  }

  lemma RequestField(mac: Mac, host: Host, ip: Ip, server: Ip, destination: Ip)
    ensures forall o :: o in RequestOptions(mac, host, ip, server, destination) ==> Sendable(o)
    ensures var opts := RequestOptions(mac, host, ip, server, destination); OptionsOf(OptionField(opts)) == Some(opts)
  {
    SentOptionsSized(mac, host, ip, server, destination);
    var name, wanted := Opt(HOST_NAME, host),
                        Opt(PARAM_REQUEST,
                            [SUBNET_MASK, ROUTERS, DNS, DOMAIN_NAME, T1, T2, ROUTER_DISCOVERY, STATIC_ROUTE]);
    var middle := if destination[3] == 255 then Addresses(ip, server) else [];
    CommonSize(REQUEST, mac);
    EncodeTwo(Opt(REQUESTED_IP, ip), Opt(SERVER_ID, server));
    EncodeTwo(name, wanted);
    EncodeConcat(Common(REQUEST, mac), middle);
    EncodeConcat(Common(REQUEST, mac) + middle, [name, wanted]);
    FieldOf(RequestOptions(mac, host, ip, server, destination));
  }

  lemma DeclineField(mac: Mac, ip: Ip, server: Ip)
    ensures forall o :: o in DeclineOptions(mac, ip, server) ==> Sendable(o)
    ensures OptionsOf(OptionField(DeclineOptions(mac, ip, server))) == Some(DeclineOptions(mac, ip, server))
  {
    SentOptionsSized(mac, [], ip, server, [0, 0, 0, 0]);
    CommonSize(DECLINE, mac);
    EncodeTwo(Opt(REQUESTED_IP, ip), Opt(SERVER_ID, server));
    EncodeConcat(Common(DECLINE, mac), Addresses(ip, server));
    FieldOf(DeclineOptions(mac, ip, server));
  }

  // ---------- what is taken from a reply ----------

  /** Zeros between options are skipped, and the byte 255 ends the list. */
  lemma {:induction false} PadsAndEnd(mem: nat -> byte, p: nat, q: nat, e: nat)
    requires p <= q < e && forall i :: p <= i < q ==> mem(i) == 0
    ensures Walk(mem, p, e) == Walk(mem, q, e)
    ensures mem(q) == 255 ==> Walk(mem, p, e) == Some([])
    decreases q - p
  {
    if p < q {
      PadsAndEnd(mem, p + 1, q, e);
    }
  }

  function LastOr(s: seq<seq<byte>>, before: seq<byte>): seq<byte> { if s == [] then before else s[|s| - 1] }

  /** The four bytes the client keeps for this code. */
  function Kept(info: Info, code: byte): seq<byte> {
    if code == 1 then info.subnet
    else if code == 3 then info.gateway
    else if code == 6 then info.dns
    else if code == 54 then info.server
    else []
  }

  function FirstFour(s: seq<byte>): seq<byte> { if |s| < 4 then s else s[..4] }

  lemma FoundFirst(opts: seq<Opt>, code: byte, before: seq<byte>)
    requires opts != []
    ensures LastOr(Found(opts, code), before) ==
            LastOr(Found(opts[1..], code), if opts[0].code == code then opts[0].data else before)
  {
  }

  /**
   What a list of options of their defined sizes gives the client, by their codes: the subnet mask is option 1, the
   gateway and the DNS server the first addresses of options 3 and 6, the server option 54. The last one of a code
   wins, and without one the client keeps what it had.
   */
  lemma {:induction false} KeptByCode(opts: seq<Opt>, info: Info, code: byte)
    requires forall o :: o in opts ==> Sized(o)
    requires code == 1 || code == 3 || code == 6 || code == 54
    ensures Kept(ApplyAll(opts, info), code) == FirstFour(LastOr(Found(opts, code), Kept(info, code)))
    decreases |opts|
  {
    if opts != [] {
      assert opts[0] in opts;
      FoundFirst(opts, code, Kept(info, code));
      KeptByCode(opts[1..], Apply(opts[0], info), code);
      KeptFour(opts[0], opts[1..], info, code);
    }
  }

  lemma KeptFour(o: Opt, rest: seq<Opt>, info: Info, code: byte)
    requires Sized(o) && (code == 1 || code == 3 || code == 6 || code == 54)
    ensures FirstFour(LastOr(Found(rest, code), Kept(Apply(o, info), code))) ==
            FirstFour(LastOr(Found(rest, code), if o.code == code then o.data else Kept(info, code)))
  {
  }

  /** The message type is option 53. */
  lemma {:induction false} TypeByCode(opts: seq<Opt>, info: Info)
    requires forall o :: o in opts ==> Sized(o)
    ensures [ApplyAll(opts, info).kind] == LastOr(Found(opts, 53), [info.kind])
    decreases |opts|
  {
    if opts != [] {
      assert opts[0] in opts;
      FoundFirst(opts, 53, [info.kind]);
      TypeByCode(opts[1..], Apply(opts[0], info));
    }
  }

  /** The lease time is option 51, four bytes with the high one first. */
  lemma {:induction false} LeaseByCode(opts: seq<Opt>, info: Info)
    requires forall o :: o in opts ==> Sized(o)
    ensures var r, data := ApplyAll(opts, info).lease, LastOr(Found(opts, 51), []);
            if Found(opts, 51) == [] then r == info.lease
            else |data| == 4 && r == ((data[0] as int * 256 + data[1]) * 256 + data[2]) * 256 + data[3]
    decreases |opts|
  {
    if opts != [] {
      assert opts[0] in opts;
      FoundFirst(opts, 51, []);
      LeaseByCode(opts[1..], Apply(opts[0], info));
      if opts[0].code == 51 {
        BigEndianFour(opts[0].data);
      }
    }
  }
}
