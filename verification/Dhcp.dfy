/**
 The DHCP client of network boot (quantra-ramfs/src/network_boot.rs): packet
 builders, the option walk of a reply, and the four-way handshake (section 3.1
 of RFC 2131, section 2 of RFC 2132).
 */
module Dhcp {
  import opened Bytes
  import opened Optional

  type Ip = s: seq<Byte> | |s| == 4 witness [0, 0, 0, 0]
  type Mac = s: seq<Byte> | |s| == 6 witness [0, 0, 0, 0, 0, 0]

  const COOKIE: seq<Byte> := [99, 130, 83, 99]
  const OP_REQUEST: Byte := 1
  const OP_REPLY: Byte := 2
  const OPT_PAD: Byte := 0
  const OPT_SUBNET_MASK: Byte := 1
  const OPT_ROUTER: Byte := 3
  const OPT_DNS: Byte := 6
  const OPT_REQUESTED_IP: Byte := 50
  const OPT_LEASE_TIME: Byte := 51
  const OPT_MSG_TYPE: Byte := 53
  const OPT_SERVER_ID: Byte := 54
  const OPT_PARAM_LIST: Byte := 55
  const OPT_END: Byte := 255
  const MSG_DISCOVER: Byte := 1
  const MSG_OFFER: Byte := 2
  const MSG_REQUEST: Byte := 3
  const MSG_ACK: Byte := 5

  datatype Opt = Opt(code: Byte, data: seq<Byte>)

  datatype Lease = Lease(ip: Ip, subnetMask: Ip, gateway: Option<Ip>, dns: seq<Ip>, leaseTime: U32, server: Ip)

  // --------------------------------------------------------------- option area

  /** The options from index i on, as the walk sees them: it stops at the end option or at a truncated one. */
  function Walk(buf: seq<Byte>, i: nat): seq<Opt>
    decreases |buf| - i
  {
    if i >= |buf| || buf[i] == OPT_END then []
    else if buf[i] == OPT_PAD then Walk(buf, i + 1)
    else if i + 1 >= |buf| || i + 2 + buf[i + 1] > |buf| then []
    else [Opt(buf[i], buf[i + 2..i + 2 + buf[i + 1]])] + Walk(buf, i + 2 + buf[i + 1])
  }

  /** What one reply accumulates; the initial values are the source's defaults. */
  datatype Fields = Fields(msgType: Byte, subnet: Ip, gateway: Option<Ip>, dns: seq<Ip>, leaseTime: U32, server: Ip)

  const DEFAULTS := Fields(0, [255, 255, 255, 0], None, [], 86400, [0, 0, 0, 0])

  /** Whole addresses of a DNS option; a trailing remainder is dropped. */
  function Addresses(data: seq<Byte>): seq<Ip> {
    if |data| < 4 then [] else [data[..4]] + Addresses(data[4..])
  }

  function Applied(f: Fields, o: Opt): Fields {
    if o.code == OPT_MSG_TYPE && |o.data| >= 1 then f.(msgType := o.data[0])
    else if o.code == OPT_SUBNET_MASK && |o.data| >= 4 then f.(subnet := o.data[..4])
    else if o.code == OPT_ROUTER && |o.data| >= 4 then f.(gateway := Some(o.data[..4]))
    else if o.code == OPT_DNS then f.(dns := f.dns + Addresses(o.data))
    else if o.code == OPT_LEASE_TIME && |o.data| >= 4 then f.(leaseTime := Read32(o.data, 0))
    else if o.code == OPT_SERVER_ID && |o.data| >= 4 then f.(server := o.data[..4])
    else f
  }

  function AppliedAll(f: Fields, opts: seq<Opt>): Fields
    decreases |opts|
  {
    if opts == [] then f else AppliedAll(Applied(f, opts[0]), opts[1..])
  }

  // ------------------------------------------------------ what the fields mean

  /** The last option of a code that is long enough. */
  function LastOf(opts: seq<Opt>, code: Byte, min: nat): (r: Option<seq<Byte>>)
    ensures r.Some? ==> |r.value| >= min
  {
    if opts == [] then None
    else
      var last := opts[|opts| - 1];
      if last.code == code && |last.data| >= min then Some(last.data) else LastOf(opts[..|opts| - 1], code, min)
  }

  function AllDns(opts: seq<Opt>): seq<Ip> {
    if opts == [] then []
    else
      var last := opts[|opts| - 1];
      AllDns(opts[..|opts| - 1]) + (if last.code == OPT_DNS then Addresses(last.data) else [])
  }

  /** Last option wins; DNS lists add up. */
  function Meaning(opts: seq<Opt>): Fields {
    var msgType, subnet := LastOf(opts, OPT_MSG_TYPE, 1), LastOf(opts, OPT_SUBNET_MASK, 4);
    var router := LastOf(opts, OPT_ROUTER, 4);
    var leaseTime, server := LastOf(opts, OPT_LEASE_TIME, 4), LastOf(opts, OPT_SERVER_ID, 4);
    Fields(if msgType.Some? then msgType.value[0] else DEFAULTS.msgType,
           if subnet.Some? then subnet.value[..4] else DEFAULTS.subnet,
           if router.Some? then Some(router.value[..4]) else None,
           AllDns(opts),
           if leaseTime.Some? then Read32(leaseTime.value, 0) else DEFAULTS.leaseTime,
           if server.Some? then server.value[..4] else DEFAULTS.server)
  }

  lemma {:induction false} AppliedLast(f: Fields, opts: seq<Opt>, o: Opt)
    ensures AppliedAll(f, opts + [o]) == Applied(AppliedAll(f, opts), o)
    decreases |opts|
  {
    if opts == [] {
      assert opts + [o] == [o] && [o][1..] == [];
    } else {
      AppliedLast(Applied(f, opts[0]), opts[1..], o);
      assert (opts + [o])[1..] == opts[1..] + [o];
    }
  }

  lemma MeaningLast(front: seq<Opt>, last: Opt)
    ensures Meaning(front + [last]) == Applied(Meaning(front), last)
  {
    hide Read32, Addresses;
    var opts := front + [last];
    assert opts[..|opts| - 1] == front && opts[|opts| - 1] == last;
  }

  /** The accumulating walk computes that meaning. */
  lemma {:induction false} AppliedIsMeaning(opts: seq<Opt>)
    ensures AppliedAll(DEFAULTS, opts) == Meaning(opts)
    decreases |opts|
  {
    if opts != [] {
      hide Meaning, Applied, AppliedAll;
      var front, last := opts[..|opts| - 1], opts[|opts| - 1];
      AppliedIsMeaning(front);
      AppliedLast(DEFAULTS, front, last);
      MeaningLast(front, last);
      assert opts == front + [last];
    }
  }

  // ------------------------------------------------------------------ encoding

  /** An item of a well-formed option area: a pad, or an option of any other code but the end. */
  datatype Item = Pad | Field(code: Byte, data: seq<Byte>)

  predicate ItemOk(it: Item) { it.Field? ==> it.code != OPT_PAD && it.code != OPT_END && |it.data| <= 255 }

  type Items = s: seq<Item> | forall i :: 0 <= i < |s| ==> ItemOk(s[i]) witness []

  function FieldBytes(code: Byte, data: seq<Byte>): (r: seq<Byte>)
    requires |data| <= 255
    ensures |r| == 2 + |data|
  {
    [code, |data|] + data
  }

  function ItemBytes(it: Item): seq<Byte>
    requires ItemOk(it)
  {
    match it case Pad => [OPT_PAD] case Field(code, data) => FieldBytes(code, data)
  }

  function Encode(items: Items): seq<Byte> {
    if items == [] then [] else ItemBytes(items[0]) + Encode(items[1..])
  }

  function OptionsOf(items: Items): seq<Opt> {
    if items == [] then []
    else (match items[0] case Pad => [] case Field(code, data) => [Opt(code, data)]) + OptionsOf(items[1..])
  }

  lemma WalkPad(prefix: seq<Byte>, rest: seq<Byte>)
    ensures var buf := prefix + [OPT_PAD] + rest; Walk(buf, |prefix|) == Walk(buf, |prefix| + 1)
  {
    assert (prefix + [OPT_PAD] + rest)[|prefix|] == OPT_PAD;
  }

  predicate FieldAt(buf: seq<Byte>, i: nat, code: Byte, data: seq<Byte>) {
    && i + 2 + |data| <= |buf|
    && buf[i] == code && buf[i + 1] == |data| && buf[i + 2..i + 2 + |data|] == data
  }

  lemma FieldPlaced(prefix: seq<Byte>, code: Byte, data: seq<Byte>, rest: seq<Byte>)
    requires |data| <= 255
    ensures FieldAt(prefix + FieldBytes(code, data) + rest, |prefix|, code, data)
  {
    var head := FieldBytes(code, data);
    assert head[2..] == data;
    var buf, i := prefix + head + rest, |prefix|;
    assert buf[i] == head[0] && buf[i + 1] == head[1];
    assert buf[i..i + |head|] == head;
    assert buf[i + 2..i + 2 + |data|] == head[2..];
  }

  lemma WalkField(buf: seq<Byte>, i: nat, code: Byte, data: seq<Byte>)
    requires ItemOk(Field(code, data)) && FieldAt(buf, i, code, data)
    ensures Walk(buf, i) == [Opt(code, data)] + Walk(buf, i + 2 + |data|)
  {
  }

  lemma WalkStops(prefix: seq<Byte>, rest: seq<Byte>)
    requires rest == [] || rest[0] == OPT_END
    ensures Walk(prefix + rest, |prefix|) == []
  {
  }

  lemma Regroup(a: seq<Byte>, b: seq<Byte>, c: seq<Byte>, d: seq<Byte>)
    ensures a + (b + c) + d == (a + b) + c + d == a + b + (c + d)
  {
  }

  /** The walk reads back what was encoded, whatever precedes it and whatever follows the end option. */
  lemma {:induction false} WalkReadsBack(prefix: seq<Byte>, items: Items, rest: seq<Byte>)
    requires rest == [] || rest[0] == OPT_END
    ensures Walk(prefix + Encode(items) + rest, |prefix|) == OptionsOf(items)
    decreases |items|
  {
    if items == [] {
      WalkStops(prefix, rest);
      assert prefix + Encode(items) + rest == prefix + rest;
    } else {
      hide Walk, Encode, ItemBytes, OptionsOf, ItemOk;
      EncodeFirst(items);
      var head, tail := ItemBytes(items[0]), Encode(items[1..]);
      WalkItem(prefix, items[0], tail + rest);
      Regroup(prefix, head, tail, rest);
      WalkReadsBack(prefix + head, items[1..], rest);
    }
  }

  /** One item ahead: the walk passes a pad and reads a field. */
  lemma WalkItem(prefix: seq<Byte>, it: Item, rest: seq<Byte>)
    requires ItemOk(it)
    ensures var buf := prefix + ItemBytes(it) + rest;
            var next := Walk(buf, |prefix + ItemBytes(it)|);
            Walk(buf, |prefix|) == if it.Pad? then next else [Opt(it.code, it.data)] + next
  {
    hide Walk, FieldAt, FieldBytes;
    if it.Pad? {
      WalkPad(prefix, rest);
    } else {
      FieldPlaced(prefix, it.code, it.data, rest);
      WalkField(prefix + FieldBytes(it.code, it.data) + rest, |prefix|, it.code, it.data);
    }
  }

  lemma EncodeFirst(items: Items)
    requires items != []
    ensures ItemOk(items[0]) && Encode(items) == ItemBytes(items[0]) + Encode(items[1..])
    ensures OptionsOf(items) ==
            (if items[0].Pad? then [] else [Opt(items[0].code, items[0].data)]) + OptionsOf(items[1..])
  {
    hide ItemBytes;
  }

  // --------------------------------------------------------------------- replies

  predicate HeaderOk(buf: seq<Byte>, xid: U32) {
    |buf| >= 240 && buf[0] == OP_REPLY && Read32(buf, 4) == xid && buf[236..240] == COOKIE
  }

  function ParseReply(buf: seq<Byte>, xid: U32, expected: Byte): Option<Lease> {
    if !HeaderOk(buf, xid) then None
    else
      var f := Meaning(Walk(buf, 240));
      if f.msgType != expected then None
      else Some(Lease(buf[16..20], f.subnet, f.gateway, f.dns, f.leaseTime, f.server))
  }

  method ReadDns(data: seq<Byte>, dns: seq<Ip>) returns (r: seq<Ip>)
    ensures r == dns + Addresses(data)
  {
    r := dns;
    var j := 0;
    while j + 4 <= |data|
      invariant 0 <= j <= |data|
      invariant r + Addresses(data[j..]) == dns + Addresses(data)
      decreases |data| - j
    {
      assert data[j..][..4] == data[j..j + 4] && data[j..][4..] == data[j + 4..];
      r := r + [data[j..j + 4]];
      j := j + 4;
    }
    assert Addresses(data[j..]) == [];
  }

  /** `parse_dhcp_reply`: defined for every byte string. */
  method ParseDhcpReply(buf: seq<Byte>, xid: U32, expected: Byte) returns (r: Option<Lease>)
    ensures r == ParseReply(buf, xid, expected)
  {
    if |buf| < 240 { return None; }
    if buf[0] != OP_REPLY { return None; }
    var rxXid := Read32(buf, 4);
    if rxXid != xid { return None; }
    if buf[236..240] != COOKIE { return None; }
    var f := WalkOptions(buf);
    if f.msgType != expected { return None; }
    return Some(Lease(buf[16..20], f.subnet, f.gateway, f.dns, f.leaseTime, f.server));
  }

  /** The option loop. */
  method WalkOptions(buf: seq<Byte>) returns (f: Fields)
    requires |buf| >= 240
    ensures f == Meaning(Walk(buf, 240))
  {
    f := DEFAULTS;
    var i := 240;
    while i < |buf|
      invariant 240 <= i <= |buf|
      invariant AppliedAll(f, Walk(buf, i)) == AppliedAll(DEFAULTS, Walk(buf, 240))
      decreases |buf| - i
    {
      ghost var at := i;
      var opt := buf[i];
      i := i + 1;
      if opt == OPT_END { assert Walk(buf, at) == []; break; }
      if opt == 0 { continue; }
      if i >= |buf| { assert Walk(buf, at) == []; break; }
      var len := buf[i];
      i := i + 1;
      if i + len > |buf| { assert Walk(buf, at) == []; break; }
      var data := buf[i..i + len];
      i := i + len;
      ghost var o := Opt(opt, data);
      assert Walk(buf, at) == [o] + Walk(buf, i);
      assert ([o] + Walk(buf, i))[1..] == Walk(buf, i);
      f := ApplyOption(f, opt, data);
    }
    AppliedIsMeaning(Walk(buf, 240));
  }

  /** The `match` of the loop body. */
  method ApplyOption(f: Fields, opt: Byte, data: seq<Byte>) returns (r: Fields)
    ensures r == Applied(f, Opt(opt, data))
  {
    r := f;
    if opt == OPT_MSG_TYPE && |data| >= 1 {
      r := r.(msgType := data[0]);
    } else if opt == OPT_SUBNET_MASK && |data| >= 4 {
      r := r.(subnet := [data[0], data[1], data[2], data[3]]);
      assert data[..4] == [data[0], data[1], data[2], data[3]];
    } else if opt == OPT_ROUTER && |data| >= 4 {
      r := r.(gateway := Some([data[0], data[1], data[2], data[3]]));
      assert data[..4] == [data[0], data[1], data[2], data[3]];
    } else if opt == OPT_DNS {
      var dns := ReadDns(data, f.dns);
      r := r.(dns := dns);
    } else if opt == OPT_LEASE_TIME && |data| >= 4 {
      r := r.(leaseTime := Read32(data, 0));
    } else if opt == OPT_SERVER_ID && |data| >= 4 {
      r := r.(server := [data[0], data[1], data[2], data[3]]);
      assert data[..4] == [data[0], data[1], data[2], data[3]];
    }
  }

  /** Any well-formed reply with our xid gives its lease: pads and unknown options are skipped,
      later options override, DNS servers add up. */
  lemma ReplyRecovered(header: seq<Byte>, items: Items, rest: seq<Byte>, xid: U32, expected: Byte)
    requires |header| == 236 && header[0] == OP_REPLY && Read32(header, 4) == xid
    requires rest == [] || rest[0] == OPT_END
    ensures var f := Meaning(OptionsOf(items));
            ParseReply(header + COOKIE + Encode(items) + rest, xid, expected)
            == if f.msgType != expected then None
               else Some(Lease(header[16..20], f.subnet, f.gateway, f.dns, f.leaseTime, f.server))
  {
    hide Walk, Meaning, Encode;
    var buf := header + COOKIE + Encode(items) + rest;
    assert buf[4..8] == header[4..8] && buf[236..240] == COOKIE && buf[16..20] == header[16..20];
    WalkReadsBack(header + COOKIE, items, rest);
  }

  /** Option j has the code, is long enough, and none like it follows. */
  predicate LastWith(opts: seq<Opt>, code: nat, min: nat, j: nat) {
    && j < |opts| && opts[j].code == code && |opts[j].data| >= min
    && forall k :: j < k < |opts| ==> !(opts[k].code == code && |opts[k].data| >= min)
  }

  lemma {:induction false} LastOfIs(opts: seq<Opt>, code: Byte, min: nat)
    ensures forall j: nat :: LastWith(opts, code, min, j) ==> LastOf(opts, code, min) == Some(opts[j].data)
    ensures LastOf(opts, code, min).None? <==> forall j: nat :: !LastWith(opts, code, min, j)
    decreases |opts|
  {
    if opts != [] {
      var front, last := opts[..|opts| - 1], |opts| - 1;
      LastOfIs(front, code, min);
      if opts[last].code == code && |opts[last].data| >= min {
        assert LastWith(opts, code, min, last);
      } else {
        forall j: nat ensures LastWith(opts, code, min, j) <==> LastWith(front, code, min, j) {
          if LastWith(front, code, min, j) {
            assert forall k :: j < k < |front| ==> opts[k] == front[k];
          }
          if LastWith(opts, code, min, j) { assert front[j] == opts[j]; }
        }
      }
    }
  }

  /** The fields by their option codes: type 53, mask 1, router 3, lease time 51, server 54. */
  lemma FieldCodes(opts: seq<Opt>, j: nat)
    ensures var f := Meaning(opts);
            && (LastWith(opts, 53, 1, j) ==> f.msgType == opts[j].data[0])
            && (LastWith(opts, 1, 4, j) ==> f.subnet == opts[j].data[..4])
            && (LastWith(opts, 3, 4, j) ==> f.gateway == Some(opts[j].data[..4]))
            && (LastWith(opts, 54, 4, j) ==> f.server == opts[j].data[..4])
            && (LastWith(opts, 51, 4, j) ==>
                  var t := opts[j].data;
                  f.leaseTime == Word32(t[0], t[1], t[2], t[3]))
  {
    hide LastOf, AllDns, LastWith;
    LastOfIs(opts, 53, 1);
    LastOfIs(opts, 1, 4);
    LastOfIs(opts, 3, 4);
    LastOfIs(opts, 54, 4);
    LastOfIs(opts, 51, 4);
    if LastWith(opts, 51, 4, j) { Read32Bytes(LastOf(opts, 51, 4).value, 0); }
  }

  /** What a reply without them means. */
  lemma FieldDefaults(opts: seq<Opt>)
    ensures var f := Meaning(opts);
            && ((forall j: nat :: !LastWith(opts, 53, 1, j)) ==> f.msgType == 0)
            && ((forall j: nat :: !LastWith(opts, 1, 4, j)) ==> f.subnet == [255, 255, 255, 0])
            && ((forall j: nat :: !LastWith(opts, 3, 4, j)) ==> f.gateway == None)
            && ((forall j: nat :: !LastWith(opts, 54, 4, j)) ==> f.server == [0, 0, 0, 0])
            && ((forall j: nat :: !LastWith(opts, 51, 4, j)) ==> f.leaseTime == 86400)
  {
    hide LastOf, AllDns, LastWith;
    LastOfIs(opts, 53, 1);
    LastOfIs(opts, 1, 4);
    LastOfIs(opts, 3, 4);
    LastOfIs(opts, 54, 4);
    LastOfIs(opts, 51, 4);
  }

  /** Four bytes each, as many as there are. */
  lemma {:induction false} AddressesAre(data: seq<Byte>, k: nat)
    ensures |Addresses(data)| == |data| / 4
    ensures k < |data| / 4 ==> Addresses(data)[k] == data[4 * k..4 * k + 4]
    decreases |data|
  {
    if |data| >= 4 {
      AddressesAre(data[4..], if k > 0 then k - 1 else 0);
      if 0 < k < |data| / 4 { assert data[4..][4 * (k - 1)..4 * (k - 1) + 4] == data[4 * k..4 * k + 4]; }
    }
  }

  /** DNS servers come from option 6, in the order of the options. */
  lemma DnsOrder(opts: seq<Opt>, o: Opt)
    ensures Meaning([]).dns == []
    ensures Meaning(opts + [o]).dns == Meaning(opts).dns + (if o.code == 6 then Addresses(o.data) else [])
  {
    assert (opts + [o])[..|opts|] == opts;
  }

  /** Which packets count as replies, byte by byte. */
  lemma ReplyBytes(buf: seq<Byte>, xid: U32)
    ensures HeaderOk(buf, xid) <==>
            && |buf| >= 240 && buf[0] == 2 && buf[236] == 99 && buf[237] == 130 && buf[238] == 83 && buf[239] == 99
            && Word32(buf[4], buf[5], buf[6], buf[7]) == xid
  {
    if |buf| >= 240 {
      Read32Bytes(buf, 4);
      hide Read32;
      assert buf[236..240] == [buf[236], buf[237], buf[238], buf[239]];
    }
  }

  // -------------------------------------------------------------------- builders

  /** The fixed part both requests share. */
  ghost predicate ClientHeader(pkt: seq<Byte>, mac: Mac, xid: U32) {
    && |pkt| >= 240
    && pkt[0] == OP_REQUEST && pkt[1] == 1 && pkt[2] == 6 && pkt[3] == 0
    && Read32(pkt, 4) == xid
    && pkt[10] == 0x80
    && pkt[28..34] == mac
    && (forall i :: 8 <= i < 236 && i != 10 && !(28 <= i < 34) ==> pkt[i] == 0)
    && pkt[236..240] == COOKIE
  }

  method BuildHeader(mac: Mac, xid: U32) returns (pkt: seq<Byte>)
    ensures |pkt| == 240 && ClientHeader(pkt, mac, xid)
  {
    pkt := Zeros(236);
    pkt := pkt[0 := OP_REQUEST];
    pkt := pkt[1 := 1];
    pkt := pkt[2 := 6];
    pkt := pkt[..4] + Be32(xid) + pkt[8..];
    assert pkt[4..8] == Be32(xid);
    pkt := pkt[10 := 0x80];
    assert pkt[4..8] == Be32(xid);
    pkt := pkt[..28] + mac + pkt[34..];
    assert pkt[4..8] == Be32(xid);
    pkt := pkt + COOKIE;
    assert pkt[4..8] == Be32(xid) && pkt[28..34] == mac && pkt[236..240] == COOKIE;
  }

  lemma HeaderKept(header: seq<Byte>, rest: seq<Byte>, mac: Mac, xid: U32)
    requires |header| == 240 && ClientHeader(header, mac, xid)
    ensures ClientHeader(header + rest, mac, xid)
  {
    var pkt := header + rest;
    assert pkt[4..8] == header[4..8] && pkt[28..34] == header[28..34] && pkt[236..240] == header[236..240];
  }

  lemma HeaderEnds(header: seq<Byte>, mac: Mac, xid: U32)
    requires |header| == 240 && ClientHeader(header, mac, xid)
    ensures header[..4] == [1, 1, 6, 0] && header[236..] == [99, 130, 83, 99]
  {
    assert header[236..] == header[236..240];
  }

  lemma Appended(a: seq<Byte>, b: seq<Byte>, c: seq<Byte>)
    ensures a + b + c == a + (b + c)
  {
  }

  lemma AppendedSix(h: seq<Byte>, a: seq<Byte>, b: seq<Byte>, c: seq<Byte>, d: seq<Byte>, e: seq<Byte>, f: seq<Byte>)
    ensures h + a + b + c + d + e + f == h + (a + b + c + d + e + f)
  {
    Appended(h, a, b);
    Appended(h, a + b, c);
    Appended(h, a + b + c, d);
    Appended(h, a + b + c + d, e);
    Appended(h, a + b + c + d + e, f);
  }

  /** What follows the header, in a packet and in its tail. */
  lemma Behind(header: seq<Byte>, rest: seq<Byte>)
    requires |header| == 240
    ensures (header + rest)[..4] == header[..4] && (header + rest)[236..] == header[236..] + rest
  {
  }

  /** The options of a request, as bytes. */
  lemma RequestOptions(offered: Ip, server: Ip)
    ensures var items := [Field(53, [3]), Field(50, offered), Field(54, server)];
            && [53, 1, 3] + [50, 4] + offered + [54, 4] + server == Encode(items)
            && OptionsOf(items) == [Opt(53, [3]), Opt(50, offered), Opt(54, server)]
  {
    EncodeThree(Field(53, [3]), Field(50, offered), Field(54, server));
    hide Encode, OptionsOf;
    Appended([53, 1, 3] + [50, 4] + offered, [54, 4], server);
    Appended([53, 1, 3], [50, 4], offered);
    Appended([53, 1, 3], [50, 4] + offered, [54, 4] + server);
    assert [53, 1] + [3] == [53, 1, 3];
  }

  method BuildDhcpDiscover(mac: Mac, xid: U32) returns (pkt: seq<Byte>)
    ensures ClientHeader(pkt, mac, xid)
    ensures Walk(pkt, 240) == [Opt(OPT_MSG_TYPE, [MSG_DISCOVER]),
                               Opt(OPT_PARAM_LIST, [OPT_SUBNET_MASK, OPT_ROUTER, OPT_DNS, OPT_LEASE_TIME])]
    ensures pkt[..4] == [1, 1, 6, 0] && pkt[236..] == [99, 130, 83, 99, 53, 1, 1, 55, 4, 1, 3, 6, 51, 255]
  {
    hide ClientHeader, Walk, Encode, OptionsOf;
    var header := BuildHeader(mac, xid);
    HeaderEnds(header, mac, xid);
    pkt := header;
    pkt := pkt + [OPT_MSG_TYPE, 1, MSG_DISCOVER];
    pkt := pkt + [OPT_PARAM_LIST, 4, OPT_SUBNET_MASK, OPT_ROUTER, OPT_DNS, OPT_LEASE_TIME];
    pkt := pkt + [OPT_END];
    DiscoverPacket(header, pkt, mac, xid);
  }

  lemma DiscoverPacket(header: seq<Byte>, pkt: seq<Byte>, mac: Mac, xid: U32)
    requires |header| == 240 && ClientHeader(header, mac, xid) && header[236..] == [99, 130, 83, 99]
    requires pkt == header + [53, 1, 1] + [55, 4, 1, 3, 6, 51] + [255]
    ensures ClientHeader(pkt, mac, xid)
    ensures Walk(pkt, 240) == [Opt(53, [1]), Opt(55, [1, 3, 6, 51])]
    ensures pkt[..4] == header[..4]
    ensures pkt[236..] == [99, 130, 83, 99, 53, 1, 1, 55, 4, 1, 3, 6, 51, 255]
  {
    hide ClientHeader, Walk, Encode, OptionsOf;
    var items := [Field(53, [1]), Field(55, [1, 3, 6, 51])];
    var opts := [53, 1, 1] + [55, 4, 1, 3, 6, 51];
    DiscoverOptions();
    Appended(header, [53, 1, 1], [55, 4, 1, 3, 6, 51]);
    Appended(header, opts, [255]);
    WalkReadsBack(header, items, [255]);
    HeaderKept(header, opts + [255], mac, xid);
    Behind(header, opts + [255]);
    DiscoverBytes();
  }

  lemma DiscoverOptions()
    ensures var items := [Field(53, [1]), Field(55, [1, 3, 6, 51])];
            && [53, 1, 1] + [55, 4, 1, 3, 6, 51] == Encode(items)
            && OptionsOf(items) == [Opt(53, [1]), Opt(55, [1, 3, 6, 51])]
  {
    EncodeTwo(Field(53, [1]), Field(55, [1, 3, 6, 51]));
    hide Encode, OptionsOf;
    assert [53, 1] + [1] == [53, 1, 1] && [55, 4] + [1, 3, 6, 51] == [55, 4, 1, 3, 6, 51];
  }

  lemma DiscoverBytes()
    ensures [99, 130, 83, 99] + ([53, 1, 1] + [55, 4, 1, 3, 6, 51] + [255]) ==
            [99, 130, 83, 99, 53, 1, 1, 55, 4, 1, 3, 6, 51, 255]
  {
  }

  method BuildDhcpRequest(mac: Mac, xid: U32, offered: Ip, server: Ip) returns (pkt: seq<Byte>)
    ensures ClientHeader(pkt, mac, xid)
    ensures Walk(pkt, 240) ==
        [Opt(OPT_MSG_TYPE, [MSG_REQUEST]), Opt(OPT_REQUESTED_IP, offered), Opt(OPT_SERVER_ID, server)]
    ensures pkt[..4] == [1, 1, 6, 0]
    ensures pkt[236..] == [99, 130, 83, 99, 53, 1, 3, 50, 4] + offered + [54, 4] + server + [255]
  {
    hide ClientHeader, Walk, Encode, OptionsOf;
    var header := BuildHeader(mac, xid);
    HeaderEnds(header, mac, xid);
    pkt := header;
    pkt := pkt + [OPT_MSG_TYPE, 1, MSG_REQUEST];
    pkt := pkt + [OPT_REQUESTED_IP, 4];
    pkt := pkt + offered;
    pkt := pkt + [OPT_SERVER_ID, 4];
    pkt := pkt + server;
    pkt := pkt + [OPT_END];
    RequestPacket(header, offered, server, pkt, mac, xid);
  }

  lemma RequestPacket(header: seq<Byte>, offered: Ip, server: Ip, pkt: seq<Byte>, mac: Mac, xid: U32)
    requires |header| == 240 && ClientHeader(header, mac, xid) && header[236..] == [99, 130, 83, 99]
    requires pkt == header + [53, 1, 3] + [50, 4] + offered + [54, 4] + server + [255]
    ensures ClientHeader(pkt, mac, xid)
    ensures Walk(pkt, 240) == [Opt(53, [3]), Opt(50, offered), Opt(54, server)]
    ensures pkt[..4] == header[..4]
    ensures pkt[236..] == [99, 130, 83, 99, 53, 1, 3, 50, 4] + offered + [54, 4] + server + [255]
  {
    hide ClientHeader, Walk, Encode, OptionsOf;
    var items := [Field(53, [3]), Field(50, offered), Field(54, server)];
    var opts := [53, 1, 3] + [50, 4] + offered + [54, 4] + server;
    RequestOptions(offered, server);
    AppendedSix(header, [53, 1, 3], [50, 4], offered, [54, 4], server, [255]);
    Appended(header, opts, [255]);
    WalkReadsBack(header, items, [255]);
    HeaderKept(header, opts + [255], mac, xid);
    Behind(header, opts + [255]);
    AppendedSix([99, 130, 83, 99], [53, 1, 3], [50, 4], offered, [54, 4], server, [255]);
    assert [99, 130, 83, 99] + [53, 1, 3] + [50, 4] == [99, 130, 83, 99, 53, 1, 3, 50, 4];
  }

  lemma EncodeTwo(a: Item, b: Item)
    requires ItemOk(a) && ItemOk(b) && a.Field? && b.Field?
    ensures Encode([a, b]) == [a.code, |a.data|] + a.data + ([b.code, |b.data|] + b.data)
    ensures OptionsOf([a, b]) == [Opt(a.code, a.data), Opt(b.code, b.data)]
  {
    assert [a, b][1..] == [b] && [b][1..] == [];
    assert Encode([b]) == [b.code, |b.data|] + b.data + [];
    assert OptionsOf([b]) == [Opt(b.code, b.data)] + [];
  }

  lemma EncodeThree(a: Item, b: Item, c: Item)
    requires ItemOk(a) && ItemOk(b) && ItemOk(c) && a.Field? && b.Field? && c.Field?
    ensures Encode([a, b, c]) ==
        [a.code, |a.data|] + a.data + ([b.code, |b.data|] + b.data + ([c.code, |c.data|] + c.data))
    ensures OptionsOf([a, b, c]) == [Opt(a.code, a.data), Opt(b.code, b.data), Opt(c.code, c.data)]
  {
    assert [a, b, c][1..] == [b, c];
    EncodeTwo(b, c);
  }

  // ------------------------------------------------------------------- handshake

  /** What one turn of a wait loop meets: the deadline, a packet, a quiet interval, or an error. */
  datatype Turn = Deadline | Packet(buf: seq<Byte>) | Quiet | Failure

  datatype Outcome = Acquired(lease: Lease) | TimedOut | ReceiveError | SendError | StillWaiting

  predicate Stops(t: Turn, xid: U32, expected: Byte) {
    t.Deadline? || t.Failure? || (t.Packet? && ParseReply(t.buf, xid, expected).Some?)
  }

  /** The first turn from i on that ends a wait for the message type. */
  ghost predicate FirstStop(turns: seq<Turn>, xid: U32, expected: Byte, i: nat, k: nat) {
    && i <= k <= |turns|
    && (forall j :: i <= j < k ==> !Stops(turns[j], xid, expected))
    && (k < |turns| ==> Stops(turns[k], xid, expected))
  }

  /** The wait that ended at turn k ended this way, and goes on from `next`. */
  ghost predicate Ended(turns: seq<Turn>, xid: U32, expected: Byte, k: nat, r: Outcome, next: nat)
    requires k <= |turns|
  {
    if k == |turns| then r == StillWaiting && next == k
    else
      && next == k + 1
      && match turns[k]
         case Deadline => r == TimedOut
         case Failure => r == ReceiveError
         case Quiet => false
         case Packet(buf) => r.Acquired? && ParseReply(buf, xid, expected) == Some(r.lease)
  }

  /** One wait loop: it ends at the first turn that can end it. */
  method AwaitReply(turns: seq<Turn>, xid: U32, expected: Byte, from: nat) returns (r: Outcome, next: nat)
    requires from <= |turns|
    ensures exists k: nat :: FirstStop(turns, xid, expected, from, k) && Ended(turns, xid, expected, k, r, next)
  {
    hide ParseReply;
    next := from;
    while next < |turns|
      invariant from <= next <= |turns|
      invariant forall j :: from <= j < next ==> !Stops(turns[j], xid, expected)
    {
      var turn := turns[next];
      ghost var k := next;
      next := next + 1;
      match turn
      case Deadline =>
        assert FirstStop(turns, xid, expected, from, k) && Ended(turns, xid, expected, k, TimedOut, next);
        return TimedOut, next;
      case Failure =>
        assert FirstStop(turns, xid, expected, from, k) && Ended(turns, xid, expected, k, ReceiveError, next);
        return ReceiveError, next;
      case Quiet =>
      case Packet(buf) =>
        var reply := ParseDhcpReply(buf, xid, expected);
        if reply.Some? {
          assert FirstStop(turns, xid, expected, from, k)
              && Ended(turns, xid, expected, k, Acquired(reply.value), next);
          return Acquired(reply.value), next;
        }
    }
    r := StillWaiting;
    assert FirstStop(turns, xid, expected, from, next) && Ended(turns, xid, expected, next, r, next);
  }

  /** A lease comes only from the first ACK with our xid after the first OFFER with our xid,
      and in between exactly the request for that offer was sent. */
  ghost predicate Handshake(turns: seq<Turn>, mac: Mac, xid: U32, sent: seq<seq<Byte>>, lease: Lease) {
    exists i: nat, j: nat ::
      && FirstStop(turns, xid, 2, 0, i) && FirstStop(turns, xid, 5, i + 1, j)
      && i < j < |turns| && turns[i].Packet? && turns[j].Packet?
      && ParseReply(turns[j].buf, xid, 5) == Some(lease)
      && |sent| == 2 && ClientHeader(sent[0], mac, xid) && ClientHeader(sent[1], mac, xid)
      && RequestsOffer(sent[1], ParseReply(turns[i].buf, xid, 2))
  }

  /** Some turn brings an OFFER for us before the wait ends, and then some turn an ACK. */
  ghost predicate BothArrive(turns: seq<Turn>, xid: U32) {
    exists i: nat, j: nat ::
      && FirstStop(turns, xid, MSG_OFFER, 0, i) && FirstStop(turns, xid, MSG_ACK, i + 1, j)
      && i < j < |turns| && turns[i].Packet? && turns[j].Packet?
  }

  lemma FirstStopUnique(turns: seq<Turn>, xid: U32, expected: Byte, i: nat, k: nat, l: nat)
    requires FirstStop(turns, xid, expected, i, k) && FirstStop(turns, xid, expected, i, l)
    ensures k == l
  {
  }

  ghost predicate RequestsOffer(pkt: seq<Byte>, offer: Option<Lease>) {
    && offer.Some?
    && Walk(pkt, 240) ==
      [Opt(OPT_MSG_TYPE, [MSG_REQUEST]), Opt(OPT_REQUESTED_IP, offer.value.ip), Opt(OPT_SERVER_ID, offer.value.server)]
  }

  /** The bytes of a DHCPDISCOVER. */
  ghost predicate Discovers(pkt: seq<Byte>, mac: Mac, xid: U32) {
    ClientHeader(pkt, mac, xid) && pkt[236..] == [99, 130, 83, 99, 53, 1, 1, 55, 4, 1, 3, 6, 51, 255]
  }

  /** The wait ended at turn k without a packet, in this error. */
  ghost predicate GivesUp(turns: seq<Turn>, k: nat, r: Outcome) {
    && k <= |turns|
    && (k == |turns| ==> r == StillWaiting)
    && (k < |turns| ==>
          || (turns[k].Deadline? && r == TimedOut)
          || (turns[k].Failure? && r == ReceiveError))
  }

  /** Why there is no lease although the DISCOVER was sent, and how many packets had been sent by then. */
  ghost predicate Fails(turns: seq<Turn>, xid: U32, requests: bool, r: Outcome, sent: nat) {
    exists i: nat :: FirstStop(turns, xid, 2, 0, i) && i <= |turns| &&
      if i == |turns| || !turns[i].Packet? then GivesUp(turns, i, r) && sent == 1
      else if !requests then r == SendError && sent == 1
      else exists j: nat :: FirstStop(turns, xid, 5, i + 1, j) && GivesUp(turns, j, r) && sent == 2
  }

  /** `discovers` and `requests`: whether the socket takes the first and the second packet. */
  method DhcpAcquire(mac: Mac, xid: U32, discovers: bool, requests: bool, turns: seq<Turn>)
    returns (r: Outcome, sent: seq<seq<Byte>>)
    ensures r.Acquired? ==> Handshake(turns, mac, xid, sent, r.lease)
    ensures r.Acquired? <==> discovers && requests && BothArrive(turns, xid)
    ensures !discovers ==> sent == [] && r == SendError
    ensures discovers ==> sent != [] && Discovers(sent[0], mac, xid)
    ensures discovers && !r.Acquired? ==> Fails(turns, xid, requests, r, |sent|)
  {
    hide ClientHeader, Walk, ParseReply, Stops;
    sent := [];
    var discover := BuildDhcpDiscover(mac, xid);
    if !discovers { return SendError, sent; }
    sent := [discover];
    var offer, next;
    offer, next := AwaitReply(turns, xid, MSG_OFFER, 0);
    ghost var i: nat :| FirstStop(turns, xid, MSG_OFFER, 0, i) && Ended(turns, xid, MSG_OFFER, i, offer, next);
    forall k: nat | FirstStop(turns, xid, MSG_OFFER, 0, k) ensures k == i {
      FirstStopUnique(turns, xid, MSG_OFFER, 0, k, i);
    }
    if !offer.Acquired? {
      assert GivesUp(turns, i, offer);
      return offer, sent;
    }
    var request := BuildDhcpRequest(mac, xid, offer.lease.ip, offer.lease.server);
    if !requests { return SendError, sent; }
    sent := sent + [request];
    ghost var start := next;
    r, next := AwaitReply(turns, xid, MSG_ACK, next);
    ghost var j: nat :| FirstStop(turns, xid, MSG_ACK, start, j) && Ended(turns, xid, MSG_ACK, j, r, next);
    forall k: nat | FirstStop(turns, xid, MSG_ACK, start, k) ensures k == j {
      FirstStopUnique(turns, xid, MSG_ACK, start, k, j);
    }
    assert FirstStop(turns, xid, MSG_OFFER, 0, i) && FirstStop(turns, xid, MSG_ACK, i + 1, j);
    if !r.Acquired? {
      assert GivesUp(turns, j, r);
      assert Fails(turns, xid, requests, r, |sent|);
    }
  }
}
