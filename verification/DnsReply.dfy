/** Reading the reply of a name server (dns_recv in src/core/dns.c) byte by byte, against
    the message format of section 4.1 of RFC 1035. */
module DnsReply {
  import opened DnsName
  import opened Memory

  const SIZEOF_DNS_HDR := 12
  const SIZEOF_DNS_QUERY := 4
  const SIZEOF_DNS_ANSWER := 10
  const DNS_RRTYPE_A := 1
  const DNS_RRCLASS_IN := 1

  // ---------------------------------------------------------------- the format

  type Rdata = s: seq<byte> | |s| < 0x1_0000 witness []

  /** A resource record. */
  datatype Record = Record(owner: WireName, rtype: u16, class_: u16, ttl: u32, rdata: Rdata)

  predicate ValidRecord(r: Record) { ValidName(r.owner) && Walkable(r.owner) }

  function Fixed(r: Record): (s: seq<byte>)
    ensures |s| == SIZEOF_DNS_ANSWER
  {
    Be16(r.rtype) + (Be16(r.class_) + (Be32(r.ttl) + Be16(|r.rdata|)))
  }

  function WireRecord(r: Record): seq<byte>
    requires ValidRecord(r)
  {
    Wire(r.owner) + (Fixed(r) + r.rdata)
  }

  predicate ValidRecords(rs: seq<Record>) {
    forall k :: 0 <= k < |rs| ==> ValidRecord(rs[k])
  }

  function WireRecords(rs: seq<Record>): seq<byte>
    requires ValidRecords(rs)
  {
    if rs == [] then [] else WireRecord(rs[0]) + WireRecords(rs[1..])
  }

  // ---------------------------------------------------------------- the answers

  datatype Address = NoAddress | Found(ttl: u32, addr: seq<byte>)

  /** A record with an address of the Internet. */
  predicate IsAddress(r: Record) {
    r.rtype == DNS_RRTYPE_A && r.class_ == DNS_RRCLASS_IN && |r.rdata| == 4
  }

  /** The first address among the first n records. */
  function FirstAddress(rs: seq<Record>, n: nat): Address {
    if n == 0 || rs == [] then NoAddress
    else if IsAddress(rs[0]) then Found(rs[0].ttl, rs[0].rdata)
    else FirstAddress(rs[1..], n - 1)
  }

  /** Four bytes of memory. */
  function Four(b: seq<byte>, p: nat): seq<byte> { [At(b, p), At(b, p + 1), At(b, p + 2), At(b, p + 3)] }

  /** The loop over the answers as a function of memory. */
  function Scan(b: seq<byte>, p: nat, n: nat): Address
    decreases n
  {
    if n == 0 then NoAddress
    else
      var q := EndOfName(b, p);
      if Read16(b, q) == DNS_RRTYPE_A && Read16(b, q + 2) == DNS_RRCLASS_IN && Read16(b, q + 8) == 4
      then Found(Read32(b, q + 4), Four(b, q + SIZEOF_DNS_ANSWER))
      else Scan(b, q + SIZEOF_DNS_ANSWER + Read16(b, q + 8), n - 1)
  }

  method ScanAnswers(b: seq<byte>, start: nat, count: nat) returns (r: Address)
    ensures r == Scan(b, start, count)
  {
    var pHostname: nat, nanswers: nat := start, count;
    while nanswers > 0
      invariant Scan(b, pHostname, nanswers) == Scan(b, start, count)
    {
      pHostname := ParseName(b, pHostname);
      if Read16(b, pHostname) == DNS_RRTYPE_A && Read16(b, pHostname + 2) == DNS_RRCLASS_IN &&
         Read16(b, pHostname + 8) == 4 {
        return Found(Read32(b, pHostname + 4), Four(b, pHostname + SIZEOF_DNS_ANSWER));
      }
      pHostname := pHostname + SIZEOF_DNS_ANSWER + Read16(b, pHostname + 8);
      nanswers := nanswers - 1;
    }
    r := NoAddress;
  }

  lemma ReadsFour(b: seq<byte>, p: nat, s: seq<byte>)
    requires StandsAt(b, p, s) && |s| == 4
    ensures Four(b, p) == s
  {
  }

  /** The fields of a record that stands in memory. */
  lemma ReadsRecord(b: seq<byte>, p: nat, r: Record)
    requires ValidRecord(r) && StandsAt(b, p, WireRecord(r))
    ensures var q := EndOfName(b, p);
            Read16(b, q) == r.rtype && Read16(b, q + 2) == r.class_ && Read32(b, q + 4) == r.ttl &&
            Read16(b, q + 8) == |r.rdata| && StandsAt(b, q + SIZEOF_DNS_ANSWER, r.rdata) &&
            p + |WireRecord(r)| == q + SIZEOF_DNS_ANSWER + |r.rdata|
  {
    hide StandsAt, Wire, Be16, Be32, Read16, Read32, Walkable, EndOfName;
    var q := p + |Wire(r.owner)|;
    StandsApart(b, p, Wire(r.owner), Fixed(r) + r.rdata);
    WalkerFindsTheEnd(b, p, r.owner);
    StandsApart(b, q, Fixed(r), r.rdata);
    ReadsFixed(b, q, r);
  }

  lemma ReadsFixed(b: seq<byte>, q: nat, r: Record)
    requires StandsAt(b, q, Fixed(r))
    ensures Read16(b, q) == r.rtype && Read16(b, q + 2) == r.class_ && Read32(b, q + 4) == r.ttl &&
            Read16(b, q + 8) == |r.rdata|
  {
    hide StandsAt, Read16, Read32;
    StandsApart(b, q, Be16(r.rtype), Be16(r.class_) + (Be32(r.ttl) + Be16(|r.rdata|)));
    StandsApart(b, q + 2, Be16(r.class_), Be32(r.ttl) + Be16(|r.rdata|));
    StandsApart(b, q + 4, Be32(r.ttl), Be16(|r.rdata|));
    ReadsBe16(b, q, r.rtype);
    ReadsBe16(b, q + 2, r.class_);
    ReadsBe32(b, q + 4, r.ttl);
    ReadsBe16(b, q + 8, |r.rdata|);
  }

  lemma RecordsApart(b: seq<byte>, p: nat, rs: seq<Record>)
    requires ValidRecords(rs) && rs != [] && StandsAt(b, p, WireRecords(rs))
    ensures ValidRecord(rs[0]) && ValidRecords(rs[1..])
    ensures StandsAt(b, p, WireRecord(rs[0])) && StandsAt(b, p + |WireRecord(rs[0])|, WireRecords(rs[1..]))
  {
    hide StandsAt, WireRecord, ValidRecord;
    StandsApart(b, p, WireRecord(rs[0]), WireRecords(rs[1..]));
  }

  lemma ScanRecord(b: seq<byte>, p: nat, r: Record, n: nat)
    requires ValidRecord(r) && StandsAt(b, p, WireRecord(r)) && n > 0
    ensures Scan(b, p, n) == if IsAddress(r) then Found(r.ttl, r.rdata) else Scan(b, p + |WireRecord(r)|, n - 1)
  {
    hide StandsAt, WireRecord, ValidRecord, EndOfName, Read16, Read32, Four;
    ReadsRecord(b, p, r);
    if IsAddress(r) {
      ReadsFour(b, EndOfName(b, p) + SIZEOF_DNS_ANSWER, r.rdata);
    }
  }

  /** On records that stand in memory, the loop finds the first address among those it looks at. */
  lemma {:induction false} ScanFindsFirstAddress(b: seq<byte>, p: nat, rs: seq<Record>, n: nat)
    requires ValidRecords(rs) && StandsAt(b, p, WireRecords(rs)) && n <= |rs|
    ensures Scan(b, p, n) == FirstAddress(rs, n)
    decreases n
  {
    hide StandsAt, WireRecord, ValidRecord, ValidRecords, WireRecords, IsAddress, Scan;
    if n == 0 {
      ScanNothing(b, p);
    } else {
      RecordsApart(b, p, rs);
      ScanRecord(b, p, rs[0], n);
      if !IsAddress(rs[0]) {
        ScanFindsFirstAddress(b, p + |WireRecord(rs[0])|, rs[1..], n - 1);
      }
    }
  }

  lemma ScanNothing(b: seq<byte>, p: nat)
    ensures Scan(b, p, 0) == NoAddress
  {
  }

  // ---------------------------------------------------------------- the whole reply

  /** A message with one question. `flags1` and `flags2` are the two flag bytes; `more` is
      whatever follows the answers. */
  datatype Message = Message(id: u16, flags1: byte, flags2: byte, numquestions: u16, numanswers: u16, counts: u32,
                             qname: WireName, query: seq<byte>, answers: seq<Record>, more: seq<byte>)

  predicate ValidMessage(m: Message) {
    ValidName(m.qname) && Walkable(m.qname) && |m.query| == SIZEOF_DNS_QUERY && ValidRecords(m.answers) &&
    m.numanswers == |m.answers|
  }

  function Header(m: Message): (s: seq<byte>)
    ensures |s| == SIZEOF_DNS_HDR
  {
    Be16(m.id) + ([m.flags1] + ([m.flags2] + (Be16(m.numquestions) + (Be16(m.numanswers) + Be32(m.counts)))))
  }

  function WireMessage(m: Message): seq<byte>
    requires ValidMessage(m)
  {
    Header(m) + (Wire(m.qname) + (m.query + (WireRecords(m.answers) + m.more)))
  }

  /** A response without an error, to one question; the count is kept in a u8_t. */
  predicate FlagsOk(flags1: byte, flags2: byte, numquestions: u16) {
    flags1 >= 0x80 && flags2 % 0x10 == 0 && U8(numquestions) == 1
  }

  /** What a reply says about `name`, as a function of memory. The name is looked at unless
      DNS_DOES_NAME_CHECK is off; the number of answers is kept in a u8_t. */
  function Verdict(b: seq<byte>, name: seq<byte>, nameCheck: bool): Address {
    if !FlagsOk(At(b, 2), At(b, 3), Read16(b, 4)) then NoAddress
    else if nameCheck && Compare(name, 0, b, SIZEOF_DNS_HDR) != 0 then NoAddress
    else Scan(b, EndOfName(b, SIZEOF_DNS_HDR) + SIZEOF_DNS_QUERY, U8(Read16(b, 6)))
  }

  /** The part of dns_recv that reads the reply for an entry that waits for it. */
  method ReadReply(b: seq<byte>, name: seq<byte>, nameCheck: bool) returns (r: Address)
    ensures r == Verdict(b, name, nameCheck)
  {
    var nquestions := U8(Read16(b, 4));
    var nanswers := U8(Read16(b, 6));
    if At(b, 2) < 0x80 || At(b, 3) % 0x10 != 0 || nquestions != 1 {
      return NoAddress;
    }
    if nameCheck {
      var differ := CompareName(name, b, SIZEOF_DNS_HDR);
      if differ != 0 {
        return NoAddress;
      }
    }
    var pHostname := ParseName(b, SIZEOF_DNS_HDR);
    r := ScanAnswers(b, pHostname + SIZEOF_DNS_QUERY, nanswers);
  }

  /** The flag tests in bits. */
  lemma FlagBits(f: bv8)
    ensures f & 0x80 != 0 <==> f as int >= 0x80
    ensures f & 0x0f == 0 <==> (f as int) % 0x10 == 0
  {
    var i := f as int;
    assert (f % 16) as int == i % 16;
    assert f & 0x0f == f % 16;
  }

  lemma ReadsHeader(b: seq<byte>, m: Message)
    requires ValidMessage(m) && StandsAt(b, 0, Header(m))
    ensures Read16(b, 0) == m.id && At(b, 2) == m.flags1 && At(b, 3) == m.flags2
    ensures Read16(b, 4) == m.numquestions && Read16(b, 6) == m.numanswers
  {
    hide StandsAt, Read16;
    var rest4 := Be16(m.numquestions) + (Be16(m.numanswers) + Be32(m.counts));
    StandsApart(b, 0, Be16(m.id), [m.flags1] + ([m.flags2] + rest4));
    StandsApart(b, 2, [m.flags1], [m.flags2] + rest4);
    StandsApart(b, 3, [m.flags2], rest4);
    StandsApart(b, 4, Be16(m.numquestions), Be16(m.numanswers) + Be32(m.counts));
    StandsApart(b, 6, Be16(m.numanswers), Be32(m.counts));
    ReadsBe16(b, 0, m.id);
    StandsFirst(b, 2, [m.flags1]);
    StandsFirst(b, 3, [m.flags2]);
    ReadsBe16(b, 4, m.numquestions);
    ReadsBe16(b, 6, m.numanswers);
  }

  /** A well-formed reply gives the first address among its answers (of the first
      numanswers mod 256, that is all of them unless there are 256 or more), if it is a
      response without an error whose question agrees with the name; else it gives none. */
  lemma VerdictOnMessage(m: Message, name: seq<byte>, nameCheck: bool)
    requires ValidMessage(m)
    ensures Verdict(WireMessage(m), name, nameCheck) ==
            if FlagsOk(m.flags1, m.flags2, m.numquestions) && (nameCheck ==> Agrees(name, 0, m.qname.labels))
            then FirstAddress(m.answers, U8(m.numanswers)) else NoAddress
  {
    hide StandsAt, Wire, Header, WireMessage, WireRecords, Read16, Walkable, EndOfName, ValidRecords, Compare, Agrees,
         Scan, FirstAddress, FlagsOk, U8;
    var b := WireMessage(m);
    var p := SIZEOF_DNS_HDR + |Wire(m.qname)|;
    MessageParts(m, b);
    ReadsHeader(b, m);
    U8Small(m.numanswers);
    WalkerFindsTheEnd(b, SIZEOF_DNS_HDR, m.qname);
    CompareChecksLabels(name, 0, b, SIZEOF_DNS_HDR, m.qname);
    ScanFindsFirstAddress(b, p + SIZEOF_DNS_QUERY, m.answers, U8(m.numanswers));
  }

  lemma U8Small(n: nat)
    ensures U8(n) <= n
  {
  }

  lemma MessageParts(m: Message, b: seq<byte>)
    requires ValidMessage(m) && b == WireMessage(m)
    ensures var p := SIZEOF_DNS_HDR + |Wire(m.qname)|;
            StandsAt(b, 0, Header(m)) && StandsAt(b, SIZEOF_DNS_HDR, Wire(m.qname)) &&
            StandsAt(b, p + SIZEOF_DNS_QUERY, WireRecords(m.answers))
  {
    var p := SIZEOF_DNS_HDR + |Wire(m.qname)|;
    assert StandsAt(b, 0, b);
    hide StandsAt, Wire, Header;
    StandsApart(b, 0, Header(m), Wire(m.qname) + (m.query + (WireRecords(m.answers) + m.more)));
    StandsApart(b, SIZEOF_DNS_HDR, Wire(m.qname), m.query + (WireRecords(m.answers) + m.more));
    StandsApart(b, p, m.query, WireRecords(m.answers) + m.more);
    StandsApart(b, p + SIZEOF_DNS_QUERY, WireRecords(m.answers), m.more);
  }
}
