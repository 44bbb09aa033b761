/** The functions of src/core/dns.c as they work on the static table in place. Each does what
    the function of DnsResolver with its name says; that module proves what comes of it. */
module DnsLayer {
  import opened DnsName
  import opened DnsReply
  import opened DnsResolver
  import opened Memory

  class Resolver {
    const table: array<Entry>
    const servers: array<u32>
    var seqno: byte
    var asked: seq<Query>
    ghost var replies: map<nat, seq<byte>>
    ghost var calls: seq<Callback>
    ghost var sent: seq<Datagram>

    ghost predicate Valid()
      reads this, table, servers
    {
      table.Length == DNS_TABLE_SIZE && servers.Length == DNS_MAX_SERVERS
    }

    ghost function View(): World
      reads this, table, servers
    {
      World(table[..], seqno, servers[..], asked, replies, calls, sent)
    }

    /** dns_init, with the address of the default server. */
    constructor (blank: Entry, server: u32)
      requires server != 0
      ensures Valid() && Init(View()) && fresh(table) && fresh(servers)
    {
      table := new Entry[DNS_TABLE_SIZE](_ => blank.(state := UNUSED, found := false));
      servers := new u32[DNS_MAX_SERVERS](i => if i == 0 then server else 0);
      seqno, asked, replies, calls, sent := 0, [], map[], [], [];
    }

    method SetServerAddress(numdns: nat, addr: u32)
      requires Valid()
      modifies servers
      ensures View() == SetServer(old(View()), numdns, addr)
    {
      if numdns < DNS_MAX_SERVERS && addr != 0 {
        servers[numdns] := addr;
      }
    }

    /** The callback of an entry, if it has one. */
    ghost method CallBack(e: Entry, result: Address)
      modifies this`calls
      ensures calls == old(calls) + Called(e, result)
    {
      if e.found {
        calls := calls + [Callback(e.query, e.name, e.arg, result)];
      }
    }

    /** dns_send */
    ghost method Send(numdns: nat, name: seq<byte>, id: nat)
      requires Valid()
      modifies this`sent
      ensures sent == old(sent) + [Datagram(if numdns < DNS_MAX_SERVERS then servers[numdns] else 0, id, name)]
    {
      sent := sent + [Datagram(if numdns < DNS_MAX_SERVERS then servers[numdns] else 0, id, name)];
    }

    /** dns_check_entry */
    method CheckOne(i: nat)
      requires Valid() && i < table.Length
      modifies table, this`calls, this`sent
      ensures View() == CheckAt(old(View()), i)
    {
      hide U8, Called;
      match table[i].state
      case NEW =>
        table[i] := table[i].(state := ASKING, numdns := 0, tmr := 1, retries := 0);
        Send(table[i].numdns, table[i].name, i);
      case ASKING =>
        var tmr := DecByte(table[i].tmr);
        if tmr == 0 {
          var retries := U8(table[i].retries + 1);
          if retries == DNS_MAX_RETRIES {
            var numdns := table[i].numdns;
            if numdns + 1 < DNS_MAX_SERVERS && servers[numdns + 1] != 0 {
              table[i] := table[i].(numdns := numdns + 1, tmr := 1, retries := 0);
            } else {
              CallBack(table[i], NoAddress);
              table[i] := table[i].(state := UNUSED, tmr := 0, retries := retries, found := false);
            }
          } else {
            table[i] := table[i].(tmr := retries, retries := retries);
            Send(table[i].numdns, table[i].name, i);
          }
        } else {
          table[i] := table[i].(tmr := tmr);
        }
      case DONE =>
        var ttl := DecTtl(table[i].ttl);
        table[i] := table[i].(ttl := ttl, age := table[i].age + 1);
        if ttl == 0 {
          table[i] := table[i].(state := UNUSED, found := false);
        }
      case UNUSED =>
    }

    /** dns_check_entries */
    method CheckEntries()
      requires Valid()
      modifies table, this`calls, this`sent
      ensures View() == Tick(old(View()), |old(View()).table|)
    {
      hide CheckAt;
      ghost var w := View();
      var i := 0;
      while i < table.Length
        invariant 0 <= i <= table.Length
        invariant View() == Tick(w, i)
      {
        CheckOne(i);
        i := i + 1;
      }
    }

    /** dns_recv */
    method Receive(b: seq<byte>)
      requires Valid()
      modifies table, this`calls, this`replies
      ensures View() == DnsResolver.Recv(old(View()), b)
    {
      if |b| > DNS_MSG_SIZE || |b| < SIZEOF_DNS_HDR + SIZEOF_DNS_QUERY + SIZEOF_DNS_ANSWER {
        return;
      }
      var i := U8(Read16(b, 0));
      if i < table.Length && table[i].state.ASKING? {
        var e := table[i];
        replies := replies[e.query := b];
        var r := ReadReply(b, Text(e), DNS_DOES_NAME_CHECK);
        CallBack(e, r);
        if r.Found? {
          var ttl := r.ttl;
          if ttl > DNS_MAX_TTL {
            ttl := DNS_MAX_TTL;
          }
          table[i] := e.(state := DONE, ttl := ttl, ipaddr := r.addr, age := 0);
        } else {
          table[i] := e.(state := UNUSED, found := false);
        }
      }
    }

    /** The search of dns_enqueue; `ok` is false when the table is full. */
    method FindPlace() returns (i: nat, ok: bool)
      requires Valid()
      ensures i == Place(table[..], seqno) || (!ok && Place(table[..], seqno) == table.Length)
      ensures ok <==> Place(table[..], seqno) < table.Length
    {
      var lseq: int, lseqi: nat := 0, 0;
      i := 0;
      while i < table.Length
        invariant 0 <= i <= table.Length && (lseqi < table.Length || lseqi == 0)
        invariant Pick(table[..], seqno, 0, 0, 0) == Pick(table[..], seqno, i, lseq, lseqi)
      {
        if table[i].state.UNUSED? {
          return i, true;
        }
        if table[i].state.DONE? && seqno - table[i].seqno > lseq {
          lseq := seqno - table[i].seqno;
          lseqi := i;
        }
        i := i + 1;
      }
      if lseqi >= table.Length || !table[lseqi].state.DONE? {
        return i, false;
      }
      return lseqi, true;
    }

    /** dns_enqueue */
    method EnqueueName(name: seq<byte>, found: bool, arg: int) returns (result: Result)
      requires Valid()
      modifies this, table
      ensures (View(), result) == Enqueue(old(View()), name, found, arg)
    {
      var i, ok := FindPlace();
      if !ok {
        return ERR_MEM;
      }
      ghost var w := View();
      table[i] := NewEntry(table[i], seqno, name, found, arg, |asked|);
      asked := asked + [Query(name, found, arg)];
      seqno := U8(seqno + 1);
      hide CheckAt;
      CheckOne(i);
      return ERR_INPROGRESS;
    }

    /** dns_lookup */
    method LookupName(name: seq<byte>) returns (addr: seq<byte>)
      requires Valid()
      ensures addr == Lookup(table[..], name)
    {
      var i := 0;
      assert table[..][0..] == table[..];
      while i < table.Length
        invariant 0 <= i <= table.Length
        invariant Lookup(table[..], name) == Lookup(table[..][i..], name)
      {
        if table[i].state.DONE? && name == table[i].name {
          return table[i].ipaddr;
        }
        assert table[..][i..][1..] == table[..][i + 1..];
        i := i + 1;
      }
      addr := INADDR_NONE;
    }

    /** dns_gethostbyname */
    method Resolve(name: seq<byte>, literal: seq<byte>, found: bool, arg: int) returns (result: Result)
      requires Valid()
      modifies this, table
      ensures (View(), result) == GetHostByName(old(View()), name, literal, found, arg)
    {
      if name == [] || |name| >= DNS_MAX_NAME_LENGTH {
        return ERR_VAL;
      }
      if literal != INADDR_NONE {
        return ERR_OK(literal);
      }
      var addr := LookupName(name);
      if addr != INADDR_NONE {
        return ERR_OK(addr);
      }
      hide Enqueue, Lookup;
      result := EnqueueName(name, found, arg);
    }
  }
}
