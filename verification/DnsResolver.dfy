/** The resolver (src/core/dns.c): a table of queries with retries, several servers, a cache
    with times to live, and eviction. Callbacks are recorded, they do not re-enter it. */
module DnsResolver {
  import opened DnsName
  import opened DnsReply
  import opened Memory

  type Count8 = n: int | 1 <= n < 0x100 witness 1
  type Ttl = n: int | 1 <= n < 0x1_0000_0000 witness 1

  const DNS_TABLE_SIZE: Count8
  const DNS_MAX_SERVERS: Count8
  const DNS_MAX_RETRIES: Count8
  const DNS_MAX_TTL: Ttl
  const DNS_MAX_NAME_LENGTH: Ttl
  const DNS_MSG_SIZE: Ttl
  const DNS_DOES_NAME_CHECK: bool

  const INADDR_NONE: seq<byte> := [0xff, 0xff, 0xff, 0xff]

  datatype State = UNUSED | NEW | ASKING | DONE

  /** struct dns_table_entry. The array name[] holds `name`, a zero, and then `behind`, which
      strcpy leaves from earlier names. `query` is the number of the query that the entry was
      made for and `age` counts the timer ticks since it was answered. */
  datatype Entry = Entry(state: State, numdns: nat, tmr: byte, retries: byte, seqno: byte, ttl: u32,
                         name: seq<byte>, behind: seq<byte>, ipaddr: seq<byte>, found: bool, arg: int,
                         query: nat, age: nat)

  /** The bytes of name[]. */
  function Text(e: Entry): seq<byte> { e.name + [0] + e.behind }

  /** What strcpy of a name leaves behind it. */
  function Kept(text: seq<byte>, name: seq<byte>): seq<byte> {
    if |name| + 1 <= |text| then text[|name| + 1..] else []
  }

  /** A query that was accepted: the name, whether there is a callback, and its argument. */
  datatype Query = Query(name: seq<byte>, found: bool, arg: int)

  /** A call of a callback; NoAddress stands for NULL. */
  datatype Callback = Callback(query: nat, name: seq<byte>, arg: int, result: Address)

  /** A query packet: to which server, under which number, for which name. */
  datatype Datagram = Datagram(to: u32, id: nat, name: seq<byte>)

  /** dns_table, dns_seqno and dns_servers (0.0.0.0 is an unused place); then what has
      happened: the queries accepted, the replies taken for them, the callbacks made and the
      packets sent. */
  datatype World = World(table: seq<Entry>, seqno: byte, servers: seq<u32>,
                         asked: seq<Query>, replies: map<nat, seq<byte>>, calls: seq<Callback>, sent: seq<Datagram>)

  // ---------------------------------------------------------------- one entry

  function DecByte(n: byte): byte { if n == 0 then 0xff else n - 1 }

  function DecTtl(n: u32): u32 { if n == 0 then 0xffff_ffff else n - 1 }

  predicate NextServer(e: Entry, servers: seq<u32>) {
    e.numdns + 1 < DNS_MAX_SERVERS && e.numdns + 1 < |servers| && servers[e.numdns + 1] != 0
  }

  /** The countdown of an asking entry ends on this tick. */
  predicate Due(e: Entry) { e.state.ASKING? && DecByte(e.tmr) == 0 }

  predicate LastRetry(e: Entry) { U8(e.retries + 1) == DNS_MAX_RETRIES }

  predicate TimesOut(e: Entry, servers: seq<u32>) { Due(e) && LastRetry(e) && !NextServer(e, servers) }

  predicate Sends(e: Entry) { e.state.NEW? || (Due(e) && !LastRetry(e)) }

  /** dns_check_entry */
  function CheckEntry(e: Entry, servers: seq<u32>): Entry {
    match e.state
    case NEW => e.(state := ASKING, numdns := 0, tmr := 1, retries := 0)
    case ASKING =>
      if !Due(e) then e.(tmr := DecByte(e.tmr))
      else if LastRetry(e) then
        if NextServer(e, servers) then e.(numdns := e.numdns + 1, tmr := 1, retries := 0)
        else e.(state := UNUSED, tmr := 0, retries := U8(e.retries + 1), found := false)
      else e.(tmr := U8(e.retries + 1), retries := U8(e.retries + 1))
    case DONE =>
      var ttl := DecTtl(e.ttl);
      if ttl == 0 then e.(state := UNUSED, ttl := 0, found := false, age := e.age + 1)
      else e.(ttl := ttl, age := e.age + 1)
    case UNUSED => e
  }

  function Called(e: Entry, result: Address): seq<Callback> {
    if e.found then [Callback(e.query, e.name, e.arg, result)] else []
  }

  /** dns_send for entry i; a new one asks the first server. */
  function SentFor(e: Entry, servers: seq<u32>, i: nat): Datagram {
    var numdns := if e.state.NEW? then 0 else e.numdns;
    Datagram(if numdns < |servers| then servers[numdns] else 0, i, e.name)
  }

  // ---------------------------------------------------------------- the operations

  function CheckAt(w: World, i: nat): World
    requires i < |w.table|
  {
    var e := w.table[i];
    w.(table := w.table[i := CheckEntry(e, w.servers)],
       calls := w.calls + if TimesOut(e, w.servers) then Called(e, NoAddress) else [],
       sent := w.sent + if Sends(e) then [SentFor(e, w.servers, i)] else [])
  }

  /** dns_check_entries, up to entry n. */
  function Tick(w: World, n: nat): World
    requires n <= |w.table|
    ensures |Tick(w, n).table| == |w.table| && Tick(w, n).servers == w.servers
  {
    if n == 0 then w else CheckAt(Tick(w, n - 1), n - 1)
  }

  /** dns_recv */
  function Recv(w: World, b: seq<byte>): World {
    var i := U8(Read16(b, 0));
    if |b| > DNS_MSG_SIZE || |b| < SIZEOF_DNS_HDR + SIZEOF_DNS_QUERY + SIZEOF_DNS_ANSWER then w
    else if i >= |w.table| || !w.table[i].state.ASKING? then w
    else
      var e := w.table[i];
      var r := Verdict(b, Text(e), DNS_DOES_NAME_CHECK);
      var e' := if r.Found? then
                  e.(state := DONE, ttl := if r.ttl > DNS_MAX_TTL then DNS_MAX_TTL
                     else r.ttl, ipaddr := r.addr, age := 0)
                else e.(state := UNUSED, found := false);
      w.(table := w.table[i := e'], calls := w.calls + Called(e, r), replies := w.replies[e.query := b])
  }

  /** The loop of dns_enqueue from entry i on: the first unused entry, or else the index of
      the completed entry with the greatest distance from dns_seqno so far. */
  datatype Choice = Unused(i: nat) | Oldest(lseqi: nat)

  function Pick(table: seq<Entry>, seqno: byte, i: nat, lseq: int, lseqi: nat): Choice
    decreases |table| - i
  {
    if i >= |table| then Oldest(lseqi)
    else if table[i].state.UNUSED? then Unused(i)
    else if table[i].state.DONE? && seqno - table[i].seqno > lseq then
      Pick(table, seqno, i + 1, seqno - table[i].seqno, i)
    else Pick(table, seqno, i + 1, lseq, lseqi)
  }

  /** The entry that a new query gets, or |table| if there is none. */
  function Place(table: seq<Entry>, seqno: byte): nat {
    match Pick(table, seqno, 0, 0, 0)
    case Unused(i) => i
    case Oldest(i) => if i < |table| && table[i].state.DONE? then i else |table|
  }

  datatype Result = ERR_OK(addr: seq<byte>) | ERR_VAL | ERR_MEM | ERR_INPROGRESS

  function NewEntry(e: Entry, seqno: byte, name: seq<byte>, found: bool, arg: int, query: nat): Entry {
    e.(state := NEW, seqno := seqno, name := name, behind := Kept(Text(e), name), found := found, arg := arg,
       query := query)
  }

  /** dns_enqueue */
  function Enqueue(w: World, name: seq<byte>, found: bool, arg: int): (World, Result) {
    var i := Place(w.table, w.seqno);
    if i >= |w.table| then (w, ERR_MEM)
    else
      var e := NewEntry(w.table[i], w.seqno, name, found, arg, |w.asked|);
      var w1 := w.(table := w.table[i := e], seqno := U8(w.seqno + 1), asked := w.asked + [Query(name, found, arg)]);
      (CheckAt(w1, i), ERR_INPROGRESS)
  }

  /** dns_lookup */
  function Lookup(table: seq<Entry>, name: seq<byte>): seq<byte> {
    if table == [] then INADDR_NONE
    else if table[0].state.DONE? && name == table[0].name then table[0].ipaddr
    else Lookup(table[1..], name)
  }

  /** dns_gethostbyname; `literal` is what inet_addr makes of the name. */
  function GetHostByName(w: World, name: seq<byte>, literal: seq<byte>, found: bool, arg: int): (World, Result) {
    if name == [] || |name| >= DNS_MAX_NAME_LENGTH then (w, ERR_VAL)
    else if literal != INADDR_NONE then (w, ERR_OK(literal))
    else if Lookup(w.table, name) != INADDR_NONE then (w, ERR_OK(Lookup(w.table, name)))
    else Enqueue(w, name, found, arg)
  }

  /** dns_setserver */
  function SetServer(w: World, numdns: nat, addr: u32): World {
    if numdns < DNS_MAX_SERVERS && numdns < |w.servers| && addr != 0 then
      w.(servers := w.servers[numdns := addr])
    else w
  }

  // ---------------------------------------------------------------- the invariant

  /** The ticks that an answer with this time to live stays; a zero wraps around. */
  function Lifetime(ttl: u32): nat {
    if ttl == 0 then 0x1_0000_0000 else if ttl > DNS_MAX_TTL then DNS_MAX_TTL else ttl
  }

  /** An asking entry counts down, has retries left, and asks a server that is there. */
  predicate AskingOk(e: Entry, servers: seq<u32>) {
    1 <= e.tmr && e.retries < DNS_MAX_RETRIES && e.numdns < |servers| && servers[e.numdns] != 0
  }

  /** A completed entry holds the first address of the reply to its own query, and is not
      older than that may become. */
  predicate Cached(e: Entry, replies: map<nat, seq<byte>>) {
    e.query in replies &&
    var r := Verdict(replies[e.query], Text(e), DNS_DOES_NAME_CHECK);
    r.Found? && e.ipaddr == r.addr && e.age < Lifetime(r.ttl) &&
    e.ttl == if r.ttl == 0 then (if e.age == 0 then 0 else 0x1_0000_0000 - e.age) else Lifetime(r.ttl) - e.age
  }

  predicate IsUsed(e: Entry) { e.state.ASKING? || e.state.DONE? }

  /** The entry belongs to its query. */
  predicate Belongs(e: Entry, asked: seq<Query>) {
    e.query < |asked| && asked[e.query] == Query(e.name, e.found, e.arg) && e.seqno == U8(e.query)
  }

  predicate EntryOk(e: Entry, asked: seq<Query>, servers: seq<u32>, replies: map<nat, seq<byte>>) {
    !e.state.NEW? && (IsUsed(e) ==> Belongs(e, asked)) &&
    (e.state.ASKING? ==> AskingOk(e, servers)) && (e.state.DONE? ==> Cached(e, replies))
  }

  /** No two used entries are for the same query. */
  predicate DistinctQueries(table: seq<Entry>) {
    forall i, j :: 0 <= i < j < |table| && IsUsed(table[i]) && IsUsed(table[j]) ==> table[i].query != table[j].query
  }

  predicate TableOk(w: World) {
    |w.table| == DNS_TABLE_SIZE && |w.servers| == DNS_MAX_SERVERS && w.servers[0] != 0 && w.seqno == U8(|w.asked|) &&
    (forall i :: 0 <= i < |w.table| ==> EntryOk(w.table[i], w.asked, w.servers, w.replies)) &&
    DistinctQueries(w.table)
  }

  /** Some entry still asks for query q. */
  predicate Waiting(table: seq<Entry>, q: nat) {
    exists i :: 0 <= i < |table| && table[i].state.ASKING? && table[i].query == q
  }

  function NumCalls(calls: seq<Callback>, q: nat): nat {
    if calls == [] then 0
    else NumCalls(calls[..|calls| - 1], q) + if calls[|calls| - 1].query == q then 1 else 0
  }

  /** A query gets its callback exactly when its entry stops asking, and then once. */
  predicate CallsOk(w: World) {
    (forall q :: 0 <= q < |w.asked| ==>
     NumCalls(w.calls, q) == if w.asked[q].found && !Waiting(w.table, q) then 1 else 0) &&
    forall k :: 0 <= k < |w.calls| ==> OwnCall(w.calls[k], w.asked)
  }

  /** A callback is made with the name and the argument of its query. */
  predicate OwnCall(c: Callback, asked: seq<Query>) {
    c.query < |asked| && asked[c.query].found && c.name == asked[c.query].name && c.arg == asked[c.query].arg
  }

  predicate Inv(w: World) { TableOk(w) && CallsOk(w) }

  /** dns_init on an empty table, with the default server. */
  predicate Init(w: World) {
    |w.table| == DNS_TABLE_SIZE && |w.servers| == DNS_MAX_SERVERS && w.servers[0] != 0 && w.seqno == 0 &&
    (forall i :: 0 <= i < |w.table| ==> w.table[i].state.UNUSED?) &&
    w.asked == [] && w.replies == map[] && w.calls == [] && w.sent == []
  }

  lemma InitInv(w: World)
    requires Init(w)
    ensures Inv(w)
  {
  }

  // ---------------------------------------------------------------- replacing one entry

  lemma WaitingAfter(table: seq<Entry>, i: nat, e': Entry, q: nat)
    requires i < |table| && DistinctQueries(table) && IsUsed(table[i]) && e'.query == table[i].query
    ensures Waiting(table[i := e'], q) <==> if q == e'.query then e'.state.ASKING? else Waiting(table, q)
  {
    var t := table[i := e'];
    if q == e'.query {
      if e'.state.ASKING? {
        assert t[i].state.ASKING? && t[i].query == q;
      }
    } else {
      if Waiting(table, q) {
        var j :| 0 <= j < |table| && table[j].state.ASKING? && table[j].query == q;
        assert t[j] == table[j];
      }
      if Waiting(t, q) {
        var j :| 0 <= j < |t| && t[j].state.ASKING? && t[j].query == q;
        assert t[j] == table[j];
      }
    }
  }

  lemma WaitingBefore(table: seq<Entry>, i: nat)
    requires i < |table| && DistinctQueries(table) && IsUsed(table[i])
    ensures Waiting(table, table[i].query) <==> table[i].state.ASKING?
  {
    assert table[i := table[i]] == table;
    WaitingAfter(table, i, table[i], table[i].query);
  }

  lemma WaitingFresh(table: seq<Entry>, i: nat, e': Entry, q: nat)
    requires i < |table| && !table[i].state.ASKING? && e'.state.ASKING?
    ensures Waiting(table[i := e'], q) <==> q == e'.query || Waiting(table, q)
  {
    var t := table[i := e'];
    if Waiting(table, q) {
      var j :| 0 <= j < |table| && table[j].state.ASKING? && table[j].query == q;
      assert t[j] == table[j];
    }
    if Waiting(t, q) && q != e'.query {
      var j :| 0 <= j < |t| && t[j].state.ASKING? && t[j].query == q;
      assert t[j] == table[j];
    }
    assert t[i].state.ASKING? && t[i].query == e'.query;
  }

  lemma DistinctAfter(table: seq<Entry>, i: nat, e': Entry)
    requires i < |table| && DistinctQueries(table)
    requires IsUsed(e') ==> (IsUsed(table[i]) && e'.query == table[i].query) ||
                            (forall j :: 0 <= j < |table| && IsUsed(table[j]) ==> table[j].query != e'.query)
    ensures DistinctQueries(table[i := e'])
  {
  }

  /** An entry changes but keeps its query and its part in the waiting. */
  lemma KeepPreserves(w: World, i: nat, e': Entry, sent: seq<Datagram>)
    requires Inv(w) && i < |w.table| && e'.query == w.table[i].query
    requires (IsUsed(e') ==> IsUsed(w.table[i])) && (e'.state.ASKING? <==> w.table[i].state.ASKING?)
    requires EntryOk(e', w.asked, w.servers, w.replies)
    ensures Inv(w.(table := w.table[i := e'], sent := sent))
  {
    hide EntryOk, OwnCall, NumCalls, DistinctQueries, Waiting;
    DistinctAfter(w.table, i, e');
    var t := w.table[i := e'];
    forall q | 0 <= q < |w.asked| ensures Waiting(t, q) == Waiting(w.table, q) {
      if IsUsed(w.table[i]) {
        WaitingAfter(w.table, i, e', q);
        WaitingBefore(w.table, i);
      } else {
        SameWaiting(w.table, i, e', q);
      }
    }
  }

  lemma SameWaiting(table: seq<Entry>, i: nat, e': Entry, q: nat)
    requires i < |table| && !table[i].state.ASKING? && !e'.state.ASKING?
    ensures Waiting(table[i := e'], q) <==> Waiting(table, q)
  {
    var t := table[i := e'];
    if Waiting(table, q) {
      var j :| 0 <= j < |table| && table[j].state.ASKING? && table[j].query == q;
      assert t[j] == table[j];
    }
    if Waiting(t, q) {
      var j :| 0 <= j < |t| && t[j].state.ASKING? && t[j].query == q;
      assert t[j] == table[j];
    }
  }

  lemma CallCounts(calls: seq<Callback>, c: Callback, q: nat)
    ensures NumCalls(calls + [c], q) == NumCalls(calls, q) + if c.query == q then 1 else 0
  {
    assert (calls + [c])[..|calls|] == calls;
  }

  /** An asking entry is settled: its query gets its callback, if there is one. */
  lemma SettlePreserves(w: World, i: nat, e': Entry, r: Address, replies': map<nat, seq<byte>>)
    requires Inv(w) && i < |w.table| && w.table[i].state.ASKING?
    requires e'.query == w.table[i].query && !e'.state.ASKING? && EntryOk(e', w.asked, w.servers, replies')
    requires forall q :: q in w.replies ==> q in replies' && (q == e'.query || replies'[q] == w.replies[q])
    ensures Inv(w.(table := w.table[i := e'], calls := w.calls + Called(w.table[i], r), replies := replies'))
  {
    var e, t, calls := w.table[i], w.table[i := e'], w.calls + Called(w.table[i], r);
    SettleTable(w, i, e', replies');
    SettleCalls(w, i, e', r);
  }

  lemma SettleTable(w: World, i: nat, e': Entry, replies': map<nat, seq<byte>>)
    requires TableOk(w) && i < |w.table| && w.table[i].state.ASKING?
    requires e'.query == w.table[i].query && !e'.state.ASKING? && EntryOk(e', w.asked, w.servers, replies')
    requires forall q :: q in w.replies ==> q in replies' && (q == e'.query || replies'[q] == w.replies[q])
    ensures TableOk(w.(table := w.table[i := e'], replies := replies'))
  {
    var t := w.table[i := e'];
    DistinctAfter(w.table, i, e');
    forall j | 0 <= j < |t| ensures EntryOk(t[j], w.asked, w.servers, replies') {
      if j != i {
        assert EntryOk(w.table[j], w.asked, w.servers, w.replies);
        hide Belongs, AskingOk;
        assert IsUsed(w.table[j]) ==> w.table[j].query != e'.query;
      }
    }
  }

  lemma SettleCalls(w: World, i: nat, e': Entry, r: Address)
    requires Inv(w) && i < |w.table| && w.table[i].state.ASKING? && e'.query == w.table[i].query && !e'.state.ASKING?
    ensures CallsOk(w.(table := w.table[i := e'], calls := w.calls + Called(w.table[i], r)))
  {
    var e, t := w.table[i], w.table[i := e'];
    assert EntryOk(e, w.asked, w.servers, w.replies) && Belongs(e, w.asked);
    WaitingBefore(w.table, i);
    hide EntryOk, NumCalls, DistinctQueries, Waiting;
    var c := Callback(e.query, e.name, e.arg, r);
    forall q | 0 <= q < |w.asked|
      ensures NumCalls(w.calls + Called(e, r), q) == if w.asked[q].found && !Waiting(t, q) then 1 else 0
    {
      WaitingAfter(w.table, i, e', q);
      CallCounts(w.calls, c, q);
      assert w.calls + [] == w.calls;
    }
  }

  // ---------------------------------------------------------------- the operations keep it

  /** One tick keeps an entry in order. */
  lemma CheckEntryOk(e: Entry, asked: seq<Query>, servers: seq<u32>, replies: map<nat, seq<byte>>)
    requires EntryOk(e, asked, servers, replies)
    ensures EntryOk(CheckEntry(e, servers), asked, servers, replies)
    ensures CheckEntry(e, servers).query == e.query && (IsUsed(CheckEntry(e, servers)) ==> IsUsed(e))
    ensures e.state.ASKING? ==> (CheckEntry(e, servers).state.ASKING? <==> !TimesOut(e, servers))
    ensures !e.state.ASKING? ==> !CheckEntry(e, servers).state.ASKING? && !TimesOut(e, servers)
    ensures TimesOut(e, servers) ==> CheckEntry(e, servers).state.UNUSED?
  {
    hide Verdict;
  }

  lemma CheckAtPreserves(w: World, i: nat)
    requires Inv(w) && i < |w.table|
    ensures Inv(CheckAt(w, i)) && CheckAt(w, i).asked == w.asked && CheckAt(w, i).servers == w.servers
  {
    hide EntryOk, CheckEntry, TimesOut, Sends, CallsOk, DistinctQueries;
    var e, e' := w.table[i], CheckEntry(w.table[i], w.servers);
    assert EntryOk(e, w.asked, w.servers, w.replies);
    CheckEntryOk(e, w.asked, w.servers, w.replies);
    var sent := w.sent + if Sends(e) then [SentFor(e, w.servers, i)] else [];
    if TimesOut(e, w.servers) {
      Asking(e, w.servers);
      SettlePreserves(w, i, e', NoAddress, w.replies);
      SentPreserves(w.(table := w.table[i := e'], calls := w.calls + Called(e, NoAddress)), sent);
    } else {
      KeepPreserves(w, i, e', sent);
      assert w.calls + [] == w.calls;
    }
  }

  lemma Asking(e: Entry, servers: seq<u32>)
    requires TimesOut(e, servers)
    ensures e.state.ASKING?
  {
  }

  lemma SentPreserves(w: World, sent: seq<Datagram>)
    requires Inv(w)
    ensures Inv(w.(sent := sent))
  {
  }

  lemma {:induction false} TickPreserves(w: World, n: nat)
    requires Inv(w) && n <= |w.table|
    ensures Inv(Tick(w, n)) && Tick(w, n).asked == w.asked
  {
    hide Inv, CheckAt;
    if n > 0 {
      TickPreserves(w, n - 1);
      CheckAtPreserves(Tick(w, n - 1), n - 1);
    }
  }

  lemma RecvPreserves(w: World, b: seq<byte>)
    requires Inv(w)
    ensures Inv(Recv(w, b)) && Recv(w, b).asked == w.asked
  {
    hide Verdict, Read16, U8, CallsOk, DistinctQueries;
    var w' := Recv(w, b);
    if w' != w {
      var i := U8(Read16(b, 0));
      var e := w.table[i];
      assert EntryOk(e, w.asked, w.servers, w.replies);
      SettlePreserves(w, i, w'.table[i], Verdict(b, Text(e), DNS_DOES_NAME_CHECK), w.replies[e.query := b]);
    }
  }

  lemma SetServerPreserves(w: World, numdns: nat, addr: u32)
    requires Inv(w)
    ensures Inv(SetServer(w, numdns, addr))
  {
    hide Cached, Belongs, DistinctQueries, Waiting, NumCalls;
    var w' := SetServer(w, numdns, addr);
    forall i | 0 <= i < |w'.table| ensures EntryOk(w'.table[i], w'.asked, w'.servers, w'.replies) {
      assert EntryOk(w.table[i], w.asked, w.servers, w.replies);
    }
  }

  // ---------------------------------------------------------------- enqueue

  lemma {:induction false} PickIsUsable(table: seq<Entry>, seqno: byte, i: nat, lseq: int, lseqi: nat)
    ensures var c := Pick(table, seqno, i, lseq, lseqi);
            if c.Unused? then i <= c.i < |table| && table[c.i].state.UNUSED?
            else (forall j :: i <= j < |table| ==> !table[j].state.UNUSED?) && (c.lseqi == lseqi || c.lseqi < |table|)
    decreases |table| - i
  {
    if i < |table| && !table[i].state.UNUSED? {
      PickIsUsable(table, seqno, i + 1, lseq, lseqi);
      PickIsUsable(table, seqno, i + 1, seqno - table[i].seqno, i);
    }
  }

  /** A query that is still being worked on is never overwritten, and a completed entry only
      when no entry is unused. */
  lemma PlaceIsFree(table: seq<Entry>, seqno: byte)
    requires Place(table, seqno) < |table|
    ensures var e := table[Place(table, seqno)];
            e.state.UNUSED? || (e.state.DONE? && forall j :: 0 <= j < |table| ==> !table[j].state.UNUSED?)
  {
    PickIsUsable(table, seqno, 0, 0, 0);
  }

  lemma {:induction false} NoCallsYet(calls: seq<Callback>, asked: seq<Query>)
    requires forall k :: 0 <= k < |calls| ==> OwnCall(calls[k], asked)
    ensures NumCalls(calls, |asked|) == 0
  {
    if calls != [] {
      NoCallsYet(calls[..|calls| - 1], asked);
    }
  }

  lemma MoreAsked(e: Entry, asked: seq<Query>, more: Query, servers: seq<u32>, replies: map<nat, seq<byte>>)
    requires EntryOk(e, asked, servers, replies)
    ensures EntryOk(e, asked + [more], servers, replies)
  {
    hide Cached, AskingOk;
  }

  lemma EnqueuePreserves(w: World, name: seq<byte>, found: bool, arg: int)
    requires Inv(w)
    ensures Inv(Enqueue(w, name, found, arg).0)
  {
    var i := Place(w.table, w.seqno);
    if i < |w.table| {
      PlaceIsFree(w.table, w.seqno);
      hide Place, Pick;
      EnqueueTable(w, name, found, arg, i);
      EnqueueCalls(w, name, found, arg, i);
    }
  }

  lemma EnqueueTable(w: World, name: seq<byte>, found: bool, arg: int, i: nat)
    requires Inv(w) && i < |w.table| && !w.table[i].state.ASKING? && i == Place(w.table, w.seqno)
    ensures TableOk(Enqueue(w, name, found, arg).0)
  {
    hide Place, NumCalls, Waiting, Cached;
    var w' := Enqueue(w, name, found, arg).0;
    var q := Query(name, found, arg);
    U8Next(|w.asked|);
    var e' := CheckEntry(NewEntry(w.table[i], w.seqno, name, found, arg, |w.asked|), w.servers);
    assert w'.table == w.table[i := e'] && w'.asked == w.asked + [q];
    FreshQuery(w);
    DistinctAfter(w.table, i, e');
    hide DistinctQueries;
    forall j | 0 <= j < |w'.table| ensures EntryOk(w'.table[j], w'.asked, w'.servers, w'.replies) {
      if j != i {
        MoreAsked(w.table[j], w.asked, q, w.servers, w.replies);
      }
    }
  }

  lemma FreshQuery(w: World)
    requires TableOk(w)
    ensures forall j :: 0 <= j < |w.table| && IsUsed(w.table[j]) ==> w.table[j].query != |w.asked|
  {
    forall j | 0 <= j < |w.table| && IsUsed(w.table[j]) ensures w.table[j].query != |w.asked| {
      assert EntryOk(w.table[j], w.asked, w.servers, w.replies);
    }
  }

  lemma EnqueueCalls(w: World, name: seq<byte>, found: bool, arg: int, i: nat)
    requires Inv(w) && i < |w.table| && !w.table[i].state.ASKING? && i == Place(w.table, w.seqno)
    ensures CallsOk(Enqueue(w, name, found, arg).0)
  {
    hide Place, NumCalls, DistinctQueries;
    var w' := Enqueue(w, name, found, arg).0;
    var e' := CheckEntry(NewEntry(w.table[i], w.seqno, name, found, arg, |w.asked|), w.servers);
    assert w'.calls == w.calls && w'.table == w.table[i := e'];
    FreshQuery(w);
    NoCallsYet(w.calls, w.asked);
    hide EntryOk, Waiting;
    forall q | 0 <= q < |w'.asked|
      ensures NumCalls(w'.calls, q) == if w'.asked[q].found && !Waiting(w'.table, q) then 1 else 0
    {
      WaitingFresh(w.table, i, e', q);
    }
  }

  // ---------------------------------------------------------------- all runs

  datatype Step =
    | Resolve(name: seq<byte>, literal: seq<byte>, found: bool, arg: int)   // dns_gethostbyname
    | Timer                                                                  // dns_tmr
    | Packet(b: seq<byte>)                                                   // dns_recv
    | Server(numdns: nat, addr: u32)                                         // dns_setserver

  function Apply(w: World, s: Step): World {
    match s
    case Resolve(name, literal, found, arg) => GetHostByName(w, name, literal, found, arg).0
    case Timer => Tick(w, |w.table|)
    case Packet(b) => Recv(w, b)
    case Server(numdns, addr) => SetServer(w, numdns, addr)
  }

  function Run(w: World, steps: seq<Step>): World
    decreases |steps|
  {
    if steps == [] then w else Apply(Run(w, steps[..|steps| - 1]), steps[|steps| - 1])
  }

  lemma ApplyPreserves(w: World, s: Step)
    requires Inv(w)
    ensures Inv(Apply(w, s))
  {
    hide Inv, Tick, Recv, SetServer, Enqueue, Lookup;
    match s
    case Resolve(name, literal, found, arg) => EnqueuePreserves(w, name, found, arg);
    case Timer => TickPreserves(w, |w.table|);
    case Packet(b) => RecvPreserves(w, b);
    case Server(numdns, addr) => SetServerPreserves(w, numdns, addr);
  }

  lemma {:induction false} RunInv(w: World, steps: seq<Step>)
    requires Init(w)
    ensures Inv(Run(w, steps))
    decreases |steps|
  {
    hide Inv, Apply, Init;
    if steps == [] {
      InitInv(w);
    } else {
      RunInv(w, steps[..|steps| - 1]);
      ApplyPreserves(Run(w, steps[..|steps| - 1]), steps[|steps| - 1]);
    }
  }

  /** Every query that was accepted gets at most one callback, and exactly one once its entry
      has stopped asking (if it has a callback at all), always with its own name and argument. */
  lemma OneCallbackPerQuery(w: World, steps: seq<Step>, q: nat)
    requires Init(w) && q < |Run(w, steps).asked|
    ensures var now := Run(w, steps);
            NumCalls(now.calls, q) == (if now.asked[q].found && !Waiting(now.table, q) then 1 else 0) &&
            forall k :: 0 <= k < |now.calls| ==> OwnCall(now.calls[k], now.asked)
  {
    RunInv(w, steps);
  }

  /** Between the operations no entry is NEW, and an asking one counts down, has retries left
      and a server to ask. */
  lemma AskingEntriesProgress(w: World, steps: seq<Step>, i: nat)
    requires Init(w) && i < |Run(w, steps).table|
    ensures var now := Run(w, steps);
            !now.table[i].state.NEW? && (now.table[i].state.ASKING? ==> AskingOk(now.table[i], now.servers))
  {
    RunInv(w, steps);
    assert EntryOk(Run(w, steps).table[i], Run(w, steps).asked, Run(w, steps).servers, Run(w, steps).replies);
  }
}
