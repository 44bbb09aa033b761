/** What the resolver gives back (src/core/dns.c): the results of callbacks, the answers of
    dns_gethostbyname, and where its packets go. */
module DnsAnswers {
  import opened DnsName
  import opened DnsReply
  import opened DnsResolver
  import opened DnsTiming
  import opened DnsRuns
  import opened Memory

  // ---------------------------------------------------------------- callbacks and packets of a tick

  /** The entry for the query of this callback times out. */
  predicate Failed(w: World, c: Callback) {
    c.result == NoAddress &&
    exists m :: 0 <= m < |w.table| && w.table[m].query == c.query && TimesOut(w.table[m], w.servers)
  }

  /** After the step, an entry asks for this name under this number, and the packet goes to the
      server that it asks. */
  predicate Asks(w: World, d: Datagram) {
    d.id < |w.table| && w.table[d.id].state.ASKING? && w.table[d.id].name == d.name &&
    w.table[d.id].numdns < |w.servers| && w.servers[w.table[d.id].numdns] == d.to
  }

  lemma {:induction false} TickAdds(w: World, n: nat)
    requires n <= |w.table|
    ensures w.calls <= Tick(w, n).calls && w.sent <= Tick(w, n).sent
    ensures forall j :: |w.calls| <= j < |Tick(w, n).calls| ==> Failed(w, Tick(w, n).calls[j])
    ensures forall j :: |w.sent| <= j < |Tick(w, n).sent| ==>
              var d := Tick(w, n).sent[j];
              d.id < n && Sends(w.table[d.id]) && d == SentFor(w.table[d.id], w.servers, d.id)
  {
    hide TimesOut, CheckEntry, Sends, SentFor;
    if n > 0 {
      var before, e := Tick(w, n - 1), w.table[n - 1];
      TickAdds(w, n - 1);
      TickIsPerEntry(w, n - 1, n - 1);
      SentIsFor(e, w.servers, n - 1);
      var now := Tick(w, n);
      forall j | |w.calls| <= j < |now.calls| ensures Failed(w, now.calls[j]) {
        if j >= |before.calls| {
          assert TimesOut(e, w.servers) && now.calls[j].query == e.query;
        }
      }
    }
  }

  lemma SentIsFor(e: Entry, servers: seq<u32>, i: nat)
    ensures SentFor(e, servers, i).id == i
  {
  }

  lemma SenderAsks(e: Entry, servers: seq<u32>, i: nat)
    requires Sends(e) && (e.state.NEW? || e.numdns < |servers|) && |servers| > 0
    ensures var e', d := CheckEntry(e, servers), SentFor(e, servers, i);
            e'.state.ASKING? && e'.name == d.name && e'.numdns < |servers| && servers[e'.numdns] == d.to
  {
  }

  /** A tick sends only for its entries, which go on asking. */
  lemma TickAsks(w: World, j: nat)
    requires Inv(w) && |w.sent| <= j < |Apply(w, Timer).sent|
    ensures Asks(Apply(w, Timer), Apply(w, Timer).sent[j])
  {
    hide CallsOk, Tick, CheckEntry, SentFor;
    TickAdds(w, |w.table|);
    var d := Apply(w, Timer).sent[j];
    var e := w.table[d.id];
    TickIsPerEntry(w, |w.table|, d.id);
    assert EntryOk(e, w.asked, w.servers, w.replies);
    SenderAsks(e, w.servers, d.id);
  }

  // ---------------------------------------------------------------- callbacks

  /** A packet that dns_recv takes for the reply to query q. */
  predicate Accepted(w: World, b: seq<byte>, q: nat) {
    SIZEOF_DNS_HDR + SIZEOF_DNS_QUERY + SIZEOF_DNS_ANSWER <= |b| <= DNS_MSG_SIZE && Answers(w, b, q)
  }

  /** What its message says about the name of the entry that it answers. */
  function Reply(w: World, b: seq<byte>, q: nat): Address
    requires Answers(w, b, q)
  {
    Verdict(b, Text(w.table[U8(Read16(b, 0))]), DNS_DOES_NAME_CHECK)
  }

  /** A step that makes callback c: a tick on which its query fails, or the reply to it. */
  predicate Causes(w: World, s: Step, c: Callback) {
    match s
    case Timer => Failed(w, c)
    case Packet(b) => Accepted(w, b, c.query) && c.result == Reply(w, b, c.query)
    case _ => false
  }

  lemma StepCauses(w: World, s: Step, j: nat)
    requires Inv(w) && |w.calls| <= j < |Apply(w, s).calls|
    ensures Causes(w, s, Apply(w, s).calls[j])
  {
    hide CallsOk, Tick, Verdict, Read16, U8, Place, Lookup, CheckEntry;
    if s.Timer? {
      TickAdds(w, |w.table|);
    }
  }

  /** Over every run: a callback is made by a tick on which its query fails, and then gets no
      address, or by the reply to its query, and then gets what that says. */
  lemma {:induction false} CallbackHasCause(w: World, steps: seq<Step>, j: nat) returns (k: nat)
    requires Init(w) && j < |Run(w, steps).calls|
    ensures k < |steps| && Causes(Run(w, steps[..k]), steps[k], Run(w, steps).calls[j])
    decreases |steps|
  {
    hide Apply, Inv, Causes, Init;
    assert steps != [] by {
      NoCallsAtFirst(w);
    }
    var n := |steps| - 1;
    var before := Run(w, steps[..n]);
    RunInv(w, steps[..n]);
    HistoryGrows(before, steps[n]);
    if j < |before.calls| {
      k := CallbackHasCause(w, steps[..n], j);
      assert steps[..n][..k] == steps[..k];
    } else {
      k := n;
      StepCauses(before, steps[n], j);
    }
  }

  lemma NoCallsAtFirst(w: World)
    requires Init(w)
    ensures w.calls == [] && w.sent == []
  {
  }

  /** So on a well-formed reply the callback gets the first address among its answers, with its
      time to live, if the reply is one for the name that was asked; else it gets none. */
  lemma ReplyOnMessage(w: World, m: Message, q: nat)
    requires ValidMessage(m) && Answers(w, WireMessage(m), q)
    ensures var e := w.table[U8(m.id)];
            Reply(w, WireMessage(m), q) ==
            if FlagsOk(m.flags1, m.flags2, m.numquestions) &&
               (DNS_DOES_NAME_CHECK ==> Agrees(Text(e), 0, m.qname.labels))
            then FirstAddress(m.answers, U8(m.numanswers)) else NoAddress
  {
    var b := WireMessage(m);
    MessageParts(m, b);
    ReadsHeader(b, m);
    VerdictOnMessage(m, Text(w.table[U8(m.id)]), DNS_DOES_NAME_CHECK);
  }

  // ---------------------------------------------------------------- a query that is answered

  /** What has become of query q: it has got this result, once and for good. */
  predicate Settled(w: World, q: nat, query: Query, r: Address) {
    q < |w.asked| && w.asked[q] == query &&
    CallsFor(w.calls, q) == if query.found then [Callback(q, query.name, query.arg, r)] else []
  }

  lemma StaysSettled(w: World, s: Step, q: nat, query: Query, r: Address)
    requires Inv(w) && Settled(w, q, query, r)
    ensures Settled(Apply(w, s), q, query, r)
  {
    hide Apply, Inv, CallsFor;
    var w' := Apply(w, s);
    HistoryGrows(w, s);
    ApplyPreserves(w, s);
    CallsForGrows(w.calls, w'.calls, q);
    CallsSoFar(w', q);
    CallsSoFar(w, q);
  }

  /** The reply to a query settles it: its callback gets what the reply says, and an address is
      put into the entry. */
  lemma ReplySettles(w: World, b: seq<byte>, q: nat)
    requires Inv(w) && Accepted(w, b, q)
    ensures q < |w.asked| && Settled(Recv(w, b), q, w.asked[q], Reply(w, b, q))
    ensures var e, r := Recv(w, b).table[U8(Read16(b, 0))], Reply(w, b, q);
            if r.Found? then e.state.DONE? && e.query == q && e.name == w.asked[q].name && e.ipaddr == r.addr
            else e.state.UNUSED?
  {
    hide Verdict, Read16, U8, CallsFor, CallsOk, DistinctQueries;
    var i := U8(Read16(b, 0));
    var e, r := w.table[i], Reply(w, b, q);
    assert EntryOk(e, w.asked, w.servers, w.replies);
    assert Waiting(w.table, q);
    CallsSoFar(w, q);
    OneMoreCall(w.calls, e, r, q);
    assert CallsFor(w.calls, q) == [];
  }

  /** Over every run: if step k is the reply to query q, its callback has been made with what
      that says from then on, once. */
  lemma {:induction false} AnsweredForGood(w: World, steps: seq<Step>, k: nat, q: nat)
    requires Init(w) && k < |steps| && steps[k].Packet? && Accepted(Run(w, steps[..k]), steps[k].b, q)
    ensures var before := Run(w, steps[..k]);
            q < |before.asked| && Settled(Run(w, steps), q, before.asked[q], Reply(before, steps[k].b, q))
    decreases |steps|
  {
    hide Apply, Inv, Init, Accepted, Settled;
    var n := |steps| - 1;
    RunInv(w, steps[..n]);
    AcceptedAnswers(Run(w, steps[..k]), steps[k].b, q);
    if k == n {
      ReplyStep(Run(w, steps[..n]), steps[n]);
      ReplySettles(Run(w, steps[..n]), steps[n].b, q);
    } else {
      assert steps[..n][..k] == steps[..k];
      AnsweredForGood(w, steps[..n], k, q);
      var before := Run(w, steps[..k]);
      StaysSettled(Run(w, steps[..n]), steps[n], q, before.asked[q], Reply(before, steps[k].b, q));
    }
  }

  lemma AcceptedAnswers(w: World, b: seq<byte>, q: nat)
    requires Accepted(w, b, q)
    ensures Answers(w, b, q)
  {
  }

  lemma ReplyStep(w: World, s: Step)
    requires s.Packet?
    ensures Apply(w, s) == Recv(w, s.b)
  {
  }

  // ---------------------------------------------------------------- packets

  lemma StepAsks(w: World, s: Step, j: nat)
    requires Inv(w) && |w.sent| <= j < |Apply(w, s).sent|
    ensures Asks(Apply(w, s), Apply(w, s).sent[j])
  {
    hide CallsOk, Tick, Verdict, Read16, U8, Lookup, Place;
    if s.Timer? {
      TickAsks(w, j);
    }
  }

  lemma SentGrows(w: World, s: Step)
    ensures w.sent <= Apply(w, s).sent
  {
    hide Tick, Verdict, Read16, Place, Lookup, Called;
    if s.Timer? {
      TickAdds(w, |w.table|);
    }
  }

  /** Over every run: each packet was sent in a step k for an entry that was then asking for its
      name, under the number of that entry, and to the server that it was asking: one that is set. */
  lemma {:induction false} PacketsAsk(w: World, steps: seq<Step>, j: nat) returns (k: nat)
    requires Init(w) && j < |Run(w, steps).sent|
    ensures k < |steps| && Asks(Run(w, steps[..k + 1]), Run(w, steps).sent[j]) && Run(w, steps).sent[j].to != 0
    decreases |steps|
  {
    hide Apply, Inv, Asks, Init;
    assert steps != [] by {
      NoCallsAtFirst(w);
    }
    var n := |steps| - 1;
    var before := Run(w, steps[..n]);
    RunInv(w, steps[..n]);
    RunInv(w, steps);
    SentGrows(before, steps[n]);
    if j < |before.sent| {
      k := PacketsAsk(w, steps[..n], j);
      assert steps[..n][..k + 1] == steps[..k + 1];
    } else {
      k := n;
      StepAsks(before, steps[n], j);
      assert steps[..k + 1] == steps;
      ServerIsSet(Run(w, steps), Run(w, steps).sent[j]);
    }
  }

  lemma ServerIsSet(w: World, d: Datagram)
    requires Inv(w) && Asks(w, d)
    ensures d.to != 0
  {
    assert EntryOk(w.table[d.id], w.asked, w.servers, w.replies);
  }

  /** The last address that dns_setserver was given for place n, or the first one. */
  function LastSet(steps: seq<Step>, n: nat, first: u32): u32 {
    if steps == [] then first
    else
      var s := steps[|steps| - 1];
      if s.Server? && s.numdns == n && s.addr != 0 then s.addr else LastSet(steps[..|steps| - 1], n, first)
  }

  /** And the servers are those that were set. */
  lemma {:induction false} ServersAreSet(w: World, steps: seq<Step>, n: nat)
    requires Init(w) && n < DNS_MAX_SERVERS
    ensures |Run(w, steps).servers| == DNS_MAX_SERVERS
    ensures Run(w, steps).servers[n] == LastSet(steps, n, w.servers[n])
    decreases |steps|
  {
    RunInv(w, steps);
    if steps != [] {
      ServersAreSet(w, steps[..|steps| - 1], n);
    }
  }

  /** strcpy of a name into name[]: the name and its zero, and behind them what was there. */
  lemma CopiedName(e: Entry, seqno: byte, name: seq<byte>, found: bool, arg: int, query: nat)
    ensures var e' := NewEntry(e, seqno, name, found, arg, query);
            |name| < |Text(e')| && Text(e')[..|name|] == name && Text(e')[|name|] == 0 &&
            (forall k :: |name| < k < |Text(e')| ==> k < |Text(e)| && Text(e')[k] == Text(e)[k]) &&
            |Text(e')| >= |Text(e)|
  {
  }

  // ---------------------------------------------------------------- dns_gethostbyname

  /** The first completed entry for a name. */
  predicate Serves(table: seq<Entry>, i: nat, name: seq<byte>) {
    i < |table| && table[i].state.DONE? && table[i].name == name &&
    forall j :: 0 <= j < i ==> !(table[j].state.DONE? && table[j].name == name)
  }

  /** The address that it has is one that can be served. */
  ghost predicate InTable(table: seq<Entry>, name: seq<byte>, addr: seq<byte>) {
    addr != INADDR_NONE && exists i: nat :: Serves(table, i, name) && table[i].ipaddr == addr
  }

  lemma {:induction false} LookupIsFirst(table: seq<Entry>, name: seq<byte>) returns (i: nat)
    ensures i <= |table|
    ensures if i < |table| then Serves(table, i, name) && Lookup(table, name) == table[i].ipaddr
            else Lookup(table, name) == INADDR_NONE && forall j :: 0 <= j < |table| ==> !Serves(table, j, name)
    decreases |table|
  {
    if table == [] || (table[0].state.DONE? && name == table[0].name) {
      i := 0;
    } else {
      i := LookupIsFirst(table[1..], name);
      i := i + 1;
      forall j | 0 <= j < |table| && i == |table| ensures !Serves(table, j, name) {
        if j > 0 && Serves(table, j, name) {
          assert Serves(table[1..], j - 1, name);
        }
      }
    }
  }

  lemma ServesOnlyOne(table: seq<Entry>, i: nat, j: nat, name: seq<byte>)
    requires Serves(table, i, name) && Serves(table, j, name)
    ensures i == j
  {
  }

  lemma LookupIsCached(table: seq<Entry>, name: seq<byte>, addr: seq<byte>)
    ensures InTable(table, name, addr) <==> addr != INADDR_NONE && Lookup(table, name) == addr
  {
    var i := LookupIsFirst(table, name);
    if i < |table| {
      forall j: nat | Serves(table, j, name) ensures j == i {
        ServesOnlyOne(table, i, j, name);
      }
    }
  }

  predicate LegalName(name: seq<byte>) { 0 < |name| < DNS_MAX_NAME_LENGTH }

  /** dns_gethostbyname answers with an address exactly if the name is legal and that is the
      address that the name itself denotes, or else the one of the first completed entry for
      that very name; then it changes nothing. It refuses exactly the illegal names, and takes a
      query exactly for the others, if there is a place for it. */
  lemma Resolves(w: World, name: seq<byte>, literal: seq<byte>, found: bool, arg: int)
    ensures var (w', result) := GetHostByName(w, name, literal, found, arg);
            (result.ERR_VAL? <==> !LegalName(name)) &&
            (forall addr :: result == ERR_OK(addr) <==>
               LegalName(name) && if literal != INADDR_NONE then addr == literal else InTable(w.table, name, addr)) &&
            (!result.ERR_INPROGRESS? ==> w' == w) &&
            (result.ERR_INPROGRESS? ==> w'.asked == w.asked + [Query(name, found, arg)]) &&
            (result.ERR_INPROGRESS? || result.ERR_MEM? <==>
               LegalName(name) && literal == INADDR_NONE && forall addr :: !InTable(w.table, name, addr)) &&
            (result.ERR_MEM? ==> Place(w.table, w.seqno) >= |w.table|)
  {
    hide InTable, Place, CheckEntry;
    forall addr ensures InTable(w.table, name, addr) <==> addr != INADDR_NONE && Lookup(w.table, name) == addr {
      LookupIsCached(w.table, name, addr);
    }
    hide Lookup;
    assert InTable(w.table, name, Lookup(w.table, name)) <==> Lookup(w.table, name) != INADDR_NONE;
  }

  /** Over every run, an address from the table is fresh: it is the first address of the reply
      that completed an entry for a query of that name, fewer ticks ago than its time to live
      allows (as long as that is not zero). */
  lemma AnswerIsFresh(w: World, steps: seq<Step>, name: seq<byte>, literal: seq<byte>, found: bool, arg: int)
      returns (q: nat, i: nat, k: nat, behind: seq<byte>, r: Address)
    requires Init(w) && literal == INADDR_NONE && GetHostByName(Run(w, steps), name, literal, found, arg).1.ERR_OK?
    ensures var now := Run(w, steps);
            q < |now.asked| && now.asked[q].name == name && CompletedAt(w, steps, k, i, q) &&
            name + [0] + behind == TextAt(w, steps, k, i) &&
            r == Verdict(steps[k].b, name + [0] + behind, DNS_DOES_NAME_CHECK) && r.Found? &&
            GetHostByName(now, name, literal, found, arg).1 == ERR_OK(r.addr) &&
            var ticks := NumTimers(steps[k + 1..]);
            ticks < Lifetime(r.ttl) && (r.ttl > 0 ==> ticks < r.ttl && ticks < DNS_MAX_TTL)
  {
    var now := Run(w, steps);
    assert Lookup(now.table, name) != INADDR_NONE;
    q, i, k, behind, r := ServedAddressIsFresh(w, steps, name);
  }
}
