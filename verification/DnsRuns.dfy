/** What the resolver (src/core/dns.c) does over whole runs: how old an address is that it
    serves, when a query fails, and which entry is given away. */
module DnsRuns {
  import opened DnsName
  import opened DnsReply
  import opened DnsResolver
  import opened DnsTiming
  import opened Memory

  // ---------------------------------------------------------------- the cache

  /** The entry that dns_lookup answers from. */
  lemma {:induction false} LookupFinds(table: seq<Entry>, name: seq<byte>) returns (i: nat)
    requires Lookup(table, name) != INADDR_NONE
    ensures i < |table| && table[i].state.DONE? && table[i].name == name && table[i].ipaddr == Lookup(table, name)
    decreases |table|
  {
    if table[0].state.DONE? && name == table[0].name {
      i := 0;
    } else {
      i := LookupFinds(table[1..], name);
      i := i + 1;
    }
  }

  /** The calls of dns_tmr among the steps. */
  function NumTimers(steps: seq<Step>): nat {
    if steps == [] then 0
    else NumTimers(steps[..|steps| - 1]) + if steps[|steps| - 1].Timer? then 1 else 0
  }

  /** Step k of a run is the reply that completes entry i for query q. */
  ghost predicate CompletedAt(w: World, steps: seq<Step>, k: nat, i: nat, q: nat) {
    k < |steps| && steps[k].Packet? &&
    var before, after := Run(w, steps[..k]), Run(w, steps[..k + 1]);
    i < |before.table| == |after.table| &&
    before.table[i].state.ASKING? && before.table[i].query == q &&
    after.table[i].state.DONE? && after.table[i].query == q &&
    q in after.replies && after.replies[q] == steps[k].b
  }

  /** The bytes of name[] in entry i when step k came. */
  function TextAt(w: World, steps: seq<Step>, k: nat, i: nat): seq<byte> {
    var before := if k < |steps| then Run(w, steps[..k]) else w;
    if i < |before.table| then Text(before.table[i]) else []
  }

  /** The same entry for the same query, with the same name and address. */
  predicate SameAnswer(e: Entry, e': Entry) {
    e'.query == e.query && e'.name == e.name && e'.behind == e.behind && e'.ipaddr == e.ipaddr
  }

  /** How a step can leave a completed entry: as it was, a tick older, or just completed. */
  lemma StepLeavesDone(w: World, s: Step, i: nat)
    requires Inv(w) && i < |w.table| && |Apply(w, s).table| == |w.table| && Apply(w, s).table[i].state.DONE?
    ensures var w' := Apply(w, s);
            var e, e' := w.table[i], w'.table[i];
            e'.query in w'.replies &&
            if e.state.DONE? then
              SameAnswer(e, e') && e'.age == e.age + (if s.Timer? then 1 else 0) &&
              e.query in w.replies && w'.replies[e.query] == w.replies[e.query]
            else
              s.Packet? && e.state.ASKING? && e'.query == e.query && e'.age == 0 && w'.replies[e'.query] == s.b &&
              e'.name == e.name && e'.behind == e.behind
  {
    hide CallsOk, Verdict, Tick, Read16, U8, Lookup, Place;
    assert EntryOk(w.table[i], w.asked, w.servers, w.replies);
    match s
    case Timer =>
      TickIsPerEntry(w, |w.table|, i);
      TickKeepsReplies(w, |w.table|);
    case Packet(b) => RecvLeavesDone(w, b, i);
    case Resolve(name, literal, found, arg) =>
    case Server(numdns, addr) =>
  }

  lemma RecvLeavesDone(w: World, b: seq<byte>, i: nat)
    requires Inv(w) && i < |w.table| && |Recv(w, b).table| == |w.table| && Recv(w, b).table[i].state.DONE?
    ensures var w' := Recv(w, b);
            var e, e' := w.table[i], w'.table[i];
            e'.query in w'.replies &&
            if e.state.DONE? then
              e' == e && e.query in w.replies && w'.replies[e.query] == w.replies[e.query]
            else
              e.state.ASKING? && e'.query == e.query && e'.age == 0 && w'.replies[e'.query] == b &&
              e'.name == e.name && e'.behind == e.behind
  {
    hide CallsOk, Verdict, Read16, U8;
    assert EntryOk(w.table[i], w.asked, w.servers, w.replies);
  }

  lemma {:induction false} TickKeepsReplies(w: World, n: nat)
    requires n <= |w.table|
    ensures Tick(w, n).replies == w.replies && Tick(w, n).asked == w.asked && Tick(w, n).seqno == w.seqno
  {
    if n > 0 {
      TickKeepsReplies(w, n - 1);
    }
  }

  lemma {:induction false} TableLength(w: World, steps: seq<Step>)
    requires Init(w)
    ensures |Run(w, steps).table| == |w.table| == DNS_TABLE_SIZE
  {
    RunInv(w, steps);
  }

  /** The age of a completed entry counts the timer calls since the reply that completed it. */
  lemma {:induction false} AgeCountsTimers(w: World, steps: seq<Step>, i: nat) returns (k: nat)
    requires Init(w) && i < |Run(w, steps).table| && Run(w, steps).table[i].state.DONE?
    ensures var now := Run(w, steps);
            var e := now.table[i];
            CompletedAt(w, steps, k, i, e.query) && e.query in now.replies && now.replies[e.query] == steps[k].b &&
            e.age == NumTimers(steps[k + 1..]) && TextAt(w, steps, k, i) == Text(e)
    decreases |steps|
  {
    NotAtStart(w, steps, i);
    hide Inv, Init, Apply, CompletedAt, NumTimers, TextAt;
    var n := |steps| - 1;
    var before, s := Run(w, steps[..n]), steps[n];
    RunInv(w, steps[..n]);
    TableLength(w, steps[..n]);
    TableLength(w, steps);
    StepLeavesDone(before, s, i);
    if before.table[i].state.DONE? {
      k := AgeCountsTimers(w, steps[..n], i);
      LaterStep(w, steps, n, k, i, before.table[i].query);
    } else {
      k := n;
      JustCompleted(w, steps, i);
    }
  }

  lemma NotAtStart(w: World, steps: seq<Step>, i: nat)
    requires Init(w) && i < |Run(w, steps).table| && !Run(w, steps).table[i].state.UNUSED?
    ensures steps != []
  {
  }

  lemma LaterStep(w: World, steps: seq<Step>, n: nat, k: nat, i: nat, q: nat)
    requires |steps| == n + 1 && CompletedAt(w, steps[..n], k, i, q)
    ensures CompletedAt(w, steps, k, i, q) && steps[..n][k] == steps[k]
    ensures NumTimers(steps[k + 1..]) == NumTimers(steps[..n][k + 1..]) + if steps[n].Timer? then 1 else 0
    ensures TextAt(w, steps, k, i) == TextAt(w, steps[..n], k, i)
  {
    hide Run;
    assert steps[..n][..k] == steps[..k] && steps[..n][..k + 1] == steps[..k + 1];
    assert steps[k + 1..][..n - k - 1] == steps[..n][k + 1..];
  }

  lemma JustCompleted(w: World, steps: seq<Step>, i: nat)
    requires steps != [] && steps[|steps| - 1].Packet?
    requires var before, now := Run(w, steps[..|steps| - 1]), Run(w, steps);
             i < |before.table| == |now.table| && before.table[i].state.ASKING? && now.table[i].state.DONE? &&
             now.table[i].query == before.table[i].query && now.table[i].query in now.replies &&
             now.replies[now.table[i].query] == steps[|steps| - 1].b
    ensures CompletedAt(w, steps, |steps| - 1, i, Run(w, steps).table[i].query)
    ensures NumTimers(steps[|steps|..]) == 0
    ensures TextAt(w, steps, |steps| - 1, i) == Text(Run(w, steps[..|steps| - 1]).table[i])
  {
    hide Run;
    assert steps[..|steps|] == steps;
  }

  /** An address served from the table is the first address of the reply that completed an
      entry for a query of exactly that name, compared with that name and what stood behind it
      in name[]. Since that reply the timer has been called fewer times than its time to live,
      cut to DNS_MAX_TTL, allows: as long as that is not zero, for then the counter wraps
      around first. */
  lemma ServedAddressIsFresh(w: World, steps: seq<Step>, name: seq<byte>)
      returns (q: nat, i: nat, k: nat, behind: seq<byte>, r: Address)
    requires Init(w) && Lookup(Run(w, steps).table, name) != INADDR_NONE
    ensures var now := Run(w, steps);
            q < |now.asked| && now.asked[q].name == name && CompletedAt(w, steps, k, i, q) &&
            name + [0] + behind == TextAt(w, steps, k, i) &&
            r == Verdict(steps[k].b, name + [0] + behind, DNS_DOES_NAME_CHECK) && r.Found? &&
            r.addr == Lookup(now.table, name) &&
            var ticks := NumTimers(steps[k + 1..]);
            ticks < Lifetime(r.ttl) && (r.ttl > 0 ==> ticks < r.ttl && ticks < DNS_MAX_TTL)
  {
    var now := Run(w, steps);
    RunInv(w, steps);
    i := LookupFinds(now.table, name);
    k := AgeCountsTimers(w, steps, i);
    hide Verdict, Lookup, CallsOk, DistinctQueries, CompletedAt, Run, TextAt;
    var e := now.table[i];
    assert EntryOk(e, now.asked, now.servers, now.replies) && Belongs(e, now.asked);
    q, behind, r := e.query, e.behind, Verdict(now.replies[e.query], Text(e), DNS_DOES_NAME_CHECK);
    CompletedIsPacket(w, steps, k, i, q);
  }

  lemma CompletedIsPacket(w: World, steps: seq<Step>, k: nat, i: nat, q: nat)
    requires CompletedAt(w, steps, k, i, q)
    ensures k < |steps| && steps[k].Packet?
  {
  }

  // ---------------------------------------------------------------- the failure of a query

  /** The callbacks made for query q. */
  function CallsFor(calls: seq<Callback>, q: nat): seq<Callback> {
    if calls == [] then []
    else
      var c := calls[|calls| - 1];
      CallsFor(calls[..|calls| - 1], q) + if c.query == q then [c] else []
  }

  lemma OneMoreCall(calls: seq<Callback>, e: Entry, r: Address, q: nat)
    ensures CallsFor(calls + Called(e, r), q) == CallsFor(calls, q) + if e.query == q then Called(e, r) else []
  {
    if e.found {
      assert (calls + Called(e, r))[..|calls|] == calls;
    } else {
      assert calls + [] == calls;
    }
  }

  /** No other entry works for the query of entry i. */
  predicate Alone(table: seq<Entry>, i: nat)
    requires i < |table|
  {
    forall j :: 0 <= j < |table| && j != i && IsUsed(table[j]) ==> table[j].query != table[i].query
  }

  /** The packets that all entries send in n ticks. */
  function SentByAll(table: seq<Entry>, servers: seq<u32>, n: nat): nat {
    if table == [] then 0
    else SentByAll(table[..|table| - 1], servers, n) + SentBy(table[|table| - 1], servers, n)
  }

  lemma CheckKeepsQuery(e: Entry, servers: seq<u32>)
    ensures var e' := CheckEntry(e, servers);
            e'.query == e.query && e'.name == e.name && e'.arg == e.arg && (IsUsed(e') ==> IsUsed(e) || e.state.NEW?)
    ensures TimesOut(e, servers) ==> IsUsed(e)
  {
  }

  /** One call of dns_tmr makes the callbacks for a query that its own entry makes. */
  lemma {:induction false} TickCalls(w: World, n: nat, i: nat)
    requires i < |w.table| && n <= |w.table| && Alone(w.table, i)
    ensures CallsFor(Tick(w, n).calls, w.table[i].query) ==
            CallsFor(w.calls, w.table[i].query) +
            if i < n && TimesOut(w.table[i], w.servers) then Called(w.table[i], NoAddress) else []
  {
    hide CheckEntry, TimesOut, Called, CallsFor, Alone, CheckAt;
    if n == 0 {
      assert CallsFor(w.calls, w.table[i].query) + [] == CallsFor(w.calls, w.table[i].query);
    } else {
      TickCalls(w, n - 1, i);
      TickIsPerEntry(w, n - 1, n - 1);
      CheckAtCalls(Tick(w, n - 1), w, n - 1, i);
      var so := CallsFor(w.calls, w.table[i].query);
      var c := Called(w.table[i], NoAddress);
      assert so + [] + [] == so + [] && so + [] + c == so + c && so + c + [] == so + c;
    }
  }

  /** An entry makes the callbacks for its own query, and for no other. */
  lemma CheckAtCalls(before: World, w: World, m: nat, i: nat)
    requires i < |w.table| && Alone(w.table, i) && m < |w.table| == |before.table| && before.table[m] == w.table[m]
    requires before.servers == w.servers
    ensures CallsFor(CheckAt(before, m).calls, w.table[i].query) ==
            CallsFor(before.calls, w.table[i].query) +
            if m == i && TimesOut(w.table[i], w.servers) then Called(w.table[i], NoAddress) else []
  {
    hide CheckEntry, TimesOut, Called, CallsFor;
    var e := w.table[m];
    CheckKeepsQuery(e, w.servers);
    OneMoreCall(before.calls, e, NoAddress, w.table[i].query);
    assert before.calls + [] == before.calls;
    assert CallsFor(before.calls, w.table[i].query) + [] == CallsFor(before.calls, w.table[i].query);
  }

  lemma {:induction false} TickSent(w: World, n: nat)
    requires n <= |w.table|
    ensures |Tick(w, n).sent| == |w.sent| + SentByAll(w.table[..n], w.servers, 1)
  {
    hide CheckEntry, Sends;
    if n > 0 {
      TickSent(w, n - 1);
      TickIsPerEntry(w, n - 1, n - 1);
      var e := w.table[n - 1];
      assert w.table[..n][..n - 1] == w.table[..n - 1];
      assert SentBy(e, w.servers, 1) == SentBy(e, w.servers, 0) + if Sends(AfterTicks(e, w.servers, 0)) then 1 else 0;
    }
  }

  /** The packets of the table in one more tick. */
  lemma {:induction false} OneMoreTick(table: seq<Entry>, now: seq<Entry>, servers: seq<u32>, n: nat)
    requires |now| == |table| && n > 0
    requires forall j :: 0 <= j < |table| ==> now[j] == AfterTicks(table[j], servers, n - 1)
    ensures SentByAll(table, servers, n) == SentByAll(table, servers, n - 1) + SentByAll(now, servers, 1)
    decreases |table|
  {
    hide CheckEntry, Sends;
    if table != [] {
      var m := |table| - 1;
      OneMoreTick(table[..m], now[..m], servers, n);
      SentInOneTick(table[m], now[m], servers, n);
    }
  }

  lemma SentInOneTick(e: Entry, now: Entry, servers: seq<u32>, n: nat)
    requires n > 0 && now == AfterTicks(e, servers, n - 1)
    ensures SentBy(e, servers, n) == SentBy(e, servers, n - 1) + SentBy(now, servers, 1)
  {
    hide CheckEntry, Sends;
    assert AfterTicks(now, servers, 0) == now && SentBy(now, servers, 0) == 0;
  }

  lemma {:induction false} NothingSent(table: seq<Entry>, servers: seq<u32>)
    ensures SentByAll(table, servers, 0) == 0
  {
    if table != [] {
      NothingSent(table[..|table| - 1], servers);
    }
  }

  lemma {:induction false} TimersSent(w: World, n: nat)
    ensures |Run(w, Timers(n)).sent| == |w.sent| + SentByAll(w.table, w.servers, n)
    ensures |Run(w, Timers(n)).table| == |w.table| && Run(w, Timers(n)).servers == w.servers
  {
    hide CheckEntry, Tick, SentByAll;
    if n == 0 {
      NothingSent(w.table, w.servers);
    } else {
      TimersSent(w, n - 1);
      var before, steps := Run(w, Timers(n - 1)), Timers(n);
      assert steps[..n - 1] == Timers(n - 1) && steps[n - 1] == Timer;
      forall j | 0 <= j < |w.table| ensures before.table[j] == AfterTicks(w.table[j], w.servers, n - 1) {
        TimersOnly(w, n - 1, j);
      }
      OneMoreTick(w.table, before.table, w.servers, n);
      TickSent(before, |before.table|);
      assert before.table[..|before.table|] == before.table;
    }
  }

  /** The ticks that a query gets from k servers. */
  function FailureTick(k: nat): nat {
    var r: int := DNS_MAX_RETRIES;
    k * (1 + r * (r - 1) / 2)
  }

  // ---------------------------------------------------------------- whatever else happens

  /** A packet that is taken for the reply to query q. */
  predicate Answers(w: World, b: seq<byte>, q: nat) {
    var i := U8(Read16(b, 0));
    i < |w.table| && w.table[i].state.ASKING? && w.table[i].query == q
  }

  /** A step that neither answers query q nor makes it other than k servers. */
  predicate Undisturbed(w: World, s: Step, q: nat, k: nat) {
    (s.Packet? ==> !Answers(w, s.b, q)) && (s.Server? ==> Consecutive(Apply(w, s).servers, k))
  }

  /** So are all steps of a run that come before its tick t. */
  predicate UndisturbedUntil(w: World, steps: seq<Step>, q: nat, k: nat, t: nat) {
    forall j :: 0 <= j < |steps| && NumTimers(steps[..j]) < t ==> Undisturbed(Run(w, steps[..j]), steps[j], q, k)
  }

  /** Entry i asks for query q, and will for t ticks more. */
  predicate AsksFor(w: World, i: nat, q: nat, k: nat, t: nat) {
    i < |w.table| && w.table[i].query == q && Counting(w.table[i], w.servers, k) && TicksLeft(w.table[i], k) == t
  }

  lemma TimerAsks(w: World, i: nat, q: nat, k: nat, t: nat)
    requires Inv(w) && AsksFor(w, i, q, k, t)
    ensures var w' := Apply(w, Timer);
            t >= 1 && if t > 1 then AsksFor(w', i, q, k, t - 1)
                      else CallsFor(w'.calls, q) == CallsFor(w.calls, q) + Called(w.table[i], NoAddress)
  {
    hide TicksLeft, Counting, CallsFor, Tick, CallsOk, CheckEntry, TimesOut;
    var e := w.table[i];
    TickCounts(e, w.servers, k);
    TickIsPerEntry(w, |w.table|, i);
    CountingAsks(e, w.servers, k);
    TickCalls(w, |w.table|, i);
    CheckKeepsQuery(e, w.servers);
  }

  lemma CountingAsks(e: Entry, servers: seq<u32>, k: nat)
    requires Counting(e, servers, k)
    ensures e.state.ASKING?
  {
  }

  /** Anything but a tick leaves the entry alone. */
  lemma OthersKeepAsking(w: World, s: Step, i: nat, q: nat, k: nat, t: nat)
    requires Inv(w) && AsksFor(w, i, q, k, t) && Undisturbed(w, s, q, k) && !s.Timer?
    ensures AsksFor(Apply(w, s), i, q, k, t)
  {
    hide TicksLeft, CallsOk, Verdict, Read16, Place, Lookup;
    match s
    case Resolve(name, literal, found, arg) =>
      if Place(w.table, w.seqno) < |w.table| {
        PlaceIsFree(w.table, w.seqno);
      }
    case Packet(b) =>
    case Server(numdns, addr) =>
  }

  /** Queries and callbacks are only ever added. */
  lemma HistoryGrows(w: World, s: Step)
    ensures w.asked <= Apply(w, s).asked && w.calls <= Apply(w, s).calls
  {
    hide Tick, Verdict, Read16, Place, Lookup, Called;
    if s.Timer? {
      TickGrows(w, |w.table|);
    }
  }

  lemma {:induction false} TickGrows(w: World, n: nat)
    requires n <= |w.table|
    ensures w.asked == Tick(w, n).asked && w.calls <= Tick(w, n).calls
  {
    if n > 0 {
      TickGrows(w, n - 1);
    }
  }

  lemma {:induction false} CallsForLength(calls: seq<Callback>, q: nat)
    ensures |CallsFor(calls, q)| == NumCalls(calls, q)
  {
    if calls != [] {
      CallsForLength(calls[..|calls| - 1], q);
    }
  }

  lemma {:induction false} CallsForGrows(a: seq<Callback>, b: seq<Callback>, q: nat)
    requires a <= b
    ensures CallsFor(a, q) <= CallsFor(b, q)
    decreases |b|
  {
    if |a| < |b| {
      CallsForGrows(a, b[..|b| - 1], q);
    } else {
      assert a == b;
    }
  }

  /** The number of callbacks that a query may have had. */
  lemma CallsSoFar(w: World, q: nat)
    requires Inv(w) && q < |w.asked|
    ensures |CallsFor(w.calls, q)| == if w.asked[q].found && !Waiting(w.table, q) then 1 else 0
  {
    hide Waiting, TableOk;
    CallsForLength(w.calls, q);
  }

  lemma NoCallsWhileAsking(w: World, i: nat, q: nat, k: nat, t: nat)
    requires Inv(w) && AsksFor(w, i, q, k, t) && q < |w.asked|
    ensures CallsFor(w.calls, q) == []
  {
    hide TableOk, CallsOk;
    CallsSoFar(w, q);
    assert Waiting(w.table, q);
  }

  /** What has become of query q after n ticks: it is still being asked for, or it has failed. */
  predicate Fails(w: World, i: nat, q: nat, query: Query, k: nat, n: nat) {
    q < |w.asked| && w.asked[q] == query &&
    if n < FailureTick(k) then AsksFor(w, i, q, k, FailureTick(k) - n)
    else CallsFor(w.calls, q) == if query.found then [Callback(q, query.name, query.arg, NoAddress)] else []
  }

  lemma FailsOn(w: World, s: Step, i: nat, q: nat, query: Query, k: nat, n: nat)
    requires Inv(w) && Fails(w, i, q, query, k, n) && (n < FailureTick(k) ==> Undisturbed(w, s, q, k))
    ensures Fails(Apply(w, s), i, q, query, k, n + if s.Timer? then 1 else 0)
  {
    hide Inv, Apply, CallsFor, AsksFor, Undisturbed, FailureTick;
    var w' := Apply(w, s);
    HistoryGrows(w, s);
    ApplyPreserves(w, s);
    if n >= FailureTick(k) {
      CallsForGrows(w.calls, w'.calls, q);
      CallsSoFar(w', q);
    } else if s.Timer? {
      NoCallsWhileAsking(w, i, q, k, FailureTick(k) - n);
      TimerAsks(w, i, q, k, FailureTick(k) - n);
      OwnCallback(w, i, q, k, FailureTick(k) - n);
    } else {
      OthersKeepAsking(w, s, i, q, k, FailureTick(k) - n);
    }
  }

  lemma OwnCallback(w: World, i: nat, q: nat, k: nat, t: nat)
    requires Inv(w) && AsksFor(w, i, q, k, t) && q < |w.asked|
    ensures i < |w.table|
    ensures var query := w.asked[q];
            Called(w.table[i], NoAddress) ==
            if query.found then [Callback(q, query.name, query.arg, NoAddress)] else []
  {
    assert EntryOk(w.table[i], w.asked, w.servers, w.replies);
  }

  lemma {:induction false} FailsInRun(w: World, steps: seq<Step>, i: nat, q: nat, query: Query, k: nat)
    requires Inv(w) && Fails(w, i, q, query, k, 0)
    requires UndisturbedUntil(w, steps, q, k, FailureTick(k))
    ensures Inv(Run(w, steps)) && Fails(Run(w, steps), i, q, query, k, NumTimers(steps))
    decreases |steps|
  {
    hide Inv, Apply, Fails, Undisturbed, FailureTick, UndisturbedUntil, NumTimers;
    NumTimersIs(steps);
    if steps != [] {
      var n := |steps| - 1;
      UndisturbedBefore(w, steps, q, k, FailureTick(k));
      FailsInRun(w, steps[..n], i, q, query, k);
      FailsOn(Run(w, steps[..n]), steps[n], i, q, query, k, NumTimers(steps[..n]));
      ApplyPreserves(Run(w, steps[..n]), steps[n]);
    }
  }

  lemma NumTimersIs(steps: seq<Step>)
    ensures NumTimers(steps) ==
            if steps == [] then 0 else NumTimers(steps[..|steps| - 1]) + if steps[|steps| - 1].Timer? then 1 else 0
  {
  }

  lemma UndisturbedBefore(w: World, steps: seq<Step>, q: nat, k: nat, t: nat)
    requires steps != [] && UndisturbedUntil(w, steps, q, k, t)
    ensures var n := |steps| - 1;
            UndisturbedUntil(w, steps[..n], q, k, t) &&
            (NumTimers(steps[..n]) < t ==> Undisturbed(Run(w, steps[..n]), steps[n], q, k))
  {
    hide Undisturbed, Run, NumTimers;
    var before := steps[..|steps| - 1];
    assert forall j :: 0 <= j < |before| ==> before[..j] == steps[..j] && before[j] == steps[j];
  }

  /** The first tick of a query, and the packets of its entry. */
  lemma Begins(e: Entry, servers: seq<u32>, k: nat)
    requires e.state.NEW? && Consecutive(servers, k)
    ensures FailureTick(k) >= 1 && Counting(CheckEntry(e, servers), servers, k)
    ensures TicksLeft(CheckEntry(e, servers), k) == FailureTick(k)
    ensures var r: int := DNS_MAX_RETRIES;
            1 + SentBy(CheckEntry(e, servers), servers, FailureTick(k)) == r + (k - 1) * (r - 1)
  {
    hide TicksLeft, Counting, CheckEntry, Consecutive;
    StartsCounting(e, servers, k);
    GivesUpExactly(e, servers, k, 0);
    FreshEntry(e, servers);
    StartsWith(CheckEntry(e, servers), k);
  }

  lemma FreshEntry(e: Entry, servers: seq<u32>)
    requires e.state.NEW?
    ensures var e' := CheckEntry(e, servers); e'.numdns == 0 && e'.tmr == 1 && e'.retries == 0
  {
  }

  lemma {:induction false} NoCallsFor(calls: seq<Callback>, asked: seq<Query>)
    requires forall k :: 0 <= k < |calls| ==> OwnCall(calls[k], asked)
    ensures CallsFor(calls, |asked|) == []
  {
    if calls != [] {
      NoCallsFor(calls[..|calls| - 1], asked);
    }
  }

  /** A query that is accepted while k servers are set has its failure callback made on exactly
      the (k * (1 + R * (R - 1) / 2))-th tick, once and for good, in every run in which until
      then no packet is taken for a reply to it and there remain k servers: other queries, their
      replies and changes of servers may come in between. */
  lemma QueryFailsOnTime(w: World, name: seq<byte>, found: bool, arg: int, k: nat, steps: seq<Step>)
    requires Inv(w) && Consecutive(w.servers, k) && Enqueue(w, name, found, arg).1.ERR_INPROGRESS?
    requires UndisturbedUntil(Enqueue(w, name, found, arg).0, steps, |w.asked|, k, FailureTick(k))
    ensures var now, q := Run(Enqueue(w, name, found, arg).0, steps), |w.asked|;
            CallsFor(now.calls, q) ==
            if NumTimers(steps) >= FailureTick(k) && found then [Callback(q, name, arg, NoAddress)] else []
  {
    hide Inv, Place, CallsFor, CheckEntry, FailureTick, Consecutive, Run, Called, UndisturbedUntil, TicksLeft, Counting;
    var w1, i, q := Enqueue(w, name, found, arg).0, Place(w.table, w.seqno), |w.asked|;
    Enqueued(w, name, found, arg);
    EnqueuePreserves(w, name, found, arg);
    Begins(NewEntry(w.table[i], w.seqno, name, found, arg, q), w.servers, k);
    FailsInRun(w1, steps, i, q, Query(name, found, arg), k);
    if NumTimers(steps) < FailureTick(k) {
      NoCallsWhileAsking(Run(w1, steps), i, q, k, FailureTick(k) - NumTimers(steps));
    }
  }

  /** The packets until then: R + (k - 1) * (R - 1) for the query, and all that are counted in
      n ticks are those of the entries. */
  lemma PacketsOfQuery(w: World, name: seq<byte>, found: bool, arg: int, k: nat, n: nat)
    requires Inv(w) && Consecutive(w.servers, k) && Enqueue(w, name, found, arg).1.ERR_INPROGRESS?
    ensures var w1, i := Enqueue(w, name, found, arg).0, Place(w.table, w.seqno);
            var r := DNS_MAX_RETRIES as int;
            |Run(w1, Timers(n)).sent| == |w.sent| + 1 + SentByAll(w1.table, w1.servers, n) && i < |w1.table| &&
            1 + SentBy(w1.table[i], w1.servers, FailureTick(k)) == r + (k - 1) * (r - 1)
  {
    hide Inv, Place, SentByAll, SentBy, CheckEntry, FailureTick, Consecutive, Run;
    Enqueued(w, name, found, arg);
    Begins(NewEntry(w.table[Place(w.table, w.seqno)], w.seqno, name, found, arg, |w.asked|), w.servers, k);
    TimersSent(Enqueue(w, name, found, arg).0, n);
  }

  /** What dns_enqueue leaves. */
  lemma Enqueued(w: World, name: seq<byte>, found: bool, arg: int)
    requires Inv(w) && Enqueue(w, name, found, arg).1.ERR_INPROGRESS?
    ensures var w1, i, q := Enqueue(w, name, found, arg).0, Place(w.table, w.seqno), |w.asked|;
            i < |w.table| == |w1.table| && w1.servers == w.servers && |w1.sent| == |w.sent| + 1 && Alone(w1.table, i) &&
            CallsFor(w1.calls, q) == [] && w1.asked == w.asked + [Query(name, found, arg)] &&
            w1.seqno == U8(w.seqno + 1) &&
            w1.table == w.table[i := CheckEntry(NewEntry(w.table[i], w.seqno, name, found, arg, q), w.servers)] &&
            w1.table[i].query == q && w1.table[i].name == name && w1.table[i].found == found && w1.table[i].arg == arg
  {
    hide Place, CallsFor;
    PlaceIsFree(w.table, w.seqno);
    FreshQuery(w);
    NoCallsFor(w.calls, w.asked);
    assert w.calls + [] == w.calls;
  }
}
