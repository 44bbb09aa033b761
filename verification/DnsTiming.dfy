/** When the resolver gives up, when it forgets, and which entry it gives away (src/core/dns.c). */
module DnsTiming {
  import opened DnsName
  import opened DnsReply
  import opened DnsResolver
  import opened Memory

  /** An entry after n ticks without a reply. */
  function AfterTicks(e: Entry, servers: seq<u32>, n: nat): Entry {
    if n == 0 then e else CheckEntry(AfterTicks(e, servers, n - 1), servers)
  }

  /** The packets that it sends in these ticks. */
  function SentBy(e: Entry, servers: seq<u32>, n: nat): nat {
    if n == 0 then 0 else SentBy(e, servers, n - 1) + if Sends(AfterTicks(e, servers, n - 1)) then 1 else 0
  }

  /** dns_tmr treats each entry by itself. */
  lemma {:induction false} TickIsPerEntry(w: World, n: nat, i: nat)
    requires n <= |w.table| && i < |w.table|
    ensures Tick(w, n).table[i] == if i < n then CheckEntry(w.table[i], w.servers) else w.table[i]
  {
    hide CheckEntry;
    if n > 0 {
      TickIsPerEntry(w, n - 1, i);
    }
  }

  function Timers(n: nat): (steps: seq<Step>)
    ensures |steps| == n
  {
    if n == 0 then [] else Timers(n - 1) + [Timer]
  }

  lemma {:induction false} TimersOnly(w: World, n: nat, i: nat)
    requires i < |w.table|
    ensures var now := Run(w, Timers(n));
            |now.table| == |w.table| && now.servers == w.servers && now.table[i] == AfterTicks(w.table[i], w.servers, n)
  {
    hide CheckEntry, Tick;
    if n > 0 {
      TimersOnly(w, n - 1, i);
      var steps := Timers(n);
      assert steps[..n - 1] == Timers(n - 1) && steps[n - 1] == Timer;
      TickIsPerEntry(Run(w, Timers(n - 1)), |w.table|, i);
    }
  }

  // ---------------------------------------------------------------- giving up

  /** The first k servers are set and the next one is not. */
  predicate Consecutive(servers: seq<u32>, k: nat) {
    1 <= k <= |servers| == DNS_MAX_SERVERS && (forall j :: 0 <= j < k ==> servers[j] != 0) &&
    (k < |servers| ==> servers[k] == 0)
  }

  /** a + (a + 1) + ... + (r - 1) */
  function Sum(a: nat, r: nat): nat
    decreases r - a
  {
    if a >= r then 0 else a + Sum(a + 1, r)
  }

  lemma {:induction false} SumClosed(a: nat, r: nat)
    requires a <= r
    ensures 2 * Sum(a, r) == (r - a) * (r + a - 1)
    decreases r - a
  {
    if a < r {
      SumClosed(a + 1, r);
      assert (r - a) * (r + a - 1) == 2 * a + (r - a - 1) * (r + a);
    }
  }

  /** The ticks that one server gets. */
  function PerServer(): nat { 1 + Sum(1, DNS_MAX_RETRIES) }

  /** m times x */
  function Times(m: nat, x: nat): nat {
    if m == 0 then 0 else x + Times(m - 1, x)
  }

  lemma {:induction false} TimesIsProduct(m: nat, x: nat)
    ensures Times(m, x) == m * x
  {
    if m > 0 {
      TimesIsProduct(m - 1, x);
      assert (m - 1) * x + x == m * x;
    }
  }

  lemma {:induction false} TimesPositive(m: nat, x: nat)
    requires x > 0
    ensures Times(m, x) == 0 <==> m == 0
  {
  }

  /** The ticks until an asking entry times out. */
  function TicksLeft(e: Entry, k: nat): nat
    requires e.numdns < k
  {
    e.tmr + Sum(e.retries + 1, DNS_MAX_RETRIES) + Times(k - 1 - e.numdns, PerServer())
  }

  /** The packets until then. */
  function PacketsLeft(e: Entry, k: nat): nat
    requires e.numdns < k && e.retries < DNS_MAX_RETRIES
  {
    DNS_MAX_RETRIES - 1 - e.retries + Times(k - 1 - e.numdns, DNS_MAX_RETRIES - 1)
  }

  predicate Counting(e: Entry, servers: seq<u32>, k: nat) {
    e.state.ASKING? && AskingOk(e, servers) && Consecutive(servers, k) && e.numdns < k
  }

  lemma Facts(e: Entry, servers: seq<u32>, k: nat)
    requires Counting(e, servers, k)
    ensures Due(e) <==> e.tmr == 1
    ensures LastRetry(e) <==> e.retries + 1 == DNS_MAX_RETRIES
    ensures NextServer(e, servers) <==> e.numdns + 1 < k
    ensures U8(e.retries + 1) == e.retries + 1 || LastRetry(e)
    ensures e.numdns + 1 < k ==> servers[e.numdns + 1] != 0
  {
  }

  /** What a tick does to the countdown, case by case. */
  lemma TickCases(e: Entry, servers: seq<u32>, k: nat)
    requires Counting(e, servers, k)
    ensures TimesOut(e, servers) <==> e.tmr == 1 && e.retries + 1 == DNS_MAX_RETRIES && e.numdns + 1 == k
    ensures !TimesOut(e, servers) ==>
            CheckEntry(e, servers) ==
            if e.tmr != 1 then e.(tmr := e.tmr - 1)
            else if e.retries + 1 == DNS_MAX_RETRIES then e.(numdns := e.numdns + 1, tmr := 1, retries := 0)
            else e.(tmr := e.retries + 1, retries := e.retries + 1)
  {
    Facts(e, servers, k);
    hide Due, LastRetry, NextServer, U8, Consecutive, AskingOk;
    assert DecByte(e.tmr) == e.tmr - 1 by {
      AskingTmr(e, servers);
    }
  }

  lemma AskingTmr(e: Entry, servers: seq<u32>)
    requires AskingOk(e, servers)
    ensures e.tmr >= 1
  {
  }

  /** Each tick brings the time-out one tick nearer, over retries and servers. */
  lemma TickCounts(e: Entry, servers: seq<u32>, k: nat)
    requires Counting(e, servers, k)
    ensures TicksLeft(e, k) >= 1
    ensures TimesOut(e, servers) <==> TicksLeft(e, k) == 1
    ensures !TimesOut(e, servers) ==>
            var e' := CheckEntry(e, servers);
            Counting(e', servers, k) && TicksLeft(e', k) == TicksLeft(e, k) - 1
  {
    hide Sum, Times, CheckEntry, TimesOut, Due, LastRetry, NextServer, PerServer, U8;
    PerServerIs();
    TickCases(e, servers, k);
    TimesPositive(k - 1 - e.numdns, PerServer());
    SumStep(e.retries + 1, DNS_MAX_RETRIES);
    TimesStep(k - 1 - e.numdns, PerServer());
    Facts(e, servers, k);
  }

  lemma PerServerIs()
    ensures PerServer() == 1 + Sum(1, DNS_MAX_RETRIES) > 0
  {
  }

  lemma SumStep(a: nat, r: nat)
    ensures Sum(a, r) == if a >= r then 0 else a + Sum(a + 1, r)
    ensures Sum(a, r) == 0 <==> a >= r || (a == 0 && r == 1)
  {
  }

  lemma TimesStep(m: nat, x: nat)
    ensures Times(m, x) == if m == 0 then 0 else x + Times(m - 1, x)
  {
  }

  lemma TickSends(e: Entry, servers: seq<u32>, k: nat)
    requires Counting(e, servers, k)
    ensures TimesOut(e, servers) ==> PacketsLeft(e, k) == 0 && !Sends(e)
    ensures !TimesOut(e, servers) ==>
            var e' := CheckEntry(e, servers);
            Counting(e', servers, k) && PacketsLeft(e', k) == PacketsLeft(e, k) - if Sends(e) then 1 else 0
  {
    TickCounts(e, servers, k);
    TickCases(e, servers, k);
    TimesStep(k - 1 - e.numdns, DNS_MAX_RETRIES - 1);
    Facts(e, servers, k);
    hide Times, TicksLeft, CheckEntry, TimesOut, Due, LastRetry, NextServer;
  }

  lemma {:induction false} CountsDown(e: Entry, servers: seq<u32>, k: nat, n: nat)
    requires Counting(e, servers, k) && n < TicksLeft(e, k)
    ensures var e' := AfterTicks(e, servers, n);
            Counting(e', servers, k) && TicksLeft(e', k) == TicksLeft(e, k) - n &&
            PacketsLeft(e', k) + SentBy(e, servers, n) == PacketsLeft(e, k) &&
            (TimesOut(e', servers) <==> n == TicksLeft(e, k) - 1)
  {
    hide Counting, TicksLeft, PacketsLeft, CheckEntry, Sends, TimesOut;
    if n > 0 {
      CountsDown(e, servers, k, n - 1);
      var before := AfterTicks(e, servers, n - 1);
      TickCounts(before, servers, k);
      TickSends(before, servers, k);
    }
    TickCounts(AfterTicks(e, servers, n), servers, k);
  }

  /** With k servers and R retries, and without a reply, a new query asks on until its
      (k * (1 + R * (R - 1) / 2))-th tick, on which it fails; it has then sent
      R + (k - 1) * (R - 1) packets, with the first one that dns_enqueue sends. */
  lemma GivesUpExactly(e: Entry, servers: seq<u32>, k: nat, n: nat)
    requires e.state.NEW? && Consecutive(servers, k)
    ensures var e1 := CheckEntry(e, servers);
            var r: int := DNS_MAX_RETRIES;
            var t := k * (1 + r * (r - 1) / 2);
            t >= 1 && (n < t ==> AfterTicks(e1, servers, n).state.ASKING?) &&
            (n < t ==> (TimesOut(AfterTicks(e1, servers, n), servers) <==> n == t - 1)) &&
            AfterTicks(e1, servers, t).state.UNUSED? &&
            Sends(e) && 1 + SentBy(e1, servers, t) == r + (k - 1) * (r - 1)
  {
    var e1 := CheckEntry(e, servers);
    var r: int := DNS_MAX_RETRIES;
    var t := k * (1 + r * (r - 1) / 2);
    StartsWith(e1, k);
    hide TicksLeft, PacketsLeft, CheckEntry, Consecutive;
    assert Counting(e1, servers, k) by {
      StartsCounting(e, servers, k);
    }
    CountsDown(e1, servers, k, t - 1);
    if n < t {
      CountsDown(e1, servers, k, n);
    }
    Finally(e1, servers, k, t);
  }

  lemma StartsCounting(e: Entry, servers: seq<u32>, k: nat)
    requires e.state.NEW? && Consecutive(servers, k)
    ensures Counting(CheckEntry(e, servers), servers, k)
  {
  }

  /** The countdown of a fresh entry in closed form. */
  lemma StartsWith(e: Entry, k: nat)
    requires k >= 1 && e.numdns == 0 && e.tmr == 1 && e.retries == 0
    ensures var r: int := DNS_MAX_RETRIES;
            TicksLeft(e, k) == k * (1 + r * (r - 1) / 2) >= 1 && PacketsLeft(e, k) == (r - 1) + (k - 1) * (r - 1)
  {
    var r: int := DNS_MAX_RETRIES;
    SumClosed(1, r);
    assert (r - 1) * (r + 1 - 1) == r * (r - 1);
    assert Sum(1, r) == r * (r - 1) / 2;
    TimesIsProduct(k, PerServer());
    TimesStep(k, PerServer());
    TimesIsProduct(k - 1, r - 1);
    hide Sum, Times;
    assert TicksLeft(e, k) == Times(k, PerServer());
    assert PerServer() == 1 + r * (r - 1) / 2;
  }

  lemma Finally(e: Entry, servers: seq<u32>, k: nat, t: nat)
    requires Counting(e, servers, k) && t == TicksLeft(e, k) >= 1
    ensures AfterTicks(e, servers, t).state.UNUSED? && SentBy(e, servers, t) == PacketsLeft(e, k)
  {
    CountsDown(e, servers, k, t - 1);
    TickSends(AfterTicks(e, servers, t - 1), servers, k);
    CheckTimesOut(AfterTicks(e, servers, t - 1), servers);
    hide CheckEntry, TicksLeft, Sends;
  }

  lemma CheckTimesOut(e: Entry, servers: seq<u32>)
    requires TimesOut(e, servers)
    ensures CheckEntry(e, servers).state.UNUSED?
  {
  }

  // ---------------------------------------------------------------- forgetting

  /** A completed entry stays exactly as many ticks as its time to live says, unless that is
      zero: then the counter wraps around first. */
  lemma {:induction false} ForgetsExactly(e: Entry, servers: seq<u32>, n: nat)
    requires e.state.DONE?
    ensures AfterTicks(e, servers, n).state.DONE? <==> n < (if e.ttl == 0 then 0x1_0000_0000 else e.ttl)
    ensures AfterTicks(e, servers, n).state.DONE? || AfterTicks(e, servers, n).state.UNUSED?
    ensures AfterTicks(e, servers, n).state.DONE? && n > 0 ==>
            AfterTicks(e, servers, n).ttl == (if e.ttl == 0 then 0x1_0000_0000 else e.ttl) - n
  {
    if n > 0 {
      ForgetsExactly(e, servers, n - 1);
    }
  }

  // ---------------------------------------------------------------- giving an entry away

  /** A table between operations when n queries have been accepted. */
  predicate Numbered(table: seq<Entry>, n: nat) {
    |table| == DNS_TABLE_SIZE && DistinctQueries(table) &&
    forall i :: 0 <= i < |table| ==>
      !table[i].state.NEW? && (IsUsed(table[i]) ==> table[i].query < n && table[i].seqno == U8(table[i].query))
  }

  /** A new query gets an unused entry, or else the oldest completed one; it gets none only
      when all entries are asking. */
  predicate GoodPlace(table: seq<Entry>, n: nat) {
    var i := Place(table, U8(n));
    if i < |table| then
      table[i].state.UNUSED? ||
      (table[i].state.DONE? && forall j :: 0 <= j < |table| ==>
         !table[j].state.UNUSED? && (table[j].state.DONE? ==> table[i].query <= table[j].query))
    else forall j :: 0 <= j < |table| ==> table[j].state.ASKING?
  }

  /** The loop has seen the entries before i and remembers the oldest completed one. */
  predicate OldestSoFar(table: seq<Entry>, n: nat, i: nat, lseq: int, lseqi: nat) {
    i <= |table| && (forall j :: 0 <= j < i ==> !table[j].state.UNUSED?) &&
    if lseq == 0 then lseqi == 0 && forall j :: 0 <= j < i ==> !table[j].state.DONE?
    else lseqi < i && table[lseqi].state.DONE? && lseq == n - table[lseqi].query &&
         forall j :: 0 <= j < i && table[j].state.DONE? ==> table[lseqi].query <= table[j].query
  }

  lemma {:induction false} PickFindsOldest(table: seq<Entry>, n: nat, i: nat, lseq: int, lseqi: nat) returns (l: int)
    requires Numbered(table, n) && n < 0x100 && OldestSoFar(table, n, i, lseq, lseqi)
    ensures match Pick(table, n, i, lseq, lseqi)
            case Unused(k) => k < |table| && table[k].state.UNUSED?
            case Oldest(k) => OldestSoFar(table, n, |table|, l, k)
    decreases |table| - i
  {
    if i >= |table| || table[i].state.UNUSED? {
      l := lseq;
    } else {
      OldestNext(table, n, i, lseq, lseqi);
      hide OldestSoFar;
      if table[i].state.DONE? && n - table[i].seqno > lseq {
        l := PickFindsOldest(table, n, i + 1, n - table[i].seqno, i);
      } else {
        l := PickFindsOldest(table, n, i + 1, lseq, lseqi);
      }
    }
  }

  lemma OldestNext(table: seq<Entry>, n: nat, i: nat, lseq: int, lseqi: nat)
    requires Numbered(table, n) && n < 0x100 && OldestSoFar(table, n, i, lseq, lseqi) && i < |table|
    requires !table[i].state.UNUSED?
    ensures if table[i].state.DONE? && n - table[i].seqno > lseq then
              OldestSoFar(table, n, i + 1, n - table[i].seqno, i)
            else OldestSoFar(table, n, i + 1, lseq, lseqi)
  {
    hide DistinctQueries;
    assert IsUsed(table[i]) ==> table[i].seqno == table[i].query < n;
  }

  lemma GoodUntilTheWrap(table: seq<Entry>, n: nat)
    requires Numbered(table, n) && n < 0x100
    ensures GoodPlace(table, n)
  {
    var l := PickFindsOldest(table, n, 0, 0, 0);
    hide Pick;
    match Pick(table, n, 0, 0, 0)
    case Unused(k) =>
    case Oldest(k) =>
      if l == 0 {
        assert forall j :: 0 <= j < |table| ==> table[j].state.ASKING?;
      }
  }

  lemma {:induction false} PickSkipsAsking(table: seq<Entry>, seqno: byte, i: nat, lseq: int, lseqi: nat)
    requires forall j :: i <= j < |table| ==> table[j].state.ASKING?
    ensures Pick(table, seqno, i, lseq, lseqi) == Oldest(lseqi)
    decreases |table| - i
  {
    if i < |table| {
      PickSkipsAsking(table, seqno, i + 1, lseq, lseqi);
    }
  }
}
