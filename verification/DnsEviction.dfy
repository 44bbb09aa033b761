/** Which entry a new query gets (src/core/dns.c), over runs from the start: the oldest
    completed one for as long as fewer than 256 queries have been accepted, and for each
    number from there on some run comes to a table in which a newer one is given away. */
module DnsEviction {
  import opened DnsName
  import opened DnsReply
  import opened DnsResolver
  import opened DnsRuns
  import opened DnsTiming
  import opened Memory

  lemma RunIsNumbered(w: World, steps: seq<Step>)
    requires Init(w)
    ensures Numbered(Run(w, steps).table, |Run(w, steps).asked|) && Run(w, steps).seqno == U8(|Run(w, steps).asked|)
  {
    RunInv(w, steps);
    var now := Run(w, steps);
    hide Run, Cached, AskingOk;
    forall i | 0 <= i < |now.table|
      ensures !now.table[i].state.NEW? && (IsUsed(now.table[i]) ==> Belongs(now.table[i], now.asked))
    {
      assert EntryOk(now.table[i], now.asked, now.servers, now.replies);
    }
  }

  /** Before the wrap, every run comes to a table in which the right entry is given away. */
  lemma RunEvictsOldest(w: World, steps: seq<Step>)
    requires Init(w) && |Run(w, steps).asked| < 0x100
    ensures GoodPlace(Run(w, steps).table, |Run(w, steps).asked|)
  {
    RunIsNumbered(w, steps);
    GoodUntilTheWrap(Run(w, steps).table, |Run(w, steps).asked|);
  }

  // ---------------------------------------------------------------- single steps

  lemma DoStep(w: World, steps: seq<Step>, s: Step)
    ensures Run(w, steps + [s]) == Apply(Run(w, steps), s)
  {
    assert (steps + [s])[..|steps|] == steps;
  }

  lemma {:induction false} LookupNothing(table: seq<Entry>, name: seq<byte>)
    requires forall j :: 0 <= j < |table| && table[j].state.DONE? ==> table[j].name != name
    ensures Lookup(table, name) == INADDR_NONE
    decreases |table|
  {
    if table != [] {
      LookupNothing(table[1..], name);
    }
  }

  lemma {:induction false} PickFirstUnused(table: seq<Entry>, seqno: byte, i: nat, m: nat, lseq: int, lseqi: nat)
    requires i <= m < |table| && table[m].state.UNUSED? && forall j :: i <= j < m ==> table[j].state.ASKING?
    ensures Pick(table, seqno, i, lseq, lseqi) == Unused(m)
    decreases m - i
  {
    if i < m {
      PickFirstUnused(table, seqno, i + 1, m, lseq, lseqi);
    }
  }

  /** What a query by name changes that gets entry m. */
  lemma ResolveInto(w: World, name: seq<byte>, m: nat)
    requires Inv(w) && 0 < |name| < DNS_MAX_NAME_LENGTH && Lookup(w.table, name) == INADDR_NONE
    requires m < |w.table| && w.table[m].state.UNUSED? && Place(w.table, w.seqno) == m
    ensures var w' := Apply(w, Resolve(name, INADDR_NONE, true, 0));
            Inv(w') && |w'.asked| == |w.asked| + 1 && |w'.table| == |w.table| &&
            (forall j :: 0 <= j < |w.table| && j != m ==> w'.table[j] == w.table[j]) &&
            w'.table[m].state.ASKING? && w'.table[m].name == name && w'.table[m].query == |w.asked|
  {
    ApplyPreserves(w, Resolve(name, INADDR_NONE, true, 0));
    hide Inv, Lookup, Place, Kept;
    assert Enqueue(w, name, true, 0).1.ERR_INPROGRESS?;
    Enqueued(w, name, true, 0);
  }

  /** A packet that no client would take for a response. */
  function FailReply(i: byte): seq<byte> { Be16(i) + seq(24, _ => 0) }

  lemma FailAt(w: World, i: nat)
    requires Inv(w) && i < |w.table| && w.table[i].state.ASKING? && DNS_MSG_SIZE >= 36
    ensures var w' := Apply(w, Packet(FailReply(i)));
            Inv(w') && w'.asked == w.asked && |w'.table| == |w.table| && w'.table[i].state.UNUSED? &&
            w'.seqno == w.seqno &&
            forall j :: 0 <= j < |w.table| && j != i ==> w'.table[j] == w.table[j]
  {
    var b := FailReply(i);
    ApplyPreserves(w, Packet(b));
    assert b[0] == 0 && b[1] == i && b[2] == 0;
    assert Read16(b, 0) == i && U8(i) == i;
    assert Verdict(b, Text(w.table[i]), DNS_DOES_NAME_CHECK) == NoAddress;
    hide Inv, Verdict;
  }

  /** A proper response for a name of one letter. */
  function Answer(i: byte, letter: byte): Message {
    var name := WireName([[letter]], Root);
    Message(i, 0x80, 0, 1, 1, 0, name, [0, 1, 0, 1], [Record(name, DNS_RRTYPE_A, DNS_RRCLASS_IN, 60, [10, 0, 0, 1])],
            [])
  }

  lemma AnswerIsGood(i: byte, letter: byte, behind: seq<byte>)
    ensures ValidMessage(Answer(i, letter)) && |WireMessage(Answer(i, letter))| == 36
    ensures Read16(WireMessage(Answer(i, letter)), 0) == i
    ensures Verdict(WireMessage(Answer(i, letter)), [letter] + [0] + behind, DNS_DOES_NAME_CHECK) ==
            Found(60, [10, 0, 0, 1])
  {
    var m, text := Answer(i, letter), [letter] + [0] + behind;
    AnswerParts(i, letter);
    MessageParts(m, WireMessage(m));
    ReadsHeader(WireMessage(m), m);
    LetterAgrees(letter, behind);
    VerdictOnMessage(m, text, DNS_DOES_NAME_CHECK);
    hide WireMessage, Agrees, Verdict, Read16;
    assert FlagsOk(0x80, 0, 1) && U8(1) == 1;
    assert IsAddress(m.answers[0]);
  }

  lemma AnswerParts(i: byte, letter: byte)
    ensures ValidMessage(Answer(i, letter)) && |WireMessage(Answer(i, letter))| == 36
    ensures Walkable(WireName([[letter]], Root))
  {
    var m := Answer(i, letter);
    LetterOnWire(letter);
    hide Wire;
    assert ValidRecord(m.answers[0]) && |WireRecord(m.answers[0])| == 17;
    assert WireRecords(m.answers) == WireRecord(m.answers[0]) + WireRecords(m.answers[1..]);
    assert |WireRecords(m.answers[1..])| == 0;
    MessageParts(m, WireMessage(m));
  }

  lemma LetterAgrees(letter: byte, behind: seq<byte>)
    ensures Agrees([letter] + [0] + behind, 0, [[letter]])
  {
    var text, piece, labels: seq<Label> := [letter] + [0] + behind, [letter], [[letter]];
    assert piece[1..] == [] && labels[1..] == [];
    assert HasLabel(text, 1, piece[1..]);
    assert HasLabel(text, 0, piece);
    assert Agrees(text, 2, labels[1..]);
  }

  lemma LetterOnWire(letter: byte)
    ensures ValidName(WireName([[letter]], Root)) && |Wire(WireName([[letter]], Root))| == 3
  {
    var labels: seq<Label> := [[letter]];
    assert labels[1..] == [];
    assert WireLabels(labels) == [1] + [letter] + WireLabels(labels[1..]);
  }

  lemma SucceedAt(w: World, i: byte, letter: byte)
    requires Inv(w) && i < |w.table| && w.table[i].state.ASKING? && w.table[i].name == [letter] && DNS_MSG_SIZE >= 36
    ensures ValidMessage(Answer(i, letter))
    ensures var w' := Apply(w, Packet(WireMessage(Answer(i, letter))));
            Inv(w') && w'.asked == w.asked && |w'.table| == |w.table| && w'.seqno == w.seqno &&
            w'.table[i].state.DONE? && w'.table[i].query == w.table[i].query && w'.table[i].name == [letter] &&
            w'.table[i].seqno == w.table[i].seqno &&
            forall j :: 0 <= j < |w.table| && j != i ==> w'.table[j] == w.table[j]
  {
    hide Inv, Verdict, WireMessage, Answer, Apply, Recv;
    AnswerIsGood(i, letter, w.table[i].behind);
    var b := WireMessage(Answer(i, letter));
    ApplyPreserves(w, Packet(b));
    RecvFound(w, b, i, Found(60, [10, 0, 0, 1]));
  }

  lemma RecvFound(w: World, b: seq<byte>, i: byte, r: Address)
    requires i < |w.table| && w.table[i].state.ASKING? && Read16(b, 0) == i && |b| == 36 <= DNS_MSG_SIZE
    requires r.Found? && Verdict(b, Text(w.table[i]), DNS_DOES_NAME_CHECK) == r
    ensures var w' := Apply(w, Packet(b));
            var e, e' := w.table[i], w'.table[i];
            w'.asked == w.asked && w'.seqno == w.seqno && w'.table == w.table[i := e'] &&
            e'.state.DONE? && e'.query == e.query && e'.name == e.name && e'.seqno == e.seqno
  {
    hide Verdict, Read16;
    assert U8(i) == i;
  }

  // ---------------------------------------------------------------- a run to a bad table

  const A: byte := 0x61
  const B: byte := 0x62

  /** The first m entries ask, the first of them for "a", the second for "b" (or it has its
      answer); the others are unused. */
  predicate Filled(w: World, m: nat, done: bool) {
    1 <= m <= |w.table| == DNS_TABLE_SIZE && w.table[0].state.ASKING? && w.table[0].name == [A] &&
    (forall j :: 1 <= j < |w.table| ==>
       if j >= m then w.table[j].state.UNUSED?
       else if j == 1 then w.table[1].name == [B] && (if done then w.table[1].state.DONE? else w.table[1].state.ASKING?)
       else w.table[j].state.ASKING?) &&
    (done ==> m >= 2)
  }

  ghost predicate Reached(w0: World, steps: seq<Step>, n: nat) {
    Inv(Run(w0, steps)) && |Run(w0, steps).asked| == n
  }

  /** The sizes that the construction needs; those of opt.h are far beyond them. */
  predicate Roomy() { DNS_TABLE_SIZE >= 2 && DNS_MAX_NAME_LENGTH >= 2 && DNS_MSG_SIZE >= 36 }

  lemma FirstQuery(w0: World) returns (steps: seq<Step>)
    requires Init(w0) && Roomy()
    ensures Reached(w0, steps, 1) && Filled(Run(w0, steps), 1, false)
  {
    InitInv(w0);
    LookupNothing(w0.table, [A]);
    PickFirstUnused(w0.table, w0.seqno, 0, 0, 0, 0);
    steps := [] + [Resolve([A], INADDR_NONE, true, 0)];
    DoStep(w0, [], Resolve([A], INADDR_NONE, true, 0));
    assert Run(w0, []) == w0;
    hide Inv, Run, Apply;
    ResolveInto(w0, [A], 0);
  }

  /** The first entry fails, and is taken for the next query. */
  lemma Churn(w0: World, steps: seq<Step>, n: nat, m: nat, done: bool) returns (more: seq<Step>)
    requires Roomy() && Reached(w0, steps, n) && Filled(Run(w0, steps), m, done)
    ensures Reached(w0, more, n + 1) && Filled(Run(w0, more), m, done)
    ensures Run(w0, more).table[0].query == n
    ensures forall j :: 1 <= j < DNS_TABLE_SIZE ==> Run(w0, more).table[j] == Run(w0, steps).table[j]
  {
    hide Inv, Run, Apply, Place;
    var w, fail, ask := Run(w0, steps), Packet(FailReply(0)), Resolve([A], INADDR_NONE, true, 0);
    FailAt(w, 0);
    var w1 := Apply(w, fail);
    DoStep(w0, steps, fail);
    LookupNothing(w1.table, [A]);
    PlaceFirst(w1, 0);
    ResolveInto(w1, [A], 0);
    more := steps + [fail] + [ask];
    DoStep(w0, steps + [fail], ask);
  }

  lemma PlaceFirst(w: World, m: nat)
    requires m < |w.table| && w.table[m].state.UNUSED? && forall j :: 0 <= j < m ==> w.table[j].state.ASKING?
    ensures Place(w.table, w.seqno) == m
  {
    PickFirstUnused(w.table, w.seqno, 0, m, 0, 0);
  }

  /** The next unused entry is taken. */
  lemma Fill(w0: World, steps: seq<Step>, n: nat, m: nat) returns (more: seq<Step>)
    requires Roomy() && Reached(w0, steps, n) && Filled(Run(w0, steps), m, false) && m < DNS_TABLE_SIZE
    ensures Reached(w0, more, n + 1) && Filled(Run(w0, more), m + 1, false)
    ensures Run(w0, more).table[m].query == n && (m > 1 ==> Run(w0, more).table[1] == Run(w0, steps).table[1])
  {
    hide Inv, Run, Apply, Place;
    var w, name := Run(w0, steps), if m == 1 then [B] else [A];
    var ask := Resolve(name, INADDR_NONE, true, 0);
    LookupNothing(w.table, name);
    PlaceFirst(w, m);
    ResolveInto(w, name, m);
    more := steps + [ask];
    DoStep(w0, steps, ask);
  }

  /** From the first entry's p-th query on, the second entry gets query p and its answer, and
      the first entry goes on to query n - 1 and its answer. */
  lemma RunToWrap(w0: World, p: nat, n: nat) returns (steps: seq<Step>)
    requires Init(w0) && Roomy() && 1 <= p && p + DNS_TABLE_SIZE <= n
    ensures var w := Run(w0, steps);
            Reached(w0, steps, n) && |w.table| == DNS_TABLE_SIZE &&
            w.table[0].state.DONE? && w.table[0].query == n - 1 && w.table[1].state.DONE? && w.table[1].query == p &&
            forall j :: 2 <= j < |w.table| ==> w.table[j].state.ASKING?
  {
    hide Inv, Run, Reached, Filled;
    steps := FirstQuery(w0);
    var q, m := 1, 1;
    while q < p
      invariant q <= p && Reached(w0, steps, q) && Filled(Run(w0, steps), 1, false)
    {
      steps := Churn(w0, steps, q, 1, false);
      q := q + 1;
    }
    while m < DNS_TABLE_SIZE
      invariant 1 <= m <= DNS_TABLE_SIZE && q == p + m - 1 && Reached(w0, steps, q) && Filled(Run(w0, steps), m, false)
      invariant m > 1 ==> Second(w0, steps, p)
    {
      var before := steps;
      steps := Fill(w0, steps, q, m);
      SecondStays(w0, before, steps, p, m);
      q, m := q + 1, m + 1;
    }
    steps := AnswerSecond(w0, steps, q, p);
    var first := true;
    while q < n
      invariant p + DNS_TABLE_SIZE - 1 <= q <= n && Reached(w0, steps, q) &&
                Filled(Run(w0, steps), DNS_TABLE_SIZE, true)
      invariant Second(w0, steps, p) && (!first ==> First(w0, steps, q - 1)) && (first ==> q < n)
    {
      var before := steps;
      steps := Churn(w0, steps, q, DNS_TABLE_SIZE, true);
      ChurnKeeps(w0, before, steps, q, p);
      q, first := q + 1, false;
    }
    steps := AnswerFirst(w0, steps, n, p);
  }

  ghost predicate Second(w0: World, steps: seq<Step>, p: nat) {
    |Run(w0, steps).table| >= 2 && Run(w0, steps).table[1].query == p
  }

  ghost predicate First(w0: World, steps: seq<Step>, q: nat) {
    |Run(w0, steps).table| >= 1 && Run(w0, steps).table[0].query == q
  }

  lemma SecondStays(w0: World, before: seq<Step>, steps: seq<Step>, p: nat, m: nat)
    requires Filled(Run(w0, before), m, false) && Filled(Run(w0, steps), m + 1, false) && m >= 1
    requires if m == 1 then Run(w0, steps).table[1].query == p
             else Second(w0, before, p) && Run(w0, steps).table[1] == Run(w0, before).table[1]
    ensures Second(w0, steps, p)
  {
  }

  lemma ChurnKeeps(w0: World, before: seq<Step>, steps: seq<Step>, q: nat, p: nat)
    requires Filled(Run(w0, steps), DNS_TABLE_SIZE, true) && Second(w0, before, p)
    requires Run(w0, steps).table[0].query == q && Run(w0, steps).table[1] == Run(w0, before).table[1]
    ensures Second(w0, steps, p) && First(w0, steps, q)
  {
  }

  lemma AnswerSecond(w0: World, steps: seq<Step>, n: nat, p: nat) returns (more: seq<Step>)
    requires Roomy() && Reached(w0, steps, n) && Filled(Run(w0, steps), DNS_TABLE_SIZE, false) && Second(w0, steps, p)
    ensures Reached(w0, more, n) && Filled(Run(w0, more), DNS_TABLE_SIZE, true) && Second(w0, more, p)
  {
    hide Inv, Run, Apply, WireMessage, Answer;
    SucceedAt(Run(w0, steps), 1, B);
    var s := Packet(WireMessage(Answer(1, B)));
    DoStep(w0, steps, s);
    more := steps + [s];
  }

  lemma AnswerFirst(w0: World, steps: seq<Step>, n: nat, p: nat) returns (more: seq<Step>)
    requires Roomy() && Reached(w0, steps, n) && n > 0 && Filled(Run(w0, steps), DNS_TABLE_SIZE, true)
    requires Second(w0, steps, p) && First(w0, steps, n - 1)
    ensures var w := Run(w0, more);
            Reached(w0, more, n) && |w.table| == DNS_TABLE_SIZE &&
            w.table[0].state.DONE? && w.table[0].query == n - 1 && w.table[1].state.DONE? && w.table[1].query == p &&
            forall j :: 2 <= j < |w.table| ==> w.table[j].state.ASKING?
  {
    hide Inv, Run, Apply, WireMessage, Answer;
    SucceedAt(Run(w0, steps), 0, A);
    var s := Packet(WireMessage(Answer(0, A)));
    DoStep(w0, steps, s);
    more := steps + [s];
  }

  /** Whatever the number of queries from 256 on, some run comes to a table in which the newest
      completed entry is given away although there is an older one. */
  lemma SomeRunEvictsNewer(w0: World, n: nat) returns (steps: seq<Step>)
    requires Init(w0) && Roomy() && n >= 0x100
    ensures |Run(w0, steps).asked| == n && !GoodPlace(Run(w0, steps).table, n)
  {
    var p := if n == 0x100 then 1 else n - 0x100;
    steps := RunToWrap(w0, p, n);
    RunIsNumbered(w0, steps);
    hide Run;
    NewestIsPicked(Run(w0, steps).table, n, p);
  }

  lemma NewestIsPicked(t: seq<Entry>, n: nat, p: nat)
    requires n >= 0x100 && p == (if n == 0x100 then 1 else n - 0x100) && Numbered(t, n) && |t| >= 2
    requires t[0].state.DONE? && t[0].query == n - 1 && t[1].state.DONE? && t[1].query == p
    requires forall j :: 2 <= j < |t| ==> t[j].state.ASKING?
    ensures !GoodPlace(t, n)
  {
    var s := U8(n);
    assert t[1].seqno == U8(p) && t[0].seqno == U8(n - 1);
    assert (s == 0 ==> U8(n - 1) == 0xff) && (s > 0 ==> U8(n - 1) == s - 1) && s <= U8(p);
    hide U8, Numbered;
    var lseq := if s == 0 then 0 else 1;
    PickSkipsAsking(t, s, 2, lseq, 0);
    assert Pick(t, s, 0, 0, 0) == Pick(t, s, 1, lseq, 0) == Pick(t, s, 2, lseq, 0);
    assert t[1].query < t[0].query;
  }

  /** Whether eviction is right in every run that has accepted n queries depends on n alone:
      it is for exactly as long as the 8-bit sequence numbers have not wrapped around. */
  lemma EvictsOldestUntilTheWrap(n: nat, w: World)
    requires Init(w) && Roomy()
    ensures (forall steps: seq<Step> :: |Run(w, steps).asked| == n ==> GoodPlace(Run(w, steps).table, n)) <==> n < 0x100
  {
    if n < 0x100 {
      forall steps: seq<Step> | |Run(w, steps).asked| == n ensures GoodPlace(Run(w, steps).table, n) {
        RunEvictsOldest(w, steps);
      }
    } else {
      var steps := SomeRunEvictsNewer(w, n);
    }
  }
}
