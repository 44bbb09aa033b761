/** What the events of a run add up to, and what select calls answer (src/api/sockets.c). */
module SelectEvents {
  import opened SelectProtocol

  // ----- the event counters -----

  /** The posts of this event for socket s. */
  function Posts(actions: seq<Action>, s: int, evt: Event): nat {
    if actions == [] then 0
    else
      var a := actions[|actions| - 1];
      Posts(actions[..|actions| - 1], s, evt) + if a.Post? && a.s == s && a.evt == evt then 1 else 0
  }

  /** What the last send event for socket s says, or `before` if there is none. */
  function LastSend(actions: seq<Action>, s: int, before: bool): bool {
    if actions == [] then before
    else
      var a := actions[|actions| - 1];
      if a.Post? && a.s == s && a.evt.SendPlus? then true
      else if a.Post? && a.s == s && a.evt.SendMinus? then false
      else LastSend(actions[..|actions| - 1], s, before)
  }

  lemma WrapTwice(n: int, d: int)
    ensures WrapS16(WrapS16(n) + d) == WrapS16(n + d)
  {
  }

  /** One step counts the events posted for an open socket. */
  lemma StepCounts(st: State, a: Action, s: int)
    requires Enabled(st, a) && IsOpen(st.sockets, s)
    ensures IsOpen(Next(st, a).sockets, s)
    ensures var before, after := st.sockets[s], Next(st, a).sockets[s];
            var own := a.Post? && a.s == s;
            after.rcvevent == (if own && a.evt.RcvPlus? then WrapS16(before.rcvevent + 1)
                               else if own && a.evt.RcvMinus? then WrapS16(before.rcvevent - 1)
                               else before.rcvevent) &&
            after.sendevent == if own && a.evt.SendPlus? then true
                               else if own && a.evt.SendMinus? then false
                               else before.sendevent
  {
    hide WrapS16;
  }

  /** Over every run, rcvevent of an open socket is its first value, plus the arrivals and minus
      the takes that were posted for it, in 16 bits; sendevent is what the last send event says. */
  lemma {:induction false} EventsAddUp(states: seq<State>, actions: seq<Action>, n: nat, s: int)
    requires Run(states, actions) && n < |states| && IsOpen(states[0].sockets, s)
    ensures IsOpen(states[n].sockets, s)
    ensures var first, now, past := states[0].sockets[s], states[n].sockets[s], actions[..n];
            now.rcvevent == WrapS16(first.rcvevent + Posts(past, s, RcvPlus) - Posts(past, s, RcvMinus)) &&
            now.sendevent == LastSend(past, s, first.sendevent)
    decreases n
  {
    hide WrapS16, Next;
    if n > 0 {
      EventsAddUp(states, actions, n - 1, s);
      StepCounts(states[n - 1], actions[n - 1], s);
      assert actions[..n][..n - 1] == actions[..n - 1];
      var first, past := states[0].sockets[s], actions[..n - 1];
      var sum := first.rcvevent + Posts(past, s, RcvPlus) - Posts(past, s, RcvMinus);
      WrapTwice(sum, 1);
      WrapTwice(sum, -1);
    }
  }

  /** The socket has more arrivals than takes, as far as 16 bits can count them. */
  predicate HasArrivals(states: seq<State>, actions: seq<Action>, n: nat, s: int)
    requires 0 < |states| && n <= |actions| && IsOpen(states[0].sockets, s)
  {
    var past := actions[..n];
    0 < states[0].sockets[s].rcvevent + Posts(past, s, RcvPlus) - Posts(past, s, RcvMinus) < 0x8000
  }

  /** So an arrival wakes: with no callback under way, a select that is blocked on a socket with
      more arrivals than takes, or whose last send event was SENDPLUS, has its signal. */
  lemma ArrivalsWake(states: seq<State>, actions: seq<Action>, n: nat, k: nat, s: int)
    requires Run(states, actions) && n < |states| && k < |states[n].list| && IsOpen(states[0].sockets, s)
    requires states[n].callbacks == map[] && IsBlocked(states[n], states[n].list[k].id)
    requires var want := states[n].list[k].want;
             s < want.maxfdp1 &&
             ((s in want.readset && HasArrivals(states, actions, n, s)) ||
              (s in want.writeset && LastSend(actions[..n], s, states[0].sockets[s].sendevent)))
    ensures states[n].list[k].sem == 1 && Enabled(states[n], Wake(states[n].list[k].id))
  {
    EventsAddUp(states, actions, n, s);
    assert Watched(states[n].sockets, states[n].list[k], s);
    NoWakeupIsLost(states, actions, n, k, s);
  }

  // ----- data left over -----

  /** A select that is blocked without a signal, while no callback is under way, can have a
      socket ready only by data that a read has left over: exactly if one of the sockets it
      reads has some. */
  lemma ReadyOnlyByLeftover(states: seq<State>, actions: seq<Action>, n: nat, k: nat)
    requires Run(states, actions) && n < |states| && k < |states[n].list|
    requires states[n].callbacks == map[] && !states[n].list[k].signalled
    ensures var sockets, want := states[n].sockets, states[n].list[k].want;
            Writable(sockets, want) == {} &&
            forall s :: s in Readable(sockets, want) <==>
              s in want.readset && s < want.maxfdp1 && IsOpen(sockets, s) && sockets[s].lastdata
  {
    RunInv(states, actions, n);
    var st := states[n];
    var w := st.list[k];
    assert forall s :: !InFlight(st, s);
    assert forall s :: Watched(st.sockets, w, s) ==> InFlight(st, s);
    assert forall s :: s in Writable(st.sockets, w.want) ==> Watched(st.sockets, w, s);
    assert forall s :: s in Readable(st.sockets, w.want) ==> st.sockets[s].lastdata || Watched(st.sockets, w, s);
  }

  /** And that happens: such data do not post an event, and wake nobody. */
  lemma LeftoverWakesNobody(st: State, id: nat, want: Request, s: int)
      returns (states: seq<State>, actions: seq<Action>)
    requires Init(st) && IsOpen(st.sockets, s) && s in want.readset && s < want.maxfdp1 && !want.poll
    requires Readable(st.sockets, want) == Writable(st.sockets, want) == {}
    ensures Run(states, actions) && |states| == 3
    ensures var now := states[2];
            |now.list| == 1 && IsBlocked(now, id) && now.list[0].id == id && now.list[0].want == want &&
            !now.list[0].signalled && now.callbacks == map[] && s in Readable(now.sockets, want)
  {
    var st1 := Next(st, Select(id, want));
    var st2 := Next(st1, Leftover(s, true));
    states, actions := [st, st1, st2], [Select(id, want), Leftover(s, true)];
  }

  // ----- the answers of select -----

  /** The number of sockets that a request finds ready. */
  function Ready(st: State, want: Request): nat {
    |Readable(st.sockets, want)| + |Writable(st.sockets, want)|
  }

  /** The step is the last scan of select call `id`, and r is what it finds; or it ends the call
      because its wait has expired, and r is 0. */
  predicate Answers(st: State, a: Action, id: nat, want: Request, r: nat) {
    match a
    case Select(i, w) => i == id && w == want && r == Ready(st, want) && (r > 0 || want.poll)
    case Rescan(i) => i == id && r == Ready(st, want)
    case Leave(i) => i == id && r == 0 && IsLeaving(st, id, false)
    case _ => false
  }

  predicate IsLeaving(st: State, id: nat, woken: bool) {
    id in st.selects && st.selects[id] == Leaving(woken)
  }

  ghost predicate CalledAt(actions: seq<Action>, j: nat, id: nat, want: Request) {
    j < |actions| && actions[j] == Select(id, want)
  }

  /** What one step does to a call: it keeps its arguments, and is answered but once. */
  lemma CallStep(st: State, a: Action, id: nat)
    requires Enabled(st, a) && id in Next(st, a).selects && (id in st.selects ==> id in st.wants)
    ensures var st' := Next(st, a);
            id in st'.wants &&
            (if id in st.selects then st'.wants[id] == st.wants[id] else a == Select(id, st'.wants[id])) &&
            (st'.selects[id].Returned? ==>
               (id in st.selects && st.selects[id] == st'.selects[id]) ||
               Answers(st, a, id, st'.wants[id], st'.selects[id].nready)) &&
            (IsBlocked(st', id) ==>
               if id in st.selects then st'.selects[id] == st.selects[id]
               else Ready(st, st'.wants[id]) == 0 && !st'.wants[id].poll)
  {
    hide Readable, Writable;
  }

  /** A call keeps its arguments. */
  lemma {:induction false} WantsAreKept(states: seq<State>, actions: seq<Action>, n: nat, id: nat) returns (j: nat)
    requires Run(states, actions) && n < |states| && id in states[n].selects
    ensures id in states[n].wants && j < n && CalledAt(actions, j, id, states[n].wants[id])
    decreases n
  {
    hide Next, Enabled;
    j := n - 1;
    if id in states[n - 1].selects {
      j := WantsAreKept(states, actions, n - 1, id);
    }
    assert states[n] == Next(states[n - 1], actions[n - 1]);
    CallStep(states[n - 1], actions[n - 1], id);
  }

  /** Over every run: a select call that waits has found nothing ready in its first scan, and
      does not poll. */
  lemma {:induction false} BlocksOnlyIf(states: seq<State>, actions: seq<Action>, n: nat, id: nat) returns (j: nat)
    requires Run(states, actions) && n < |states| && IsBlocked(states[n], id)
    ensures id in states[n].wants && j < n && CalledAt(actions, j, id, states[n].wants[id])
    ensures Ready(states[j], states[n].wants[id]) == 0 && !states[n].wants[id].poll
    decreases n
  {
    hide Next, Enabled, Readable, Writable, Answers;
    j := n - 1;
    if id in states[n - 1].selects {
      var before := WantsAreKept(states, actions, n - 1, id);
    }
    assert states[n] == Next(states[n - 1], actions[n - 1]);
    CallStep(states[n - 1], actions[n - 1], id);
    if id in states[n - 1].selects {
      j := BlocksOnlyIf(states, actions, n - 1, id);
    }
  }

  /** Over every run: a select call that is back at its caller returned the number of its own
      sockets that were ready when it last scanned them, or 0 after a timeout. */
  lemma {:induction false} SelectAnswers(states: seq<State>, actions: seq<Action>, n: nat, id: nat)
    returns (j: nat, k: nat)
    requires Run(states, actions) && n < |states| && id in states[n].selects && states[n].selects[id].Returned?
    ensures id in states[n].wants && j <= k < n && CalledAt(actions, j, id, states[n].wants[id])
    ensures Answers(states[k], actions[k], id, states[n].wants[id], states[n].selects[id].nready)
    decreases n
  {
    hide Next, Enabled, Answers;
    j := WantsAreKept(states, actions, n, id);
    var st, a := states[n - 1], actions[n - 1];
    assert states[n] == Next(st, a);
    k := n - 1;
    if id in st.selects {
      var before := WantsAreKept(states, actions, n - 1, id);
    }
    CallStep(st, a, id);
    if id in st.selects && st.selects[id] == states[n].selects[id] {
      j, k := SelectAnswers(states, actions, n - 1, id);
    }
  }
}
