/** lwip_select and event_callback as an interleaving of critical sections
    (src/api/sockets.c). Everything that is done while selectsem is held is one step;
    any number of select calls and callbacks may be between two of their sections. */
module SelectProtocol {

  datatype Event = RcvPlus | RcvMinus | SendPlus | SendMinus

  /** s16_t */
  type S16 = n: int | -0x8000 <= n < 0x8000 witness 0

  /** A slot of the socket array; `open` says that it has a netconn. */
  datatype Socket = Socket(open: bool, lastdata: bool, rcvevent: S16, sendevent: bool)

  /** The arguments of a select call. A null set is an empty one; `timed` says that the
      wait can expire, `poll` that the timeout is zero. */
  datatype Request = Request(maxfdp1: int, readset: set<int>, writeset: set<int>, timed: bool, poll: bool)

  /** A struct lwip_select_cb with its semaphore; `signals` counts every signal ever given. */
  datatype Waiter = Waiter(id: nat, want: Request, signalled: bool, sem: nat, signals: nat)

  // ----- readiness -----

  predicate IsOpen(sockets: seq<Socket>, s: int) {
    0 <= s < |sockets| && sockets[s].open
  }

  /** What lwip_selscan reports as readable. */
  function Readable(sockets: seq<Socket>, want: Request): (r: set<int>) {
    set s | s in want.readset && 0 <= s < want.maxfdp1 && IsOpen(sockets, s) &&
            (sockets[s].lastdata || sockets[s].rcvevent > 0)
  }

  function Writable(sockets: seq<Socket>, want: Request): (w: set<int>) {
    set s | s in want.writeset && 0 <= s < want.maxfdp1 && IsOpen(sockets, s) && sockets[s].sendevent
  }

  /** What event_callback tests for socket s: it does not know maxfdp1. */
  predicate Matches(sock: Socket, s: int, w: Waiter) {
    !w.signalled &&
    ((s in w.want.readset && sock.rcvevent > 0) || (s in w.want.writeset && sock.sendevent))
  }

  // ----- the critical sections -----

  /** The counter is a signed 16-bit number. */
  function WrapS16(n: int): (r: S16)
    ensures -0x8000 <= n < 0x8000 ==> r == n
  {
    (n + 0x8000) % 0x1_0000 - 0x8000
  }

  function Apply(sock: Socket, evt: Event): Socket {
    match evt
    case RcvPlus => sock.(rcvevent := WrapS16(sock.rcvevent + 1))
    case RcvMinus => sock.(rcvevent := WrapS16(sock.rcvevent - 1))
    case SendPlus => sock.(sendevent := true)
    case SendMinus => sock.(sendevent := false)
  }

  function Remove(list: seq<Waiter>, id: nat): (rest: seq<Waiter>) {
    if list == [] then []
    else if list[0].id == id then list[1..]
    else [list[0]] + Remove(list[1..], id)
  }

  /** The first waiter from the front of the list that the callback has to wake. */
  function FirstMatch(sock: Socket, s: int, list: seq<Waiter>): (k: nat)
    ensures k <= |list|
    ensures forall j :: 0 <= j < k ==> !Matches(sock, s, list[j])
    ensures k < |list| ==> Matches(sock, s, list[k])
  {
    if list == [] || Matches(sock, s, list[0]) then 0 else 1 + FirstMatch(sock, s, list[1..])
  }

  function Signal(list: seq<Waiter>, k: nat): seq<Waiter>
    requires k < |list|
  {
    list[k := list[k].(signalled := true, sem := list[k].sem + 1, signals := list[k].signals + 1)]
  }

  // ----- the machine -----

  /** Where a select call is: waiting for its semaphore, back from the wait but not yet
      off the list, scanning for the second time, or back at its caller. */
  datatype Phase = Blocked | Leaving(woken: bool) | Rescanning | Returned(nready: nat)

  /** `selects`, `wants` and `callbacks` hold the calls by number; a callback in the map
      has recorded its event and still has to scan the list for its socket. */
  datatype State = State(
    sockets: seq<Socket>,
    list: seq<Waiter>,
    selects: map<nat, Phase>,
    wants: map<nat, Request>,
    callbacks: map<nat, int>)

  datatype Action =
    | Select(id: nat, want: Request)
    | Wake(id: nat)
    | Expire(id: nat)
    | Leave(id: nat)
    | Rescan(id: nat)
    | Post(cb: nat, s: int, evt: Event)
    | Scan(cb: nat)
    | Leftover(s: int, lastdata: bool)

  predicate OnList(st: State, id: nat) {
    IsBlocked(st, id) || (id in st.selects && st.selects[id].Leaving?)
  }

  predicate IsBlocked(st: State, id: nat) {
    id in st.selects && st.selects[id].Blocked?
  }

  ghost predicate Enabled(st: State, a: Action) {
    match a
    case Select(id, want) => id !in st.selects
    case Wake(id) => IsBlocked(st, id) &&
                     exists w :: w in st.list && w.id == id && w.sem > 0
    case Expire(id) => IsBlocked(st, id) &&
                       exists w :: w in st.list && w.id == id && w.want.timed
    case Leave(id) => id in st.selects && st.selects[id].Leaving?
    case Rescan(id) => id in st.selects && st.selects[id].Rescanning? && id in st.wants
    case Post(cb, s, evt) => cb !in st.callbacks
    case Scan(cb) => cb in st.callbacks && IsOpen(st.sockets, st.callbacks[cb])
    case Leftover(s, lastdata) => IsOpen(st.sockets, s)
  }

  function TakeSignal(list: seq<Waiter>, id: nat): (r: seq<Waiter>)
    ensures |r| == |list|
    ensures forall k :: 0 <= k < |list| ==>
      r[k] == if list[k].id == id && list[k].sem > 0 then list[k].(sem := list[k].sem - 1) else list[k]
  {
    seq(|list|, k requires 0 <= k < |list| =>
      if list[k].id == id && list[k].sem > 0 then list[k].(sem := list[k].sem - 1) else list[k])
  }

  ghost function Next(st: State, a: Action): State
    requires Enabled(st, a)
  {
    match a
    case Select(id, want) =>
      var nready := |Readable(st.sockets, want)| + |Writable(st.sockets, want)|;
      if nready > 0 || want.poll then st.(selects := st.selects[id := Returned(nready)], wants := st.wants[id := want])
      else st.(list := [Waiter(id, want, false, 0, 0)] + st.list, selects := st.selects[id := Blocked],
               wants := st.wants[id := want])
    case Wake(id) =>
      st.(list := TakeSignal(st.list, id), selects := st.selects[id := Leaving(true)])
    case Expire(id) =>
      st.(selects := st.selects[id := Leaving(false)])
    case Leave(id) =>
      st.(list := Remove(st.list, id),
          selects := st.selects[id := if st.selects[id].woken then Rescanning else Returned(0)])
    case Rescan(id) =>
      var want := st.wants[id];
      st.(selects := st.selects[id := Returned(|Readable(st.sockets, want)| + |Writable(st.sockets, want)|)])
    case Post(cb, s, evt) =>
      if !IsOpen(st.sockets, s) then st
      else st.(sockets := st.sockets[s := Apply(st.sockets[s], evt)], callbacks := st.callbacks[cb := s])
    case Scan(cb) =>
      var s := st.callbacks[cb];
      var k := FirstMatch(st.sockets[s], s, st.list);
      if k < |st.list| then st.(list := Signal(st.list, k))
      else st.(callbacks := st.callbacks - {cb})
    case Leftover(s, lastdata) =>
      st.(sockets := st.sockets[s := st.sockets[s].(lastdata := lastdata)])
  }

  // ----- the invariant -----

  /** The waiter watches s below its maxfdp1, and the condition it watches for holds. */
  predicate Watched(sockets: seq<Socket>, w: Waiter, s: int) {
    IsOpen(sockets, s) && s < w.want.maxfdp1 &&
    ((s in w.want.readset && sockets[s].rcvevent > 0) || (s in w.want.writeset && sockets[s].sendevent))
  }

  ghost predicate InFlight(st: State, s: int) {
    exists cb :: cb in st.callbacks && st.callbacks[cb] == s
  }

  /** A waiter that should wake is signalled, or a callback for its socket is on its way. */
  ghost predicate NoLostWakeup(st: State) {
    forall k, s :: 0 <= k < |st.list| && !st.list[k].signalled && Watched(st.sockets, st.list[k], s) ==> InFlight(st, s)
  }

  ghost predicate Distinct(list: seq<Waiter>) {
    forall i, j :: 0 <= i < j < |list| ==> list[i].id != list[j].id
  }

  ghost predicate Has(list: seq<Waiter>, id: nat) {
    exists k :: 0 <= k < |list| && list[k].id == id
  }

  /** The list holds the select calls that are between their two sections, each once. */
  ghost predicate ListIsBlockedCalls(st: State) {
    Distinct(st.list) && forall id :: Has(st.list, id) <==> OnList(st, id)
  }

  /** The call's own entry: at most one signal, and it is there until the wait takes it. */
  predicate SignalOnce(st: State, w: Waiter) {
    w.signals == (if w.signalled then 1 else 0) && w.sem <= w.signals &&
    w.id in st.selects && w.id in st.wants && st.wants[w.id] == w.want &&
    (IsBlocked(st, w.id) ==> w.sem == w.signals) &&
    (st.selects[w.id] == Leaving(true) ==> w.signals == 1)
  }

  ghost predicate CallbacksOpen(st: State) {
    forall cb :: cb in st.callbacks ==> IsOpen(st.sockets, st.callbacks[cb])
  }

  ghost predicate Inv(st: State) {
    NoLostWakeup(st) && ListIsBlockedCalls(st) && CallbacksOpen(st) &&
    forall k :: 0 <= k < |st.list| ==> SignalOnce(st, st.list[k])
  }

  ghost predicate Init(st: State) {
    st.list == [] && st.selects == map[] && st.callbacks == map[]
  }

  // ----- preservation, one section at a time -----

  lemma NothingReady(sockets: seq<Socket>, w: Waiter, s: int)
    requires |Readable(sockets, w.want)| + |Writable(sockets, w.want)| == 0
    ensures !Watched(sockets, w, s)
  {
    assert s !in Readable(sockets, w.want);
    assert s !in Writable(sockets, w.want);
  }

  predicate SameWatch(v: Waiter, w: Waiter) {
    v.want == w.want && v.signalled == w.signalled
  }

  /** Steps that touch neither events nor callbacks, and at most shrink the list or take
      signals from it, lose no wakeup. */
  lemma WakeupFrame(st: State, st': State, from: seq<nat>)
    requires NoLostWakeup(st)
    requires st'.callbacks == st.callbacks && |st'.sockets| == |st.sockets|
    requires forall s :: 0 <= s < |st.sockets| ==> st'.sockets[s] == st.sockets[s].(lastdata := st'.sockets[s].lastdata)
    requires |from| == |st'.list|
    requires forall k :: 0 <= k < |from| ==> from[k] < |st.list| && SameWatch(st.list[from[k]], st'.list[k])
    ensures NoLostWakeup(st')
  {
    forall k, s | 0 <= k < |st'.list| && !st'.list[k].signalled && Watched(st'.sockets, st'.list[k], s)
      ensures InFlight(st', s)
    {
      assert Watched(st.sockets, st.list[from[k]], s);
      assert InFlight(st, s);
    }
  }

  function Identity(n: nat): (r: seq<nat>)
    ensures |r| == n && forall k :: 0 <= k < n ==> r[k] == k
  {
    seq(n, k => k)
  }

  lemma SelectPreserves(st: State, id: nat, want: Request)
    requires Inv(st) && Enabled(st, Select(id, want))
    ensures Inv(Next(st, Select(id, want)))
  {
    var st' := Next(st, Select(id, want));
    assert !OnList(st, id);
    if st'.list == st.list {
      assert forall x :: OnList(st', x) <==> OnList(st, x);
      WakeupFrame(st, st', Identity(|st.list|));
      forall k | 0 <= k < |st.list| ensures SignalOnce(st', st.list[k]) {
        assert SignalOnce(st, st.list[k]);
      }
    } else {
      var w := Waiter(id, want, false, 0, 0);
      assert st'.list == [w] + st.list;
      forall s ensures !Watched(st.sockets, w, s) {
        NothingReady(st.sockets, w, s);
      }
      Pushed(st, st', w);
    }
  }

  lemma Pushed(st: State, st': State, w: Waiter)
    requires Inv(st) && w.id !in st.selects && !w.signalled && w.sem == w.signals == 0
    requires forall s :: !Watched(st.sockets, w, s)
    requires st' == st.(list := [w] + st.list, selects := st.selects[w.id := Blocked],
                        wants := st.wants[w.id := w.want])
    ensures Inv(st')
  {
    assert forall k :: 0 < k < |st'.list| ==> st'.list[k] == st.list[k - 1];
    assert forall k :: 0 <= k < |st.list| ==> st.list[k] == st'.list[k + 1];
    forall k | 0 <= k < |st.list| ensures st.list[k].id != w.id {
      assert SignalOnce(st, st.list[k]);
    }
    forall x ensures Has(st'.list, x) <==> OnList(st', x) {
      if x == w.id {
        assert st'.list[0].id == x;
      } else {
        assert OnList(st', x) <==> OnList(st, x);
        if Has(st.list, x) {
          var k :| 0 <= k < |st.list| && st.list[k].id == x;
          assert st'.list[k + 1].id == x;
        }
      }
    }
    forall k, s | 0 <= k < |st'.list| && !st'.list[k].signalled && Watched(st'.sockets, st'.list[k], s)
      ensures InFlight(st', s)
    {
      assert InFlight(st, s);
    }
    forall k | 0 <= k < |st'.list| ensures SignalOnce(st', st'.list[k]) {
      if k > 0 {
        assert SignalOnce(st, st.list[k - 1]);
      }
    }
  }

  lemma {:induction false} RemoveAt(list: seq<Waiter>, p: nat)
    requires p < |list| && forall j :: 0 <= j < p ==> list[j].id != list[p].id
    ensures Remove(list, list[p].id) == list[..p] + list[p + 1..]
  {
    if p > 0 {
      assert list[1..][p - 1] == list[p];
      RemoveAt(list[1..], p - 1);
    }
  }

  lemma WakePreserves(st: State, id: nat)
    requires Inv(st) && Enabled(st, Wake(id))
    ensures Inv(Next(st, Wake(id)))
  {
    var st' := Next(st, Wake(id));
    hide NoLostWakeup, ListIsBlockedCalls;
    assert forall k :: 0 <= k < |st.list| ==> st'.list[k].id == st.list[k].id;
    WakeupFrame(st, st', Identity(|st.list|));
    ListFrame(st, st');
    forall k | 0 <= k < |st'.list| ensures SignalOnce(st', st'.list[k]) {
      SignalTaken(st, id, k);
    }
  }

  /** Only one entry has the id of the call that wakes, and it is the one with the signal. */
  lemma SignalTaken(st: State, id: nat, k: nat)
    requires Inv(st) && Enabled(st, Wake(id)) && k < |st.list|
    ensures SignalOnce(Next(st, Wake(id)), Next(st, Wake(id)).list[k])
  {
    hide NoLostWakeup, CallbacksOpen;
    var w :| w in st.list && w.id == id && w.sem > 0;
    var j :| 0 <= j < |st.list| && st.list[j] == w;
    assert SignalOnce(st, st.list[k]);
    assert SignalOnce(st, st.list[j]);
  }

  /** Steps that keep the ids on the list and move calls only between the two phases there. */
  lemma ListFrame(st: State, st': State)
    requires ListIsBlockedCalls(st)
    requires |st'.list| == |st.list| && forall k :: 0 <= k < |st.list| ==> st'.list[k].id == st.list[k].id
    requires forall x :: OnList(st', x) <==> OnList(st, x)
    ensures ListIsBlockedCalls(st')
  {
    forall x ensures Has(st'.list, x) <==> Has(st.list, x) {
      if Has(st.list, x) {
        var k :| 0 <= k < |st.list| && st.list[k].id == x;
        assert st'.list[k].id == x;
      }
    }
  }

  lemma ExpirePreserves(st: State, id: nat)
    requires Inv(st) && Enabled(st, Expire(id))
    ensures Inv(Next(st, Expire(id)))
  {
    var st' := Next(st, Expire(id));
    hide NoLostWakeup, ListIsBlockedCalls;
    WakeupFrame(st, st', Identity(|st.list|));
    ListFrame(st, st');
    forall k | 0 <= k < |st'.list| ensures SignalOnce(st', st'.list[k]) {
      assert SignalOnce(st, st.list[k]);
    }
  }

  lemma LeavePreserves(st: State, id: nat)
    requires Inv(st) && Enabled(st, Leave(id))
    ensures Inv(Next(st, Leave(id)))
  {
    assert Has(st.list, id) by {
      assert OnList(st, id);
    }
    var p :| 0 <= p < |st.list| && st.list[p].id == id;
    RemoveAt(st.list, p);
    hide NoLostWakeup, ListIsBlockedCalls, CallbacksOpen;
    UnlinkPreserves(st, Next(st, Leave(id)), p);
  }

  lemma UnlinkPreserves(st: State, st': State, p: nat)
    requires Inv(st) && p < |st.list| && OnList(st, st.list[p].id)
    requires st'.list == st.list[..p] + st.list[p + 1..]
    requires !OnList(st', st.list[p].id)
    requires st' == st.(list := st'.list, selects := st'.selects)
    requires forall x :: x != st.list[p].id && x in st.selects ==> x in st'.selects && st'.selects[x] == st.selects[x]
    requires forall x :: x != st.list[p].id && x !in st.selects ==> x !in st'.selects
    ensures Inv(st')
  {
    hide NoLostWakeup;
    var from: seq<nat> := seq(|st'.list|, k requires 0 <= k < |st'.list| => if k < p then k else k + 1);
    assert forall k :: 0 <= k < |st'.list| ==> st'.list[k] == st.list[from[k]] && st.list[from[k]].id != st.list[p].id;
    WakeupFrame(st, st', from);
    RemovedIds(st, st', p);
    hide ListIsBlockedCalls;
    forall k | 0 <= k < |st'.list| ensures SignalOnce(st', st'.list[k]) {
      assert SignalOnce(st, st.list[from[k]]);
    }
  }

  lemma RemovedIds(st: State, st': State, p: nat)
    requires ListIsBlockedCalls(st) && p < |st.list|
    requires st'.list == st.list[..p] + st.list[p + 1..]
    requires forall x :: OnList(st', x) <==> OnList(st, x) && x != st.list[p].id
    ensures ListIsBlockedCalls(st')
  {
    assert forall k :: 0 <= k < |st'.list| ==> st'.list[k] == st.list[if k < p then k else k + 1];
    forall x ensures Has(st'.list, x) <==> Has(st.list, x) && x != st.list[p].id {
      if Has(st.list, x) && x != st.list[p].id {
        var k :| 0 <= k < |st.list| && st.list[k].id == x;
        assert st'.list[if k < p then k else k - 1] == st.list[k];
      }
    }
  }

  lemma RescanPreserves(st: State, id: nat)
    requires Inv(st) && Enabled(st, Rescan(id))
    ensures Inv(Next(st, Rescan(id)))
  {
    var st' := Next(st, Rescan(id));
    hide NoLostWakeup, ListIsBlockedCalls;
    WakeupFrame(st, st', Identity(|st.list|));
    ListFrame(st, st');
    forall k | 0 <= k < |st'.list| ensures SignalOnce(st', st'.list[k]) {
      assert SignalOnce(st, st.list[k]);
    }
  }

  lemma PostPreserves(st: State, cb: nat, s: int, evt: Event)
    requires Inv(st) && Enabled(st, Post(cb, s, evt))
    ensures Inv(Next(st, Post(cb, s, evt)))
  {
    var st' := Next(st, Post(cb, s, evt));
    if st' != st {
      ListFrame(st, st');
      forall k, t | 0 <= k < |st'.list| && !st'.list[k].signalled && Watched(st'.sockets, st'.list[k], t)
        ensures InFlight(st', t)
      {
        if t == s {
          assert st'.callbacks[cb] == s;
        } else {
          assert Watched(st.sockets, st.list[k], t);
          assert InFlight(st, t);
          var c :| c in st.callbacks && st.callbacks[c] == t;
          assert st'.callbacks[c] == t;
        }
      }
      forall k | 0 <= k < |st'.list| ensures SignalOnce(st', st'.list[k]) {
        assert SignalOnce(st, st.list[k]);
      }
    }
  }

  lemma ScanPreserves(st: State, cb: nat)
    requires Inv(st) && Enabled(st, Scan(cb))
    ensures Inv(Next(st, Scan(cb)))
  {
    var st' := Next(st, Scan(cb));
    var s := st.callbacks[cb];
    var m := FirstMatch(st.sockets[s], s, st.list);
    ListFrame(st, st');
    forall k, t | 0 <= k < |st'.list| && !st'.list[k].signalled && Watched(st'.sockets, st'.list[k], t)
      ensures InFlight(st', t)
    {
      assert st.list[k] == st'.list[k];
      assert InFlight(st, t);
      var c :| c in st.callbacks && st.callbacks[c] == t;
      if m == |st.list| && t == s {
        assert Matches(st.sockets[s], s, st.list[k]);
        assert false;
      } else {
        assert st'.callbacks[c] == t;
      }
    }
    forall k | 0 <= k < |st'.list| ensures SignalOnce(st', st'.list[k]) {
      assert SignalOnce(st, st.list[k]);
    }
  }

  lemma LeftoverPreserves(st: State, s: int, lastdata: bool)
    requires Inv(st) && Enabled(st, Leftover(s, lastdata))
    ensures Inv(Next(st, Leftover(s, lastdata)))
  {
    var st' := Next(st, Leftover(s, lastdata));
    hide NoLostWakeup, ListIsBlockedCalls;
    WakeupFrame(st, st', Identity(|st.list|));
    ListFrame(st, st');
    forall k | 0 <= k < |st'.list| ensures SignalOnce(st', st'.list[k]) {
      assert SignalOnce(st, st.list[k]);
    }
  }

  lemma NextPreserves(st: State, a: Action)
    requires Inv(st) && Enabled(st, a)
    ensures Inv(Next(st, a))
  {
    match a
    case Select(id, want) => SelectPreserves(st, id, want);
    case Wake(id) => WakePreserves(st, id);
    case Expire(id) => ExpirePreserves(st, id);
    case Leave(id) => LeavePreserves(st, id);
    case Rescan(id) => RescanPreserves(st, id);
    case Post(cb, s, evt) => PostPreserves(st, cb, s, evt);
    case Scan(cb) => ScanPreserves(st, cb);
    case Leftover(s, lastdata) => LeftoverPreserves(st, s, lastdata);
  }

  // ----- whole runs -----

  /** A run: each state follows from the one before by an enabled step. */
  ghost predicate Run(states: seq<State>, actions: seq<Action>) {
    |states| == |actions| + 1 && Init(states[0]) &&
    forall i :: 0 <= i < |actions| ==> Enabled(states[i], actions[i]) && states[i + 1] == Next(states[i], actions[i])
  }

  lemma {:induction false} RunInv(states: seq<State>, actions: seq<Action>, n: nat)
    requires Run(states, actions) && n < |states|
    ensures Inv(states[n])
    decreases n
  {
    if n == 0 {
      var st := states[0];
      assert forall id :: !Has(st.list, id) && !OnList(st, id);
    } else {
      RunInv(states, actions, n - 1);
      NextPreserves(states[n - 1], actions[n - 1]);
    }
  }

  /** No interleaving loses a wakeup: once no callback is under way, a select that still
      waits for a socket with a pending event has its signal in the semaphore, and every
      select was signalled at most once. */
  lemma NoWakeupIsLost(states: seq<State>, actions: seq<Action>, n: nat, k: nat, s: int)
    requires Run(states, actions) && n < |states| && k < |states[n].list|
    ensures states[n].list[k].signals <= 1
    ensures states[n].callbacks == map[] && IsBlocked(states[n], states[n].list[k].id) &&
            Watched(states[n].sockets, states[n].list[k], s) ==>
            states[n].list[k].sem == 1 && Enabled(states[n], Wake(states[n].list[k].id))
  {
    RunInv(states, actions, n);
    var st := states[n];
    var w := st.list[k];
    assert SignalOnce(st, w);
    if st.callbacks == map[] && IsBlocked(st, w.id) && Watched(st.sockets, w, s) {
      assert !InFlight(st, s);
      assert w.sem == 1;
      assert w in st.list;
    }
  }

  /** A select call waits on the list exactly from its first section to its second. */
  lemma ListHoldsTheBlocked(states: seq<State>, actions: seq<Action>, n: nat, id: nat)
    requires Run(states, actions) && n < |states|
    ensures Has(states[n].list, id) <==> OnList(states[n], id)
    ensures Distinct(states[n].list)
  {
    RunInv(states, actions, n);
  }
}
