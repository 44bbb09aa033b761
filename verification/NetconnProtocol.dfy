/** The handshake between an application thread and the stack thread for one netconn
    (src/api/api_msg.c, src/api/tcpip.c, src/api/api_lib.c), without core locking.

    The application posts a message and waits on the semaphore `op_completed`. The stack
    thread takes the message and answers it, at once or in a later callback of TCP, by
    signalling the semaphore. Everything that TCP and UDP may return is a parameter. */
module NetconnProtocol {

  /** err_t is an s8_t. */
  type Err = e: int | -128 <= e < 128 witness 0

  const ERR_OK: Err := 0
  const ERR_MEM: Err := -1
  const ERR_RTE: Err := -4
  const ERR_CONN: Err := -8
  const ERR_VAL: Err := -9

  predicate IsFatal(e: Err) { e < ERR_RTE }

  datatype Kind = Tcp | Udp | Raw

  /** enum netconn_state */
  datatype Phase = NONE | WRITE | LISTEN | CONNECT | CLOSE

  /** The messages of api_lib.c, named after the function that the stack thread runs. */
  datatype Request =
    | NewConn | DelConn | Bind | Connect | Disconnect | Listen | Send | Recv
    | Write(data: seq<bv8>) | GetAddr | Close | JoinLeave

  /** What the rest of the stack answers during one step: the result of the function that
      is called (`err`), tcp_sndbuf, the results of tcp_write and of tcp_output_nagle, and
      whether an allocation, a second allocation or a test of the pcb succeeds. */
  datatype Answer = Answer(err: Err, sndbuf: nat, written: Err, output: Err, granted: bool, mbox: bool, test: bool)

  /** conn->write_msg */
  datatype WriteMsg = NoMsg | Msg(data: seq<bv8>)

  /** struct netconn. `signals` counts the signals that op_completed was ever given, `handed`
      is what tcp_write has accepted so far, and `owed` says that a successful tcp_connect
      still owes a call of do_connected. */
  datatype Conn = Conn(kind: Kind, state: Phase, pcb: bool, err: Err, acceptmbox: bool, sem: nat, signals: nat,
                       writing: WriteMsg, offset: nat, handed: seq<bv8>, owed: bool)

  predicate Busy(state: Phase) { state.CONNECT? || state.WRITE? || state.CLOSE? }

  /** What the assertions at the head of do_writemore and do_close_internal demand. */
  predicate Ready(c: Conn) {
    (Busy(c.state) ==> c.pcb && c.kind.Tcp?) &&
    (c.state.WRITE? ==> c.writing.Msg? && c.offset <= |c.writing.data|)
  }

  function Signal(c: Conn): Conn {
    c.(sem := c.sem + 1, signals := c.signals + 1)
  }

  // ---------------------------------------------------------------- the stack thread

  function DoNewconn(c: Conn, a: Answer): Conn {
    Signal(if c.pcb then c
           else if a.granted then c.(err := ERR_OK, pcb := true)
           else c.(err := ERR_MEM))
  }

  /** The length of the next piece: at most what a u16_t holds and what the send buffer takes. */
  function ChunkLength(c: Conn, sndbuf: nat): nat
    requires Ready(c) && c.state.WRITE?
  {
    var diff := |c.writing.data| - c.offset;
    var len := if diff > 0xffff then 0xffff else diff;
    if sndbuf < len then sndbuf else len
  }

  function DoWritemore(c: Conn, a: Answer): Conn
    requires Ready(c) && c.state.WRITE?
  {
    var len := ChunkLength(c, a.sndbuf);
    if a.written == ERR_OK then
      var chunk := c.writing.data[c.offset..c.offset + len];
      if c.offset + len == |c.writing.data| then
        Signal(c.(handed := c.handed + chunk, writing := NoMsg, offset := 0, state := NONE, err := a.output))
      else
        c.(handed := c.handed + chunk, offset := c.offset + len, err := a.output)
    else if a.written == ERR_MEM then c
    else Signal(c.(err := a.written, state := NONE))
  }

  function DoWrite(c: Conn, data: seq<bv8>, a: Answer): Conn {
    if IsFatal(c.err) then Signal(c)
    else if c.pcb && c.kind.Tcp? then DoWritemore(c.(state := WRITE, writing := Msg(data), offset := 0), a)
    else Signal(c.(err := ERR_VAL))
  }

  function DoCloseInternal(c: Conn, a: Answer): Conn
    requires Ready(c) && c.state.CLOSE?
  {
    if a.err == ERR_OK then Signal(c.(state := NONE, pcb := false, err := ERR_OK)) else c
  }

  function DoClose(c: Conn, a: Answer): Conn {
    if c.pcb && c.kind.Tcp? then DoCloseInternal(c.(state := CLOSE), a)
    else Signal(c.(err := ERR_VAL))
  }

  function DoDelconn(c: Conn, a: Answer): Conn {
    if c.pcb && c.kind.Tcp? then DoCloseInternal(c.(state := CLOSE), a)
    else Signal(c)
  }

  function DoConnect(c: Conn, a: Answer): Conn {
    if !c.pcb then Signal(c)
    else if c.kind.Tcp? then c.(state := CONNECT, err := a.err, owed := a.err == ERR_OK)
    else Signal(c.(err := a.err))
  }

  function DoBind(c: Conn, a: Answer): Conn {
    Signal(if IsFatal(c.err) then c else if c.pcb then c.(err := a.err) else c.(err := ERR_VAL))
  }

  /** `test` says that the pcb is CLOSED, `granted` that tcp_listen gets a new one and `mbox`
      that a missing acceptmbox can be had. */
  function DoListen(c: Conn, a: Answer): Conn {
    Signal(if IsFatal(c.err) || !c.pcb || !c.kind.Tcp? then c
           else if !a.test then c.(err := ERR_CONN)
           else if !a.granted then c.(err := ERR_MEM)
           else
             var c1 := if c.acceptmbox then c else if a.mbox then c.(acceptmbox := true) else c.(err := ERR_MEM);
             if c1.err == ERR_OK then c1.(state := LISTEN) else c1)
  }

  /** do_send and do_join_leave_group */
  function DoDatagram(c: Conn, join: bool, a: Answer): Conn {
    Signal(if IsFatal(c.err) || !c.pcb then c
           else if join then c.(err := if c.kind.Udp? then a.err else ERR_VAL)
           else if c.kind.Tcp? then c
           else c.(err := a.err))
  }

  /** `test`: the pcb has no remote address that could be asked for. */
  function DoGetaddr(c: Conn, a: Answer): Conn {
    Signal(if !c.pcb || (!c.kind.Tcp? && a.test) then c.(err := ERR_CONN) else c)
  }

  /** The handler of a message; do_recv and do_disconnect change nothing in a netconn. */
  function Handle(c: Conn, r: Request, a: Answer): Conn {
    match r
    case NewConn => DoNewconn(c, a)
    case DelConn => DoDelconn(c, a)
    case Bind => DoBind(c, a)
    case Connect => DoConnect(c, a)
    case Disconnect => Signal(c)
    case Listen => DoListen(c, a)
    case Send => DoDatagram(c, false, a)
    case Recv => Signal(c)
    case Write(data) => DoWrite(c, data, a)
    case GetAddr => DoGetaddr(c, a)
    case Close => DoClose(c, a)
    case JoinLeave => DoDatagram(c, true, a)
  }

  /** poll_tcp and sent_tcp do the same to a netconn. */
  function PollTcp(c: Conn, a: Answer): Conn
    requires Ready(c)
  {
    if c.state.WRITE? then DoWritemore(c, a)
    else if c.state.CLOSE? then DoCloseInternal(c, a)
    else c
  }

  /** The second test sees the state that the first branch leaves behind. */
  function ErrTcp(c: Conn, e: Err): Conn {
    var c0 := c.(pcb := false, err := e, owed := false);
    var c1 := if c0.state.CONNECT? then Signal(c0.(state := NONE)) else c0;
    if c1.state.WRITE? || c1.state.CLOSE? then Signal(c1.(state := NONE)) else c1
  }

  function DoConnected(c: Conn, e: Err): Conn {
    Signal(c.(err := e, state := NONE, owed := false))
  }

  // ---------------------------------------------------------------- both threads

  datatype App = Idle | Waiting(r: Request) | Gone

  /** A finished call: its result, and what tcp_write accepted while it ran. */
  datatype Outcome = Outcome(r: Request, err: Err, handed: seq<bv8>)

  /** `queued`: the message is still in the mailbox of the stack thread. `mark` is the length
      of conn.handed when the last message was posted. */
  datatype World = World(conn: Conn, app: App, queued: bool, posted: nat, mark: nat, done: seq<Outcome>)

  datatype Step =
    | Post(r: Request)    // tcpip_apimsg: post, then wait
    | Process             // tcpip_thread runs the function of the message
    | Poll                // poll_tcp or sent_tcp
    | Error(e: Err)       // err_tcp, with the reason
    | Connected(e: Err)   // do_connected
    | Wake                // the wait on op_completed ends, the call returns conn->err
    | SetErr(e: Err)      // netconn_recv notes a time-out, a lost connection, ... by itself

  predicate Enabled(w: World, s: Step) {
    match s
    case Post(r) => w.app.Idle?
    case Process => w.queued && w.app.Waiting?
    case Poll => w.conn.kind.Tcp? && w.conn.pcb
    case Error(e) => w.conn.kind.Tcp? && w.conn.pcb && e != ERR_OK
    case Connected(e) => w.conn.owed
    case Wake => w.app.Waiting? && w.conn.sem > 0
    case SetErr(e) => w.app.Idle?
  }

  function Returned(w: World): Outcome
    requires w.app.Waiting? && w.mark <= |w.conn.handed|
  {
    Outcome(w.app.r, w.conn.err, w.conn.handed[w.mark..])
  }

  /** netconn_delete frees the netconn when it returns. */
  function AfterWake(w: World): World
    requires w.app.Waiting? && w.mark <= |w.conn.handed| && w.conn.sem > 0
  {
    var del := w.app.r.DelConn?;
    var conn := w.conn.(sem := w.conn.sem - 1, pcb := w.conn.pcb && !del);
    w.(conn := conn, app := if del then Gone else Idle, mark := |conn.handed|, done := w.done + [Returned(w)])
  }

  function Apply(w: World, s: Step, a: Answer): World
    requires Enabled(w, s) && Ready(w.conn) && w.mark <= |w.conn.handed|
  {
    match s
    case Post(r) => w.(app := Waiting(r), queued := true, posted := w.posted + 1, mark := |w.conn.handed|)
    case Process => w.(queued := false, conn := Handle(w.conn, w.app.r, a))
    case Poll => w.(conn := PollTcp(w.conn, a))
    case Error(e) => w.(conn := ErrTcp(w.conn, e))
    case Connected(e) => w.(conn := DoConnected(w.conn, e))
    case Wake => AfterWake(w)
    case SetErr(e) => w.(conn := w.conn.(err := e))
  }

  // ---------------------------------------------------------------- the invariant

  predicate Unanswered(w: World) { w.app.Waiting? && w.conn.sem == 0 }

  /** One signal for each message; and a message without one is in the mailbox or is being
      worked on, which is what the states CONNECT, WRITE and CLOSE mean. */
  predicate Handshake(w: World) {
    w.conn.sem <= 1 &&
    w.posted == w.conn.signals + (if Unanswered(w) then 1 else 0) &&
    (w.conn.sem == 1 ==> w.app.Waiting?) &&
    (w.queued ==> Unanswered(w)) &&
    (Busy(w.conn.state) <==> Unanswered(w) && !w.queued)
  }

  /** The state fits the message, and so does what is left of the pcb. */
  predicate Fits(w: World) {
    Ready(w.conn) &&
    (w.conn.owed ==> w.conn.state.CONNECT?) &&
    (Busy(w.conn.state) && w.app.Waiting? ==>
       match w.conn.state
       case CONNECT => w.app.r.Connect?
       case WRITE => w.app.r.Write? && w.conn.writing == Msg(w.app.r.data)
       case CLOSE => w.app.r.Close? || w.app.r.DelConn?
       case _ => true) &&
    (w.app.Waiting? && w.conn.sem == 1 && w.app.r.DelConn? && w.conn.kind.Tcp? ==> !w.conn.pcb) &&
    (w.app.Gone? ==> !w.conn.pcb)
  }

  /** What the running call has handed to TCP so far. */
  predicate Handing(w: World) {
    w.mark <= |w.conn.handed| &&
    var now := w.conn.handed[w.mark..];
    if !w.app.Waiting? || w.queued || !w.app.r.Write? then now == []
    else if w.conn.state.WRITE? then w.conn.offset <= |w.app.r.data| && now == w.app.r.data[..w.conn.offset]
    else GoodWrite(w.app.r.data, w.conn.err, now)
  }

  /** What netconn_write promises: a prefix is handed over, all of it unless it fails. */
  predicate GoodWrite(data: seq<bv8>, err: Err, handed: seq<bv8>) {
    handed <= data && (err == ERR_OK ==> handed == data)
  }

  predicate GoodOutcome(o: Outcome) {
    if o.r.Write? then GoodWrite(o.r.data, o.err, o.handed) else o.handed == []
  }

  function HandedBy(done: seq<Outcome>): seq<bv8> {
    if done == [] then [] else HandedBy(done[..|done| - 1]) + done[|done| - 1].handed
  }

  predicate History(w: World) {
    w.mark <= |w.conn.handed| && w.conn.handed[..w.mark] == HandedBy(w.done) &&
    forall k :: 0 <= k < |w.done| ==> GoodOutcome(w.done[k])
  }

  predicate Inv(w: World) {
    Handshake(w) && Fits(w) && Handing(w) && History(w)
  }

  /** netconn_alloc; accept_function then gives the new netconn a pcb. */
  predicate Init(w: World) {
    w.conn.state.NONE? && w.conn.sem == 0 && w.conn.signals == 0 && w.conn.writing.NoMsg? && w.conn.offset == 0 &&
    w.conn.handed == [] && !w.conn.owed && !w.conn.acceptmbox &&
    w.app.Idle? && !w.queued && w.posted == 0 && w.mark == 0 && w.done == []
  }

  lemma InitInv(w: World)
    requires Init(w)
    ensures Inv(w)
  {
  }

  /** What every handler does to a netconn in which nothing is going on: it either signals
      once and leaves no work behind, or does not signal and leaves work behind. */
  predicate Answers(c: Conn, c': Conn) {
    if Busy(c'.state) then c'.sem == c.sem && c'.signals == c.signals
    else c'.sem == c.sem + 1 && c'.signals == c.signals + 1
  }

  /** It leaves the netconn ready for the callbacks, and busy only with its own request. */
  predicate Handled(c: Conn, r: Request, c': Conn) {
    Answers(c, c') && Ready(c') && c'.kind == c.kind && (c'.owed ==> c'.state.CONNECT?) &&
    (c'.state.CONNECT? ==> r.Connect?) && (c'.state.WRITE? ==> r.Write? && c'.writing == Msg(r.data)) &&
    (c'.state.CLOSE? ==> r.Close? || r.DelConn?) &&
    (r.DelConn? && !Busy(c'.state) && c.kind.Tcp? ==> !c'.pcb)
  }

  lemma HandleAnswers(c: Conn, r: Request, a: Answer)
    requires !Busy(c.state) && !c.owed
    ensures Handled(c, r, Handle(c, r, a))
  {
    hide Handled, DoNewconn, DoDelconn, DoBind, DoConnect, DoListen, DoDatagram, DoWrite, DoGetaddr, DoClose;
    match r
    case Write(data) => WriteHandled(c, data, a);
    case Close => CloseHandled(c, a);
    case DelConn => CloseHandled(c, a);
    case Connect => ConnectHandled(c, a);
    case _ => AnsweredAtOnce(c, r, a);
  }

  lemma WriteHandled(c: Conn, data: seq<bv8>, a: Answer)
    requires !Busy(c.state) && !c.owed
    ensures Handled(c, Write(data), DoWrite(c, data, a))
  {
  }

  lemma CloseHandled(c: Conn, a: Answer)
    requires !Busy(c.state) && !c.owed
    ensures Handled(c, Close, DoClose(c, a)) && Handled(c, DelConn, DoDelconn(c, a))
  {
  }

  lemma ConnectHandled(c: Conn, a: Answer)
    requires !Busy(c.state) && !c.owed
    ensures Handled(c, Connect, DoConnect(c, a))
  {
  }

  lemma AnsweredAtOnce(c: Conn, r: Request, a: Answer)
    requires !Busy(c.state) && !c.owed && !r.Write? && !r.Close? && !r.DelConn? && !r.Connect?
    ensures Handled(c, r, Handle(c, r, a)) && !Busy(Handle(c, r, a).state)
  {
  }

  /** The bytes that a step takes from the data of a write. */
  lemma WritemoreHands(c: Conn, a: Answer, mark: nat)
    requires Ready(c) && c.state.WRITE? && mark <= |c.handed| && c.handed[mark..] == c.writing.data[..c.offset]
    ensures var c' := DoWritemore(c, a);
            c.handed <= c'.handed && |c'.handed| - |c.handed| <= ChunkLength(c, a.sndbuf) &&
            if c'.state.WRITE? then c'.writing == c.writing && c'.offset <= |c.writing.data| &&
                                    c'.handed[mark..] == c.writing.data[..c'.offset]
            else GoodWrite(c.writing.data, c'.err, c'.handed[mark..])
  {
    var len := ChunkLength(c, a.sndbuf);
    NextPiece(c.handed, c.writing.data, mark, c.offset, c.offset + len);
  }

  lemma NextPiece(handed: seq<bv8>, data: seq<bv8>, mark: nat, a: nat, b: nat)
    requires mark <= |handed| && a <= b <= |data| && handed[mark..] == data[..a]
    ensures var more := handed + data[a..b];
            handed <= more && |more| == |handed| + (b - a) && more[mark..] == data[..b]
  {
    assert (handed + data[a..b])[mark..] == handed[mark..] + data[a..b];
  }

  lemma HandleHands(c: Conn, r: Request, a: Answer)
    requires !Busy(c.state)
    ensures var c' := Handle(c, r, a);
            c.handed <= c'.handed &&
            if !r.Write? then c'.handed == c.handed
            else if c'.state.WRITE? then c'.offset <= |r.data| && c'.handed[|c.handed|..] == r.data[..c'.offset]
            else GoodWrite(r.data, c'.err, c'.handed[|c.handed|..])
  {
    if r.Write? && !IsFatal(c.err) && c.pcb && c.kind.Tcp? {
      WritemoreHands(c.(state := WRITE, writing := Msg(r.data), offset := 0), a, |c.handed|);
    }
  }

  lemma ProcessPreserves(w: World, a: Answer)
    requires Inv(w) && Enabled(w, Process)
    ensures Inv(Apply(w, Process, a))
  {
    hide Handle, HandedBy;
    var c, w' := w.conn, Apply(w, Process, a);
    HandleAnswers(c, w.app.r, a);
    HandleHands(c, w.app.r, a);
    assert w'.conn.handed[..w.mark] == c.handed[..w.mark];
    assert w.mark == |c.handed|;
  }

  lemma PollPreserves(w: World, a: Answer)
    requires Inv(w) && Enabled(w, Poll)
    ensures Inv(Apply(w, Poll, a))
  {
    hide HandedBy;
    var c, w' := w.conn, Apply(w, Poll, a);
    if c.state.WRITE? {
      WritemoreHands(c, a, w.mark);
      WritemoreSignals(c, a);
      hide DoWritemore, DoCloseInternal;
      assert w'.conn.handed[..w.mark] == c.handed[..w.mark];
    }
  }

  lemma WritemoreSignals(c: Conn, a: Answer)
    requires Ready(c) && c.state.WRITE?
    ensures var c' := DoWritemore(c, a);
            Answers(c, c') && c'.kind == c.kind && c'.pcb == c.pcb && c'.owed == c.owed &&
            (c'.state.WRITE? || c'.state.NONE?)
  {
  }

  lemma ErrorPreserves(w: World, e: Err, a: Answer)
    requires Inv(w) && Enabled(w, Error(e))
    ensures Inv(Apply(w, Error(e), a))
  {
    hide HandedBy;
  }

  lemma ConnectedPreserves(w: World, e: Err, a: Answer)
    requires Inv(w) && Enabled(w, Connected(e))
    ensures Inv(Apply(w, Connected(e), a))
  {
    hide HandedBy;
  }

  lemma PostPreserves(w: World, r: Request, a: Answer)
    requires Inv(w) && Enabled(w, Post(r))
    ensures Inv(Apply(w, Post(r), a))
  {
    hide HandedBy;
    assert w.mark == |w.conn.handed|;
  }

  lemma WakePreserves(w: World, a: Answer)
    requires Inv(w) && Enabled(w, Wake)
    ensures Inv(Apply(w, Wake, a))
  {
    var w' := Apply(w, Wake, a);
    assert w'.done[..|w.done|] == w.done;
    assert HandedBy(w'.done) == HandedBy(w.done) + w.conn.handed[w.mark..] == w.conn.handed;
    hide HandedBy;
    assert w'.conn.handed[..w'.mark] == w.conn.handed;
  }

  lemma SetErrPreserves(w: World, e: Err, a: Answer)
    requires Inv(w) && Enabled(w, SetErr(e))
    ensures Inv(Apply(w, SetErr(e), a))
  {
    hide HandedBy;
  }

  lemma ApplyPreserves(w: World, s: Step, a: Answer)
    requires Inv(w) && Enabled(w, s)
    ensures Inv(Apply(w, s, a))
  {
    hide Apply, Handshake, Fits, Handing, History, Enabled;
    match s
    case Post(r) => PostPreserves(w, r, a);
    case Process => ProcessPreserves(w, a);
    case Poll => PollPreserves(w, a);
    case Error(e) => ErrorPreserves(w, e, a);
    case Connected(e) => ConnectedPreserves(w, e, a);
    case Wake => WakePreserves(w, a);
    case SetErr(e) => SetErrPreserves(w, e, a);
  }

  // ---------------------------------------------------------------- over all runs

  predicate Next(w: World, s: Step, a: Answer, w': World) {
    Enabled(w, s) && Ready(w.conn) && w.mark <= |w.conn.handed| && w' == Apply(w, s, a)
  }

  /** `run` visits one world more than there are steps. */
  predicate IsRun(run: seq<World>, steps: seq<(Step, Answer)>) {
    |run| == |steps| + 1 && forall i :: 0 <= i < |steps| ==> Next(run[i], steps[i].0, steps[i].1, run[i + 1])
  }

  lemma {:induction false} RunInv(run: seq<World>, steps: seq<(Step, Answer)>)
    requires IsRun(run, steps) && Inv(run[0])
    ensures Inv(run[|steps|])
  {
    var n := |steps|;
    if n > 0 {
      assert IsRun(run[..n], steps[..n - 1]) by {
        forall i | 0 <= i < n - 1 ensures Next(run[..n][i], steps[..n - 1][i].0, steps[..n - 1][i].1, run[..n][i + 1]) {
          assert Next(run[i], steps[i].0, steps[i].1, run[i + 1]);
        }
      }
      RunInv(run[..n], steps[..n - 1]);
      hide Inv;
      assert Next(run[n - 1], steps[n - 1].0, steps[n - 1].1, run[n]);
      ApplyPreserves(run[n - 1], steps[n - 1].0, steps[n - 1].1);
    }
  }

  /** Every message gets at most one signal, and none is left over for the next one; the
      application waits unsignalled only while its message is in the mailbox, or the netconn
      connects, writes or closes with its pcb still there. */
  lemma OneSignalPerMessage(run: seq<World>, steps: seq<(Step, Answer)>)
    requires IsRun(run, steps) && Init(run[0])
    ensures var w := run[|steps|];
            w.conn.sem <= 1 && w.conn.signals <= w.posted <= w.conn.signals + 1 &&
            (w.posted == w.conn.signals + 1 <==> Unanswered(w)) &&
            (Unanswered(w) <==> w.queued || Busy(w.conn.state)) &&
            (Busy(w.conn.state) ==> w.conn.pcb && w.conn.kind.Tcp?) &&
            (w.conn.sem == 1 ==> w.app.Waiting?)
  {
    InitInv(run[0]);
    RunInv(run, steps);
  }

  /** No callback of TCP finds a netconn that cannot be worked on: the assertions of the
      handlers hold, and a deleted netconn has no pcb that could still call it. */
  lemma CallbacksAreSafe(run: seq<World>, steps: seq<(Step, Answer)>)
    requires IsRun(run, steps) && Init(run[0])
    ensures var w := run[|steps|];
            Ready(w.conn) && (w.conn.owed ==> w.conn.state.CONNECT? && w.conn.sem == 0) && (w.app.Gone? ==> !w.conn.pcb)
  {
    InitInv(run[0]);
    RunInv(run, steps);
  }

  /** The bytes that TCP accepted are those of the finished writes, in their order, followed
      by those of the write that is running; each write handed over a prefix of its data, and
      all of it when it returned ERR_OK. */
  lemma BytesGoOutOnceInOrder(run: seq<World>, steps: seq<(Step, Answer)>)
    requires IsRun(run, steps) && Init(run[0])
    ensures var w := run[|steps|];
            w.mark <= |w.conn.handed| && w.conn.handed == HandedBy(w.done) + w.conn.handed[w.mark..] &&
            (forall k :: 0 <= k < |w.done| ==> GoodOutcome(w.done[k])) &&
            (w.conn.handed[w.mark..] == [] ||
             (w.app.Waiting? && w.app.r.Write? && w.conn.handed[w.mark..] <= w.app.r.data))
  {
    InitInv(run[0]);
    RunInv(run, steps);
    var w := run[|steps|];
    assert w.conn.handed == w.conn.handed[..w.mark] + w.conn.handed[w.mark..];
  }

  /** One step hands at most one piece to TCP, and never more than 65535 bytes or the room
      in the send buffer. */
  lemma OneChunkPerStep(w: World, s: Step, a: Answer)
    requires Inv(w) && Enabled(w, s)
    ensures var w' := Apply(w, s, a);
            w.conn.handed <= w'.conn.handed &&
            var n := |w'.conn.handed| - |w.conn.handed|;
            n <= 0xffff && n <= a.sndbuf && (n > 0 ==> a.written == ERR_OK && (s.Process? || s.Poll?))
  {
    hide HandedBy, History;
    if s.Process? {
      HandleChunk(w.conn, w.app.r, a);
      hide Handle;
    }
  }

  lemma HandleChunk(c: Conn, r: Request, a: Answer)
    ensures var c' := Handle(c, r, a);
            c.handed <= c'.handed &&
            var n := |c'.handed| - |c.handed|;
            n <= 0xffff && n <= a.sndbuf && (n > 0 ==> a.written == ERR_OK)
  {
  }

  // ---------------------------------------------------------------- the call that hangs

  /** The application waits for a connection that nobody is setting up. */
  predicate Stuck(w: World) {
    Unanswered(w) && !w.queued && w.conn.state.CONNECT? && !w.conn.owed
  }

  /** do_connect never looks at the result of tcp_connect: exactly when it fails, the call hangs. */
  lemma FailedConnectHangs(w: World, a: Answer)
    requires Inv(w) && Enabled(w, Process) && w.app.r.Connect? && w.conn.kind.Tcp? && w.conn.pcb
    ensures Stuck(Apply(w, Process, a)) <==> a.err != ERR_OK
  {
  }

  /** Of all that can happen to it, only err_tcp ends the wait. */
  lemma StuckStays(w: World, s: Step, a: Answer)
    requires Inv(w) && Stuck(w) && Enabled(w, s)
    ensures Stuck(Apply(w, s, a)) <==> !s.Error?
  {
  }

  lemma {:induction false} StuckForever(run: seq<World>, steps: seq<(Step, Answer)>)
    requires IsRun(run, steps) && Inv(run[0]) && Stuck(run[0])
    requires forall i :: 0 <= i < |steps| ==> !steps[i].0.Error?
    ensures Stuck(run[|steps|])
  {
    var n := |steps|;
    if n > 0 {
      assert IsRun(run[..n], steps[..n - 1]) by {
        forall i | 0 <= i < n - 1 ensures Next(run[..n][i], steps[..n - 1][i].0, steps[..n - 1][i].1, run[..n][i + 1]) {
          assert Next(run[i], steps[i].0, steps[i].1, run[i + 1]);
        }
      }
      StuckForever(run[..n], steps[..n - 1]);
      RunInv(run[..n], steps[..n - 1]);
      hide Inv, Stuck;
      assert Next(run[n - 1], steps[n - 1].0, steps[n - 1].1, run[n]);
      StuckStays(run[n - 1], steps[n - 1].0, steps[n - 1].1);
    }
  }

  const OBLIGING := Answer(ERR_OK, 0xffff, ERR_OK, ERR_OK, true, true, true)

  /** A call that has what it needs to succeed: it is under way already, or there is a TCP pcb
      (for a connection any pcb) and no fatal error. */
  predicate Promising(w: World) {
    w.app.Waiting? && (w.app.r.Write? || w.app.r.Close? || w.app.r.Connect?) &&
    (w.queued ==> w.conn.pcb && (w.conn.kind.Tcp? || w.app.r.Connect?) && !IsFatal(w.conn.err))
  }

  /** What brings such a wait nearer to its end. */
  function Obliged(w: World): Step {
    if w.queued then Process else if w.conn.state.CONNECT? then Connected(ERR_OK) else Poll
  }

  lemma StaysPromising(w: World)
    requires Inv(w) && Unanswered(w) && Promising(w) && Enabled(w, Obliged(w))
    ensures var w' := Apply(w, Obliged(w), OBLIGING);
            if w'.conn.sem == 1 then w'.conn.err == ERR_OK else Promising(w') && Unanswered(w') && !w'.queued
  {
    hide History, Handing;
  }

  /** Every other wait can be ended by the stack thread and TCP without an error: here is how.
      Then a write, a close or a connection that can succeed does. */
  lemma {:induction false} OthersCanBeAnswered(w: World) returns (run: seq<World>, steps: seq<(Step, Answer)>)
    requires Inv(w) && Unanswered(w) && !Stuck(w)
    ensures IsRun(run, steps) && run[0] == w && run[|steps|].conn.sem == 1
    ensures Promising(w) ==> run[|steps|].conn.err == ERR_OK
    ensures forall i :: 0 <= i < |steps| ==>
            steps[i].1 == OBLIGING && !steps[i].0.Error? && (steps[i].0.Connected? ==> steps[i].0.e == ERR_OK)
    decreases w.queued, if w.conn.state.WRITE? && w.conn.writing.Msg? then |w.conn.writing.data| - w.conn.offset else 0
  {
    var s := Obliged(w);
    var w' := Apply(w, s, OBLIGING);
    ApplyPreserves(w, s, OBLIGING);
    if Promising(w) {
      StaysPromising(w);
    }
    if w'.conn.sem == 1 {
      run, steps := [w, w'], [(s, OBLIGING)];
    } else {
      var rest, more := OthersCanBeAnswered(w');
      run, steps := [w] + rest, [(s, OBLIGING)] + more;
    }
  }
}
