/** What the calls on a netconn return (src/api/api_msg.c, src/api/api_lib.c). */
module NetconnResults {
  import opened NetconnProtocol

  // ---------------------------------------------------------------- the result of a call

  /** A TCP pcb is there to work with. */
  predicate Usable(c: Conn) { c.pcb && c.kind.Tcp? }

  /** The answer of the step that ends the wait of a call, in the words of the rest of the
      stack. A handler that has nothing to report leaves what was noted before. */
  function Answer(c: Conn, r: Request, s: Step, a: NetconnProtocol.Answer): Err {
    match s
    case Error(e) => e
    case Connected(e) => e
    case _ =>
      match r
      case Write(_) =>
        if s.Process? && IsFatal(c.err) then c.err
        else if !Usable(c) then ERR_VAL
        else if a.written == ERR_OK then a.output
        else a.written
      case Close => if Usable(c) then ERR_OK else ERR_VAL
      case DelConn => if Usable(c) then ERR_OK else c.err
      case NewConn => if c.pcb then c.err else if a.granted then ERR_OK else ERR_MEM
      case Bind => if IsFatal(c.err) then c.err else if c.pcb then a.err else ERR_VAL
      case Connect => if c.pcb then a.err else c.err
      case Listen =>
        if IsFatal(c.err) || !Usable(c) then c.err
        else if !a.test then ERR_CONN
        else if !a.granted || (!c.acceptmbox && !a.mbox) then ERR_MEM
        else c.err
      case Send => if IsFatal(c.err) || !c.pcb || c.kind.Tcp? then c.err else a.err
      case JoinLeave =>
        if IsFatal(c.err) || !c.pcb then c.err else if c.kind.Udp? then a.err else ERR_VAL
      case GetAddr => if c.pcb && (c.kind.Tcp? || !a.test) then c.err else ERR_CONN
      case Disconnect => c.err
      case Recv => c.err
  }

  /** The wait of a call has been ended, and it has not yet returned. */
  predicate Answered(w: World) { w.app.Waiting? && w.conn.sem == 1 }

  lemma HandlerAnswers(c: Conn, r: Request, a: NetconnProtocol.Answer)
    requires !Busy(c.state) && !c.owed && !Busy(Handle(c, r, a).state)
    ensures Handle(c, r, a).err == Answer(c, r, Process, a)
  {
  }

  lemma CallbackAnswers(c: Conn, r: Request, a: NetconnProtocol.Answer)
    requires Ready(c) && Busy(c.state) && !Busy(PollTcp(c, a).state)
    requires (c.state.WRITE? ==> r.Write?) && (c.state.CLOSE? ==> r.Close? || r.DelConn?)
    ensures PollTcp(c, a).err == Answer(c, r, Poll, a)
  {
  }

  /** The step that ends the wait gives the result. */
  lemma EndingStep(w: World, s: Step, a: NetconnProtocol.Answer)
    requires Inv(w) && Enabled(w, s) && !Answered(w) && Answered(Apply(w, s, a))
    ensures Unanswered(w) && !s.Wake? && !s.Post? && Apply(w, s, a).app == w.app
    ensures Apply(w, s, a).conn.err == Answer(w.conn, w.app.r, s, a)
  {
    hide Handle, PollTcp, Handing, History, Answer;
    ApplyPreserves(w, s, a);
    match s
    case Process => HandlerAnswers(w.conn, w.app.r, a);
    case Poll =>
      if Busy(w.conn.state) {
        CallbackAnswers(w.conn, w.app.r, a);
      } else {
        IdlePoll(w.conn, a);
      }
    case Error(e) => OthersAnswer(w.conn, w.app.r, s, a);
    case Connected(e) => OthersAnswer(w.conn, w.app.r, s, a);
    case _ =>
  }

  lemma IdlePoll(c: Conn, a: NetconnProtocol.Answer)
    requires !Busy(c.state)
    ensures PollTcp(c, a) == c
  {
  }

  lemma OthersAnswer(c: Conn, r: Request, s: Step, a: NetconnProtocol.Answer)
    ensures s.Error? ==> Answer(c, r, s, a) == s.e == ErrTcp(c, s.e).err
    ensures s.Connected? ==> Answer(c, r, s, a) == s.e == DoConnected(c, s.e).err
  {
  }

  /** Until the call returns, only err_tcp can still change it. */
  lemma AnsweredStep(w: World, s: Step, a: NetconnProtocol.Answer)
    requires Inv(w) && Enabled(w, s) && Answered(w) && Answered(Apply(w, s, a))
    ensures Apply(w, s, a).app == w.app
    ensures Apply(w, s, a).conn.err == if s.Error? then s.e else w.conn.err
  {
    hide Handle, Handing, History;
    if s.Poll? {
      IdlePoll(w.conn, a);
    }
  }

  /** The last reason that err_tcp gives in these steps, or e. */
  function LastReason(steps: seq<(Step, NetconnProtocol.Answer)>, e: Err): Err {
    if steps == [] then e
    else
      var s := steps[|steps| - 1].0;
      if s.Error? then s.e else LastReason(steps[..|steps| - 1], e)
  }

  /** Step e ends the wait of the call that is under way in world n. */
  predicate EndsAt(run: seq<World>, steps: seq<(Step, NetconnProtocol.Answer)>, e: nat, n: nat) {
    e < n <= |steps| && |run| == |steps| + 1 && run[n].app.Waiting? &&
    Unanswered(run[e]) && run[e].app == run[n].app && forall j :: e < j <= n ==> Answered(run[j])
  }

  lemma RunInvAt(run: seq<World>, steps: seq<(Step, NetconnProtocol.Answer)>, n: nat)
    requires IsRun(run, steps) && Init(run[0]) && n <= |steps|
    ensures Inv(run[n])
  {
    InitInv(run[0]);
    assert IsRun(run[..n + 1], steps[..n]) by {
      forall i | 0 <= i < n ensures Next(run[..n + 1][i], steps[..n][i].0, steps[..n][i].1, run[..n + 1][i + 1]) {
        assert Next(run[i], steps[i].0, steps[i].1, run[i + 1]);
      }
    }
    RunInv(run[..n + 1], steps[..n]);
  }

  /** Over every run: a call that has been answered will return the answer of the step that
      ended its wait, unless err_tcp comes before it returns. */
  lemma {:induction false} CallReturns(run: seq<World>, steps: seq<(Step, NetconnProtocol.Answer)>, n: nat)
    returns (e: nat)
    requires IsRun(run, steps) && Init(run[0]) && n <= |steps| && Answered(run[n])
    ensures EndsAt(run, steps, e, n)
    ensures run[n].conn.err ==
            LastReason(steps[e + 1..n], Answer(run[e].conn, run[n].app.r, steps[e].0, steps[e].1))
  {
    assert n > 0;
    RunInvAt(run, steps, n - 1);
    hide Inv, Answer, Init;
    var w, s, a := run[n - 1], steps[n - 1].0, steps[n - 1].1;
    assert Next(w, s, a, run[n]);
    if Answered(w) {
      AnsweredStep(w, s, a);
      e := CallReturns(run, steps, n - 1);
      assert steps[e + 1..n][..n - e - 2] == steps[e + 1..n - 1];
    } else {
      EndingStep(w, s, a);
      e := n - 1;
    }
  }

  /** What the call gives back to the application when its wait is over. */
  lemma CallResult(run: seq<World>, steps: seq<(Step, NetconnProtocol.Answer)>, n: nat)
    returns (e: nat, o: Outcome)
    requires IsRun(run, steps) && Init(run[0]) && n < |steps| && steps[n].0.Wake?
    ensures EndsAt(run, steps, e, n) && run[n + 1].done == run[n].done + [o] && o.r == run[n].app.r
    ensures o.err == LastReason(steps[e + 1..n], Answer(run[e].conn, o.r, steps[e].0, steps[e].1))
  {
    RunInvAt(run, steps, n);
    assert Next(run[n], steps[n].0, steps[n].1, run[n + 1]);
    assert Answered(run[n]);
    e := CallReturns(run, steps, n);
    o := Outcome(run[n].app.r, run[n].conn.err, run[n].conn.handed[run[n].mark..]);
  }

  // ---------------------------------------------------------------- writes

  /** Nothing goes wrong with a write in the step that ends it. */
  predicate EndsWell(c: Conn, s: Step, a: NetconnProtocol.Answer) {
    (s.Process? ==> !IsFatal(c.err)) && Usable(c) && !s.Error? && a.written == ERR_OK && a.output == ERR_OK
  }

  /** So netconn_write returns ERR_OK exactly if it ends well and no err_tcp comes before it
      returns; what earlier steps of it have reported does not count. */
  lemma WriteSucceedsExactlyIf(run: seq<World>, steps: seq<(Step, NetconnProtocol.Answer)>, n: nat)
    returns (e: nat, o: Outcome)
    requires IsRun(run, steps) && Init(run[0]) && n < |steps| && steps[n].0.Wake?
    requires run[n].app.Waiting? && run[n].app.r.Write?
    ensures EndsAt(run, steps, e, n) && run[n + 1].done == run[n].done + [o] && o.r == run[n].app.r
    ensures o.err == ERR_OK <==>
            EndsWell(run[e].conn, steps[e].0, steps[e].1) && forall j :: e < j < n ==> !steps[j].0.Error?
  {
    hide Inv, Init, Answer, EndsWell, Answered, LastReason, Enabled, Apply, Unanswered;
    e, o := CallResult(run, steps, n);
    RunInvAt(run, steps, e);
    assert Next(run[e], steps[e].0, steps[e].1, run[e + 1]);
    EndsWrite(run[e], steps[e].0, steps[e].1);
    ReasonsFail(run, steps, e + 1, n, Answer(run[e].conn, o.r, steps[e].0, steps[e].1));
  }

  lemma EndsWrite(w: World, s: Step, a: NetconnProtocol.Answer)
    requires Inv(w) && Enabled(w, s) && Unanswered(w) && w.app.r.Write? && Answered(Apply(w, s, a))
    ensures Answer(w.conn, w.app.r, s, a) == ERR_OK <==> EndsWell(w.conn, s, a)
  {
    hide Handle, Handing, History;
    if s.Poll? && !Busy(w.conn.state) {
      IdlePoll(w.conn, a);
    }
  }

  lemma ErrorHasReason(run: seq<World>, steps: seq<(Step, NetconnProtocol.Answer)>, i: nat)
    requires IsRun(run, steps) && i < |steps|
    ensures steps[i].0.Error? ==> steps[i].0.e != ERR_OK
  {
    assert Next(run[i], steps[i].0, steps[i].1, run[i + 1]);
  }

  /** err_tcp always gives a reason. */
  lemma {:induction false} ReasonsFail(run: seq<World>, steps: seq<(Step, NetconnProtocol.Answer)>, a: nat, b: nat,
                                       e: Err)
    requires IsRun(run, steps) && a <= b <= |steps|
    ensures LastReason(steps[a..b], e) == ERR_OK <==> e == ERR_OK && forall j :: a <= j < b ==> !steps[j].0.Error?
    decreases b - a
  {
    hide IsRun;
    if a < b {
      assert steps[a..b][..b - a - 1] == steps[a..b - 1];
      ErrorHasReason(run, steps, b - 1);
      ReasonsFail(run, steps, a, b - 1, e);
    }
  }

  // ---------------------------------------------------------------- what else a call does

  /** The pcb comes with netconn_new and goes with a successful close or delete, with err_tcp,
      and when netconn_delete returns; nothing else makes or takes one. */
  lemma PcbComesAndGoes(w: World, s: Step, a: NetconnProtocol.Answer)
    requires Inv(w) && Enabled(w, s)
    ensures var gone := s.Error? || (s.Wake? && w.app.r.DelConn?) ||
                        (s.Process? && (w.app.r.Close? || w.app.r.DelConn?) && Usable(w.conn) && a.err == ERR_OK) ||
                        (s.Poll? && w.conn.state.CLOSE? && a.err == ERR_OK);
            var made := s.Process? && w.app.r.NewConn? && a.granted;
            Apply(w, s, a).conn.pcb == (!gone && (w.conn.pcb || made))
  {
    hide Handing, History, Handle;
    if s.Process? {
      HandlerPcb(w.conn, w.app.r, a);
    }
  }

  lemma HandlerPcb(c: Conn, r: Request, a: NetconnProtocol.Answer)
    requires !Busy(c.state)
    ensures var gone := (r.Close? || r.DelConn?) && Usable(c) && a.err == ERR_OK;
            Handle(c, r, a).pcb == (!gone && (c.pcb || (r.NewConn? && a.granted)))
  {
  }

  /** A step of a write ends it exactly if tcp_write fails for good, which being out of memory
      is not, or all of the data have been handed over. */
  lemma WriteEndsExactlyIf(w: World, s: Step, a: NetconnProtocol.Answer)
    requires Inv(w) && Enabled(w, s) && Unanswered(w) && w.app.r.Write? && Usable(w.conn)
    requires if s.Process? then !IsFatal(w.conn.err) else s.Poll? && !w.queued
    ensures var w' := Apply(w, s, a);
            w.mark <= |w'.conn.handed| &&
            (Answered(w') <==> (a.written != ERR_OK && a.written != ERR_MEM) ||
                               (a.written == ERR_OK && w'.conn.handed[w.mark..] == w.app.r.data))
  {
    hide History;
    var c := if s.Process? then w.conn.(state := WRITE, writing := Msg(w.app.r.data), offset := 0) else w.conn;
    WritemoreHands(c, a, w.mark);
    PieceEnds(c, a, w.mark);
  }

  lemma PieceEnds(c: Conn, a: NetconnProtocol.Answer, mark: nat)
    requires Ready(c) && c.state.WRITE? && mark <= |c.handed| && c.handed[mark..] == c.writing.data[..c.offset]
    ensures a.written == ERR_OK ==>
              (DoWritemore(c, a).state.NONE? <==> DoWritemore(c, a).handed[mark..] == c.writing.data)
    ensures a.written != ERR_OK ==> DoWritemore(c, a).handed == c.handed
  {
    var b := c.offset + ChunkLength(c, a.sndbuf);
    NextPiece(c.handed, c.writing.data, mark, c.offset, b);
    assert c.writing.data[..|c.writing.data|] == c.writing.data;
  }

  /** A netconn listens exactly from a netconn_listen that succeeds and reports no older error. */
  lemma ListensFrom(c: Conn, r: Request, a: NetconnProtocol.Answer)
    requires !Busy(c.state) && !c.owed && !c.state.LISTEN?
    ensures Handle(c, r, a).state.LISTEN? <==>
            r.Listen? && Usable(c) && a.test && a.granted && (c.acceptmbox || a.mbox) && c.err == ERR_OK
    ensures Handle(c, r, a).acceptmbox <==>
            c.acceptmbox || (r.Listen? && Usable(c) && !IsFatal(c.err) && a.test && a.granted && a.mbox)
  {
  }
}
