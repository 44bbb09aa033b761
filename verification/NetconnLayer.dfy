/** The handlers of src/api/api_msg.c as they change a netconn in place. Each is proved to do
    to it what the functions of NetconnProtocol say, about which the properties over all
    runs are proved there. */
module NetconnLayer {
  import opened NetconnProtocol

  class Netconn {
    const kind: Kind
    var state: Phase
    var pcb: bool
    var err: Err
    var acceptmbox: bool
    var opCompleted: nat
    var writeMsg: WriteMsg
    var writeOffset: nat
    /** what TCP has been given, and whether it owes a call of do_connected */
    var handed: seq<bv8>
    var owed: bool
    ghost var signals: nat

    ghost function View(): Conn
      reads this
    {
      Conn(kind, state, pcb, err, acceptmbox, opCompleted, signals, writeMsg, writeOffset, handed, owed)
    }

    /** netconn_alloc; `accepted` for the netconns of accept_function, which have a pcb. */
    constructor (kind: Kind, accepted: bool)
      ensures Init(World(View(), Idle, false, 0, 0, [])) && View().kind == kind && View().pcb == accepted
    {
      this.kind, state, pcb, err, acceptmbox, opCompleted := kind, NONE, accepted, ERR_OK, false, 0;
      writeMsg, writeOffset, handed, owed, signals := NoMsg, 0, [], false, 0;
    }

    /** sys_sem_signal(conn->op_completed) */
    method SignalCompleted()
      modifies this`opCompleted, this`signals
      ensures View() == Signal(old(View()))
    {
      opCompleted := opCompleted + 1;
      signals := signals + 1;
    }

    /** tcp_write on this connection: an accepted piece is part of the stream from now on. */
    method TcpWrite(data: seq<bv8>, a: Answer) returns (result: Err)
      modifies this`handed
      ensures result == a.written
      ensures handed == if result == ERR_OK then old(handed) + data else old(handed)
    {
      result := a.written;
      if result == ERR_OK {
        handed := handed + data;
      }
    }

    method NewConn(a: Answer)
      modifies this
      ensures View() == DoNewconn(old(View()), a)
    {
      if !pcb {
        err := ERR_OK;
        if a.granted {
          pcb := true;
        } else {
          err := ERR_MEM;
        }
      }
      SignalCompleted();
    }

    method WriteMore(a: Answer)
      requires Ready(View()) && state.WRITE?
      modifies this
      ensures View() == DoWritemore(old(View()), a)
    {
      var diff := |writeMsg.data| - writeOffset;
      var len := diff;
      if diff > 0xffff {
        len := 0xffff;
      }
      var available := a.sndbuf;
      if available < len {
        len := available;
      }
      var finished := false;
      var result := TcpWrite(writeMsg.data[writeOffset..][..len], a);
      assert writeMsg.data[writeOffset..][..len] == writeMsg.data[writeOffset..writeOffset + len];
      if result == ERR_OK {
        writeOffset := writeOffset + len;
        if writeOffset == |writeMsg.data| {
          finished := true;
          writeMsg := NoMsg;
          writeOffset := 0;
          state := NONE;
        }
        err := a.output;
      } else if result != ERR_MEM {
        err := result;
        finished := true;
      }
      if finished {
        state := NONE;
        SignalCompleted();
      }
    }

    method WriteData(data: seq<bv8>, a: Answer)
      modifies this
      ensures View() == DoWrite(old(View()), data, a)
    {
      if !IsFatal(err) {
        if pcb && kind.Tcp? {
          state := WRITE;
          writeMsg := Msg(data);
          writeOffset := 0;
          WriteMore(a);
          return;
        } else {
          err := ERR_VAL;
        }
      }
      SignalCompleted();
    }

    method CloseInternal(a: Answer)
      requires Ready(View()) && state.CLOSE?
      modifies this
      ensures View() == DoCloseInternal(old(View()), a)
    {
      var result := a.err;
      if result == ERR_OK {
        state := NONE;
        pcb := false;
        err := ERR_OK;
        SignalCompleted();
      }
    }

    method CloseConn(a: Answer)
      modifies this
      ensures View() == DoClose(old(View()), a)
    {
      if pcb && kind.Tcp? {
        state := CLOSE;
        CloseInternal(a);
      } else {
        err := ERR_VAL;
        SignalCompleted();
      }
    }

    method Delete(a: Answer)
      modifies this
      ensures View() == DoDelconn(old(View()), a)
    {
      if pcb {
        match kind
        case Tcp =>
          state := CLOSE;
          CloseInternal(a);
          return;
        case _ =>
      }
      SignalCompleted();
    }

    method ConnectTo(a: Answer)
      modifies this
      ensures View() == DoConnect(old(View()), a)
    {
      if !pcb {
        SignalCompleted();
        return;
      }
      match kind
      case Tcp =>
        state := CONNECT;
        err := a.err;
        owed := a.err == ERR_OK;
      case _ =>
        err := a.err;
        SignalCompleted();
    }

    method BindTo(a: Answer)
      modifies this
      ensures View() == DoBind(old(View()), a)
    {
      if !IsFatal(err) {
        if pcb {
          err := a.err;
        } else {
          err := ERR_VAL;
        }
      }
      SignalCompleted();
    }

    method ListenOn(a: Answer)
      modifies this
      ensures View() == DoListen(old(View()), a)
    {
      if !IsFatal(err) {
        if pcb && kind.Tcp? {
          if a.test {
            if !a.granted {
              err := ERR_MEM;
            } else {
              if !acceptmbox {
                acceptmbox := a.mbox;
                if !acceptmbox {
                  err := ERR_MEM;
                }
              }
              if err == ERR_OK {
                state := LISTEN;
              }
            }
          } else {
            err := ERR_CONN;
          }
        }
      }
      SignalCompleted();
    }

    method SendOrJoin(join: bool, a: Answer)
      modifies this
      ensures View() == DoDatagram(old(View()), join, a)
    {
      if !IsFatal(err) && pcb {
        if join {
          err := if kind.Udp? then a.err else ERR_VAL;
        } else {
          match kind
          case Tcp =>
          case _ => err := a.err;
        }
      }
      SignalCompleted();
    }

    method AddressOf(a: Answer)
      modifies this
      ensures View() == DoGetaddr(old(View()), a)
    {
      if pcb {
        if !kind.Tcp? && a.test {
          err := ERR_CONN;
        }
      } else {
        err := ERR_CONN;
      }
      SignalCompleted();
    }

    /** tcpip_thread: apimsg->function(&(apimsg->msg)) */
    method Dispatch(r: Request, a: Answer)
      modifies this
      ensures View() == Handle(old(View()), r, a)
    {
      match r
      case NewConn => NewConn(a);
      case DelConn => Delete(a);
      case Bind => BindTo(a);
      case Connect => ConnectTo(a);
      case Disconnect => SignalCompleted();
      case Listen => ListenOn(a);
      case Send => SendOrJoin(false, a);
      case Recv => SignalCompleted();
      case Write(data) => WriteData(data, a);
      case GetAddr => AddressOf(a);
      case Close => CloseConn(a);
      case JoinLeave => SendOrJoin(true, a);
    }

    /** poll_tcp, and sent_tcp up to its event for the socket layer */
    method PollOrSent(a: Answer)
      requires Ready(View())
      modifies this
      ensures View() == PollTcp(old(View()), a)
    {
      if state.WRITE? {
        WriteMore(a);
      } else if state.CLOSE? {
        CloseInternal(a);
      }
    }

    method ConnectionError(e: Err)
      modifies this
      ensures View() == ErrTcp(old(View()), e)
    {
      pcb := false;
      owed := false;
      err := e;
      if state.CONNECT? {
        state := NONE;
        SignalCompleted();
      }
      if state.WRITE? || state.CLOSE? {
        state := NONE;
        SignalCompleted();
      }
    }

    method ConnectionMade(e: Err)
      modifies this
      ensures View() == DoConnected(old(View()), e)
    {
      owed := false;
      err := e;
      state := NONE;
      SignalCompleted();
    }
  }
}
