/** lwip_recvfrom over netconn_recv (src/api/sockets.c, src/api/api_lib.c): a loop with
    left-over state that has to behave as one queue of bytes.

    What the stack thread delivers during a call is not known when the call starts. The
    model names it in advance: `inbox` is the sequence of results that netconn_recv will
    give, in order and whenever they arrive, and `counts` lists the values of the socket's rcvevent
    at the moments it is read. Contracts hold for all of them. */
module SocketReceive {
  import opened Memory

  /** The bytes of a packet; tot_len of a pbuf chain counts them in 16 bits. */
  type Packet = s: seq<bv8> | |s| <= 0xffff witness []

  /** A received packet; `push` is the TCP push flag of its first pbuf. */
  datatype Netbuf = Netbuf(data: Packet, push: bool)

  /** A result of netconn_recv: a packet, or NULL when the connection was closed, had an
      error, ran out of memory or timed out. */
  datatype Delivery = Data(buf: Netbuf) | NoData

  datatype Leftover = Nothing | Left(buf: Netbuf)

  lemma U16Add(n: nat, k: nat)
    ensures U16(U16(n) + k) == U16(n + k)
    ensures U16(0) == 0
  {
  }

  function Bytes(inbox: seq<Delivery>): seq<bv8> {
    if inbox == [] then []
    else (if inbox[0].Data? then inbox[0].buf.data else []) + Bytes(inbox[1..])
  }

  /** Nothing that is held or will arrive makes a TCP receive return early. */
  predicate Unstopped(lastdata: Leftover, inbox: seq<Delivery>) {
    (lastdata.Left? ==> !lastdata.buf.push) &&
    forall k :: 0 <= k < |inbox| ==> inbox[k].Data? && !inbox[k].buf.push
  }

  /** What the socket's counter shows the k-th time it is read; a call reads it only
      finitely often, so a long enough list covers every case. */
  function Reading(counts: seq<int>, k: nat): int {
    if k < |counts| then counts[k] else 1
  }

  /** The counter shows waiting packets whenever it is read. */
  predicate Busy(counts: seq<int>) {
    forall k :: 0 <= k < |counts| ==> counts[k] > 0
  }

  /** Memory m with the bytes c written at `at`. */
  function Overwrite(m: seq<bv8>, at: nat, c: seq<bv8>): (r: seq<bv8>)
    requires at + |c| <= |m|
    ensures |r| == |m|
  {
    m[..at] + c + m[at + |c|..]
  }

  /** m is m0 with its first n bytes replaced by those of `all`. */
  predicate Copied(m: seq<bv8>, m0: seq<bv8>, all: seq<bv8>, n: nat) {
    n <= |all| && n <= |m| == |m0| && m[..n] == all[..n] && m[n..] == m0[n..]
  }

  lemma CopyMore(m: seq<bv8>, m0: seq<bv8>, all: seq<bv8>, n: nat, c: seq<bv8>)
    requires Copied(m, m0, all, n) && n + |c| <= |all| && n + |c| <= |m|
    requires all[n..n + |c|] == c
    ensures Copied(Overwrite(m, n, c), m0, all, n + |c|)
  {
    var r := Overwrite(m, n, c);
    assert r[..n + |c|] == m[..n] + c == all[..n + |c|];
    assert r[n + |c|..] == m[n + |c|..] == m0[n + |c|..] by {
      assert m[n + |c|..] == m[n..][|c|..];
    }
  }

  /** What is left of a packet. */
  function Rest(lastdata: Leftover, lastoffset: nat): seq<bv8> {
    if lastdata.Left? && lastoffset <= |lastdata.buf.data| then lastdata.buf.data[lastoffset..] else []
  }

  /** A stream of which n bytes have been handed out into memory m (which was m0) and
      `pending` is still held. Offsets into the memory are counted in 16 bits. */
  predicate Streamed(peek: bool, all: seq<bv8>, n: nat, m: seq<bv8>, m0: seq<bv8>, pending: seq<bv8>) {
    n <= |all| && pending == (if peek then all else all[n..]) && |m| == |m0| &&
    (n <= 0x1_0000 && n <= |m| ==> Copied(m, m0, all, n))
  }

  lemma StreamMore(peek: bool, all: seq<bv8>, n: nat, m: seq<bv8>, m0: seq<bv8>, rest: seq<bv8>, tail: seq<bv8>,
                   len: nat, off: nat)
    requires Streamed(peek, all, n, m, m0, rest + tail) && (peek ==> n == 0)
    requires len <= |rest| && n + len <= |m| && off == U16(n)
    ensures off + len <= |m|
    ensures Streamed(peek, all, n + len, Overwrite(m, off, rest[..len]), m0,
                     (if peek then rest else rest[len..]) + tail)
  {
    Split(rest, tail, all, n, len, peek);
    if n + len <= 0x1_0000 {
      CopyMoreAt(m, m0, all, n, rest[..len], off);
    }
  }

  lemma CopyMoreAt(m: seq<bv8>, m0: seq<bv8>, all: seq<bv8>, n: nat, c: seq<bv8>, off: nat)
    requires Copied(m, m0, all, n) && n + |c| <= |all| && n + |c| <= |m| && n + |c| <= 0x1_0000
    requires all[n..n + |c|] == c && off == U16(n)
    ensures off + |c| <= |m| && Copied(Overwrite(m, off, c), m0, all, n + |c|)
  {
    if c == [] {
      assert Overwrite(m, off, c) == m;
    } else {
      CopyMore(m, m0, all, n, c);
    }
  }

  /** Whether a copy to the offset, which is counted in 16 bits, goes where it belongs: exactly
      if fewer than 65536 bytes have been copied before it, or the bytes happen to be in both
      places already. */
  lemma CopyIsRightExactlyIf(m: seq<bv8>, m0: seq<bv8>, all: seq<bv8>, n: nat, c: Packet)
    requires Copied(m, m0, all, n) && n + |c| <= |all| && n + |c| <= |m| && all[n..n + |c|] == c
    ensures var off := U16(n);
            off + |c| <= |m| &&
            (Copied(Overwrite(m, off, c), m0, all, n + |c|) <==>
             n <= 0xffff || (all[off..off + |c|] == c && m0[n..n + |c|] == c))
  {
    var off := U16(n);
    if n <= 0xffff {
      CopyMore(m, m0, all, n, c);
    } else {
      MisplacedCopy(m, m0, all, n, c, off);
    }
  }

  lemma MisplacedCopy(m: seq<bv8>, m0: seq<bv8>, all: seq<bv8>, n: nat, c: Packet, off: nat)
    requires Copied(m, m0, all, n) && n + |c| <= |all| && n + |c| <= |m| && all[n..n + |c|] == c
    requires off + 0x1_0000 <= n
    ensures Copied(Overwrite(m, off, c), m0, all, n + |c|) <==> all[off..off + |c|] == c && m0[n..n + |c|] == c
  {
    var r := Overwrite(m, off, c);
    Elsewhere(m, m0, all, n, c, off);
    hide Overwrite;
    SamePrefix(r, all, off, |c|, n, n + |c|);
  }

  /** What such a copy leaves as it was. */
  lemma Elsewhere(m: seq<bv8>, m0: seq<bv8>, all: seq<bv8>, n: nat, c: seq<bv8>, off: nat)
    requires Copied(m, m0, all, n) && n + |c| <= |all| && n + |c| <= |m| && off + |c| <= n
    ensures var r, e := Overwrite(m, off, c), n + |c|;
            r[off..off + |c|] == c && r[n..e] == m0[n..e] && r[e..] == m0[e..] &&
            r[..off] == all[..off] && r[off + |c|..n] == all[off + |c|..n]
  {
    var r, e := Overwrite(m, off, c), n + |c|;
    Inner(m, all, 0, off, n);
    Inner(m, all, off + |c|, n, n);
    assert m[n..][..|c|] == m[n..e] && m0[n..][..|c|] == m0[n..e];
    assert m[n..][|c|..] == m[e..] && m0[n..][|c|..] == m0[e..];
    assert r[n..e] == m[n..e] && r[e..] == m[e..];
  }

  lemma Inner(m: seq<bv8>, all: seq<bv8>, a: nat, b: nat, n: nat)
    requires a <= b <= n <= |m| && n <= |all| && m[..n] == all[..n]
    ensures m[a..b] == all[a..b]
  {
    assert m[..n][a..b] == m[a..b] && all[..n][a..b] == all[a..b];
  }

  lemma SamePrefix(r: seq<bv8>, all: seq<bv8>, a: nat, l: nat, n: nat, e: nat)
    requires a + l <= n <= e <= |r| && e <= |all| && r[..a] == all[..a] && r[a + l..n] == all[a + l..n]
    ensures r[..e] == all[..e] <==> r[a..a + l] == all[a..a + l] && r[n..e] == all[n..e]
  {
    Pieces(r, a, l, n, e);
    Pieces(all, a, l, n, e);
    if r[..e] == all[..e] {
      Inner(r, all, a, a + l, e);
      Inner(r, all, n, e, e);
    }
  }

  lemma Pieces(s: seq<bv8>, a: nat, l: nat, n: nat, e: nat)
    requires a + l <= n <= e <= |s|
    ensures s[..e] == s[..a] + s[a..a + l] + s[a + l..n] + s[n..e]
  {
  }

  lemma Split(rest: seq<bv8>, tail: seq<bv8>, all: seq<bv8>, n: nat, len: nat, peek: bool)
    requires len <= |rest| && n <= |all| && rest + tail == all[n..] && (peek ==> n == 0)
    ensures n + len <= |all| && all[n..n + len] == rest[..len]
    ensures (if peek then rest else rest[len..]) + tail == if peek then all else all[n + len..]
  {
    assert (rest + tail)[len..] == rest[len..] + tail;
    assert (rest + tail)[..len] == rest[..len];
    assert all[n..][..len] == all[n..n + len] && all[n..][len..] == all[n + len..];
  }

  /** For datagrams: the one to be handed out next. */
  function Front(lastdata: Leftover, inbox: seq<Delivery>): Leftover {
    if lastdata.Left? then lastdata
    else if inbox != [] && inbox[0].Data? then Left(inbox[0].buf)
    else Nothing
  }

  /** The inbox once the datagram at the front has been fetched. */
  function Behind(lastdata: Leftover, inbox: seq<Delivery>): seq<Delivery> {
    if lastdata.Left? || inbox == [] then inbox else inbox[1..]
  }

  /** The bytes of the packet that a call meets first. */
  function FirstLength(lastdata: Leftover, lastoffset: nat, inbox: seq<Delivery>): nat {
    if lastdata.Left? then |Rest(lastdata, lastoffset)|
    else if Front(lastdata, inbox).Left? then |Front(lastdata, inbox).buf.data|
    else 0
  }

  /** A packet is there, and the call may take it. */
  predicate Prompt(lastdata: Leftover, inbox: seq<Delivery>, mayNotWait: bool, counts: seq<int>, seen: nat) {
    Front(lastdata, inbox).Left? && (lastdata.Left? || !mayNotWait || Reading(counts, seen) > 0)
  }

  /** No packet is left over, the call may not wait, and the counter shows none that has come. */
  predicate WouldBlock(lastdata: Leftover, mayNotWait: bool, counts: seq<int>, seen: nat) {
    lastdata.Nothing? && mayNotWait && Reading(counts, seen) <= 0
  }

  /** No packet is left over, and netconn_recv has none to give. */
  predicate AtEnd(lastdata: Leftover, inbox: seq<Delivery>) {
    lastdata.Nothing? && inbox != [] && inbox[0].NoData?
  }

  /** The packet that is there ends a call that copies it. */
  predicate EndsCall(lastdata: Leftover, inbox: seq<Delivery>, peek: bool) {
    peek || (Front(lastdata, inbox).Left? && Front(lastdata, inbox).buf.push)
  }

  function Min(a: nat, b: nat): nat { if a <= b then a else b }

  /** One call of lwip_recvfrom: its arguments and what it starts from. `unstopped` says that
      it reads a stream and nothing ends it before `size` bytes have been copied. */
  datatype Call = Call(tcp: bool, peek: bool, size: nat, unstopped: bool, all: seq<bv8>, m0: seq<bv8>,
                       last0: Leftover, inbox0: seq<Delivery>)

  /** The datagram at the front was cut to the size of the buffer and put into the memory;
      unless it was only looked at, all of it is gone, and nothing else is. */
  predicate DatagramTaken(c: Call, n: nat, m: seq<bv8>, last: Leftover, inbox: seq<Delivery>) {
    var front := Front(c.last0, c.inbox0);
    front.Left? &&
    n == (if c.size <= |front.buf.data| then c.size else |front.buf.data|) &&
    Copied(m, c.m0, front.buf.data, n) &&
    (if c.peek then Front(last, inbox) == front else last.Nothing? && inbox == Behind(c.last0, c.inbox0))
  }

  /** A stream read of which n bytes have been copied. */
  predicate StreamRead(c: Call, done: bool, n: nat, m: seq<bv8>, last: Leftover, off: nat, inbox: seq<Delivery>) {
    Streamed(c.peek, c.all, n, m, c.m0, Rest(last, off) + Bytes(inbox)) &&
    (!done && n > 0 ==> !c.peek && n < c.size) &&
    (done && !c.peek && 0 < n < c.size ==> last.Nothing?) &&
    (c.peek && n > 0 ==> last.Left? && n <= |last.buf.data| - off) &&
    (c.unstopped ==> !c.peek && |c.all| >= c.size > 0 && Unstopped(last, inbox) && (done <==> n >= c.size))
  }

  /** Where the loop stands at its head. */
  predicate AtHead(c: Call, done: bool, n: nat, m: seq<bv8>, last: Leftover, off: nat, inbox: seq<Delivery>) {
    if c.tcp then StreamRead(c, done, n, m, last, off, inbox)
    else if done then DatagramTaken(c, n, m, last, inbox)
    else n == 0 && m == c.m0 && last == c.last0 && inbox == c.inbox0
  }

  /** Where it stands with a packet at hand. */
  predicate Supplied(c: Call, n: nat, m: seq<bv8>, last: Leftover, off: nat, inbox: seq<Delivery>) {
    last.Left? &&
    if c.tcp then StreamRead(c, false, n, m, last, off, inbox)
    else n == 0 && m == c.m0 && last == Front(c.last0, c.inbox0) && inbox == Behind(c.last0, c.inbox0)
  }

  /** How the call ends for want of a packet. */
  predicate Starved(c: Call, n: nat, m: seq<bv8>, last: Leftover, off: nat, inbox: seq<Delivery>, waits: bool,
                    result: int) {
    last.Nothing? && !c.unstopped &&
    (if waits then inbox == [] else result == U16(n) || (U16(n) == 0 && result == -1)) &&
    if c.tcp then StreamRead(c, false, n, m, last, off, inbox)
    else n == 0 && (waits || result == -1 || Front(c.last0, c.inbox0).Nothing?)
  }

  lemma SupplyPacket(c: Call, n: nat, m: seq<bv8>, inbox: seq<Delivery>)
    requires AtHead(c, false, n, m, Nothing, 0, inbox) && (c.unstopped ==> c.tcp)
    ensures c.unstopped ==> inbox != [] && inbox[0].Data?
    ensures inbox != [] && inbox[0].Data? ==> Supplied(c, n, m, Left(inbox[0].buf), 0, inbox[1..])
    ensures inbox == [] ==> Starved(c, n, m, Nothing, 0, inbox, true, 0)
    ensures inbox != [] && inbox[0].NoData? ==> Starved(c, n, m, Nothing, 0, inbox[1..], false, U16(n))
  {
    if c.tcp && inbox != [] {
      var last := if inbox[0].Data? then Left(inbox[0].buf) else Nothing;
      assert Rest(last, 0) + Bytes(inbox[1..]) == Bytes(inbox) == Rest(Nothing, 0) + Bytes(inbox);
    }
  }

  /** What one round copies, and where it leaves the packet. */
  predicate Turn(c: Call, n: nat, buf: Netbuf, off: nat, len: nat, last: Leftover, off': nat) {
    off <= |buf.data| && n + len <= c.size &&
    len == (if c.size - n > |buf.data| - off then |buf.data| - off else c.size - n) &&
    if c.peek then last == Left(buf) && off' == off
    else if c.tcp && len < |buf.data| - off then last == Left(buf) && off' == off + len
    else last == Nothing && off' == 0
  }

  lemma StreamTurn(c: Call, n: nat, m: seq<bv8>, buf: Netbuf, off: nat, inbox: seq<Delivery>, len: nat,
                   last: Leftover, off': nat, done: bool)
    requires c.tcp && Supplied(c, n, m, Left(buf), off, inbox) && Turn(c, n, buf, off, len, last, off')
    requires c.size <= |m| && U16(n) + len <= |m|
    requires n + len == c.size || c.peek || buf.push ==> done
    requires c.unstopped && n + len < c.size && !buf.push ==> !done
    ensures StreamRead(c, done, n + len, Overwrite(m, U16(n), Rest(Left(buf), off)[..len]), last, off', inbox)
    ensures !done ==> last.Nothing?
  {
    var rest := Rest(Left(buf), off);
    StreamMore(c.peek, c.all, n, m, c.m0, rest, Bytes(inbox), len, U16(n));
    assert Rest(last, off') == if c.peek then rest else rest[len..];
  }

  lemma DatagramTurn(c: Call, m: seq<bv8>, buf: Netbuf, inbox: seq<Delivery>, len: nat, last: Leftover, off': nat)
    requires !c.tcp && Supplied(c, 0, m, Left(buf), 0, inbox) && Turn(c, 0, buf, 0, len, last, off')
    requires c.size <= |m|
    ensures DatagramTaken(c, len, Overwrite(m, 0, buf.data[..len]), last, inbox)
  {
    CopyMore(m, m, buf.data, 0, buf.data[..len]);
  }

  lemma StreamStarts(c: Call, last: Leftover, off: nat, inbox: seq<Delivery>)
    requires c.tcp && c.all == Rest(last, off) + Bytes(inbox)
    requires c.unstopped ==> !c.peek && |c.all| >= c.size > 0 && Unstopped(last, inbox)
    ensures AtHead(c, false, 0, c.m0, last, off, inbox)
  {
  }

  lemma DatagramStarts(c: Call, off: nat)
    requires !c.tcp
    ensures AtHead(c, false, 0, c.m0, c.last0, off, c.inbox0)
  {
  }

  /** What the end of a call means for the caller. */
  lemma Ends(c: Call, done: bool, n: nat, m: seq<bv8>, last: Leftover, off: nat, inbox: seq<Delivery>, waits: bool,
             result: int)
    requires if done then AtHead(c, true, n, m, last, off, inbox) && !waits && result == U16(n)
             else Starved(c, n, m, last, off, inbox, waits, result)
    ensures !waits ==> result == U16(n) || (U16(n) == 0 && result == -1)
    ensures waits ==> inbox == []
    ensures c.tcp ==> Streamed(c.peek, c.all, n, m, c.m0, Rest(last, off) + Bytes(inbox))
    ensures c.tcp && !c.peek && 0 < n < c.size ==> last.Nothing?
    ensures c.tcp && c.peek && n > 0 ==> last.Left? && n <= |last.buf.data| - off
    ensures c.tcp && c.unstopped && n <= c.size ==> !waits && n == c.size && (result == c.size <==> c.size <= 0xffff)
    ensures !c.tcp && n > 0 ==> Front(c.last0, c.inbox0).Left? && result == n
    ensures !c.tcp && !waits && result != -1 && Front(c.last0, c.inbox0).Left? ==> DatagramTaken(c, n, m, last, inbox)
  {
  }

  /** One finished read of a stream, as the contract of Recvfrom describes it. */
  datatype Read = Read(peek: bool, n: nat, before: seq<bv8>, m0: seq<bv8>, m: seq<bv8>, after: seq<bv8>)

  predicate Finished(r: Read) {
    r.n <= |r.m| && r.n <= 0x1_0000 && Streamed(r.peek, r.before, r.n, r.m, r.m0, r.after)
  }

  /** Reads that follow one another on one socket, each of at most 65536 bytes. */
  predicate Successive(calls: seq<Read>) {
    calls == [] ||
    var k := |calls| - 1;
    Finished(calls[k]) && Successive(calls[..k]) && (k > 0 ==> calls[k - 1].after == calls[k].before)
  }

  function Taken(r: Read): seq<bv8>
    requires Finished(r)
  {
    if r.peek then [] else r.m[..r.n]
  }

  /** The bytes that the caller took out, in the order of the calls. */
  function Delivered(calls: seq<Read>): seq<bv8>
    requires Successive(calls)
  {
    if calls == [] then []
    else Delivered(calls[..|calls| - 1]) + Taken(calls[|calls| - 1])
  }

  lemma ReadTakesAPrefix(r: Read)
    requires Finished(r)
    ensures Taken(r) + r.after == r.before
  {
  }

  lemma Associates(a: seq<bv8>, b: seq<bv8>, c: seq<bv8>)
    ensures (a + b) + c == a + (b + c)
  {
  }

  /** Any series of reads and peeks delivers the stream: every byte once and in order, and
      what was not delivered is what is still held. */
  lemma {:induction false} ReadsDeliverTheStream(calls: seq<Read>)
    requires Successive(calls) && calls != []
    ensures Delivered(calls) + calls[|calls| - 1].after == calls[0].before
  {
    hide Finished, Taken;
    var k := |calls| - 1;
    ReadTakesAPrefix(calls[k]);
    if k == 0 {
      assert Delivered(calls[..k]) == [] && [] + Taken(calls[k]) == Taken(calls[k]);
    } else {
      ReadsDeliverTheStream(calls[..k]);
      Associates(Delivered(calls[..k]), Taken(calls[k]), calls[k].after);
    }
  }

  class Socket {
    const tcp: bool
    var nonblock: bool
    var lastdata: Leftover
    var lastoffset: nat
    var inbox: seq<Delivery>

    ghost predicate Valid()
      reads this
    {
      (lastdata.Nothing? ==> lastoffset == 0) &&
      (lastdata.Left? ==> lastoffset <= |lastdata.buf.data|) &&
      (!tcp ==> lastoffset == 0)
    }

    /** Every byte this socket still has to hand out. */
    ghost function Pending(): seq<bv8>
      reads this
      requires Valid()
    {
      Rest(lastdata, lastoffset) + Bytes(inbox)
    }

    /** netconn_recv: take the next delivery; without one the caller waits for good. */
    method NetconnRecv() returns (delivery: Delivery, waits: bool)
      modifies this`inbox
      ensures waits == (old(inbox) == [])
      ensures !waits ==> delivery == old(inbox)[0] && inbox == old(inbox)[1..]
      ensures waits ==> inbox == []
    {
      waits := inbox == [];
      delivery := NoData;
      if !waits {
        delivery := inbox[0];
        inbox := inbox[1..];
      }
    }

    /** lwip_recvfrom. `n` counts the bytes copied; the return value counts them in 16 bits. */
    method Recvfrom(mem: array<bv8>, size: nat, peek: bool, dontwait: bool, counts: seq<int>)
      returns (result: int, waits: bool, ghost n: nat)
      requires Valid() && size <= mem.Length
      modifies this`lastdata, this`lastoffset, this`inbox, mem
      ensures Valid()
      ensures n <= size
      // the return value
      ensures !waits ==> result == U16(n) || (U16(n) == 0 && result == -1)
      ensures waits ==> inbox == []
      ensures WouldBlock(old(lastdata), dontwait || nonblock, counts, 0) ==> !waits && result == -1 && n == 0
      ensures AtEnd(old(lastdata), old(inbox)) && !WouldBlock(old(lastdata), dontwait || nonblock, counts, 0) ==>
              !waits && result == 0 && n == 0
      ensures !waits && result == -1 ==> dontwait || nonblock
      // a stream loses, repeats and reorders nothing
      ensures tcp ==> Streamed(peek, old(Pending()), n, mem[..], old(mem[..]), Pending())
      // of the packet that it meets first it takes all that fits the buffer
      ensures Prompt(old(lastdata), old(inbox), dontwait || nonblock, counts, 0) ==>
              n >= Min(size, FirstLength(old(lastdata), old(lastoffset), old(inbox)))
      // and no more, if it only looks at it or the sender has pushed it
      ensures Prompt(old(lastdata), old(inbox), dontwait || nonblock, counts, 0) &&
              EndsCall(old(lastdata), old(inbox), peek) ==>
              !waits && result == U16(n) && n == Min(size, FirstLength(old(lastdata), old(lastoffset), old(inbox)))
      // a stream read ends at the end of a packet, or when the buffer is full
      ensures tcp && !peek && n < size && n > 0 ==> lastdata.Nothing?
      // it fills the buffer if nothing ends it before, and then returns its size just when that fits 16 bits
      ensures tcp && !peek && Busy(counts) && Unstopped(old(lastdata), old(inbox)) &&
              |old(Pending())| >= size > 0
              ==> !waits && n == size && (result == size <==> size <= 0xffff)
      // a peek looks at one packet
      ensures tcp && peek && n > 0 ==> lastdata.Left? && n <= |lastdata.buf.data| - lastoffset
      // a datagram is handed out cut to the buffer, and dropped as a whole unless peeked at
      ensures !tcp && n > 0 ==> Front(old(lastdata), old(inbox)).Left? && result == n
      ensures !tcp && !waits && result != -1 && Front(old(lastdata), old(inbox)).Left? ==>
              DatagramTaken(Call(tcp, peek, size, false, [], old(mem[..]), old(lastdata), old(inbox)), n, mem[..],
                            lastdata, inbox)
    {
      ghost var all := Pending();
      ghost var unstopped := tcp && !peek && Busy(counts) && Unstopped(lastdata, inbox) && |all| >= size > 0;
      ghost var c := Call(tcp, peek, size, unstopped, if tcp then all else [], mem[..], lastdata, inbox);
      hide Bytes, Rest, Streamed, DatagramTaken, Unstopped, StreamRead, AtHead, Starved, Copied, Prompt, FirstLength,
           WouldBlock, AtEnd, EndsCall;
      if tcp {
        StreamStarts(c, lastdata, lastoffset, inbox);
      } else {
        DatagramStarts(c, lastoffset);
      }
      ghost var done;
      result, waits, n, done := Rounds(mem, size, peek, dontwait, counts, c);
      Ends(c, done, n, mem[..], lastdata, lastoffset, inbox, waits, result);
    }

    /** The loop of lwip_recvfrom; `done` is false when a missing packet ended it. */
    method Rounds(mem: array<bv8>, size: nat, peek: bool, dontwait: bool, counts: seq<int>, ghost c: Call)
      returns (result: int, waits: bool, ghost n: nat, done: bool)
      requires Stands(mem, c, false, 0) && c.peek == peek && c.size == size <= mem.Length
      requires c.unstopped ==> tcp && Busy(counts)
      modifies this`lastdata, this`lastoffset, this`inbox, mem
      ensures n <= size
      ensures if done then Stands(mem, c, true, n) && !waits && result == U16(n) else Ended(mem, c, n, waits, result)
      ensures Prompt(old(lastdata), old(inbox), dontwait || nonblock, counts, 0) ==>
              n >= Min(size, FirstLength(old(lastdata), old(lastoffset), old(inbox)))
      ensures WouldBlock(old(lastdata), dontwait || nonblock, counts, 0) ==> !done && !waits && result == -1 && n == 0
      ensures AtEnd(old(lastdata), old(inbox)) && !WouldBlock(old(lastdata), dontwait || nonblock, counts, 0) ==>
              !waits && result == 0 && n == 0
      ensures !waits && result == -1 ==> dontwait || nonblock
      ensures Prompt(old(lastdata), old(inbox), dontwait || nonblock, counts, 0) &&
              EndsCall(old(lastdata), old(inbox), peek) ==>
              done && n == Min(size, FirstLength(old(lastdata), old(lastoffset), old(inbox)))
    {
      var len, off, seen := size, 0, 0;
      n, result, waits, done := 0, 0, false, false;
      var ready := true;
      ghost var prompt := Prompt(lastdata, inbox, dontwait || nonblock, counts, 0);
      ghost var least := Min(size, FirstLength(lastdata, lastoffset, inbox));
      ghost var blocks := WouldBlock(lastdata, dontwait || nonblock, counts, 0);
      ghost var atEnd := AtEnd(lastdata, inbox);
      ghost var short := EndsCall(lastdata, inbox, peek);
      ghost var started := false;
      U16Add(0, 0);
      hide U16, Busy, Stands, Ended, Held, Prompt, FirstLength, Min, WouldBlock, AtEnd, EndsCall;
      while ready && !done
        invariant n <= size
        invariant ready ==> n + len == size && off == U16(n) && Stands(mem, c, done, n)
        invariant ready ==> !waits && (done ==> result == off)
        invariant !ready ==> !done && Ended(mem, c, n, waits, result)
        invariant !started ==>
                    ready && !done && n == 0 && seen == 0 && Fresh(old(lastdata), old(lastoffset), old(inbox))
        invariant started && prompt ==> n >= least
        invariant started && blocks ==> !ready && !waits && result == -1 && n == 0
        invariant started && atEnd && !blocks ==> !ready && !waits && result == 0 && n == 0
        invariant started && prompt && short ==> ready && done && n == least
        invariant !ready && !waits && result == -1 ==> dontwait || nonblock
        decreases Held(), ready && !done
      {
        ready, waits, result, len, off, done, seen, n := Once(mem, off, len, peek, dontwait, counts, seen, c, n);
        started := true;
      }
    }

    /** Nothing has been taken yet. */
    ghost predicate Fresh(lastdata0: Leftover, lastoffset0: nat, inbox0: seq<Delivery>)
      reads this
    {
      lastdata == lastdata0 && lastoffset == lastoffset0 && inbox == inbox0
    }

    /** The call stands at the head of the loop. */
    ghost predicate Stands(mem: array<bv8>, c: Call, done: bool, n: nat)
      reads this, mem
    {
      Valid() && c.tcp == tcp && AtHead(c, done, n, mem[..], lastdata, lastoffset, inbox)
    }

    /** The call has ended for want of a packet. */
    ghost predicate Ended(mem: array<bv8>, c: Call, n: nat, waits: bool, result: int)
      reads this, mem
    {
      Valid() && Starved(c, n, mem[..], lastdata, lastoffset, inbox, waits, result)
    }

    /** The measure of the loop. */
    ghost function Held(): nat
      reads this
    {
      2 * |inbox| + if lastdata.Left? then 1 else 0
    }

    /** The body of the loop. */
    method Once(mem: array<bv8>, off: nat, len: nat, peek: bool, dontwait: bool, counts: seq<int>, seen: nat,
                ghost c: Call, ghost n: nat)
      returns (ready: bool, waits: bool, result: int, len': nat, off': nat, done: bool, seen': nat, ghost n': nat)
      requires Stands(mem, c, false, n) && c.peek == peek && off == U16(n) && n + len == c.size <= mem.Length
      requires c.unstopped ==> tcp && Busy(counts)
      modifies this`lastdata, this`lastoffset, this`inbox, mem
      ensures n' <= c.size
      ensures if ready then !waits && n' + len' == c.size && off' == U16(n') && Stands(mem, c, done, n') &&
              result == off'
              else !done && Ended(mem, c, n', waits, result)
      ensures Held() <= old(Held()) && (ready && !done ==> Held() < old(Held()))
      ensures n' >= n && (ready ==> n' >= n + Min(len, old(FirstLength(lastdata, lastoffset, inbox))))
      ensures old(Prompt(lastdata, inbox, dontwait || nonblock, counts, seen)) ==> ready
      ensures !ready ==> n' == n
      ensures old(WouldBlock(lastdata, dontwait || nonblock, counts, seen)) ==>
              !ready && !waits && result == if off > 0 then off else -1
      ensures old(AtEnd(lastdata, inbox) && !WouldBlock(lastdata, dontwait || nonblock, counts, seen)) ==>
              !ready && !waits && result == off
      ensures !ready && !waits && result == -1 ==> dontwait || nonblock
      ensures ready && old(EndsCall(lastdata, inbox, peek)) ==>
              done && n' == n + Min(len, old(FirstLength(lastdata, lastoffset, inbox)))
    {
      len', off', done, n' := len, off, false, n;
      hide U16, Busy, AtHead, Supplied, Starved, Prompt, WouldBlock, AtEnd;
      ready, waits, result, seen' := Supply(dontwait, counts, seen, off, mem, c, n);
      if ready {
        var copylen;
        copylen, done, seen' := Round(mem, off, len, peek, counts, seen', c, n);
        U16Add(n, copylen);
        n' := n + copylen;
        off' := U16(off + copylen);
        len' := len - copylen;
        result := off';
      }
    }

    /** Take the packet left over, or a new one; not `ready` when there is none. */
    method Supply(dontwait: bool, counts: seq<int>, seen: nat, off: nat, mem: array<bv8>, ghost c: Call, ghost n: nat)
      returns (ready: bool, waits: bool, result: int, seen': nat)
      requires Valid() && c.tcp == tcp && off == U16(n)
      requires c.unstopped ==> tcp && Busy(counts)
      requires AtHead(c, false, n, mem[..], lastdata, lastoffset, inbox)
      modifies this`lastdata, this`inbox
      ensures Valid()
      ensures if ready then !waits && Supplied(c, n, mem[..], lastdata, lastoffset, inbox)
              else Starved(c, n, mem[..], lastdata, lastoffset, inbox, waits, result)
      ensures if old(lastdata).Left? then lastdata.Left? && inbox == old(inbox)
              else if ready then |inbox| < |old(inbox)| else lastdata.Nothing? && |inbox| <= |old(inbox)|
      ensures ready ==> lastdata == Front(old(lastdata), old(inbox)) && lastdata.Left?
      ensures old(Prompt(lastdata, inbox, dontwait || nonblock, counts, seen)) ==> ready
      ensures old(WouldBlock(lastdata, dontwait || nonblock, counts, seen)) ==>
              !ready && !waits && result == if off > 0 then off else -1
      ensures old(AtEnd(lastdata, inbox) && !WouldBlock(lastdata, dontwait || nonblock, counts, seen)) ==>
              !ready && !waits && result == off
      ensures !ready && !waits && result == -1 ==> dontwait || nonblock
    {
      ready, waits, result, seen' := true, false, off, seen;
      if lastdata.Nothing? {
        if dontwait || nonblock {
          var count := Reading(counts, seen);
          seen' := seen + 1;
          if count <= 0 {
            return false, false, if off > 0 then off else -1, seen';
          }
        }
        hide AtHead, Supplied, Starved;
        SupplyPacket(c, n, mem[..], inbox);
        ready, waits := Refill();
      }
    }

    /** Get a packet from the network when none is left over. */
    method Refill() returns (arrived: bool, waits: bool)
      requires Valid() && lastdata.Nothing?
      modifies this`lastdata, this`inbox
      ensures Valid() && Pending() == old(Pending())
      ensures waits == (old(inbox) == [])
      ensures waits ==> inbox == [] && lastdata.Nothing? && !arrived
      ensures !waits ==> inbox == old(inbox)[1..] && arrived == old(inbox)[0].Data? &&
                         lastdata == if arrived then Left(old(inbox)[0].buf) else Nothing
    {
      var delivery;
      delivery, waits := NetconnRecv();
      arrived := !waits && delivery.Data?;
      lastdata := if arrived then Left(delivery.buf) else Nothing;
    }

    /** One copy of the loop, and the decision whether to go on. */
    method Round(mem: array<bv8>, off: nat, len: nat, peek: bool, counts: seq<int>, seen: nat, ghost c: Call,
                 ghost n: nat)
      returns (copylen: nat, done: bool, seen': nat)
      requires Valid() && c.tcp == tcp && c.peek == peek && off == U16(n) && n + len == c.size <= mem.Length
      requires c.unstopped ==> Busy(counts)
      requires Supplied(c, n, mem[..], lastdata, lastoffset, inbox)
      modifies this`lastdata, this`lastoffset, mem
      ensures Valid() && copylen <= len && copylen == Min(len, |old(Rest(lastdata, lastoffset))|)
      ensures AtHead(c, done, n + copylen, mem[..], lastdata, lastoffset, inbox)
      ensures !done ==> lastdata.Nothing?
      ensures peek || old(lastdata).buf.push ==> done
    {
      ghost var m, lo := mem[..], lastoffset;
      var buf := lastdata.buf;
      hide DatagramTaken, StreamRead, Overwrite;
      copylen := HandOut(mem, off, len, peek);
      done, seen' := !tcp || len == copylen || buf.push, seen;
      if !done {
        var count := Reading(counts, seen);
        done, seen' := count <= 0 || peek, seen + 1;
      }
      if tcp {
        StreamTurn(c, n, m, buf, lo, inbox, copylen, lastdata, lastoffset, done);
      } else {
        DatagramTurn(c, m, buf, inbox, copylen, lastdata, lastoffset);
      }
    }

    /** Copy from the packet at hand and keep or delete it. */
    method HandOut(mem: array<bv8>, off: nat, len: nat, peek: bool) returns (copylen: nat)
      requires Valid() && lastdata.Left? && off + len <= mem.Length
      modifies this`lastdata, this`lastoffset, mem
      ensures Valid()
      ensures var rest := old(Rest(lastdata, lastoffset));
              copylen == (if len > |rest| then |rest| else len) &&
              mem[..] == Overwrite(old(mem[..]), off, rest[..copylen]) &&
              (!peek ==> lastoffset == if tcp && copylen < |rest| then old(lastoffset) + copylen else 0) &&
              (!peek ==> lastdata == if tcp && copylen < |rest| then old(lastdata) else Nothing)
      ensures peek ==> lastdata == old(lastdata) && lastoffset == old(lastoffset)
    {
      hide Overwrite;
      var buf := lastdata.buf;
      var buflen := |buf.data| - lastoffset;
      copylen := if len > buflen then buflen else len;
      assert buf.data[lastoffset..][..copylen] == buf.data[lastoffset..lastoffset + copylen];
      CopyPartial(mem, off, buf.data, copylen, lastoffset);
      if !peek {
        if tcp && buflen - copylen > 0 {
          lastdata := Left(buf);
          lastoffset := lastoffset + copylen;
        } else {
          lastdata := Nothing;
          lastoffset := 0;
        }
      }
    }

    /** netbuf_copy_partial */
    method CopyPartial(mem: array<bv8>, at: nat, data: seq<bv8>, len: nat, offset: nat)
      requires offset + len <= |data| && at + len <= mem.Length
      modifies mem
      ensures mem[..] == Overwrite(old(mem[..]), at, data[offset..offset + len])
    {
      forall i | 0 <= i < len {
        mem[at + i] := data[offset + i];
      }
    }
  }
}
