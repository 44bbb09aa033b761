/** The write transfer of the TFTP server (port/tftpserver.c) with a client that keeps to
    section 6 of RFC 1350, over a network that may lose, repeat and reorder packets. */
module TftpWrite {
  import opened Memory

  const TFTP_DATA := 3
  const TFTP_DATA_PKT_HDR_LEN := 4
  const TFTP_DATA_PKT_LEN_MAX := 516
  const BLOCK_SIZE := 512

  /** A DATA packet: opcode, block number, data. */
  function DataPacket(number: u16, chunk: seq<byte>): seq<byte> {
    [0, TFTP_DATA] + Be16(number) + chunk
  }

  /** tftp_extract_block */
  function ExtractBlock(packet: seq<byte>): u16 {
    Read16(packet, 2)
  }

  lemma PacketParts(number: u16, chunk: seq<byte>)
    ensures ExtractBlock(DataPacket(number, chunk)) == number
    ensures DataOf(Whole(DataPacket(number, chunk))) == chunk
    ensures |DataPacket(number, chunk)| == TFTP_DATA_PKT_HDR_LEN + |chunk|
  {
    var packet := DataPacket(number, chunk);
    assert packet[TFTP_DATA_PKT_HDR_LEN..|packet|] == chunk;
  }

  // ---------------------------------------------------------------- the server

  /** The block counter is an int; `file` is what file_write has appended, `closed` says that
      tftp_cleanup_wr has ended the transfer. */
  datatype Server = Server(block: nat, totBytes: nat, file: seq<byte>, closed: bool)

  /** tftp_process_write, once the file is open. */
  const FRESH := Server(0, 0, [], false)

  /** The packet buffer: the memory from its payload on, of which the packet takes `len` bytes,
      and the length of the whole chain of buffers. */
  datatype Buffer = Buffer(memory: seq<byte>, len: nat, totLen: nat)

  type PacketBuffer = p: Buffer | p.len <= |p.memory| witness Buffer([], 0, 0)

  function Whole(packet: seq<byte>): PacketBuffer { Buffer(packet, |packet|, |packet|) }

  /** The data behind the header, if there are any. */
  function DataOf(p: PacketBuffer): seq<byte> {
    if p.len > TFTP_DATA_PKT_HDR_LEN then p.memory[TFTP_DATA_PKT_HDR_LEN..p.len] else []
  }

  /** wrq_recv_callback with writes that succeed. A packet in more than one buffer is ignored.
      The opcode is not looked at, and the block number is read even behind the end of a
      packet that is too short to have one. */
  function Receive(s: Server, p: PacketBuffer): Server {
    if p.len != p.totLen then s
    else
      var closed := p.len < TFTP_DATA_PKT_LEN_MAX;
      if ExtractBlock(p.memory) == s.block + 1 then
        Server(s.block + 1, s.totBytes + |DataOf(p)|, s.file + DataOf(p), closed)
      else
        s.(closed := closed)
  }

  /** The number in the ACK that answers a packet. */
  function Acknowledged(s: Server): u16 { U16(s.block) }

  class Connection {
    var block: nat
    var totBytes: nat
    var file: seq<byte>
    var closed: bool

    ghost function View(): Server
      reads this
    {
      Server(block, totBytes, file, closed)
    }

    constructor ()
      ensures View() == FRESH
    {
      block, totBytes, file, closed := 0, 0, [], false;
    }

    /** wrq_recv_callback; returns the numbers that it acknowledges. */
    method WrqReceive(p: PacketBuffer) returns (acks: seq<u16>)
      requires !closed
      modifies this
      ensures View() == Receive(old(View()), p)
      ensures acks == if p.len == p.totLen then [Acknowledged(View())] else []
    {
      if p.len != p.totLen {
        return [];
      }
      if p.len > TFTP_DATA_PKT_HDR_LEN && ExtractBlock(p.memory) == block + 1 {
        file := file + p.memory[TFTP_DATA_PKT_HDR_LEN..p.len];
        block := block + 1;
        totBytes := totBytes + (p.len - TFTP_DATA_PKT_HDR_LEN);
      } else if ExtractBlock(p.memory) == block + 1 {
        block := block + 1;
        assert file + DataOf(p) == file;
      }
      acks := [U16(block)];
      if p.len < TFTP_DATA_PKT_LEN_MAX {
        closed := true;
      }
    }
  }

  // ---------------------------------------------------------------- whatever packets come

  /** The server after these packets; once it has closed the connection it gets no more. */
  function Serve(ps: seq<PacketBuffer>): Server
    decreases |ps|
  {
    if ps == [] then FRESH
    else
      var s := Serve(ps[..|ps| - 1]);
      if s.closed then s else Receive(s, ps[|ps| - 1])
  }

  predicate InOnePiece(p: PacketBuffer) { p.len == p.totLen }

  /** The packet is shorter than a full one, and so ends the transfer. */
  predicate IsShort(p: PacketBuffer) { InOnePiece(p) && p.len < TFTP_DATA_PKT_LEN_MAX }

  /** Nothing has ended the transfer before packet k. */
  predicate Open(ps: seq<PacketBuffer>, k: nat)
    requires k <= |ps|
  {
    forall j :: 0 <= j < k ==> !IsShort(ps[j])
  }

  /** The packets that are taken: each has the number that follows on those before it. */
  function Taken(ps: seq<PacketBuffer>): seq<PacketBuffer>
    decreases |ps|
  {
    if ps == [] then []
    else
      var before, p := Taken(ps[..|ps| - 1]), ps[|ps| - 1];
      if Open(ps, |ps| - 1) && InOnePiece(p) && Read16(p.memory, 2) == |before| + 1 then before + [p] else before
  }

  function Contents(ps: seq<PacketBuffer>): seq<byte> {
    if ps == [] then []
    else
      var p := ps[|ps| - 1];
      Contents(ps[..|ps| - 1]) + if p.len > 4 then p.memory[4..p.len] else []
  }

  /** Whatever packets come, the file holds the data of the taken ones, in their order, and the
      transfer ends with the first short packet, taken or not. */
  lemma {:induction false} ServesAnyPackets(ps: seq<PacketBuffer>)
    ensures Serve(ps).block == |Taken(ps)| && Serve(ps).file == Contents(Taken(ps))
    ensures Serve(ps).closed <==> !Open(ps, |ps|)
    decreases |ps|
  {
    hide Open, IsShort, Receive, Contents, ExtractBlock;
    OpenOn(ps);
    if ps == [] {
      NoPackets();
    } else {
      var n := |ps| - 1;
      ServesAnyPackets(ps[..n]);
      if !Serve(ps[..n]).closed {
        ReceiveTakes(Serve(ps[..n]), ps[n]);
      }
      OneMorePacket(Taken(ps[..n]), ps[n]);
    }
  }

  lemma OpenOn(ps: seq<PacketBuffer>)
    ensures Open(ps, 0)
    ensures ps != [] ==>
              var n := |ps| - 1;
              (Open(ps, n) <==> Open(ps[..n], n)) && (Open(ps, |ps|) <==> Open(ps, n) && !IsShort(ps[n]))
  {
    hide IsShort;
  }

  lemma NoPackets()
    ensures Taken([]) == [] && Contents([]) == []
  {
  }

  lemma OneMorePacket(before: seq<PacketBuffer>, p: PacketBuffer)
    ensures Contents(before + [p]) == Contents(before) + if p.len > 4 then p.memory[4..p.len] else []
  {
    assert (before + [p])[..|before|] == before;
  }

  lemma ReceiveTakes(s: Server, p: PacketBuffer)
    requires !s.closed
    ensures var s', taken := Receive(s, p), InOnePiece(p) && Read16(p.memory, 2) == s.block + 1;
            s'.block == s.block + (if taken then 1 else 0) && (s'.closed <==> IsShort(p)) &&
            s'.file == if taken then s.file + (if p.len > 4 then p.memory[4..p.len] else []) else s.file
  {
  }

  // ---------------------------------------------------------------- client and network

  /** The bytes in the blocks before block c + 1. */
  function Upto(data: seq<byte>, c: nat): nat {
    if BLOCK_SIZE * c < |data| then BLOCK_SIZE * c else |data|
  }

  /** Block c, from 1 on; the last one is short. */
  function Chunk(data: seq<byte>, c: nat): seq<byte>
    requires c > 0
  {
    data[Upto(data, c - 1)..Upto(data, c)]
  }

  function LastBlock(data: seq<byte>): nat { |data| / BLOCK_SIZE + 1 }

  function Sent(data: seq<byte>, c: nat): seq<byte>
    requires c > 0
  {
    DataPacket(U16(c), Chunk(data, c))
  }

  /** The client has got as far as sending block `block` (0: it waits for the answer to its
      request). What was ever sent stays in the network: the client's packets 1..block, by
      their place in the file, and the numbers of the server's ACKs. */
  datatype World = World(server: Server, block: nat, acks: set<u16>)

  datatype Step = Deliver(c: nat) | Ack(number: u16)

  predicate Enabled(w: World, data: seq<byte>, s: Step) {
    match s
    case Deliver(c) => 1 <= c <= w.block && !w.server.closed
    case Ack(number) => number in w.acks
  }

  /** The client goes on to the next block when its own block is acknowledged. */
  function Apply(w: World, data: seq<byte>, s: Step): World
    requires Enabled(w, data, s)
  {
    match s
    case Deliver(c) =>
      var server := Receive(w.server, Whole(Sent(data, c)));
      w.(server := server, acks := w.acks + {Acknowledged(server)})
    case Ack(number) =>
      if number == U16(w.block) && w.block < LastBlock(data) then w.(block := w.block + 1) else w
  }

  /** tftp_process_write has acknowledged the request. */
  const START := World(FRESH, 0, {0})

  // ---------------------------------------------------------------- the invariant

  /** How far client and server are apart. The server counts to 65535 and then stands still,
      while numbers in packets begin again at 0. */
  predicate InStep(w: World) {
    w.server.block <= 0xffff && w.server.block <= w.block &&
    (w.block <= 0x1_0000 ==> w.block <= w.server.block + 1) && (w.block > 0x1_0000 ==> w.server.block == 0xffff)
  }

  predicate Inv(w: World, data: seq<byte>) {
    InStep(w) && w.block <= LastBlock(data) && 0 in w.acks && (forall a :: a in w.acks ==> a <= w.server.block) &&
    w.server.file == data[..Upto(data, w.server.block)] && w.server.totBytes == |w.server.file| &&
    (w.server.closed ==>
       LastBlock(data) <= w.block && (LastBlock(data) <= 0xffff ==> w.server.block == LastBlock(data)))
  }

  lemma ChunkLength(data: seq<byte>, c: nat)
    requires 0 < c <= LastBlock(data)
    ensures if c < LastBlock(data) then |Chunk(data, c)| == BLOCK_SIZE else |Chunk(data, c)| < BLOCK_SIZE
    ensures data[..Upto(data, c - 1)] + Chunk(data, c) == data[..Upto(data, c)]
    ensures c == LastBlock(data) ==> Upto(data, c) == |data|
  {
  }

  lemma DeliverPreserves(w: World, data: seq<byte>, c: nat)
    requires Inv(w, data) && Enabled(w, data, Deliver(c))
    ensures Inv(Apply(w, data, Deliver(c)), data)
  {
    PacketParts(U16(c), Chunk(data, c));
    ChunkLength(data, c);
    if U16(c) == w.server.block + 1 {
      assert c == w.server.block + 1;
    }
    hide DataPacket, ExtractBlock, Chunk, Upto;
    if c == LastBlock(data) <= 0xffff {
      assert U16(c) == c;
    }
  }

  lemma AckPreserves(w: World, data: seq<byte>, number: u16)
    requires Inv(w, data) && Enabled(w, data, Ack(number))
    ensures Inv(Apply(w, data, Ack(number)), data)
  {
    if number == U16(w.block) && w.block <= 0xffff {
      assert number == w.block;
    }
  }

  function Run(data: seq<byte>, steps: seq<Step>): World
    decreases |steps|
  {
    if steps == [] then START
    else
      var w, s := Run(data, steps[..|steps| - 1]), steps[|steps| - 1];
      if Enabled(w, data, s) then Apply(w, data, s) else w
  }

  lemma {:induction false} RunInv(data: seq<byte>, steps: seq<Step>)
    ensures Inv(Run(data, steps), data)
    decreases |steps|
  {
    if steps == [] {
      assert data[..Upto(data, 0)] == [];
    } else {
      RunInv(data, steps[..|steps| - 1]);
      var w, s := Run(data, steps[..|steps| - 1]), steps[|steps| - 1];
      hide Inv, Apply;
      if Enabled(w, data, s) {
        match s
        case Deliver(c) => DeliverPreserves(w, data, c);
        case Ack(number) => AckPreserves(w, data, number);
      }
    }
  }

  /** The file is always made of the blocks that the server has counted, in order and once each. */
  lemma FileIsAPrefix(data: seq<byte>, steps: seq<Step>)
    ensures var s := Run(data, steps).server;
            s.file == data[..Upto(data, s.block)] && s.totBytes == |s.file|
  {
    RunInv(data, steps);
  }

  /** When the server ends the transfer it has the whole file, for exactly the files of at most
      65535 full blocks: its block counter is compared with a 16-bit number, and stands still
      after block 65535. */
  lemma ClosesOnWholeFile(data: seq<byte>, steps: seq<Step>)
    requires Run(data, steps).server.closed
    ensures Run(data, steps).server.file == data <==> |data| <= 0xffff * BLOCK_SIZE
  {
    RunInv(data, steps);
    var w := Run(data, steps);
    hide Run;
    if |data| <= 0xffff * BLOCK_SIZE {
      assert Upto(data, w.server.block) == |data|;
      assert data[..|data|] == data;
    } else {
      assert |w.server.file| < |data|;
    }
  }

  lemma RunStep(data: seq<byte>, steps: seq<Step>, s: Step)
    requires Enabled(Run(data, steps), data, s)
    ensures Run(data, steps + [s]) == Apply(Run(data, steps), data, s)
  {
    assert (steps + [s])[..|steps|] == steps;
  }

  /** Delivering the client's block once more makes the server acknowledge it. */
  lemma BlockIsAcknowledged(w: World, data: seq<byte>)
    requires Inv(w, data) && !w.server.closed && 1 <= w.block <= 0xffff && w.block < LastBlock(data)
    ensures var w' := Apply(w, data, Deliver(w.block));
            w.block in w'.acks && w'.block == w.block && Apply(w', data, Ack(w.block)).block == w.block + 1
  {
    PacketParts(U16(w.block), Chunk(data, w.block));
    hide DataPacket, ExtractBlock, Chunk;
    assert U16(w.block) == w.block;
  }

  lemma Advance(data: seq<byte>, steps: seq<Step>) returns (go: seq<Step>)
    requires |data| <= 0xffff * BLOCK_SIZE && !Run(data, steps).server.closed
    requires Run(data, steps).block < LastBlock(data)
    ensures Run(data, steps + go).block == Run(data, steps).block + 1
  {
    var w := Run(data, steps);
    RunInv(data, steps);
    if w.block == 0 {
      go := [Ack(0)];
      RunStep(data, steps, Ack(0));
    } else {
      go := [Deliver(w.block), Ack(w.block)];
      BlockIsAcknowledged(w, data);
      RunStep(data, steps, Deliver(w.block));
      RunStep(data, steps + [Deliver(w.block)], Ack(w.block));
      assert steps + [Deliver(w.block)] + [Ack(w.block)] == steps + go;
    }
  }

  lemma LastBlockCloses(data: seq<byte>, steps: seq<Step>)
    requires !Run(data, steps).server.closed && Run(data, steps).block == LastBlock(data)
    ensures Run(data, steps + [Deliver(LastBlock(data))]).server.closed
  {
    var c := LastBlock(data);
    RunStep(data, steps, Deliver(c));
    PacketParts(U16(c), Chunk(data, c));
    ChunkLength(data, c);
  }

  /** And it can always get there: from each point of such a transfer, some deliveries end it. */
  lemma {:induction false} CanAlwaysClose(data: seq<byte>, steps: seq<Step>) returns (more: seq<Step>)
    requires |data| <= 0xffff * BLOCK_SIZE
    ensures Run(data, steps + more).server.closed
    decreases LastBlock(data) - Run(data, steps).block
  {
    RunInv(data, steps);
    hide Run, Apply;
    if Run(data, steps).server.closed {
      more := [];
      assert steps + more == steps;
    } else if Run(data, steps).block == LastBlock(data) {
      more := [Deliver(LastBlock(data))];
      LastBlockCloses(data, steps);
    } else {
      var go := Advance(data, steps);
      RunInv(data, steps + go);
      var rest := CanAlwaysClose(data, steps + go);
      assert steps + (go + rest) == steps + go + rest;
      more := go + rest;
    }
  }
}
