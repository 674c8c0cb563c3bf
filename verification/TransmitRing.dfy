/** The sender: a ring of queued messages, and the thread that cuts them into frames
    (gateway/if_scan.c, scan_transmit and scan_send). */
module TransmitRing {
  import opened Basics
  import opened Frames
  import SerialPort

  const TXBUFLEN := 8000

  /** struct can_queue; it is never changed after it is filled in. The id is the one of the
      peer, or the broadcast id. */
  datatype Queued = Queued(to: Peer, message: seq<Byte>)

  // How far slot i lies behind the start, going round the ring.
  function Behind(start: nat, i: nat): int { if i >= start then i - start else TXBUFLEN - start + i }

  // What the oldest message of a queue becomes on the line.
  function OldestLine(queue: seq<Queued>): seq<Byte> {
    if queue == [] then []
    else Bytes(MessageBlocks(queue[0].to, queue[0].message, FragmentCount(queue[0].message)))
  }

  class Ring {
    const tx: array<Option<Queued>>
    var txstart: nat
    const port: SerialPort.Port
    const parent: Option<Parent>
    var lastparent: int
    ghost var queue: seq<Queued>   // what is waiting, oldest first

    /** The occupied slots are one cyclic block that starts at txstart and holds the queue. */
    ghost predicate Valid()
      reads this, tx
    {
      && tx.Length == TXBUFLEN && txstart < TXBUFLEN && |queue| <= TXBUFLEN
      && forall i :: 0 <= i < TXBUFLEN ==>
           tx[i] == if Behind(txstart, i) < |queue| then Some(queue[Behind(txstart, i)]) else None
    }

    // The ring shares no memory with the port.
    ghost predicate Apart() { this as object != port && tx as object != port.cirbuf && tx as object != port.msgbuf }

    constructor (port: SerialPort.Port, parent: Option<Parent>)
      ensures Valid() && fresh(tx) && queue == [] && txstart == 0
      ensures this.port == port && this.parent == parent && lastparent == 0
    {
      tx := new Option<Queued>[TXBUFLEN](_ => None);
      txstart, lastparent := 0, 0;
      this.port, this.parent := port, parent;
      queue := [];
    }

    /** scan_transmit: the message goes to the end of the queue, unless all slots are taken. */
    method Transmit(buffer: seq<Byte>, to: Peer) returns (rc: nat)
      requires Valid()
      modifies this`queue, tx
      ensures Valid()
      ensures rc == if old(|queue|) < TXBUFLEN then 0 else 1
      ensures queue == if old(|queue|) < TXBUFLEN then old(queue) + [Queued(to, buffer)] else old(queue)
    {
      var i := txstart;
      while i < TXBUFLEN
        invariant txstart <= i <= TXBUFLEN && i - txstart <= |queue|
      {
        if tx[i].None? { break; }
        i := i + 1;
      }
      if i == TXBUFLEN {
        i := 0;
        while i < txstart
          invariant i <= txstart && TXBUFLEN - txstart + i <= |queue|
        {
          if tx[i].None? { break; }
          i := i + 1;
        }
      }
      if tx[i].Some? { return 1; }
      tx[i] := Some(Queued(to, buffer));
      queue := queue + [Queued(to, buffer)];
      rc := 0;
    }

    /** One round of scan_send: the parent frame if a second has passed, then the oldest
        message, if there is one. */
    method Turn(now: int)
      requires Valid() && port.Valid() && Apart()
      modifies this`txstart, this`queue, this`lastparent, tx, port`wire
      ensures Valid()
      ensures queue == if old(queue) == [] then [] else old(queue)[1..]
      ensures lastparent == if parent.Some? && old(lastparent) < now then now else old(lastparent)
      ensures port.wire == old(port.wire)
                           + (if parent.Some? && old(lastparent) < now then ParentBlock(parent.value).Bytes() else [])
                           + OldestLine(old(queue))
    {
      if parent.Some? && lastparent < now {
        port.WriteParent(ParentFrame(parent.value));
        lastparent := now;
      }
      SendOldest();
    }

    method SendOldest()
      requires Valid() && port.Valid() && Apart()
      modifies this`txstart, this`queue, tx, port`wire
      ensures Valid() && queue == if old(queue) == [] then [] else old(queue)[1..]
      ensures port.wire == old(port.wire) + OldestLine(old(queue))
    {
      var q := tx[txstart];
      if q.Some? {
        SendMessage(q.value);
        Advance();
      }
    }

    /** The fragment loop. */
    method SendMessage(q: Queued)
      requires port.Valid()
      modifies port`wire
      ensures port.wire == old(port.wire) + Bytes(MessageBlocks(q.to, q.message, FragmentCount(q.message)))
    {
      var m := q.message;
      var frame := CanFrame(q.to.CanId() | CAN_EFF_FLAG, Zeros(8));
      ghost var canId := q.to.CanId();
      var i := 0;
      while i <= |m| / 8
        invariant i <= FragmentCount(m)
        invariant frame.id == IdBefore(canId, i)
        invariant port.wire == old(port.wire) + Bytes(MessageBlocks(q.to, m, i))
      {
        frame := NextFragment(canId, frame, m, i);
        SendFragment(frame, q.to, m, i);
        i := i + 1;
      }
    }

    /** The same frame variable serves all fragments of a message. */
    method NextFragment(ghost canId: bv32, previous: CanFrame, m: seq<Byte>, i: nat) returns (frame: CanFrame)
      requires i < FragmentCount(m) && previous.id == IdBefore(canId, i)
      ensures frame == Fragment(canId, m, i) && frame.id == IdBefore(canId, i + 1)
    {
      var id := SetNumber(previous.id, i);
      var data := Zeros(8);
      var n := if i * 8 + 8 > |m| then |m| - i * 8 else 8;
      data := Filled(m, i, n, data);
      frame := CanFrame(id, data);
    }

    method Filled(m: seq<Byte>, i: nat, n: nat, zeros: Data) returns (data: Data)
      requires i < FragmentCount(m) && n == (if i * 8 + 8 > |m| then |m| - i * 8 else 8) && zeros == Zeros(8)
      ensures data == Payload(m, i)
    {
      data := m[i * 8..i * 8 + n] + zeros[n..];
      assert data == Payload(m, i);
    }

    method SendFragment(frame: CanFrame, ghost p: Peer, ghost m: seq<Byte>, ghost i: nat)
      requires port.Valid() && i < FragmentCount(m) && frame == Fragment(p.CanId(), m, i)
      modifies port`wire
      ensures forall before: seq<Byte> :: old(port.wire) == before + Bytes(MessageBlocks(p, m, i)) ==>
                port.wire == before + Bytes(MessageBlocks(p, m, i + 1))
    {
      port.Write(frame);
      OneMoreBlock(p, m, i);
    }

    method SetNumber(previous: bv32, i: nat) returns (id: bv32)
      ensures id == WithNibble(previous, Word(i))
    {
      id := previous & 0xFFFF_FFF0;
      id := id | Word(i);
    }

    method Advance()
      requires Valid() && queue != []
      modifies this`txstart, this`queue, tx
      ensures Valid() && queue == old(queue)[1..]
    {
      tx[txstart] := None;
      txstart := txstart + 1;
      if txstart >= TXBUFLEN { txstart := 0; }
      queue := queue[1..];
    }
  }
}
