/** The two threads of a serial interface, each for as many rounds as it is given
    (gateway/if_scan.c, scan_send and scan_receive). */
module Gateway {
  import opened Basics
  import opened Frames
  import opened Reassembly
  import Decoder
  import Lists
  import Runs
  import SerialPort
  import AddressList
  import TransmitRing
  import Transport

  // The messages of a queue, as they will go over the line.
  function Messages(queue: seq<TransmitRing.Queued>): seq<Transport.Item> { Lists.Flatten(MessageOf, queue) }
  function MessageOf(q: TransmitRing.Queued): seq<Transport.Item> { [Transport.Message(q.to, q.message)] }

  function OnlyMessages(items: seq<Transport.Item>): seq<Transport.Item> { Lists.Flatten(Kept, items) }
  function Kept(i: Transport.Item): seq<Transport.Item> { if i.Message? then [i] else [] }

  /** scan_send: what goes out is the front of the queue, in order and whole, with parent
      frames only between messages. */
  method Send(ring: TransmitRing.Ring, times: seq<int>) returns (ghost items: seq<Transport.Item>)
    requires ring.Valid() && ring.port.Valid() && ring.Apart()
    modifies ring`txstart, ring`queue, ring`lastparent, ring.tx, ring.port`wire
    ensures ring.Valid()
    ensures ring.port.wire == old(ring.port.wire) + Transport.OnLine(items)
    ensures old(Messages(ring.queue)) == OnlyMessages(items) + Messages(ring.queue)
    ensures |times| >= old(|ring.queue|) ==> ring.queue == []
  {
    items := [];
    for k := 0 to |times|
      invariant ring.Valid() && ring.port.Valid()
      invariant ring.port.wire == old(ring.port.wire) + Transport.OnLine(items)
      invariant old(Messages(ring.queue)) == OnlyMessages(items) + Messages(ring.queue)
      invariant |ring.queue| + k <= old(|ring.queue|) || ring.queue == []
    {
      ghost var more := SendOnce(ring, times[k]);
      LineConcat(items, more);
      Assoc(old(ring.port.wire), Transport.OnLine(items), Transport.OnLine(more));
      Assoc(OnlyMessages(items), OnlyMessages(more), Messages(ring.queue));
      items := items + more;
    }
  }

  method SendOnce(ring: TransmitRing.Ring, now: int) returns (ghost items: seq<Transport.Item>)
    requires ring.Valid() && ring.port.Valid() && ring.Apart()
    modifies ring`txstart, ring`queue, ring`lastparent, ring.tx, ring.port`wire
    ensures ring.Valid() && ring.port.Valid()
    ensures ring.port.wire == old(ring.port.wire) + Transport.OnLine(items)
    ensures old(Messages(ring.queue)) == OnlyMessages(items) + Messages(ring.queue)
    ensures ring.queue == if old(ring.queue) == [] then [] else old(ring.queue)[1..]
  {
    var announced := ring.parent.Some? && ring.lastparent < now;
    items := RoundItems(announced, ring.parent, ring.queue);
    Round(announced, ring.parent, ring.queue);
    ring.Turn(now);
    Assoc(old(ring.port.wire), if announced then ParentBlock(ring.parent.value).Bytes() else [],
          TransmitRing.OldestLine(old(ring.queue)));
  }

  // What one round of scan_send sends.
  ghost function RoundItems(announced: bool, parent: Option<Parent>, queue: seq<TransmitRing.Queued>)
    : seq<Transport.Item>
    requires announced ==> parent.Some?
  {
    (if announced then [Transport.HardwareParent(parent.value)] else [])
    + (if queue == [] then [] else [Transport.Message(queue[0].to, queue[0].message)])
  }

  lemma {:induction false} Round(announced: bool, parent: Option<Parent>, queue: seq<TransmitRing.Queued>)
    requires announced ==> parent.Some?
    ensures var items := RoundItems(announced, parent, queue);
            && Transport.OnLine(items)
               == (if announced then ParentBlock(parent.value).Bytes() else []) + TransmitRing.OldestLine(queue)
            && Messages(queue) == OnlyMessages(items) + Messages(if queue == [] then [] else queue[1..])
  {
    var first := if announced then [Transport.HardwareParent(parent.value)] else [];
    var second := if queue == [] then [] else [Transport.Message(queue[0].to, queue[0].message)];
    LineConcat(first, second);
    OneItem(first);
    OneItem(second);
  }

  lemma {:induction false} Assoc<T>(a: seq<T>, b: seq<T>, c: seq<T>)
    ensures a + b + c == a + (b + c)
  {
  }

  lemma {:induction false} OneItem(items: seq<Transport.Item>)
    requires |items| <= 1
    ensures Transport.OnLine(items) == if items == [] then [] else items[0].OnLine()
    ensures OnlyMessages(items) == if items != [] && items[0].Message? then items else []
  {
    if items != [] {
      assert items == [items[0]] + [];
      Lists.FlattenFirst(Transport.LineOf, items[0], []);
      Lists.FlattenFirst(Kept, items[0], []);
    }
  }

  lemma {:induction false} LineConcat(a: seq<Transport.Item>, b: seq<Transport.Item>)
    ensures Transport.OnLine(a + b) == Transport.OnLine(a) + Transport.OnLine(b)
    ensures OnlyMessages(a + b) == OnlyMessages(a) + OnlyMessages(b)
  {
    Lists.FlattenConcat(Transport.LineOf, a, b);
    Lists.FlattenConcat(Kept, a, b);
  }

  /** The device gives something at every call. */
  predicate Positive(chunks: seq<nat>) {
    forall k :: 0 <= k < |chunks| ==> chunks[k] > 0
  }

  /** scan_receive: however read() cuts the stream into pieces, the messages handed over
      are those of the frames decoded so far; once the stream is used up they are those of a
      one-pass receiver. */
  method Receive(port: SerialPort.Port, slots: AddressList.Slots, chunks: seq<nat>)
    returns (log: seq<Delivery>, ghost got: seq<CanFrame>)
    requires port.Valid() && slots.Valid() && {port, port.cirbuf, port.msgbuf} !! slots.Repr
    modifies port`cirbufb, port`cirbuft, port`msgbufi, port`line, port.cirbuf, port.msgbuf, slots.Repr
    ensures port.Valid() && slots.Valid()
    ensures old(port.Coming()).frames == got + port.Coming().frames
    ensures log == TableDelivered(old(slots.table), Transport.HearAll(got))
    ensures slots.table == TableAfter(old(slots.table), Transport.HearAll(got))
    ensures port.Unread() == [] ==> got == old(port.Coming()).frames
    ensures |chunks| >= old(|port.Unread()|) && Positive(chunks) ==> port.Unread() == []
  {
    log, got := ReceiveAll(port, slots, chunks, slots.table, port.Coming().frames, |port.Unread()|);
    assert port.Unread() == [] ==> port.Coming().frames == [];
  }

  // The loop, from given values: table t, frames coming, and total bytes unread.
  method ReceiveAll(port: SerialPort.Port, slots: AddressList.Slots, chunks: seq<nat>,
      ghost t: Table, ghost coming: seq<CanFrame>, ghost total: nat)
    returns (log: seq<Delivery>, ghost got: seq<CanFrame>)
    requires port.Valid() && slots.Valid() && {port, port.cirbuf, port.msgbuf} !! slots.Repr
    requires slots.table == t && port.Coming().frames == coming && |port.Unread()| == total
    modifies port`cirbufb, port`cirbuft, port`msgbufi, port`line, port.cirbuf, port.msgbuf, slots.Repr
    ensures port.Valid() && slots.Valid()
    ensures coming == got + port.Coming().frames && Received(t, got, log, slots.table)
    ensures |chunks| >= total && Positive(chunks) ==> |port.Unread()| == 0
  {
    log, got := [], [];
    ghost var left := total;
    for k := 0 to |chunks|
      invariant port.Valid() && slots.Valid() && {port, port.cirbuf, port.msgbuf} !! slots.Repr
      invariant fresh(slots.Repr - old(slots.Repr))
      invariant coming == got + port.Coming().frames && Received(t, got, log, slots.table)
      invariant left == |port.Unread()| && (Positive(chunks) ==> left + k <= total || left == 0)
    {
      log, got, left := ReceiveOnce(port, slots, chunks[k], log, t, got, coming, left);
    }
  }

  /** log and u are what the frames got lead to from table t. */
  predicate Received(t: Table, got: seq<CanFrame>, log: seq<Delivery>, u: Table) {
    log == TableDelivered(t, Transport.HearAll(got)) && u == TableAfter(t, Transport.HearAll(got))
  }

  method ReceiveOnce(port: SerialPort.Port, slots: AddressList.Slots, available: nat, log: seq<Delivery>,
      ghost t: Table, ghost got: seq<CanFrame>, ghost coming: seq<CanFrame>, ghost left: nat)
    returns (more: seq<Delivery>, ghost now: seq<CanFrame>, ghost remain: nat)
    requires port.Valid() && slots.Valid() && {port, port.cirbuf, port.msgbuf} !! slots.Repr
    requires coming == got + port.Coming().frames && Received(t, got, log, slots.table) && left == |port.Unread()|
    modifies port`cirbufb, port`cirbuft, port`msgbufi, port`line, port.cirbuf, port.msgbuf, slots.Repr
    ensures port.Valid() && slots.Valid() && fresh(slots.Repr - old(slots.Repr))
    ensures {port, port.cirbuf, port.msgbuf} !! slots.Repr
    ensures coming == now + port.Coming().frames && Received(t, now, more, slots.table)
    ensures remain == |port.Unread()| && (remain == 0 || available == 0 || remain < left)
  {
    var frame := ReadFrame(port, available);
    now, remain := got + SerialPort.AsSeq(frame), |port.Unread()|;
    ghost var rest := port.Coming().frames;
    Assoc(got, SerialPort.AsSeq(frame), rest);
    more := ParseRead(slots, frame, log, t, got);
    assert port.Coming().frames == rest && |port.Unread()| == remain;
  }

  // Of scan_read's contract, what the receiver needs.
  method ReadFrame(port: SerialPort.Port, available: nat) returns (frame: Option<CanFrame>)
    requires port.Valid()
    modifies port`cirbufb, port`cirbuft, port`msgbufi, port`line, port.cirbuf, port.msgbuf
    ensures port.Valid() && old(port.Coming()).frames == SerialPort.AsSeq(frame) + port.Coming().frames
    ensures port.Unread() == [] || available == 0 || |port.Unread()| < old(|port.Unread()|)
  {
    frame := port.Read(available);
  }

  method ParseRead(slots: AddressList.Slots, frame: Option<CanFrame>, log: seq<Delivery>,
      ghost t: Table, ghost got: seq<CanFrame>)
    returns (more: seq<Delivery>)
    requires slots.Valid() && Received(t, got, log, slots.table)
    modifies slots.Repr
    ensures slots.Valid() && fresh(slots.Repr - old(slots.Repr))
    ensures Received(t, got + SerialPort.AsSeq(frame), more, slots.table)
  {
    more := log;
    if frame.Some? {
      var rc, delivery := slots.Parse(frame.value);
      if delivery.Some? { more := more + [delivery.value]; }
      OneFrame(old(slots.table), frame.value);
      MoreFrames(t, got, [frame.value]);
    } else {
      assert got + SerialPort.AsSeq(frame) == got;
    }
  }

  lemma {:induction false} OneFrame(t: Table, f: CanFrame)
    ensures var es := Transport.HearAll([f]);
            if Hear(f).None? then TableAfter(t, es) == t && TableDelivered(t, es) == []
            else
              var p := Parse(t, Hear(f).value);
              && TableAfter(t, es) == p.table
              && TableDelivered(t, es) == if p.delivery.Some? then [p.delivery.value] else []
  {
    assert Transport.HearAll([f]) == if Hear(f).Some? then [Arrive(Hear(f).value)] else [];
    if Hear(f).Some? {
      Runs.Snoc(TableHappen, t, [], Arrive(Hear(f).value));
      assert [] + [Arrive(Hear(f).value)] == [Arrive(Hear(f).value)];
    }
  }

  lemma {:induction false} MoreFrames(t: Table, got: seq<CanFrame>, more: seq<CanFrame>)
    ensures var u := TableAfter(t, Transport.HearAll(got));
            && TableAfter(t, Transport.HearAll(got + more)) == TableAfter(u, Transport.HearAll(more))
            && TableDelivered(t, Transport.HearAll(got + more))
               == TableDelivered(t, Transport.HearAll(got)) + TableDelivered(u, Transport.HearAll(more))
  {
    Transport.HearConcat(got, more);
    Runs.Concat(TableHappen, t, Transport.HearAll(got), Transport.HearAll(more));
  }

  // ----- the sender's thread and the receiver's together -----

  // What the receiver owes for a queue of messages.
  function Owed(queue: seq<TransmitRing.Queued>): seq<Delivery> { Lists.Flatten(OwedFor, queue) }
  function OwedFor(q: TransmitRing.Queued): seq<Delivery> { [Delivery(q.to.Tag(), q.message)] }

  predicate Fit(queue: seq<TransmitRing.Queued>) {
    forall q <- queue :: q.to.Valid() && Transport.WellFormed(q.message)
  }

  function Sources(queue: seq<TransmitRing.Queued>): set<Source> {
    set q <- queue :: q.to.Tag()
  }

  lemma {:induction false} OwedOf(queue: seq<TransmitRing.Queued>)
    requires Fit(queue)
    ensures Transport.Due(Messages(queue)) == Owed(queue)
    ensures Transport.Tags(Messages(queue)) <= Sources(queue)
    ensures forall i <- Messages(queue) :: i.Valid()
  {
    if queue != [] {
      var q, rest := queue[0], queue[1..];
      assert forall r <- rest :: r in queue;
      OwedOf(rest);
      Lists.FlattenFirst(Transport.DueFor, MessageOf(q)[0], Messages(rest));
      FirstTags(MessageOf(q)[0], Messages(rest));
      assert q in queue;
    }
  }

  lemma {:induction false} FirstTags(i: Transport.Item, rest: seq<Transport.Item>)
    ensures Transport.Tags([i] + rest) == i.Tags() + Transport.Tags(rest)
  {
    assert ([i] + rest)[1..] == rest;
  }

  lemma {:induction false} ParentsOweNothing(items: seq<Transport.Item>)
    ensures Transport.Due(items) == Transport.Due(OnlyMessages(items))
    ensures Transport.Tags(items) == Transport.Tags(OnlyMessages(items))
    ensures (forall i <- OnlyMessages(items) :: i.Valid()) ==> forall i <- items :: i.Valid()
  {
    if items != [] {
      var i, rest := items[0], items[1..];
      ParentsOweNothing(rest);
      assert items == [i] + rest && OnlyMessages(items) == Kept(i) + OnlyMessages(rest);
      if i.Message? {
        Lists.FlattenFirst(Transport.DueFor, i, OnlyMessages(rest));
        FirstTags(i, OnlyMessages(rest));
      } else {
        assert OnlyMessages(items) == OnlyMessages(rest);
      }
    }
  }

  /** What Send has put on the line for a queue of well-formed messages, Receive hands over as
      exactly that queue, each message with its peer's tag: got are the frames of that line. */
  lemma {:induction false} SentIsReceived(queue: seq<TransmitRing.Queued>, items: seq<Transport.Item>,
      s: Decoder.State, t: Table, got: seq<CanFrame>)
    requires Fit(queue) && OnlyMessages(items) == Messages(queue)
    requires s.Valid() && Transport.Ready(t) && |t.Keys + Sources(queue)| <= ADDLSTSIZE
    requires got == Decoder.Run(s, Transport.OnLine(items)).frames
    ensures TableDelivered(t, Transport.HearAll(got)) == Owed(queue)
  {
    OwedOf(queue);
    ParentsOweNothing(items);
    Transport.EndToEnd(s, t, items, t.Keys + Sources(queue));
  }

  // ----- messages arriving while others are sent -----

  /** What happens to the sender: a message is put in, or its thread goes round once. */
  datatype Op = Put(message: seq<Byte>, to: Peer) | Turn(now: int)

  /** The queue after some of these, the messages taken in on the way and those sent. */
  datatype Traffic = Traffic(queue: seq<TransmitRing.Queued>, taken: seq<TransmitRing.Queued>,
                             gone: seq<TransmitRing.Queued>)

  function TrafficStep(t: Traffic, op: Op): Traffic {
    match op
    case Put(message, to) =>
      if |t.queue| >= TransmitRing.TXBUFLEN then t
      else Traffic(t.queue + [TransmitRing.Queued(to, message)], t.taken + [TransmitRing.Queued(to, message)], t.gone)
    case Turn(_) =>
      if t.queue == [] then t else Traffic(t.queue[1..], t.taken, t.gone + [t.queue[0]])
  }

  function TrafficOf(queue: seq<TransmitRing.Queued>, ops: seq<Op>): Traffic {
    if ops == [] then Traffic(queue, [], []) else TrafficStep(TrafficOf(queue, ops[..|ops| - 1]), ops[|ops| - 1])
  }

  /** First in, first out: what was waiting and what was taken in is what was sent and what waits. */
  lemma {:induction false} InOrder(queue: seq<TransmitRing.Queued>, ops: seq<Op>)
    ensures var t := TrafficOf(queue, ops); queue + t.taken == t.gone + t.queue
  {
    if ops != [] {
      var n := |ops| - 1;
      InOrder(queue, ops[..n]);
      OneInOrder(queue, TrafficOf(queue, ops[..n]), ops[n]);
    }
  }

  lemma {:induction false} OneInOrder(queue: seq<TransmitRing.Queued>, t: Traffic, op: Op)
    requires queue + t.taken == t.gone + t.queue
    ensures var u := TrafficStep(t, op); queue + u.taken == u.gone + u.queue
  {
    if op.Put? {
      var q := [TransmitRing.Queued(op.to, op.message)];
      Assoc(queue, t.taken, q);
      Assoc(t.gone, t.queue, q);
    } else if t.queue != [] {
      Assoc(t.gone, [t.queue[0]], t.queue[1..]);
      assert [t.queue[0]] + t.queue[1..] == t.queue;
    }
  }

  /** scan_transmit from any number of callers and rounds of scan_send, in any order: the line
      carries exactly the messages sent, in order and whole, with parent blocks only between them. */
  method Serve(ring: TransmitRing.Ring, ops: seq<Op>) returns (ghost items: seq<Transport.Item>)
    requires ring.Valid() && ring.port.Valid() && ring.Apart()
    modifies ring`txstart, ring`queue, ring`lastparent, ring.tx, ring.port`wire
    ensures ring.Valid() && ring.port.Valid()
    ensures ring.port.wire == old(ring.port.wire) + Transport.OnLine(items)
    ensures var t := TrafficOf(old(ring.queue), ops); ring.queue == t.queue && OnlyMessages(items) == Messages(t.gone)
  {
    items := [];
    for k := 0 to |ops|
      invariant ring.Valid() && ring.port.Valid()
      invariant ring.port.wire == old(ring.port.wire) + Transport.OnLine(items)
      invariant var t := TrafficOf(old(ring.queue), ops[..k]);
                ring.queue == t.queue && OnlyMessages(items) == Messages(t.gone)
    {
      ghost var t, wire := TrafficOf(old(ring.queue), ops[..k]), ring.port.wire;
      ghost var more := ServeOnce(ring, ops[k], t);
      assert ops[..k + 1][..k] == ops[..k];
      LineConcat(items, more);
      Assoc(old(ring.port.wire), Transport.OnLine(items), Transport.OnLine(more));
      items := items + more;
    }
    assert ops[..|ops|] == ops;
  }

  method ServeOnce(ring: TransmitRing.Ring, op: Op, ghost t: Traffic) returns (ghost more: seq<Transport.Item>)
    requires ring.Valid() && ring.port.Valid() && ring.Apart() && ring.queue == t.queue
    modifies ring`txstart, ring`queue, ring`lastparent, ring.tx, ring.port`wire
    ensures ring.Valid() && ring.port.Valid() && ring.queue == TrafficStep(t, op).queue
    ensures ring.port.wire == old(ring.port.wire) + Transport.OnLine(more)
    ensures Messages(t.gone) + OnlyMessages(more) == Messages(TrafficStep(t, op).gone)
  {
    match op
    case Put(message, to) =>
      var _ := ring.Transmit(message, to);
      more := [];
    case Turn(now) =>
      more := SendOnce(ring, now);
      OneGone(t, more, now);
  }

  lemma {:induction false} OneGone(t: Traffic, more: seq<Transport.Item>, now: int)
    requires Messages(t.queue) == OnlyMessages(more) + Messages(if t.queue == [] then [] else t.queue[1..])
    ensures Messages(t.gone) + OnlyMessages(more) == Messages(TrafficStep(t, Turn(now)).gone)
  {
    if t.queue == [] {
      assert OnlyMessages(more) == [];
    } else {
      var q, rest := t.queue[0], t.queue[1..];
      assert t.queue == [q] + rest;
      Lists.FlattenConcat(MessageOf, [q], rest);
      SameFront(OnlyMessages(more), Messages([q]), Messages(rest));
      Lists.FlattenConcat(MessageOf, t.gone, [q]);
    }
  }

  lemma {:induction false} SameFront<T>(a: seq<T>, b: seq<T>, c: seq<T>)
    requires a + c == b + c
    ensures a == b
  {
    assert |a| == |b|;
    assert a == (a + c)[..|a|] && b == (b + c)[..|b|];
  }

  /** A sender and a fresh receiver, from one end to the other: whatever order messages come in and
      rounds go round, and however the line is read, once it is read to its end the messages handed
      over are those sent, which are the first of those taken in. */
  method Session(ring: TransmitRing.Ring, ops: seq<Op>, chunks: seq<nat>) returns (log: seq<Delivery>)
    requires ring.Valid() && ring.port.Valid() && ring.Apart()
    modifies ring`txstart, ring`queue, ring`lastparent, ring.tx, ring.port`wire
    ensures ring.Valid() && ring.queue == TrafficOf(old(ring.queue), ops).queue
    ensures var t := TrafficOf(old(ring.queue), ops);
            && Fit(old(ring.queue) + t.taken) && |Sources(old(ring.queue) + t.taken)| <= ADDLSTSIZE
            && |chunks| >= |ring.port.wire| - old(|ring.port.wire|) && Positive(chunks) ==>
              log == Owed(t.gone) && old(ring.queue) + t.taken == t.gone + ring.queue
  {
    ghost var start, before := ring.queue, ring.port.wire;
    var from := |ring.port.wire|;
    ghost var t := TrafficOf(start, ops);
    ghost var items := Serve(ring, ops);
    var line := ring.port.wire[from..];
    assert line == Transport.OnLine(items);
    log := ReadLine(line, chunks);
    InOrder(start, ops);
    ghost var s := Decoder.State(Zeros(13), 0);
    if Fit(start + t.taken) && |Sources(start + t.taken)| <= ADDLSTSIZE {
      FitFront(t.gone, t.queue);
      SentIsReceived(t.gone, items, s, map[], Decoder.Run(s, line).frames);
    }
  }

  /** A fresh receiver on a line. */
  method ReadLine(line: seq<Byte>, chunks: seq<nat>) returns (log: seq<Delivery>)
    ensures |chunks| >= |line| && Positive(chunks) ==>
              log == TableDelivered(map[], Transport.HearAll(Decoder.Run(Decoder.State(Zeros(13), 0), line).frames))
  {
    var port := new SerialPort.Port(line);
    var slots := new AddressList.Slots();
    assert port.Unread() == line;
    ghost var got;
    log, got := Receive(port, slots, chunks);
  }

  lemma {:induction false} FitFront(a: seq<TransmitRing.Queued>, b: seq<TransmitRing.Queued>)
    requires Fit(a + b) && |Sources(a + b)| <= ADDLSTSIZE
    ensures Fit(a) && |Sources(a)| <= ADDLSTSIZE
  {
    assert forall q <- a :: q in a + b;
    Transport.Larger(Sources(a), Sources(a + b));
  }
}
