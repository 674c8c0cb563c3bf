/** What one MambaNet message becomes on its way out: eight-byte CAN frames with a
    four-bit sequence number, and thirteen-byte blocks on a serial line
    (gateway/if_scan.c, scan_send, scan_write, scan_write_parent). */
module Frames {
  import opened Basics

  const START: Byte := 0xE0        // first byte of a serial block
  const STOP: Byte := 0xE1         // last byte of a serial block
  const END_OF_MESSAGE: Byte := 0xFF
  const CAN_EFF_FLAG: bv32 := 0x8000_0000
  const BROADCAST_ID: bv32 := 0x1000_0010
  const PARENT_ID: bv32 := 0x0FFF_0011    // sent by scan_send
  const CONTROL_ID: bv32 := 0x0FFF_FFF1   // what scan_read makes of a control block

  type Nibble = n: nat | n < 16

  // The number a fragment index comes out as.
  function Numbered(i: nat): Nibble { if i < 16 then i else i % 16 }

  /** The data bytes of a CAN frame. */
  type Data = d: seq<Byte> | |d| == 8 witness [0, 0, 0, 0, 0, 0, 0, 0]

  datatype CanFrame = CanFrame(id: bv32, data: Data)

  /** A node on the other side of the bus, or every node. */
  datatype Peer = Node(addr: bv32) | Everyone {
    predicate Valid() { Node? ==> addr < 0x1000 }

    // The CAN id that scan_transmit stores with a queued message.
    function CanId(): bv32 {
      if Node? then 0x10 | (addr << 16) else BROADCAST_ID
    }

    // The source a serial receiver sees: the destination bits, which are zero in a broadcast.
    function Tag(): nat { if Node? then addr as nat else 0 }
  }

  // C's conversion of a non-negative int to a 32-bit unsigned.
  function Word(i: nat): bv32 {
    if i < 0x1_0000_0000 then i as bv32 else (i % 0x1_0000_0000) as bv32
  }

  function Zeros(n: nat): (z: seq<Byte>)
    ensures |z| == n && forall k :: 0 <= k < n ==> z[k] == 0
  {
    seq(n, _ => 0)
  }

  function FragmentCount(m: seq<Byte>): nat { |m| / 8 + 1 }

  /** Payload of fragment i: its slice of the message, padded with zeros. */
  function Payload(m: seq<Byte>, i: nat): (d: Data)
    requires i < FragmentCount(m)
    ensures forall k :: 0 <= k < 8 ==> d[k] == if 8 * i + k < |m| then m[8 * i + k] else 0
  {
    seq(8, k requires 0 <= k < 8 => if 8 * i + k < |m| then m[8 * i + k] else 0)
  }

  function WithNibble(c: bv32, v: bv32): bv32 { (c & 0xFFFF_FFF0) | v }

  /** The sender keeps one id variable for the whole message, clears its low nibble and ORs
      in the loop index, so an index above 15 leaves bits behind. This is the variable
      before fragment i. */
  function IdBefore(canId: bv32, i: nat): bv32
    decreases i, 0
  {
    if i == 0 then canId | CAN_EFF_FLAG else IdAt(canId, i - 1)
  }

  function IdAt(canId: bv32, i: nat): bv32
    decreases i, 1
  {
    WithNibble(IdBefore(canId, i), Word(i))
  }

  function Fragment(canId: bv32, m: seq<Byte>, i: nat): CanFrame
    requires i < FragmentCount(m)
  {
    CanFrame(IdAt(canId, i), Payload(m, i))
  }

  /** A thirteen-byte block: three header bytes and eight data bytes between START and STOP. */
  datatype Block = Block(h1: Byte, h2: Byte, h3: Byte, data: Data) {
    predicate Valid() { h1 != START && h2 != START && h3 != START }

    function Bytes(): (bs: seq<Byte>)
      ensures |bs| == 13
    {
      [START, h1, h2, h3] + data + [STOP]
    }

    // The frame scan_read makes of this block.
    function Received(): CanFrame {
      CanFrame(ReceivedId(h1, h2, h3), data)
    }

    predicate Clean() { START !in data }
  }

  function ReceivedId(h1: Byte, h2: Byte, h3: Byte): bv32 {
    if h1 & 0x40 != 0 then CONTROL_ID
    else ((((((h1 & 0x1F) as bv32) << 7) | ((h2 & 0x7F) as bv32)) << 4) | ((h3 & 0x0F) as bv32)) | 0x10000
  }

  function Header1(id: bv32, control: bool): Byte {
    var h1 := ((id >> 23) & 0x1F) as Byte;
    if control then 0x40 | h1 else h1
  }

  /** The block written for a frame; a hardware-parent frame has the control bit set. */
  function BlockOf(f: CanFrame, control: bool): (b: Block)
    ensures b.Valid() && b.data == f.data
  {
    Block(Header1(f.id, control), ((f.id >> 16) & 0x7F) as Byte, (f.id & 0x0F) as Byte, f.data)
  }

  // Fields scan_parse reads from an id.
  function SourceOf(id: bv32): nat { (((id & 0x1FFF_FFFF) >> 4) & 0xFFF) as nat }
  function SequenceOf(id: bv32): Nibble { (id & 0xF) as nat }
  predicate ForUs(id: bv32) {
    var dest := ((id & 0x1FFF_FFFF) >> 16) & 0xFFF;
    dest == 1 || ((id & 0x1000_0000) != 0 && dest == 0)
  }

  lemma {:induction false} SmallWord(i: nat)
    requires i <= 16
    ensures Word(i) & 0xFFFF_FFE0 == 0
    ensures i < 16 ==> Word(i) & 0xFFFF_FFF0 == 0
  {
    assert Word(i) <= 16;
  }

  lemma {:induction false} WordNibble(i: nat)
    requires i <= 16
    ensures (Word(i) & 0xF) as nat == Numbered(i)
  {
    if i == 16 {
      assert Word(16) == 0x10;
    }
  }

  lemma {:induction false} UpperPart(x: bv32, w: bv32)
    ensures WithNibble(x, w) & 0xFFFF_FFF0 == (x & 0xFFFF_FFF0) | (w & 0xFFFF_FFF0)
  {
  }

  /** For the first seventeen fragments the id is the peer's id with the fragment number ORed in. */
  lemma {:induction false} IdAtSmall(canId: bv32, i: nat)
    requires i <= 16
    ensures IdAt(canId, i) == WithNibble(canId | CAN_EFF_FLAG, Word(i))
  {
    if i > 0 {
      IdAtSmall(canId, i - 1);
      SmallWord(i - 1);
      UpperPart(canId | CAN_EFF_FLAG, Word(i - 1));
    }
  }

  /** A fragment that crosses the serial line comes out as addressed to us, from the peer it
      was sent to, with its own number; fragment 16 comes out numbered 0. */
  lemma {:induction false} SerialRoundTrip(p: Peer, m: seq<Byte>, i: nat)
    requires p.Valid() && i < FragmentCount(m) && i <= 16
    ensures var f := BlockOf(Fragment(p.CanId(), m, i), false).Received();
            ForUs(f.id) && SourceOf(f.id) == p.Tag() && SequenceOf(f.id) == Numbered(i) && f.data == Payload(m, i)
  {
    IdAtSmall(p.CanId(), i);
    SmallWord(i);
    WordNibble(i);
    HeaderRoundTrip(p, Word(i), Payload(m, i));
  }

  lemma {:induction false} HeaderRoundTrip(p: Peer, w: bv32, data: Data)
    requires p.Valid() && w & 0xFFFF_FFE0 == 0
    ensures var r := BlockOf(CanFrame(WithNibble(p.CanId() | CAN_EFF_FLAG, w), data), false).Received().id;
            ForUs(r) && SourceOf(r) == p.Tag() && r & 0xF == w & 0xF
  {
  }

  /** On the bus a frame is meant for the gateways, which are all node 1, exactly if it goes to
      everyone or to node 1; it comes from node 1. */
  lemma {:induction false} Addressed(p: Peer, w: bv32)
    requires p.Valid() && w & 0xFFFF_FFF0 == 0
    ensures var id := WithNibble(p.CanId() | CAN_EFF_FLAG, w);
            && (ForUs(id) <==> p == Everyone || p == Node(1))
            && SourceOf(id) == 1 && SequenceOf(id) == w as nat
  {
    var id := WithNibble(p.CanId() | CAN_EFF_FLAG, w);
    assert ((id & 0x1FFF_FFFF) >> 4) & 0xFFF == 1;
    assert id & 0xF == w;
  }

  // ----- streams -----

  function Bytes(bs: seq<Block>): seq<Byte>
    requires forall b <- bs :: b.Valid()
  {
    if bs == [] then [] else bs[0].Bytes() + Bytes(bs[1..])
  }

  lemma {:induction false} BytesConcat(a: seq<Block>, b: seq<Block>)
    requires (forall x <- a :: x.Valid()) && (forall x <- b :: x.Valid())
    ensures Bytes(a + b) == Bytes(a) + Bytes(b)
  {
    if a == [] {
      assert a + b == b;
    } else {
      assert (a + b)[1..] == a[1..] + b;
      BytesConcat(a[1..], b);
    }
  }

  /** The blocks that carry the first n fragments of a message. */
  function MessageBlocks(p: Peer, m: seq<Byte>, n: nat): (bs: seq<Block>)
    requires n <= FragmentCount(m)
    ensures |bs| == n && forall b <- bs :: b.Valid()
  {
    if n == 0 then []
    else MessageBlocks(p, m, n - 1) + [BlockOf(Fragment(p.CanId(), m, n - 1), false)]
  }

  lemma {:induction false} OneMoreBlock(p: Peer, m: seq<Byte>, i: nat)
    requires i < FragmentCount(m)
    ensures Bytes(MessageBlocks(p, m, i + 1))
         == Bytes(MessageBlocks(p, m, i)) + BlockOf(Fragment(p.CanId(), m, i), false).Bytes()
  {
    var b := BlockOf(Fragment(p.CanId(), m, i), false);
    BytesConcat(MessageBlocks(p, m, i), [b]);
    assert Bytes([b]) == b.Bytes();
  }

  /** A hardware parent: three 16-bit words. */
  datatype Parent = Parent(manufacturer: bv16, product: bv16, unique: bv16)

  function ParentFrame(p: Parent): CanFrame {
    CanFrame(PARENT_ID, [((p.manufacturer >> 8) & 0xFF) as Byte, (p.manufacturer & 0xFF) as Byte,
                         ((p.product >> 8) & 0xFF) as Byte, (p.product & 0xFF) as Byte,
                         ((p.unique >> 8) & 0xFF) as Byte, (p.unique & 0xFF) as Byte, 0, 0])
  }

  function ParentBlock(p: Parent): (b: Block)
    ensures b.Valid()
  {
    BlockOf(ParentFrame(p), true)
  }

  /** What scan_hwparent makes of a frame. */
  function ParentIn(f: CanFrame): Option<Parent> {
    if f.id & 0x1FFF_FFFF & 0xFFFF_000F == 0x0FFF_0001 then
      Some(Parent(((f.data[0] as bv16) << 8) | (f.data[1] as bv16),
                  ((f.data[2] as bv16) << 8) | (f.data[3] as bv16),
                  ((f.data[4] as bv16) << 8) | (f.data[5] as bv16)))
    else None
  }

  /** scan_hwparent reads back the parent that scan_send announced. */
  lemma {:induction false} ParentRoundTrip(p: Parent)
    ensures ParentIn(ParentBlock(p).Received()) == Some(p) && !ForUs(ParentBlock(p).Received().id)
  {
    assert Header1(PARENT_ID, true) == 0x5F;
  }

  /** No other frame of this protocol is mistaken for it. */
  lemma {:induction false} NotAParent(f: CanFrame)
    ensures ParentIn(BlockOf(f, false).Received()) == None
  {
  }
}
