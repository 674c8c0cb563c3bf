/** The serial side of a MambaNet interface: what scan_read and scan_write keep in
    struct can_data, plus the two directions of the device. */
module SerialPort {
  import opened Basics
  import opened Frames
  import Decoder

  const CIRBUFLENGTH := 8192
  const READ_SIZE := 128

  class Port {
    const cirbuf: array<Byte>
    const msgbuf: array<Byte>
    var cirbufb: nat           // next byte to decode
    var cirbuft: nat           // next free place
    var msgbufi: nat
    var line: seq<Byte>        // what read() has not returned yet
    var wire: seq<Byte>        // what write() was given, oldest first

    ghost predicate Valid()
      reads this, cirbuf, msgbuf
    {
      && cirbuf.Length == CIRBUFLENGTH && msgbuf.Length == 13 && cirbuf != msgbuf
      && cirbufb < CIRBUFLENGTH && cirbuft < CIRBUFLENGTH && msgbufi <= 14
      && |Pending()| <= READ_SIZE
    }

    /** The bytes in the ring, oldest first. */
    ghost function Pending(): seq<Byte>
      requires cirbuf.Length == CIRBUFLENGTH && cirbufb < CIRBUFLENGTH && cirbuft < CIRBUFLENGTH
      reads this, cirbuf
    {
      if cirbufb <= cirbuft then cirbuf[cirbufb..cirbuft] else cirbuf[cirbufb..] + cirbuf[..cirbuft]
    }

    ghost function Unread(): seq<Byte>
      requires Valid()
      reads this, cirbuf, msgbuf
    {
      Pending() + line
    }

    ghost function State(): (s: Decoder.State)
      requires Valid()
      reads this, cirbuf, msgbuf
      ensures s.Valid()
    {
      Decoder.State(msgbuf[..], msgbufi)
    }

    /** What a one-pass decoder would still get out of this port. */
    ghost function Coming(): Decoder.Output
      requires Valid()
      reads this, cirbuf, msgbuf
    {
      Decoder.Run(State(), Unread())
    }

    // calloc leaves every field zero.
    constructor (incoming: seq<Byte>)
      ensures Valid() && fresh(cirbuf) && fresh(msgbuf)
      ensures State() == Decoder.State(Zeros(13), 0)
      ensures Pending() == [] && line == incoming && wire == []
    {
      cirbuf := new Byte[CIRBUFLENGTH](_ => 0);
      msgbuf := new Byte[13](_ => 0);
      cirbufb, cirbuft, msgbufi := 0, 0, 0;
      line, wire := incoming, [];
      new;
      assert msgbuf[..] == Zeros(13);
    }

    /** scan_read in TTY mode. The device gives at most `available` bytes to this read().
        Whatever it gives, the decoding still to come loses exactly the frame returned. */
    method Read(available: nat) returns (frame: Option<CanFrame>)
      requires Valid()
      modifies this`cirbufb, this`cirbuft, this`msgbufi, this`line, cirbuf, msgbuf
      ensures Valid()
      ensures Coming().state == old(Coming()).state
      ensures old(Coming()).frames == AsSeq(frame) + Coming().frames
      // bytes leave in the order they came
      ensures IsSuffix(Unread(), old(Unread()))
      // the device is asked only when the ring is empty, and all it gave is used up
      // before the call gives up
      ensures line == if old(Pending()) == [] then old(line)[Given(available, old(line))..] else old(line)
      ensures frame.None? ==> Pending() == []
      // and as long as the device gives anything, every call takes something off the stream
      ensures available > 0 && old(Unread()) != [] ==> |Unread()| < old(|Unread()|)
    {
      RefillIfEmpty(available);
      frame := Drain();
    }

    method RefillIfEmpty(available: nat)
      requires Valid()
      modifies this`cirbuft, this`line, cirbuf
      ensures Valid() && Unread() == old(Unread()) && Coming() == old(Coming())
      ensures line == if old(Pending()) == [] then old(line)[Given(available, old(line))..] else old(line)
      ensures available > 0 && Unread() != [] ==> Pending() != []
    {
      EmptyExactly();
      if cirbuft == cirbufb {
        Refill(Given(available, line));
      }
    }

    /** A full ring is never mistaken for an empty one. */
    lemma {:induction false} EmptyExactly()
      requires Valid()
      ensures Pending() == [] <==> cirbuft == cirbufb
    {
      assert |Pending()| == if cirbufb <= cirbuft then cirbuft - cirbufb else CIRBUFLENGTH - cirbufb + cirbuft;
    }

    /** Decodes bytes from the ring until a frame is complete or the ring is empty. */
    method Drain() returns (frame: Option<CanFrame>)
      requires Valid()
      modifies this`cirbufb, this`msgbufi, msgbuf
      ensures Valid()
      ensures Coming().state == old(Coming()).state
      ensures old(Coming()).frames == AsSeq(frame) + Coming().frames
      ensures IsSuffix(Unread(), old(Unread()))
      ensures frame.None? ==> Pending() == []
      ensures old(Pending()) != [] ==> |Unread()| < old(|Unread()|)
    {
      EmptyExactly();
      frame := None;
      while frame.None? && cirbufb != cirbuft
        invariant Valid() && IsSuffix(Unread(), old(Unread()))
        invariant |Unread()| < old(|Unread()|) || (frame.None? && cirbufb == old(cirbufb))
        invariant Coming().state == old(Coming()).state
        invariant old(Coming()).frames == AsSeq(frame) + Coming().frames
        decreases |Pending()|, frame.None?
      {
        ghost var unread := Unread();
        frame := Consume();
        SuffixTransitive(Unread(), unread, old(Unread()));
      }
    }

    /** read() hands over n bytes, which are put in the ring one by one. */
    method Refill(n: nat)
      requires Valid() && Pending() == [] && n <= READ_SIZE && n <= |line|
      modifies this`cirbuft, this`line, cirbuf
      ensures Valid() && Unread() == old(Unread()) && line == old(line)[n..] && |Pending()| == n
      ensures Coming() == old(Coming())
    {
      var rcvbuf := line[..n];
      line := line[n..];
      for i := 0 to n
        invariant cirbuft < CIRBUFLENGTH && Pending() == rcvbuf[..i]
        invariant line == old(line)[n..]
      {
        cirbuf[cirbuft] := rcvbuf[i];
        cirbuft := cirbuft + 1;
        if cirbuft > CIRBUFLENGTH - 1 { cirbuft := 0; }
        assert Pending() == rcvbuf[..i] + [rcvbuf[i]];
      }
      assert rcvbuf[..n] == rcvbuf && rcvbuf + line == old(line);
    }

    /** One round of the decoding loop. */
    method Consume() returns (frame: Option<CanFrame>)
      requires Valid() && cirbufb != cirbuft
      modifies this`cirbufb, this`msgbufi, msgbuf
      ensures Valid() && |Pending()| < old(|Pending()|) && IsSuffix(Unread(), old(Unread()))
      ensures |Unread()| < old(|Unread()|)
      ensures Coming().state == old(Coming()).state
      ensures old(Coming()).frames == AsSeq(frame) + Coming().frames
    {
      var rcvbyte := Take();
      frame := Decode(rcvbyte);
    }

    /** Takes the oldest byte out of the ring. */
    method Take() returns (rcvbyte: Byte)
      requires Valid() && cirbufb != cirbuft
      modifies this`cirbufb
      ensures Valid() && |Pending()| == old(|Pending()|) - 1
      ensures old(Unread()) == [rcvbyte] + Unread() && State() == old(State())
    {
      ghost var before := Pending();
      rcvbyte := cirbuf[cirbufb];
      cirbufb := cirbufb + 1;
      if cirbufb > CIRBUFLENGTH - 1 { cirbufb := 0; }
      ghost var after := Pending();
      assert before == [rcvbyte] + after;
      assert before + line == [rcvbyte] + (after + line);
    }

    /** Runs the decoder's branches on one byte. */
    method Decode(rcvbyte: Byte) returns (frame: Option<CanFrame>)
      requires Valid()
      modifies this`msgbufi, msgbuf
      ensures Valid() && Pending() == old(Pending()) && Unread() == old(Unread())
      ensures Decoder.Run(old(State()), [rcvbyte] + old(Unread()))
           == Decoder.Output(Coming().state, AsSeq(frame) + Coming().frames)
    {
      if rcvbyte == START { msgbufi := 0; }
      if msgbufi < 13 {
        msgbuf[msgbufi] := rcvbyte;
        msgbufi := msgbufi + 1;
      } else {
        msgbufi := 14;
      }
      assert State() == Decoder.Store(old(State()), rcvbyte);
      NextByte(old(State()), rcvbyte, Unread());
      frame := None;
      if rcvbyte == STOP && msgbufi == 13 {
        var id := CONTROL_ID;
        if msgbuf[1] & 0x40 == 0 {
          id := (msgbuf[1] & 0x1F) as bv32;
          id := id << 7;
          id := id | ((msgbuf[2] & 0x7F) as bv32);
          id := id << 4;
          id := id | ((msgbuf[3] & 0x0F) as bv32);
          id := id | 0x10000;
        }
        frame := Some(CanFrame(id, msgbuf[4..12]));
      }
    }

    /** scan_write in TTY mode. */
    method Write(frame: CanFrame)
      requires Valid()
      modifies this`wire
      ensures wire == old(wire) + BlockOf(frame, false).Bytes()
    {
      WriteBlock(((frame.id >> 23) & 0x1F) as Byte, frame);
    }

    /** scan_write_parent in TTY mode: the same block with the control bit. */
    method WriteParent(frame: CanFrame)
      requires Valid()
      modifies this`wire
      ensures wire == old(wire) + BlockOf(frame, true).Bytes()
    {
      WriteBlock(0x40 | (((frame.id >> 23) & 0x1F) as Byte), frame);
    }

    method WriteBlock(first: Byte, frame: CanFrame)
      modifies this`wire
      ensures wire == old(wire)
                      + ([START, first, ((frame.id >> 16) & 0x7F) as Byte, (frame.id & 0x0F) as Byte]
                         + frame.data + [STOP])
    {
      var xmtbuf := new Byte[13](_ => 0);
      xmtbuf[0] := START;
      xmtbuf[1] := first;
      xmtbuf[2] := ((frame.id >> 16) & 0x7F) as Byte;
      xmtbuf[3] := (frame.id & 0x0F) as Byte;
      for i := 0 to 8
        invariant wire == old(wire)
        invariant xmtbuf[..4 + i] == [START, first, ((frame.id >> 16) & 0x7F) as Byte, (frame.id & 0x0F) as Byte]
                                     + frame.data[..i]
      {
        xmtbuf[4 + i] := frame.data[i];
      }
      xmtbuf[12] := STOP;
      assert frame.data[..8] == frame.data;
      assert xmtbuf[..] == xmtbuf[..12] + [STOP];
      wire := wire + xmtbuf[..];
    }
  }

  predicate IsSuffix(t: seq<Byte>, s: seq<Byte>) { |t| <= |s| && t == s[|s| - |t|..] }

  lemma {:induction false} SuffixTransitive(a: seq<Byte>, b: seq<Byte>, c: seq<Byte>)
    requires IsSuffix(a, b) && IsSuffix(b, c)
    ensures IsSuffix(a, c)
  {
  }

  function AsSeq(frame: Option<CanFrame>): seq<CanFrame> {
    if frame.Some? then [frame.value] else []
  }

  lemma {:induction false} NextByte(s: Decoder.State, b: Byte, rest: seq<Byte>)
    requires s.Valid()
    ensures var first := Decoder.Step(s, b);
            && Decoder.Run(s, [b] + rest).state == Decoder.Run(first.state, rest).state
            && Decoder.Run(s, [b] + rest).frames == first.frames + Decoder.Run(first.state, rest).frames
  {
    assert ([b] + rest)[1..] == rest;
  }

  // How many bytes one read() can return.
  function Given(available: nat, line: seq<Byte>): (n: nat)
    ensures n <= READ_SIZE && n <= |line| && n <= available
  {
    if available <= |line| && available <= READ_SIZE then available
    else if |line| <= READ_SIZE then |line|
    else READ_SIZE
  }
}
