/** The resynchronising decoder of a serial line as a function on bytes: one step per byte
    (gateway/if_scan.c, the inner loop of scan_read). */
module Decoder {
  import opened Basics
  import opened Frames

  /** buf is msgbuf, count is msgbufi. */
  datatype State = State(buf: seq<Byte>, count: nat) {
    predicate Valid() { |buf| == 13 && count <= 14 }
  }

  datatype Output = Output(state: State, frames: seq<CanFrame>)

  function Store(s: State, b: Byte): (t: State)
    requires s.Valid()
    ensures t.Valid()
  {
    var at := if b == START then 0 else s.count;
    if at < 13 then State(s.buf[at := b], at + 1) else State(s.buf, 14)
  }

  predicate Complete(s: State, b: Byte) { b == STOP && s.count == 13 }

  function FrameIn(s: State): CanFrame
    requires s.Valid()
  {
    CanFrame(ReceivedId(s.buf[1], s.buf[2], s.buf[3]), s.buf[4..12])
  }

  function Step(s: State, b: Byte): (o: Output)
    requires s.Valid()
    ensures o.state.Valid() && |o.frames| <= 1
  {
    var t := Store(s, b);
    Output(t, if Complete(t, b) then [FrameIn(t)] else [])
  }

  /** One pass over a whole byte string. */
  function Run(s: State, bs: seq<Byte>): (o: Output)
    requires s.Valid()
    ensures o.state.Valid()
    decreases |bs|
  {
    if bs == [] then Output(s, [])
    else
      var first := Step(s, bs[0]);
      var rest := Run(first.state, bs[1..]);
      Output(rest.state, first.frames + rest.frames)
  }

  lemma {:induction false} RunConcat(s: State, a: seq<Byte>, b: seq<Byte>)
    requires s.Valid()
    ensures Run(s, a + b) ==
            Output(Run(Run(s, a).state, b).state, Run(s, a).frames + Run(Run(s, a).state, b).frames)
    decreases |a|
  {
    if a == [] {
      assert a + b == b;
    } else {
      assert (a + b)[1..] == a[1..] + b;
      RunConcat(Step(s, a[0]).state, a[1..], b);
    }
  }

  /** Too few bytes since the last START can not complete a frame, whatever they are. */
  lemma {:induction false} Quiet(s: State, bs: seq<Byte>)
    requires s.Valid() && s.count + |bs| <= 12
    ensures Run(s, bs).frames == [] && Run(s, bs).state.count <= 12
    decreases |bs|
  {
    if bs != [] {
      var t := Store(s, bs[0]);
      Quiet(t, bs[1..]);
    }
  }

  /** After START, bytes other than START are stored side by side. */
  lemma {:induction false} Fill(s: State, bs: seq<Byte>)
    requires s.Valid() && s.count + |bs| <= 12 && START !in bs
    ensures Run(s, bs) == Output(State(s.buf[..s.count] + bs + s.buf[s.count + |bs|..], s.count + |bs|), [])
    decreases |bs|
  {
    if bs == [] {
      assert s.buf == s.buf[..s.count] + bs + s.buf[s.count..];
    } else {
      var t := Store(s, bs[0]);
      Fill(t, bs[1..]);
      assert t.buf[..t.count] + bs[1..] == s.buf[..s.count] + bs;
      assert t.buf[t.count + |bs| - 1..] == s.buf[s.count + |bs|..];
    }
  }

  /** From ANY decoder state one block yields its frame if no data byte equals START, and
      nothing at all otherwise. */
  lemma {:induction false} OneBlock(s: State, b: Block)
    requires s.Valid() && b.Valid()
    ensures Run(s, b.Bytes()).frames == CleanOne(b)
  {
    var body := [b.h1, b.h2, b.h3] + b.data;
    assert b.Bytes() == [START] + (body + [STOP]);
    var t := Store(s, START);
    assert b.Bytes()[1..] == body + [STOP];
    RunConcat(t, body, [STOP]);
    if b.Clean() {
      CleanBlock(t, b, body);
    } else {
      DirtyBlock(t, b, body);
    }
  }

  lemma {:induction false} CleanBlock(t: State, b: Block, body: seq<Byte>)
    requires t.Valid() && t.count == 1 && b.Valid() && b.Clean() && body == [b.h1, b.h2, b.h3] + b.data
    ensures Run(t, body).frames == []
    ensures Run(Run(t, body).state, [STOP]).frames == [b.Received()]
  {
    Fill(t, body);
    var u := Run(t, body).state;
    assert u.buf == t.buf[..1] + body + t.buf[12..];
    var w := Store(u, STOP);
    assert w.buf[1] == body[0] && w.buf[2] == body[1] && w.buf[3] == body[2];
    assert w.buf[4..12] == b.data;
    assert Step(u, STOP).frames == [b.Received()];
  }

  lemma {:induction false} DirtyBlock(t: State, b: Block, body: seq<Byte>)
    requires t.Valid() && t.count == 1 && b.Valid() && !b.Clean() && body == [b.h1, b.h2, b.h3] + b.data
    ensures Run(t, body).frames == []
    ensures Run(Run(t, body).state, [STOP]).frames == []
  {
    var k :| 0 <= k < 8 && b.data[k] == START;
    var head, tail := body[..3 + k], body[4 + k..];
    assert body == head + ([START] + tail);
    RunConcat(t, head, [START] + tail);
    Quiet(t, head);
    var u := Store(Run(t, head).state, START);
    assert ([START] + tail)[1..] == tail;
    Quiet(u, tail);
    RunConcat(u, tail, [STOP]);
    Quiet(u, tail + [STOP]);
    assert Run(t, body).state == Run(u, tail).state;
  }

  /** The frames of the blocks without START among their data, in order. */
  function Clean(bs: seq<Block>): (fs: seq<CanFrame>)
  {
    if bs == [] then []
    else CleanOne(bs[0]) + Clean(bs[1..])
  }

  function CleanOne(b: Block): seq<CanFrame> { if b.Clean() then [b.Received()] else [] }

  /** A stream of blocks is decoded to the frames of its clean blocks from any state. */
  lemma {:induction false} ManyBlocks(s: State, bs: seq<Block>)
    requires s.Valid() && forall b <- bs :: b.Valid()
    ensures Run(s, Bytes(bs)).frames == Clean(bs)
    decreases |bs|
  {
    if bs != [] {
      RunConcat(s, bs[0].Bytes(), Bytes(bs[1..]));
      OneBlock(s, bs[0]);
      ManyBlocks(Run(s, bs[0].Bytes()).state, bs[1..]);
    }
  }

  lemma {:induction false} BytesAt(bs: seq<Block>, n: nat)
    requires n <= |bs| && forall b <- bs :: b.Valid()
    ensures |Bytes(bs)| == 13 * |bs|
    ensures Bytes(bs)[13 * n..] == Bytes(bs[n..])
  {
    if n > 0 {
      BytesAt(bs[1..], n - 1);
      assert bs[1..][n - 1..] == bs[n..];
    } else if bs != [] {
      BytesAt(bs[1..], 0);
    }
  }

  /** Resynchronisation: a receiver that joins at any byte offset reports exactly the clean
      blocks that lie wholly in what it still gets to see, and nothing else. */
  lemma {:induction false} Resynchronise(s: State, bs: seq<Block>, offset: nat)
    requires s.Valid() && s.count == 0
    requires forall b <- bs :: b.Valid()
    requires offset <= 13 * |bs|
    ensures |Bytes(bs)| == 13 * |bs|
    ensures Run(s, Bytes(bs)[offset..]).frames == Clean(bs[(offset + 12) / 13..])
  {
    var n := (offset + 12) / 13;
    BytesAt(bs, n);
    var part := Bytes(bs)[offset..13 * n];
    assert Bytes(bs)[offset..] == part + Bytes(bs[n..]);
    RunConcat(s, part, Bytes(bs[n..]));
    Quiet(s, part);
    ManyBlocks(Run(s, part).state, bs[n..]);
  }

  // ----- any byte string -----

  /** Where the block that the n-th byte would belong to begins: at the last START before it, or at
      the very beginning. */
  function Since(bs: seq<Byte>, n: nat): (b: nat)
    requires n <= |bs|
    ensures b <= n && forall i :: b < i < n ==> bs[i] != START
    ensures (b < n && bs[b] == START) || b == 0
  {
    if n == 0 then 0 else if bs[n - 1] == START then n - 1 else Since(bs, n - 1)
  }

  /** The frame that byte k completes, if it does: it is a STOP, and exactly twelve bytes lie between
      it and the last START, that START included, or between it and the beginning. */
  function FrameAt(bs: seq<Byte>, k: nat): seq<CanFrame>
    requires k < |bs|
  {
    var b := Since(bs, k + 1);
    if bs[k] == STOP && k == b + 12 then [CanFrame(ReceivedId(bs[b + 1], bs[b + 2], bs[b + 3]), bs[b + 4..b + 12])]
    else []
  }

  function FramesUpTo(bs: seq<Byte>, n: nat): seq<CanFrame>
    requires n <= |bs|
  {
    if n == 0 then [] else FramesUpTo(bs, n - 1) + FrameAt(bs, n - 1)
  }

  /** What the message buffer holds: the bytes since the block began, as far as they fit. */
  ghost predicate Holds(s: State, bs: seq<Byte>, n: nat)
    requires n <= |bs|
  {
    && s.Valid()
    && s.count == (if n - Since(bs, n) <= 13 then n - Since(bs, n) else 14)
    && forall i :: 0 <= i < 13 && i < n - Since(bs, n) ==> s.buf[i] == bs[Since(bs, n) + i]
  }

  lemma {:induction false} HoldsStep(s: State, bs: seq<Byte>, k: nat)
    requires k < |bs| && Holds(s, bs, k)
    ensures Holds(Step(s, bs[k]).state, bs, k + 1) && Step(s, bs[k]).frames == FrameAt(bs, k)
  {
    var t, b := Store(s, bs[k]), Since(bs, k + 1);
    assert Holds(t, bs, k + 1);
    if Complete(t, bs[k]) {
      assert t.buf[4..12] == bs[b + 4..b + 12];
    }
  }

  lemma {:induction false} RunOneMore(s: State, bs: seq<Byte>, k: nat)
    requires s.Valid() && k < |bs|
    ensures var before := Run(s, bs[..k]);
            && Run(s, bs[..k + 1]).state == Step(before.state, bs[k]).state
            && Run(s, bs[..k + 1]).frames == before.frames + Step(before.state, bs[k]).frames
  {
    assert bs[..k + 1] == bs[..k] + [bs[k]];
    RunConcat(s, bs[..k], [bs[k]]);
  }

  lemma {:induction false} FramesStep(s: State, bs: seq<Byte>, k: nat)
    requires s.Valid() && k < |bs| && Holds(Run(s, bs[..k]).state, bs, k) && Run(s, bs[..k]).frames == FramesUpTo(bs, k)
    ensures Holds(Run(s, bs[..k + 1]).state, bs, k + 1) && Run(s, bs[..k + 1]).frames == FramesUpTo(bs, k + 1)
  {
    var before := Run(s, bs[..k]);
    RunOneMore(s, bs, k);
    HoldsStep(before.state, bs, k);
  }

  /** A receiver reports, of any bytes whatever, exactly the frames that their positions give. */
  lemma {:induction false} FramesExactly(s: State, bs: seq<Byte>, n: nat)
    requires s.Valid() && s.count == 0 && n <= |bs|
    ensures Holds(Run(s, bs[..n]).state, bs, n)
    ensures Run(s, bs[..n]).frames == FramesUpTo(bs, n)
  {
    if n == 0 {
      assert bs[..n] == [];
    } else {
      FramesExactly(s, bs, n - 1);
      FramesStep(s, bs, n - 1);
    }
  }
}
