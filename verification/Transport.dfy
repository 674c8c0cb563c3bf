/** From scan_transmit on one side of a serial line to mbnProcessRawMessage on the other:
    what is delivered, and for exactly which messages (gateway/if_scan.c). */
module Transport {
  import opened Basics
  import opened Frames
  import opened Reassembly
  import Decoder
  import Lists
  import Runs

  /** What the receiver makes of a run of blocks: frames for us, as events on its table. */
  function HearAll(fs: seq<CanFrame>): seq<TableEvent> {
    if fs == [] then []
    else (if Hear(fs[0]).Some? then [Arrive(Hear(fs[0]).value)] else []) + HearAll(fs[1..])
  }

  lemma {:induction false} HearConcat(a: seq<CanFrame>, b: seq<CanFrame>)
    ensures HearAll(a + b) == HearAll(a) + HearAll(b)
  {
    if a == [] {
      assert a + b == b;
    } else {
      assert (a + b)[1..] == a[1..] + b;
      HearConcat(a[1..], b);
    }
  }

  lemma {:induction false} CleanConcat(a: seq<Block>, b: seq<Block>)
    ensures Decoder.Clean(a + b) == Decoder.Clean(a) + Decoder.Clean(b)
  {
    if a == [] {
      assert a + b == b;
    } else {
      assert (a + b)[1..] == a[1..] + b;
      CleanConcat(a[1..], b);
    }
  }

  // ----- one message -----

  /** A message that survives: 1 to 127 bytes, an end byte at its end and nowhere before,
      and no byte that starts a serial block. */
  predicate WellFormed(m: seq<Byte>) {
    && 1 <= |m| <= 127 && m[|m| - 1] == END_OF_MESSAGE
    && END_OF_MESSAGE !in m[..|m| - 1] && START !in m
  }

  /** The numbered frames that reach the receiver for the first n fragments: a fragment with
      START among its bytes is lost. */
  function Pieces(m: seq<Byte>, n: nat): (es: seq<Event>)
    requires n <= FragmentCount(m)
    ensures forall e <- es :: e.Piece?
  {
    if n == 0 then []
    else Pieces(m, n - 1) + if START in Payload(m, n - 1) then [] else [Piece(Numbered(n - 1), Payload(m, n - 1))]
  }

  lemma {:induction false} HeardPieces(p: Peer, m: seq<Byte>, n: nat)
    requires p.Valid() && n <= FragmentCount(m) && n <= 17
    ensures HearAll(Decoder.Clean(MessageBlocks(p, m, n))) == Arrivals(p.Tag(), Pieces(m, n))
  {
    if n > 0 {
      HeardPieces(p, m, n - 1);
      var before := MessageBlocks(p, m, n - 1);
      var b := BlockOf(Fragment(p.CanId(), m, n - 1), false);
      CleanConcat(before, [b]);
      HearConcat(Decoder.Clean(before), Decoder.Clean([b]));
      HeardPiece(p, m, n - 1);
    }
  }

  lemma {:induction false} HeardPiece(p: Peer, m: seq<Byte>, i: nat)
    requires p.Valid() && i < FragmentCount(m) && i <= 16
    ensures HearAll(Decoder.Clean([BlockOf(Fragment(p.CanId(), m, i), false)]))
         == if START in Payload(m, i) then [] else [Arrival(p.Tag(), Piece(Numbered(i), Payload(m, i)))]
  {
    var b := BlockOf(Fragment(p.CanId(), m, i), false);
    var f := b.Received();
    SerialRoundTrip(p, m, i);
    assert Hear(f) == Some(Heard(p.Tag(), Numbered(i), Payload(m, i)));
    assert Decoder.Clean([b]) == if b.Clean() then [f] else [];
    assert HearAll([f]) == [Arrive(Hear(f).value)];
  }

  /** As long as fragments are intact and hold no end byte they pile up in the slot. */
  lemma {:induction false} PileUp(m: seq<Byte>, n: nat)
    requires 8 * n <= |m| && n <= 16 && END_OF_MESSAGE !in m[..8 * n] && START !in m[..8 * n]
    ensures Slot(m, n) == Runs.Step(Partial(n, m[..8 * n]), [])
  {
    if n > 0 {
      Shorter(m, 8 * n, 8 * (n - 1));
      PileUp(m, n - 1);
      MiddlePayload(m, n - 1);
      PileMore(m, n - 1);
    } else {
      assert m[..0] == [];
    }
  }

  lemma {:induction false} Shorter(m: seq<Byte>, n: nat, k: nat)
    requires k <= n <= |m| && END_OF_MESSAGE !in m[..n] && START !in m[..n]
    ensures END_OF_MESSAGE !in m[..k] && START !in m[..k]
  {
    assert forall i :: 0 <= i < k ==> m[..k][i] == m[..n][i];
  }

  lemma {:induction false} Grown(m: seq<Byte>, i: nat)
    requires 8 * i + 8 <= |m|
    ensures m[..8 * i + 8] == m[..8 * i] + Payload(m, i)
  {
  }

  lemma {:induction false} PileMore(m: seq<Byte>, i: nat)
    requires 8 * i + 8 <= |m| && i < 16 && EndIn(Payload(m, i)) == 8 && START !in Payload(m, i)
    requires Slot(m, i).state == Partial(i, m[..8 * i])
    ensures Slot(m, i + 1) == Runs.Step(Partial(i + 1, m[..8 * i + 8]), Slot(m, i).out)
  {
    Piled(m, i);
    Grown(m, i);
  }

  lemma {:induction false} MiddlePayload(m: seq<Byte>, i: nat)
    requires 8 * i + 8 <= |m| && END_OF_MESSAGE !in m[..8 * i + 8] && START !in m[..8 * i + 8]
    ensures EndIn(Payload(m, i)) == 8 && START !in Payload(m, i)
  {
    assert forall k :: 0 <= k < 8 ==> Payload(m, i)[k] == m[..8 * i + 8][8 * i + k];
  }

  /** The sender's side of the same thing: the receiver's slot, and what it has handed over,
      after the first n fragments. */
  function Slot(m: seq<Byte>, n: nat): Runs.Step<Partial, seq<Byte>>
    requires n <= FragmentCount(m)
  {
    if n == 0 then Runs.Step(FRESH, []) else SlotNext(Slot(m, n - 1), Numbered(n - 1), Payload(m, n - 1))
  }

  function SlotNext(s: Runs.Step<Partial, seq<Byte>>, number: Nibble, d: Data): Runs.Step<Partial, seq<Byte>> {
    if START in d then s
    else
      var o := Happen(s.state, Piece(number, d));
      Runs.Step(o.state, s.out + o.out)
  }

  function RunOf(m: seq<Byte>, n: nat): Runs.Step<Partial, seq<Byte>>
    requires n <= FragmentCount(m)
  {
    Runs.Step(After(FRESH, Pieces(m, n)), Delivered(FRESH, Pieces(m, n)))
  }

  lemma {:induction false} RunStep(m: seq<Byte>, i: nat)
    requires i < FragmentCount(m)
    ensures RunOf(m, i + 1) == SlotNext(RunOf(m, i), Numbered(i), Payload(m, i))
  {
    var es, e := Pieces(m, i), Piece(Numbered(i), Payload(m, i));
    if START in Payload(m, i) {
      assert Pieces(m, i + 1) == es;
    } else {
      assert Pieces(m, i + 1) == es + [e];
      Runs.Snoc(Happen, FRESH, es, e);
    }
  }

  lemma {:induction false} SlotIsRun(m: seq<Byte>, n: nat)
    requires n <= FragmentCount(m)
    ensures Slot(m, n) == RunOf(m, n)
  {
    if n > 0 {
      SlotIsRun(m, n - 1);
      RunStep(m, n - 1);
    }
  }

  lemma {:induction false} Lost(m: seq<Byte>, n: nat)
    requires n < FragmentCount(m) && START in Payload(m, n)
    ensures Slot(m, n + 1) == Slot(m, n)
  {
  }

  lemma {:induction false} Skipped(m: seq<Byte>, n: nat)
    requires n < FragmentCount(m) && Slot(m, n).state.next != Numbered(n)
    ensures Slot(m, n + 1) == Slot(m, n)
  {
  }

  lemma {:induction false} Piled(m: seq<Byte>, n: nat)
    requires n < FragmentCount(m) && START !in Payload(m, n) && EndIn(Payload(m, n)) == 8
    requires Slot(m, n).state.next == Numbered(n)
    ensures Slot(m, n + 1) == Runs.Step(Partial(Numbered(n) + 1, Slot(m, n).state.bytes + Payload(m, n)), Slot(m, n).out)
  {
  }

  lemma {:induction false} Completed(m: seq<Byte>, n: nat)
    requires n < FragmentCount(m) && START !in Payload(m, n) && EndIn(Payload(m, n)) < 8
    requires Slot(m, n).state.next == Numbered(n)
    ensures Slot(m, n + 1)
         == Runs.Step(FRESH, Slot(m, n).out + [Slot(m, n).state.bytes + Payload(m, n)[..EndIn(Payload(m, n)) + 1]])
  {
  }

  // The last fragment that holds bytes of the message.
  function Last(m: seq<Byte>): nat requires m != [] { (|m| - 1) / 8 }

  lemma {:induction false} FrontClear(m: seq<Byte>, n: nat)
    requires Shaped(m) && n < |m|
    ensures END_OF_MESSAGE !in m[..n]
  {
    assert forall i :: 0 <= i < n ==> m[..n][i] == m[..|m| - 1][i];
  }

  lemma {:induction false} PrefixClear(m: seq<Byte>, n: nat)
    requires START !in m && n <= |m|
    ensures START !in m[..n]
  {
    assert forall i :: 0 <= i < n ==> m[..n][i] in m;
  }

  lemma {:induction false} TrailingFrame(m: seq<Byte>)
    requires |m| % 8 == 0
    ensures START !in Payload(m, |m| / 8) && EndIn(Payload(m, |m| / 8)) == 8
  {
  }

  lemma {:induction false} PayloadEnd(m: seq<Byte>)
    requires Shaped(m)
    ensures var d := Payload(m, Last(m)); EndIn(d) < 8 && 8 * Last(m) + EndIn(d) + 1 == |m|
    ensures m[..8 * Last(m)] + Payload(m, Last(m))[..EndIn(Payload(m, Last(m))) + 1] == m
  {
    var k := Last(m);
    var d, e := Payload(m, k), |m| - 1 - 8 * k;
    assert d[e] == END_OF_MESSAGE;
    assert forall i :: 0 <= i < e ==> d[i] == m[..|m| - 1][8 * k + i];
    assert EndIn(d) <= e by { assert forall i :: 0 <= i < EndIn(d) ==> d[i] == d[..EndIn(d)][i]; }
  }

  /** A message whose last byte is its only end byte, intact, is delivered as it was; if its
      length is a multiple of eight, one more all-zero frame follows, which is dropped unless
      it is the seventeenth and so carries number 0 again. */
  lemma {:induction false} Intact(m: seq<Byte>)
    requires Shaped(m) && START !in m
    ensures Slot(m, FragmentCount(m)).out == [m]
    ensures Slot(m, FragmentCount(m)).state == FRESH <==> |m| != 128
  {
    IntactBody(m);
    if |m| % 8 == 0 {
      Trailing(m);
    } else {
      assert FragmentCount(m) == Last(m) + 1;
    }
  }

  lemma {:induction false} IntactBody(m: seq<Byte>)
    requires Shaped(m) && START !in m
    ensures Slot(m, Last(m) + 1) == Runs.Step(FRESH, [m])
  {
    var k := Last(m);
    PrefixClear(m, 8 * k);
    FrontClear(m, 8 * k);
    PileUp(m, k);
    PayloadEnd(m);
    CleanPayload(m, k);
    Completed(m, k);
  }

  // The frame after a last fragment that is full.
  lemma {:induction false} Trailing(m: seq<Byte>)
    requires m != [] && |m| % 8 == 0 && Slot(m, |m| / 8) == Runs.Step(FRESH, [m])
    ensures var s := Slot(m, FragmentCount(m));
            s.out == [m] && (s.state == FRESH <==> Numbered(|m| / 8) != 0)
  {
    var n := |m| / 8;
    TrailingFrame(m);
    if Numbered(n) == 0 {
      Piled(m, n);
    } else {
      Skipped(m, n);
    }
  }

  lemma {:induction false} CleanPayload(m: seq<Byte>, i: nat)
    requires i < FragmentCount(m) && START !in m
    ensures START !in Payload(m, i)
  {
    var d := Payload(m, i);
    assert forall k :: 0 <= k < 8 ==> d[k] != START;
  }

  /** If a fragment is lost, the message is not delivered, and neither is anything else: the receiver
      waits for that fragment. Only if it was the first of seventeen does the last one, numbered 0
      again, come in its place. */
  lemma {:induction false} Damaged(m: seq<Byte>, k: nat)
    requires Shaped(m)
    requires k < FragmentCount(m) && START in Payload(m, k) && START !in m[..8 * k]
    ensures Slot(m, FragmentCount(m)).out == []
    ensures Slot(m, FragmentCount(m)).state.next == if |m| == 128 && k == 0 then 1 else k
  {
    FrontClear(m, 8 * k);
    PileUp(m, k);
    StillWaiting(m, k, FragmentCount(m));
  }

  lemma {:induction false} StillWaiting(m: seq<Byte>, k: nat, n: nat)
    requires Shaped(m) && k < n <= FragmentCount(m) && START in Payload(m, k)
    requires Slot(m, k).state.next == k && Slot(m, k).out == []
    ensures Slot(m, n).out == [] && Slot(m, n).state.next == if n == 17 && k == 0 then 1 else k
  {
    if n > k + 1 {
      StillWaiting(m, k, n - 1);
      WaitMore(m, k, n - 1);
    } else {
      Lost(m, k);
    }
  }

  lemma {:induction false} WaitMore(m: seq<Byte>, k: nat, i: nat)
    requires Shaped(m) && k < i < FragmentCount(m)
    requires Slot(m, i).state.next == k
    ensures Slot(m, i + 1).out == Slot(m, i).out && Slot(m, i + 1).state.next == if i == 16 && k == 0 then 1 else k
  {
    if START !in Payload(m, i) {
      if Numbered(i) == k {
        assert i == 16;
        TrailingFrame(m);
        Piled(m, i);
      } else {
        Skipped(m, i);
      }
    }
  }

  // ----- the line -----

  datatype Result = Result(table: Table, deliveries: seq<Delivery>)

  /** A one-pass receiver: decode, then reassemble. */
  function Receive(s: Decoder.State, t: Table, bs: seq<Byte>): Result
    requires s.Valid()
  {
    var es := HearAll(Decoder.Run(s, bs).frames);
    Result(TableAfter(t, es), TableDelivered(t, es))
  }

  /** What a message leaves behind at a receiver that was ready for it. */
  lemma {:induction false} ReceiveMessage(s: Decoder.State, t: Table, p: Peer, m: seq<Byte>)
    requires s.Valid() && p.Valid() && 1 <= |m| <= 128
    requires p.Tag() in t || |t| < ADDLSTSIZE
    requires Lookup(t, p.Tag()) == FRESH
    ensures var o := Slot(m, FragmentCount(m));
            var r := Receive(s, t, Bytes(MessageBlocks(p, m, FragmentCount(m))));
            && r.deliveries == Tagged(p.Tag(), o.out)
            && (o.out != [] ==> r.table == t[p.Tag() := o.state])
  {
    var n := FragmentCount(m);
    Decoder.ManyBlocks(s, MessageBlocks(p, m, n));
    HeardPieces(p, m, n);
    OneSource(t, p.Tag(), Pieces(m, n));
    SlotIsRun(m, n);
    assert Pieces(m, n) == [] ==> Delivered(FRESH, Pieces(m, n)) == [];
  }

  /** The line carries a message faithfully, and is ready for the next, exactly when the
      message is well formed. */
  lemma {:induction false} ExactlyWellFormed(s: Decoder.State, p: Peer, m: seq<Byte>)
    requires s.Valid() && p.Valid()
    ensures Receive(s, map[], Bytes(MessageBlocks(p, m, FragmentCount(m))))
            == Result(map[p.Tag() := FRESH], [Delivery(p.Tag(), m)])
            <==> WellFormed(m)
  {
    var r := Receive(s, map[], Bytes(MessageBlocks(p, m, FragmentCount(m))));
    var es := Pieces(m, FragmentCount(m));
    if WellFormed(m) {
      ReceiveMessage(s, map[], p, m);
      Intact(m);
      assert r.deliveries == [Delivery(p.Tag(), m)];
    } else if r == Result(map[p.Tag() := FRESH], [Delivery(p.Tag(), m)]) {
      TableShaped(map[], HearAll(Decoder.Run(s, Bytes(MessageBlocks(p, m, FragmentCount(m)))).frames));
      assert Delivery(p.Tag(), m) in r.deliveries;
      ReceiveMessage(s, map[], p, m);
      if START in m {
        var k := FirstDamage(m);
        Damaged(m, k);
      } else {
        Intact(m);
      }
    }
  }

  lemma {:induction false} FirstDamage(m: seq<Byte>) returns (k: nat)
    requires START in m
    ensures k < FragmentCount(m) && START in Payload(m, k) && START !in m[..8 * k]
  {
    var at :| 0 <= at < |m| && m[at] == START;
    var i := 0;
    while m[i] != START
      invariant i <= at && START !in m[..i]
      decreases at - i
    {
      i := i + 1;
    }
    k := i / 8;
    assert forall j :: 0 <= j < 8 * k ==> m[..8 * k][j] == m[..i][j];
    assert Payload(m, k)[i % 8] == START;
  }

  // ----- a whole session -----

  /** What scan_send puts on the line between two pauses. */
  datatype Item = Message(to: Peer, bytes: seq<Byte>) | HardwareParent(parent: Parent) {
    predicate Valid() { Message? ==> to.Valid() && WellFormed(bytes) }

    function OnLine(): seq<Byte> {
      if Message? then Bytes(MessageBlocks(to, bytes, FragmentCount(bytes))) else ParentBlock(parent).Bytes()
    }

    function Tags(): set<Source> { if Message? then {to.Tag()} else {} }

    function Due(): seq<Delivery> { if Message? then [Delivery(to.Tag(), bytes)] else [] }
  }

  function LineOf(i: Item): seq<Byte> { i.OnLine() }
  function DueFor(i: Item): seq<Delivery> { i.Due() }

  function OnLine(items: seq<Item>): seq<Byte> { Lists.Flatten(LineOf, items) }

  function Tags(items: seq<Item>): set<Source> {
    if items == [] then {} else items[0].Tags() + Tags(items[1..])
  }

  /** One delivery for each message sent, tagged with its peer. */
  function Due(items: seq<Item>): seq<Delivery> { Lists.Flatten(DueFor, items) }

  predicate Ready(t: Table) { forall s <- t :: t[s] == FRESH }

  lemma {:induction false} ReceiveConcat(s: Decoder.State, t: Table, a: seq<Byte>, b: seq<Byte>)
    requires s.Valid()
    ensures var first := Receive(s, t, a);
            var second := Receive(Decoder.Run(s, a).state, first.table, b);
            Receive(s, t, a + b) == Result(second.table, first.deliveries + second.deliveries)
  {
    var o := Decoder.Run(s, a);
    Decoder.RunConcat(s, a, b);
    HearConcat(o.frames, Decoder.Run(o.state, b).frames);
    Runs.Concat(TableHappen, t, HearAll(o.frames), HearAll(Decoder.Run(o.state, b).frames));
  }

  lemma {:induction false} ReceiveItem(s: Decoder.State, t: Table, i: Item)
    requires s.Valid() && i.Valid() && Ready(t)
    requires i.Message? ==> i.to.Tag() in t || |t| < ADDLSTSIZE
    ensures var r := Receive(s, t, i.OnLine());
            r.deliveries == i.Due() && Ready(r.table) && r.table.Keys == t.Keys + i.Tags()
  {
    if i.Message? {
      ReceiveMessage(s, t, i.to, i.bytes);
      Intact(i.bytes);
      assert Tagged(i.to.Tag(), [i.bytes]) == i.Due();
    } else {
      var b := ParentBlock(i.parent);
      Decoder.OneBlock(s, b);
      ParentRoundTrip(i.parent);
      assert HearAll(Decoder.CleanOne(b)) == [];
    }
  }

  /** End to end: for any decoder state, any sequence of well-formed messages to any peers with
      hardware-parent frames anywhere in between, the receiver hands over exactly those
      messages, unchanged, once each and in order, each tagged with its peer, as long as there
      are no more sources than slots. */
  lemma {:induction false} EndToEnd(s: Decoder.State, t: Table, items: seq<Item>, sources: set<Source>)
    requires s.Valid() && Ready(t) && forall i <- items :: i.Valid()
    requires t.Keys <= sources && Tags(items) <= sources && |sources| <= ADDLSTSIZE
    ensures Receive(s, t, OnLine(items)).deliveries == Due(items)
    ensures Ready(Receive(s, t, OnLine(items)).table)
    decreases |items|
  {
    if items != [] {
      var i, rest := items[0], items[1..];
      Room(t, i, sources);
      ReceiveItem(s, t, i);
      ReceiveConcat(s, t, i.OnLine(), OnLine(rest));
      var r := Receive(s, t, i.OnLine());
      EndToEnd(Decoder.Run(s, i.OnLine()).state, r.table, rest, sources);
    }
  }

  lemma {:induction false} Room(t: Table, i: Item, sources: set<Source>)
    requires t.Keys <= sources && i.Tags() <= sources && |sources| <= ADDLSTSIZE
    ensures i.Message? ==> i.to.Tag() in t || |t| < ADDLSTSIZE
  {
    if i.Message? && i.to.Tag() !in t {
      Larger(t.Keys + {i.to.Tag()}, sources);
      assert |t.Keys + {i.to.Tag()}| == |t.Keys| + 1;
    }
  }

  lemma {:induction false} Larger<T>(a: set<T>, b: set<T>)
    requires a <= b
    ensures |a| <= |b|
  {
    assert b == a + (b - a);
  }

  /** The hardware parent gets across exactly when none of its bytes starts a block. */
  lemma {:induction false} ParentExactlyClean(s: Decoder.State, p: Parent)
    requires s.Valid()
    ensures (exists f :: Decoder.Run(s, ParentBlock(p).Bytes()).frames == [f] && ParentIn(f) == Some(p))
            <==> START !in ParentFrame(p).data
  {
    Decoder.OneBlock(s, ParentBlock(p));
    ParentRoundTrip(p);
    if START !in ParentFrame(p).data {
      var f := ParentBlock(p).Received();
      assert Decoder.Run(s, ParentBlock(p).Bytes()).frames == [f] && ParentIn(f) == Some(p);
    }
  }
}
