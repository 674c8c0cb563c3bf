/** Putting fragmented messages together, as functions: one source at a time, and a
    bounded table of sources (gateway/if_scan.c, scan_parse and scan_free_addr). */
module Reassembly {
  import opened Basics
  import opened Frames
  import Runs

  const ADDLSTSIZE := 1000

  type Source = nat

  /** What a slot remembers: the next sequence number, and the bytes of the fragments
      0..next-1 it has accepted. */
  datatype Partial = Partial(next: nat, bytes: seq<Byte>)
  const FRESH := Partial(0, [])

  datatype Delivery = Delivery(from: Source, message: seq<Byte>)

  // Index of the first end byte from i on, or the length.
  function EndFrom(d: seq<Byte>, i: nat): (n: nat)
    requires i <= |d|
    ensures i <= n <= |d| && (n < |d| ==> d[n] == END_OF_MESSAGE)
    ensures forall k :: i <= k < n ==> d[k] != END_OF_MESSAGE
    decreases |d| - i
  {
    if i == |d| || d[i] == END_OF_MESSAGE then i else EndFrom(d, i + 1)
  }

  function EndIn(d: seq<Byte>): (n: nat)
    ensures n <= |d| && (n < |d| ==> d[n] == END_OF_MESSAGE)
    ensures forall k :: 0 <= k < n ==> d[k] != END_OF_MESSAGE
  {
    EndFrom(d, 0)
  }

  datatype Accepted = Accepted(state: Partial, message: Option<seq<Byte>>)

  /** One frame of one source. A frame out of sequence changes nothing. */
  function Accept(p: Partial, number: Nibble, d: Data): Accepted
  {
    if p.next != number then Accepted(p, None)
    else if EndIn(d) == 8 then Accepted(Partial(number + 1, p.bytes + d), None)
    else Accepted(FRESH, Some(p.bytes + d[..EndIn(d) + 1]))
  }

  // ----- one source -----

  /** What happens to one source: a numbered frame arrives, or its slot is freed. */
  datatype Event = Piece(number: Nibble, data: Data) | Freed

  function Happen(p: Partial, e: Event): Runs.Step<Partial, seq<Byte>> {
    if e.Freed? then Runs.Step(FRESH, [])
    else
      var a := Accept(p, e.number, e.data);
      Runs.Step(a.state, if a.message.Some? then [a.message.value] else [])
  }

  /** The state of a source after a history of events, from a start state; and what was
      delivered on the way. */
  function After(p: Partial, es: seq<Event>): Partial { Runs.End(Happen, p, es) }

  function Delivered(p: Partial, es: seq<Event>): seq<seq<Byte>> { Runs.Out(Happen, p, es) }

  /** The event at k, if it is the last one, completes this message. */
  ghost predicate DeliversAt(es: seq<Event>, k: nat, m: seq<Byte>)
    requires k < |es|
  {
    Happen(After(FRESH, es[..k]), es[k]).out == [m]
  }

  // The bytes of the events picked out by at.
  function Joined(es: seq<Event>, at: seq<nat>): seq<Byte>
    requires forall j :: 0 <= j < |at| ==> at[j] < |es| && es[at[j]].Piece?
  {
    if at == [] then []
    else Joined(es, at[..|at| - 1]) + es[at[|at| - 1]].data
  }

  // The event at k, and what the slot had come to before it.
  ghost predicate AcceptedAt(es: seq<Event>, k: nat)
    requires k < |es|
  {
    es[k].Piece? && es[k].number == After(FRESH, es[..k]).next && END_OF_MESSAGE !in es[k].data
  }

  // The slot was not freed by the event at k, and nothing was delivered.
  ghost predicate Silent(es: seq<Event>, k: nat)
    requires k < |es|
  {
    es[k].Piece? && Happen(After(FRESH, es[..k]), es[k]).out == []
  }

  /** at picks the events numbered 0, 1, 2, ... that were accepted, in the order they arrived, none
      of them holding an end byte; from the first of them on nothing was delivered and the slot was
      not freed. */
  ghost predicate InSequence(es: seq<Event>, at: seq<nat>)
  {
    && (forall j :: 0 <= j < |at| ==> at[j] < |es| && AcceptedAt(es, at[j]) && es[at[j]].number == j)
    && (forall i, j :: 0 <= i < j < |at| ==> at[i] < at[j])
    && (at != [] ==> forall k :: at[0] <= k < |es| ==> Silent(es, k))
  }

  ghost predicate Traces(es: seq<Event>, at: seq<nat>, p: Partial)
  {
    InSequence(es, at) && |at| == p.next && p.bytes == Joined(es, at)
  }

  /** Whatever arrives, the expected number stays within 0..16, and a slot holds that many
      whole frames without an end byte. */
  lemma {:induction false} SlotBounds(es: seq<Event>)
    ensures var p := After(FRESH, es);
            p.next <= 16 && |p.bytes| == 8 * p.next && END_OF_MESSAGE !in p.bytes
    decreases |es|
  {
    if es != [] {
      SlotBounds(es[..|es| - 1]);
      var e := es[|es| - 1];
      assert e.Piece? ==> e.data[..8] == e.data;
    }
  }

  /** ... and they are frames that arrived, numbered 0..next-1, in order. */
  lemma {:induction false} SlotTrace(es: seq<Event>) returns (at: seq<nat>)
    ensures Traces(es, at, After(FRESH, es))
    decreases |es|
  {
    at := [];
    if es != [] {
      var n := |es| - 1;
      at := SlotTrace(es[..n]);
      at := TraceStep(es, at);
    }
  }

  lemma {:induction false} TraceStep(es: seq<Event>, at: seq<nat>) returns (next: seq<nat>)
    requires es != [] && Traces(es[..|es| - 1], at, After(FRESH, es[..|es| - 1]))
    ensures Traces(es, next, After(FRESH, es))
  {
    var n := |es| - 1;
    var before, e := es[..n], es[n];
    var p := After(FRESH, before);
    if e.Piece? && p.next != e.number {
      StillInSequence(es, at);
      JoinedPrefix(before, es, at);
      next := at;
    } else if e.Piece? && EndIn(e.data) == 8 {
      next := at + [n];
      StillInSequence(es, at);
      TraceGrows(es, at, p);
    } else {
      next := [];
    }
  }

  // A silent event leaves the frames picked before it in sequence.
  lemma {:induction false} StillInSequence(es: seq<Event>, at: seq<nat>)
    requires es != [] && InSequence(es[..|es| - 1], at) && Silent(es, |es| - 1)
    ensures InSequence(es, at)
  {
    var n := |es| - 1;
    forall k | 0 <= k < n ensures es[..n][..k] == es[..k] {}
    forall j | 0 <= j < |at| ensures AcceptedAt(es, at[j]) {
      assert AcceptedAt(es[..n], at[j]);
    }
    if at != [] {
      forall k | at[0] <= k < |es| ensures Silent(es, k) {
        if k < n { assert Silent(es[..n], k); }
      }
    }
  }

  lemma {:induction false} TraceGrows(es: seq<Event>, at: seq<nat>, p: Partial)
    requires es != [] && Traces(es[..|es| - 1], at, p) && p == After(FRESH, es[..|es| - 1]) && InSequence(es, at)
    requires var e := es[|es| - 1]; e.Piece? && e.number == p.next && EndIn(e.data) == 8
    ensures Traces(es, at + [|es| - 1], Partial(p.next + 1, p.bytes + es[|es| - 1].data))
  {
    var n := |es| - 1;
    var next := at + [n];
    NextInSequence(es, at, p);
    JoinedPrefix(es[..n], es, at);
    assert next[..|next| - 1] == at;
  }

  lemma {:induction false} NextInSequence(es: seq<Event>, at: seq<nat>, p: Partial)
    requires es != [] && InSequence(es, at) && p == After(FRESH, es[..|es| - 1]) && p.next == |at|
    requires forall j :: 0 <= j < |at| ==> at[j] < |es| - 1
    requires var e := es[|es| - 1]; e.Piece? && e.number == p.next && EndIn(e.data) == 8
    ensures InSequence(es, at + [|es| - 1])
  {
    var n := |es| - 1;
    assert es[n].data[..8] == es[n].data;
    assert AcceptedAt(es, n) && Silent(es, n);
  }

  lemma {:induction false} JoinedPrefix(a: seq<Event>, b: seq<Event>, at: seq<nat>)
    requires a <= b
    requires forall j :: 0 <= j < |at| ==> at[j] < |a| && a[at[j]].Piece?
    ensures Joined(a, at) == Joined(b, at)
    decreases |at|
  {
    if at != [] { JoinedPrefix(a, b, at[..|at| - 1]); }
  }

  /** Under any loss, duplication or reordering: a delivered message is the concatenation of the
      accepted frames 0..k of its source since the delivery before, in order of arrival, cut after
      its only end byte, and at most 128 bytes long. */
  lemma {:induction false} DeliveryTrace(es: seq<Event>, k: nat, m: seq<Byte>) returns (at: seq<nat>)
    requires k < |es| && DeliversAt(es, k, m)
    ensures InSequence(es[..k], at) && |at| == es[k].number < 16
    ensures |m| <= 128 && 8 * |at| < |m| <= 8 * |at| + 8
    ensures m == Joined(es[..k], at) + es[k].data[..|m| - 8 * |at|]
    ensures m[|m| - 1] == END_OF_MESSAGE && END_OF_MESSAGE !in m[..|m| - 1]
  {
    SlotBounds(es[..k]);
    at := SlotTrace(es[..k]);
    var p, d := After(FRESH, es[..k]), es[k].data;
    assert m[..|m| - 1] == p.bytes + d[..EndIn(d)];
  }

  lemma {:induction false} DeliveredSomewhere(es: seq<Event>, m: seq<Byte>) returns (k: nat)
    requires m in Delivered(FRESH, es)
    ensures k < |es| && DeliversAt(es, k, m)
    decreases |es|
  {
    var n := |es| - 1;
    if m in Delivered(FRESH, es[..n]) {
      k := DeliveredSomewhere(es[..n], m);
      assert es[..n][..k] == es[..k];
    } else {
      k := n;
    }
  }

  /** There is no resynchronisation: the slot of a source goes silent for good, until it is
      freed, exactly when sixteen frames in a row were accepted without an end byte. */
  lemma {:induction false} SilentForever(es: seq<Event>)
    ensures After(FRESH, es).next == 16 <==>
            forall more: seq<Event> :: (forall e <- more :: e.Piece?) ==>
              Delivered(After(FRESH, es), more) == []
  {
    var p := After(FRESH, es);
    SlotBounds(es);
    if p.next == 16 {
      forall more: seq<Event> | forall e <- more :: e.Piece?
        ensures Delivered(p, more) == []
      {
        StaysSilent(p, more);
      }
    } else {
      var last := Piece(p.next, Zeros(7) + [END_OF_MESSAGE]);
      var more := [last];
      assert last.data[7] == END_OF_MESSAGE && last.data[..8] == last.data;
      assert more[..0] == [];
      assert Delivered(p, more) != [];
    }
  }

  lemma {:induction false} StaysSilent(p: Partial, es: seq<Event>)
    requires p.next == 16 && forall e <- es :: e.Piece?
    ensures After(p, es) == p && Delivered(p, es) == []
    decreases |es|
  {
    if es != [] {
      assert es[|es| - 1] in es;
      StaysSilent(p, es[..|es| - 1]);
    }
  }

  // ----- the table -----

  type Table = map<Source, Partial>

  /** A frame addressed to us, or to everyone, as scan_parse reads its id. */
  datatype Heard = Heard(from: Source, number: Nibble, data: Data)

  function Hear(f: CanFrame): Option<Heard> {
    if ForUs(f.id) then Some(Heard(SourceOf(f.id), SequenceOf(f.id), f.data)) else None
  }

  datatype TableEvent = Arrive(heard: Heard) | Release(from: Source)

  datatype Parsed = Parsed(table: Table, delivery: Option<Delivery>, refused: bool)

  function Lookup(t: Table, s: Source): Partial { if s in t then t[s] else FRESH }

  /** A new source needs a free slot; without one its frame is refused. */
  function Parse(t: Table, h: Heard): Parsed {
    if h.from !in t && |t| >= ADDLSTSIZE then Parsed(t, None, true)
    else
      var a := Accept(Lookup(t, h.from), h.number, h.data);
      Parsed(t[h.from := a.state],
             if a.message.Some? then Some(Delivery(h.from, a.message.value)) else None,
             false)
  }

  function TableHappen(t: Table, e: TableEvent): Runs.Step<Table, Delivery> {
    if e.Release? then Runs.Step(t - {e.from}, [])
    else
      var p := Parse(t, e.heard);
      Runs.Step(p.table, if p.delivery.Some? then [p.delivery.value] else [])
  }

  function TableAfter(t: Table, es: seq<TableEvent>): Table { Runs.End(TableHappen, t, es) }

  function TableDelivered(t: Table, es: seq<TableEvent>): seq<Delivery> { Runs.Out(TableHappen, t, es) }

  /** The part of a history that is about one source. */
  function Mine(es: seq<TableEvent>, s: Source): seq<Event> {
    if es == [] then [] else Mine(es[..|es| - 1], s) + Mine1(es[|es| - 1], s)
  }

  function Mine1(e: TableEvent, s: Source): seq<Event> {
    if e.Release? then if e.from == s then [Freed] else []
    else if e.heard.from == s then [Piece(e.heard.number, e.heard.data)]
    else []
  }

  function MessagesFrom(ds: seq<Delivery>, s: Source): seq<seq<Byte>> {
    if ds == [] then []
    else
      MessagesFrom(ds[..|ds| - 1], s) +
      if ds[|ds| - 1].from == s then [ds[|ds| - 1].message] else []
  }

  // No frame of s was turned away for lack of a slot.
  ghost predicate NeverRefused(t: Table, es: seq<TableEvent>, s: Source)
  {
    forall k :: 0 <= k < |es| && es[k].Arrive? && es[k].heard.from == s ==>
      !Parse(TableAfter(t, es[..k]), es[k].heard).refused
  }

  /** Sources do not disturb each other: however their frames and slot releases interleave,
      what is delivered from a source, and what its slot holds, is what its own events alone
      would have given, as long as none of its frames found the table full. */
  lemma {:induction false} Independence(t: Table, es: seq<TableEvent>, s: Source)
    requires NeverRefused(t, es, s)
    ensures Lookup(TableAfter(t, es), s) == After(Lookup(t, s), Mine(es, s))
    ensures MessagesFrom(TableDelivered(t, es), s) == Delivered(Lookup(t, s), Mine(es, s))
    decreases |es|
  {
    if es != [] {
      var n := |es| - 1;
      assert forall k :: 0 <= k < n ==> es[..n][..k] == es[..k];
      Independence(t, es[..n], s);
      var u, e := TableAfter(t, es[..n]), es[n];
      OneMoreEvent(u, e, s);
      Runs.Concat(Happen, Lookup(t, s), Mine(es[..n], s), Mine1(e, s));
      MessagesConcat(TableDelivered(t, es[..n]), TableHappen(u, e).out, s);
    }
  }

  lemma {:induction false} OneMoreEvent(u: Table, e: TableEvent, s: Source)
    requires e.Arrive? && e.heard.from == s ==> !Parse(u, e.heard).refused
    ensures Lookup(TableHappen(u, e).state, s) == After(Lookup(u, s), Mine1(e, s))
    ensures MessagesFrom(TableHappen(u, e).out, s) == Delivered(Lookup(u, s), Mine1(e, s))
  {
    var p := Lookup(u, s);
    if (if e.Release? then e.from else e.heard.from) == s {
      var mine := if e.Release? then Freed else Piece(e.heard.number, e.heard.data);
      OneEvent(p, mine);
      Own(u, e, s, mine);
    } else {
      Foreign(u, e, s);
      assert After(p, []) == p && Delivered(p, []) == [];
    }
  }

  lemma {:induction false} OneEvent(p: Partial, e: Event)
    ensures After(p, [e]) == Happen(p, e).state && Delivered(p, [e]) == Happen(p, e).out
  {
    Runs.Snoc(Happen, p, [], e);
    assert [] + [e] == [e];
  }

  lemma {:induction false} Own(u: Table, e: TableEvent, s: Source, mine: Event)
    requires e.Release? ==> e.from == s && mine == Freed
    requires e.Arrive? ==> e.heard.from == s && mine == Piece(e.heard.number, e.heard.data)
    requires e.Arrive? ==> !Parse(u, e.heard).refused
    ensures Lookup(TableHappen(u, e).state, s) == Happen(Lookup(u, s), mine).state
    ensures MessagesFrom(TableHappen(u, e).out, s) == Happen(Lookup(u, s), mine).out
  {
  }

  lemma {:induction false} Foreign(u: Table, e: TableEvent, s: Source)
    requires (if e.Release? then e.from else e.heard.from) != s
    ensures Lookup(TableHappen(u, e).state, s) == Lookup(u, s) && MessagesFrom(TableHappen(u, e).out, s) == []
  {
  }

  lemma {:induction false} MessagesConcat(a: seq<Delivery>, b: seq<Delivery>, s: Source)
    ensures MessagesFrom(a + b, s) == MessagesFrom(a, s) + MessagesFrom(b, s)
    decreases |b|
  {
    if b == [] {
      assert a + b == a;
    } else {
      MessagesConcat(a, b[..|b| - 1], s);
      assert (a + b)[..|a + b| - 1] == a + b[..|b| - 1];
    }
  }

  // ----- what any receiver can deliver -----

  predicate Sound(p: Partial) {
    p.next <= 16 && |p.bytes| == 8 * p.next && END_OF_MESSAGE !in p.bytes
  }

  predicate Shaped(m: seq<Byte>) {
    1 <= |m| <= 128 && m[|m| - 1] == END_OF_MESSAGE && END_OF_MESSAGE !in m[..|m| - 1]
  }

  lemma {:induction false} AcceptShaped(p: Partial, number: Nibble, d: Data)
    requires Sound(p)
    ensures var a := Accept(p, number, d);
            Sound(a.state) && (a.message.Some? ==> Shaped(a.message.value))
  {
    if p.next == number {
      if EndIn(d) == 8 {
        assert d[..8] == d;
      } else {
        var m := p.bytes + d[..EndIn(d) + 1];
        assert m[..|m| - 1] == p.bytes + d[..EndIn(d)];
      }
    }
  }

  predicate AllSound(t: Table) { forall s <- t :: Sound(t[s]) }

  lemma {:induction false} HappenShaped(t: Table, e: TableEvent)
    requires AllSound(t)
    ensures AllSound(TableHappen(t, e).state)
    ensures forall d <- TableHappen(t, e).out :: Shaped(d.message)
  {
    if e.Arrive? {
      AcceptShaped(Lookup(t, e.heard.from), e.heard.number, e.heard.data);
    }
  }

  /** Whatever mixture of sources, slot releases and refusals: nothing but messages of 1 to
      128 bytes with one end byte, at the end, ever comes out of the table. */
  lemma {:induction false} TableShaped(t: Table, es: seq<TableEvent>)
    requires AllSound(t)
    ensures AllSound(TableAfter(t, es))
    ensures forall d <- TableDelivered(t, es) :: Shaped(d.message)
    decreases |es|
  {
    if es != [] {
      var before, e := es[..|es| - 1], es[|es| - 1];
      TableShaped(t, before);
      HappenShaped(TableAfter(t, before), e);
      assert es == before + [e];
      Runs.Snoc(TableHappen, t, before, e);
    }
  }

  // ----- a stretch of frames of one source -----

  function Tagged(s: Source, ms: seq<seq<Byte>>): (ds: seq<Delivery>)
    ensures |ds| == |ms| && forall i :: 0 <= i < |ms| ==> ds[i] == Delivery(s, ms[i])
  {
    seq(|ms|, i requires 0 <= i < |ms| => Delivery(s, ms[i]))
  }

  function Arrival(s: Source, e: Event): TableEvent
    requires e.Piece?
  {
    Arrive(Heard(s, e.number, e.data))
  }

  function Arrivals(s: Source, es: seq<Event>): (ts: seq<TableEvent>)
    requires forall e <- es :: e.Piece?
    ensures |ts| == |es| && forall i :: 0 <= i < |es| ==> ts[i] == Arrival(s, es[i])
  {
    seq(|es|, i requires 0 <= i < |es| && es[i].Piece? => Arrival(s, es[i]))
  }

  ghost predicate OnlyTouches(t: Table, s: Source, es: seq<Event>)
    requires forall e <- es :: e.Piece?
  {
    && TableAfter(t, Arrivals(s, es)) == (if es == [] then t else t[s := After(Lookup(t, s), es)])
    && TableDelivered(t, Arrivals(s, es)) == Tagged(s, Delivered(Lookup(t, s), es))
  }

  /** It touches only its own slot. */
  lemma {:induction false} OneSource(t: Table, s: Source, es: seq<Event>)
    requires (forall e <- es :: e.Piece?) && (s in t || |t| < ADDLSTSIZE)
    ensures OnlyTouches(t, s, es)
    decreases |es|
  {
    if es != [] {
      var before, e := es[..|es| - 1], es[|es| - 1];
      assert e in es && forall x <- before :: x in es;
      OneSource(t, s, before);
      OneSourceMore(t, s, before, e);
      assert es == before + [e];
    }
  }

  lemma {:induction false} OneSourceMore(t: Table, s: Source, es: seq<Event>, e: Event)
    requires (forall x <- es :: x.Piece?) && e.Piece? && (s in t || |t| < ADDLSTSIZE)
    requires OnlyTouches(t, s, es)
    ensures OnlyTouches(t, s, es + [e])
  {
    assert Arrivals(s, es + [e]) == Arrivals(s, es) + [Arrival(s, e)];
    Runs.Snoc(TableHappen, t, Arrivals(s, es), Arrival(s, e));
    Runs.Snoc(Happen, Lookup(t, s), es, e);
    OneSourceStep(t, TableAfter(t, Arrivals(s, es)), s, After(Lookup(t, s), es), e);
    TaggedConcat(s, Delivered(Lookup(t, s), es), Happen(After(Lookup(t, s), es), e).out);
  }

  lemma {:induction false} TaggedConcat(s: Source, a: seq<seq<Byte>>, b: seq<seq<Byte>>)
    ensures Tagged(s, a + b) == Tagged(s, a) + Tagged(s, b)
  {
  }

  lemma {:induction false} OneSourceStep(t: Table, u: Table, s: Source, p: Partial, e: Event)
    requires e.Piece? && (s in t || |t| < ADDLSTSIZE)
    requires u == t[s := p] || (u == t && p == Lookup(t, s))
    ensures TableHappen(u, Arrival(s, e)) == Runs.Step(t[s := Happen(p, e).state], Tagged(s, Happen(p, e).out))
  {
    assert t[s := p][s := Happen(p, e).state] == t[s := Happen(p, e).state];
  }
}
