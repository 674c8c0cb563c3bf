/** The receiver's slots as scan_parse keeps them: a fixed array of references to allocated
    records, updated in place (gateway/if_scan.c, struct can_ifaddr). */
module AddressList {
  import opened Basics
  import opened Frames
  import opened Reassembly

  // From mbn.h, which is not part of this model; only "at least 128" matters.
  const MBN_MAX_MESSAGE_SIZE := 128

  /** struct can_ifaddr */
  class Slot {
    const addr: Source
    const lnkindex: nat
    const lnk: Slots
    var buf: seq<Byte>       // part of the record, so a value of fixed length
    var next: nat            // the field seq
    ghost var held: Partial  // what the two stand for

    ghost predicate Valid()
      reads this
    {
      |buf| == MBN_MAX_MESSAGE_SIZE + 8 && next <= 16 && held == Partial(next, buf[..8 * next])
    }

    constructor (lnk: Slots, lnkindex: nat, addr: Source)
      ensures this.lnk == lnk && this.lnkindex == lnkindex && this.addr == addr
      ensures Valid() && held == FRESH
    {
      this.lnk, this.lnkindex, this.addr := lnk, lnkindex, addr;
      next, held := 0, FRESH;
      buf := Zeros(MBN_MAX_MESSAGE_SIZE + 8);
    }

    /** Sequence check, copy into the buffer, search for the end byte. */
    method Accept(number: Nibble, data: Data) returns (message: Option<seq<Byte>>)
      requires Valid()
      modifies this
      ensures Valid()
      ensures Accepted(held, message) == Reassembly.Accept(old(held), number, data)
    {
      if next != number { return None; }
      Copy(number, data);
      var n := EndOf(data);
      if n == 8 {
        next := next + 1;
        message := None;
      } else {
        next := 0;
        message := Some(buf[..8 * number + n + 1]);
        assert message.value == buf[..8 * number + 8][..8 * number + n + 1] == old(held).bytes + data[..n + 1];
        assert buf[..0] == [];
      }
      held := Partial(next, buf[..8 * next]);
    }

    /** memcpy of one fragment. */
    method Copy(number: Nibble, data: Data)
      requires |buf| == MBN_MAX_MESSAGE_SIZE + 8
      modifies this`buf
      ensures |buf| == old(|buf|) && buf[..8 * number + 8] == old(buf[..8 * number]) + data
    {
      for k := 0 to 8
        invariant |buf| == old(|buf|) && buf[..8 * number + k] == old(buf[..8 * number]) + data[..k]
      {
        buf := buf[8 * number + k := data[k]];
        assert buf[..8 * number + k + 1] == buf[..8 * number + k] + [data[k]];
      }
      assert data[..8] == data;
    }
  }

  class Slots {
    const addrs: array<Slot?>
    ghost var table: Table           // what the slots stand for
    ghost var at: map<Source, nat>   // which slot a source is in
    ghost var Repr: set<object>

    ghost predicate Valid()
      reads this, Repr
    {
      && this in Repr && addrs in Repr && addrs.Length == ADDLSTSIZE
      && (forall i :: 0 <= i < ADDLSTSIZE && addrs[i] != null ==>
            addrs[i] in Repr && addrs[i].lnkindex == i && addrs[i].lnk == this)
      && (forall i :: 0 <= i < ADDLSTSIZE && addrs[i] != null ==> addrs[i].Valid())
      && table.Keys == at.Keys
      && (forall s <- at :: at[s] < ADDLSTSIZE && addrs[at[s]] != null && addrs[at[s]].addr == s)
      && (forall i :: 0 <= i < ADDLSTSIZE && addrs[i] != null ==>
            addrs[i].addr in at && at[addrs[i].addr] == i && table[addrs[i].addr] == addrs[i].held)
    }

    constructor ()
      ensures Valid() && fresh(Repr) && table == map[]
    {
      addrs := new Slot?[ADDLSTSIZE](_ => null);
      table, at := map[], map[];
      new;
      Repr := {this, addrs};
    }

    /** scan_parse, with the message it hands to mbnProcessRawMessage as a result. */
    method Parse(frame: CanFrame) returns (rc: nat, delivery: Option<Delivery>)
      requires Valid()
      modifies Repr
      ensures Valid() && fresh(Repr - old(Repr))
      ensures Hear(frame).None? ==> table == old(table) && delivery == None && rc == 0
      ensures Hear(frame).Some? ==>
                var p := Reassembly.Parse(old(table), Hear(frame).value);
                table == p.table && delivery == p.delivery && rc == if p.refused then 1 else 0
    {
      if !ForUs(frame.id) { return 0, None; }
      rc, delivery := ParseFrom(SourceOf(frame.id), SequenceOf(frame.id), frame.data);
    }

    method ParseFrom(src: Source, number: Nibble, data: Data) returns (rc: nat, delivery: Option<Delivery>)
      requires Valid()
      modifies Repr
      ensures Valid() && fresh(Repr - old(Repr))
      ensures var p := Reassembly.Parse(old(table), Heard(src, number, data));
              table == p.table && delivery == p.delivery && rc == if p.refused then 1 else 0
    {
      var ai := FindOrAdd(src);
      if ai == ADDLSTSIZE { return 1, None; }
      ParseInSteps(old(table), Heard(src, number, data));
      delivery := Accept(ai, number, data);
      rc := 0;
    }

    /** The slot of a source, made if there is none, or ADDLSTSIZE if none can be made. */
    method FindOrAdd(src: Source) returns (ai: nat)
      requires Valid()
      modifies this`table, this`at, this`Repr, addrs
      ensures Valid() && fresh(Repr - old(Repr)) && old(Repr) <= Repr
      ensures ai <= ADDLSTSIZE && (ai == ADDLSTSIZE <==> src !in old(table) && |old(table)| >= ADDLSTSIZE)
      ensures ai == ADDLSTSIZE ==> table == old(table)
      ensures ai < ADDLSTSIZE ==> addrs[ai] != null && addrs[ai].addr == src
      ensures ai < ADDLSTSIZE ==> table == old(table)[src := Lookup(old(table), src)]
    {
      var free;
      ai, free := Find(src);
      if ai == ADDLSTSIZE && free != -2 {
        Add(free, src);
        ai := free;
      }
    }

    /** The search loop: where the source is, and the first free slot before that, or -2. */
    method Find(src: Source) returns (ai: nat, n: int)
      requires Valid()
      ensures ai <= ADDLSTSIZE && -2 <= n < ADDLSTSIZE && n != -1
      ensures ai < ADDLSTSIZE ==> addrs[ai] != null && addrs[ai].addr == src
      ensures ai == ADDLSTSIZE <==> src !in table
      ensures n >= 0 ==> addrs[n] == null
      ensures ai == ADDLSTSIZE ==> (n == -2 <==> |table| >= ADDLSTSIZE)
    {
      n := -2;
      ai := 0;
      while ai < ADDLSTSIZE
        invariant ai <= ADDLSTSIZE && -2 <= n < ai && n != -1
        invariant forall i :: 0 <= i < ai && addrs[i] != null ==> addrs[i].addr != src
        invariant n >= 0 ==> addrs[n] == null
        invariant n == -2 ==> forall i :: 0 <= i < ai ==> addrs[i] != null
      {
        if addrs[ai] != null && addrs[ai].addr == src {
          return;
        } else if n == -2 && addrs[ai] == null {
          n := ai;
        }
        ai := ai + 1;
      }
      if n == -2 { NoRoom(); } else { Room(n); }
    }

    lemma {:induction false} NoRoom()
      requires Valid() && forall i :: 0 <= i < ADDLSTSIZE ==> addrs[i] != null
      ensures |table| >= ADDLSTSIZE
    {
      var slots := addrs[..];
      var who := seq(ADDLSTSIZE, i requires 0 <= i < |slots| && slots[i] != null => slots[i].addr);
      AtLeast(at, who);
      assert |table.Keys| == |at.Keys|;
    }

    lemma {:induction false} Room(hole: nat)
      requires Valid() && hole < ADDLSTSIZE && addrs[hole] == null
      ensures |table| < ADDLSTSIZE
    {
      LessThan(at, ADDLSTSIZE, hole);
      assert |table.Keys| == |at.Keys|;
    }

    method Add(n: nat, src: Source)
      requires Valid() && n < ADDLSTSIZE && addrs[n] == null && src !in table
      modifies this`table, this`at, this`Repr, addrs
      ensures Valid() && fresh(Repr - old(Repr)) && old(Repr) <= Repr
      ensures table == old(table)[src := FRESH] && addrs[n] != null && addrs[n].addr == src
    {
      var slot := new Slot(this, n, src);
      addrs[n] := slot;
      table, at := table[src := FRESH], at[src := n];
      Repr := Repr + {slot};
    }

    method Accept(ai: nat, number: Nibble, data: Data) returns (delivery: Option<Delivery>)
      requires Valid() && ai < ADDLSTSIZE && addrs[ai] != null
      modifies this`table, addrs[ai]
      ensures Valid() && Repr == old(Repr)
      ensures var s := addrs[ai].addr;
              && s in old(table)
              && var a := Reassembly.Accept(old(table)[s], number, data);
              && table == old(table)[s := a.state]
              && delivery == if a.message.Some? then Some(Delivery(s, a.message.value)) else None
    {
      var slot := addrs[ai];
      var message := slot.Accept(number, data);
      table := table[slot.addr := slot.held];
      delivery := if message.Some? then Some(Delivery(slot.addr, message.value)) else None;
    }

    /** scan_free_addr, given the reference that came with a message. */
    method Free(slot: Slot)
      requires Valid() && slot.lnk == this && slot.lnkindex < ADDLSTSIZE && addrs[slot.lnkindex] == slot
      modifies this`table, this`at, addrs
      ensures Valid() && Repr == old(Repr)
      ensures slot.addr in old(table) && table == old(table) - {slot.addr}
    {
      addrs[slot.lnkindex] := null;
      table, at := table - {slot.addr}, at - {slot.addr};
    }
  }

  lemma {:induction false} AtLeast(at: map<Source, nat>, who: seq<Source>)
    requires forall i :: 0 <= i < |who| ==> who[i] in at && at[who[i]] == i
    ensures |who| <= |at|
  {
    InjectionBound(map i | i in Below(|who|) :: who[i], at.Keys);
    assert (map i | i in Below(|who|) :: who[i]).Keys == Below(|who|);
  }

  lemma {:induction false} LessThan(at: map<Source, nat>, n: nat, hole: nat)
    requires hole < n && forall s <- at :: at[s] < n && at[s] != hole
    requires forall s, u :: s in at && u in at && at[s] == at[u] ==> s == u
    ensures |at| < n
  {
    InjectionBound(at, Below(n) - {hole});
  }

  lemma {:induction false} ParseInSteps(t: Table, h: Heard)
    requires h.from in t || |t| < ADDLSTSIZE
    ensures var a := Reassembly.Accept(Lookup(t, h.from), h.number, h.data);
            Reassembly.Parse(t, h)
            == Parsed(t[h.from := Lookup(t, h.from)][h.from := a.state],
                      if a.message.Some? then Some(Delivery(h.from, a.message.value)) else None,
                      false)
  {
    var p := Reassembly.Accept(Lookup(t, h.from), h.number, h.data).state;
    assert t[h.from := Lookup(t, h.from)][h.from := p] == t[h.from := p];
  }

  method EndOf(data: Data) returns (n: nat)
    ensures n == EndIn(data)
  {
    n := 0;
    while n < 8
      invariant n <= 8 && forall k :: 0 <= k < n ==> data[k] != END_OF_MESSAGE
    {
      if data[n] == END_OF_MESSAGE { break; }
      n := n + 1;
    }
  }

  function Below(n: nat): (s: set<nat>)
    ensures (forall i: nat :: i in s <==> i < n) && |s| == n
  {
    if n == 0 then {} else Below(n - 1) + {n - 1}
  }

  /** A map that sends different keys to different elements of a set is no larger than it. */
  lemma {:induction false} InjectionBound<A, B>(m: map<A, B>, v: set<B>)
    requires forall a <- m :: m[a] in v
    requires forall a, b :: a in m && b in m && m[a] == m[b] ==> a == b
    ensures |m| <= |v|
    decreases |m|
  {
    if m.Keys != {} {
      var a :| a in m;
      var rest := m - {a};
      assert m.Keys == rest.Keys + {a};
      InjectionBound(rest, v - {m[a]});
    }
  }
}
