/** What each step of the address server sends and writes, by the rows that are in the table
    (address/main.c, address/db.c). */
module AddressSteps {
  import opened Basics
  import opened AddressTable
  import opened AddressServer

  /** A row fetched at the time now and stored back unchanged. */
  function Rewritten(row: Row, now: int): Row {
    row.(services := row.services.(valid := false), lastSeen := Min(row.lastSeen, now))
  }

  /** The row at that address has become another; all other rows are as they were. */
  ghost predicate Replaced(rows: Rows, next: Rows, addr: nat, row: Row) {
    && Good(next)
    && forall r {:trigger r in next} {:trigger r in rows} :: r in next <==> r == row || (r in rows && r.addr != addr)
  }

  lemma {:induction false} SetReplaces(rows: Rows, row: Row, node: Row)
    requires Good(rows) && row in rows && node.addr == row.addr && node.id == row.id && row.addr != 0
    ensures Replaced(rows, Set(rows, node.addr, node), row.addr, Stored(node))
    ensures Accepts(rows, node.addr, node)
  {
    SetKeeps(rows, RemovedNotice(None), row, node);
    InRows(rows, row);
    NextGood(rows, node.addr, node);
    forall r | r in rows && r.addr != row.addr ensures r.id != row.id {
      Found(rows, r);
      Found(rows, row);
    }
  }

  lemma {:induction false} SetsReplace(rows: Rows, row: Row, first: Row, node: Row)
    requires Good(rows) && row in rows && row.addr != 0
    requires first.addr == node.addr == row.addr && first.id == node.id == row.id
    ensures Replaced(rows, Set(Set(rows, first.addr, first), node.addr, node), row.addr, Stored(node))
  {
    SetReplaces(rows, row, first);
    var middle := Set(rows, first.addr, first);
    assert Stored(first) in middle;
    SetReplaces(middle, Stored(first), node);
  }

  // ----- address information -----

  /** A request of an ID that has a row is answered with the row's address exactly if the row was
      last seen more than five seconds ago, and the row counts it. */
  lemma {:induction false} KnownAnswer(rows: Rows, row: Row, e: Event)
    requires Good(rows) && row in rows && Requests(e, row.id)
    ensures var due, next := e.check - Min(row.lastSeen, e.read) > 5, Handle(rows, e).state;
            && Handle(rows, e).out == (if due
                 then [Reply(row.addr, row.id, row.engine, row.services.(valid := row.addr != 0))] else [])
            && (row.addr == 0 ==> next == rows)
            && (row.addr != 0 ==>
                  Replaced(rows, next, row.addr, Rewritten(row, e.read).(requests := row.requests + 1,
                             lastSeen := if due then e.store else Min(row.lastSeen, e.read))))
  {
    RequestHandled(rows, row, e);
    RequestRow(row, e.read, e.check, e.store);
    StoreBack(rows, row.addr, row, Answered(Parse(row, e.read), e.check, e.store));
  }

  lemma {:induction false} RequestRow(row: Row, read: int, check: int, store: int)
    ensures var due, node := check - Min(row.lastSeen, read) > 5, Answered(Parse(row, read), check, store);
            && node.addr == row.addr && node.id == row.id
            && Stored(node) == Rewritten(row, read).(requests := row.requests + 1,
                                 lastSeen := if due then store else Min(row.lastSeen, read))
    ensures Answers(Parse(row, read), check) ==
            if check - Min(row.lastSeen, read) > 5
            then [Reply(row.addr, row.id, row.engine, row.services.(valid := row.addr != 0))] else []
  {
  }

  lemma {:induction false} RequestHandled(rows: Rows, row: Row, e: Event)
    requires Good(rows) && row in rows && Requests(e, row.id)
    ensures Handle(rows, e).state == Set(rows, row.addr, Answered(Parse(row, e.read), e.check, e.store))
    ensures Handle(rows, e).out == Answers(Parse(row, e.read), e.check)
  {
    Found(rows, row);
  }

  /** A request of an ID that has none gets the least free address, and a row with it. */
  lemma {:induction false} UnknownAnswer(rows: Rows, e: Event, id: Id)
    requires Good(rows) && Requests(e, id) && forall row :: row in rows ==> row.id != id
    ensures var free := FirstFree(rows, 1);
            && IsFirstFree(rows, free)
            && Handle(rows, e).out == [Reply(free, id, 0, e.services.(valid := true))]
            && Handle(rows, e).state == rows + [Row(free, [], id, 0, e.services.(valid := false), false, Id(0, 0, 0),
                                                    false, true, e.store, e.store, 1, e.firmware)]
  {
    assert SelectId(rows, id).None?;
    NewRowKeeps(rows, e);
  }

  /** A message of a node that has a valid address stamps the row there, and nothing else; so does
      one without a real ID do nothing. */
  lemma {:induction false} SeenStamps(rows: Rows, e: Event)
    requires Good(rows) && e.Info?
    ensures e.addr > 0 && e.services.valid ==>
              var next := Handle(rows, e).state;
              && Handle(rows, e).out == []
              && (forall row :: row in rows && row.addr == e.addr ==>
                    Replaced(rows, next, e.addr, Rewritten(row, e.read).(lastSeen := e.store)))
              && ((forall row :: row in rows ==> row.addr != e.addr) ==> next == rows)
    ensures !(e.addr > 0 && e.services.valid) && !RealId(e.id) ==>
              Handle(rows, e).out == [] && Handle(rows, e).state == rows
  {
    var row := Select(rows, e.addr);
    if e.addr > 0 && e.services.valid && row.Some? {
      SetReplaces(rows, row.value, Parse(row.value, e.read).(lastSeen := e.store));
      forall other | other in rows && other.addr == e.addr ensures other == row.value { Found(rows, other); }
    }
  }

  // ----- a node online -----

  /** Some row has the node's address or its ID but not the other, or the row that has both is cut
      off differently at the two readings of the clock. */
  ghost predicate Mismatch(rows: Rows, n: Node, readAddr: int, readId: int) {
    exists row :: row in rows && (row.addr == n.addr || row.id == n.id)
                  && (row.addr == n.addr && row.id == n.id ==> Min(row.lastSeen, readAddr) != Min(row.lastSeen, readId))
  }

  lemma {:induction false} MismatchExactly(rows: Rows, n: Node, readAddr: int, readId: int)
    requires Good(rows)
    ensures Mismatch(rows, n, readAddr, readId) <==> Get(rows, n.addr, readAddr) != ById(rows, n.id, readId)
  {
    var a, i := Select(rows, n.addr), SelectId(rows, n.id);
    if row :| row in rows && (row.addr == n.addr || row.id == n.id)
              && (row.addr == n.addr && row.id == n.id ==> Min(row.lastSeen, readAddr) != Min(row.lastSeen, readId)) {
      Found(rows, row);
    }
    if Get(rows, n.addr, readAddr) != ById(rows, n.id, readId) {
      var row := if a.Some? then a.value else i.value;
      Found(rows, row);
      assert row in rows;
    }
  }

  /** The replies to a node found online: its valid bit is reset exactly upon a mismatch, which
      leaves the table alone. */
  lemma {:induction false} OnlineReplies(rows: Rows, e: Event)
    requires Good(rows) && e.Online?
    ensures var bad := RealId(e.node.id) && Mismatch(rows, e.node, e.readAddr, e.readId);
            && Handle(rows, e).out == (if bad
                 then [Reply(0, e.node.id, e.node.engine, e.node.services.(valid := false))] else [])
            && (bad || !RealId(e.node.id) ==> Handle(rows, e).state == rows)
  {
    MismatchExactly(rows, e.node, e.readAddr, e.readId);
  }

  /** A node that neither the addresses nor the IDs know gets a row of its own. */
  lemma {:induction false} OnlineAdds(rows: Rows, e: Event)
    requires Good(rows) && e.Online? && RealId(e.node.id)
    requires forall row :: row in rows ==> row.addr != e.node.addr && row.id != e.node.id
    ensures var n := e.node;
            Handle(rows, e).state == rows + [Row(n.addr, [], n.id, n.engine, n.services.(valid := false), true,
                                                 Id(0, 0, 0), e.setname, true, e.store, e.store, e.requests, None)]
  {
    assert Select(rows, e.node.addr).None? && SelectId(rows, e.node.id).None?;
  }

  /** A node in its own row: the row is marked active with the node's services and engine, its name
      is no longer to be set, and the rest stays; if there is nothing to change it is not touched. */
  lemma {:induction false} OnlineWelcomes(rows: Rows, e: Event, row: Row)
    requires Good(rows) && e.Online? && RealId(e.node.id) && !Mismatch(rows, e.node, e.readAddr, e.readId)
    requires row in rows && row.addr == e.node.addr && row.id == e.node.id
    ensures var n, next := e.node, Handle(rows, e).state;
            if n.addr == 0 || (row.active && row.services == n.services && row.engine == n.engine && !row.setname)
            then next == rows
            else Replaced(rows, next, n.addr, Rewritten(row, e.readAddr).(active := true,
                            services := n.services.(valid := false), engine := n.engine, setname := false))
  {
    MismatchExactly(rows, e.node, e.readAddr, e.readId);
    Found(rows, row);
    WelcomeReplaces(rows, row, Parse(row, e.readAddr), e.node, e.readAddr);
  }

  lemma {:induction false} WelcomeReplaces(rows: Rows, row: Row, node: Row, n: Node, read: int)
    requires Good(rows) && row in rows && row.addr == n.addr && row.id == n.id && node == Parse(row, read)
    ensures var next := Welcome(rows, node, n).state;
            if n.addr == 0 || (row.active && row.services == n.services && row.engine == n.engine && !row.setname)
            then next == rows
            else Replaced(rows, next, n.addr, Rewritten(row, read).(active := true,
                            services := n.services.(valid := false), engine := n.engine, setname := false))
  {
    var current := Refreshed(node, n);
    if n.addr == 0 {
      WelcomeRefused(rows, RemovedNotice(None), row, node, n);
    } else if Differs(node, n) && node.setname {
      SetsReplace(rows, row, current, current.(setname := false));
    } else if Differs(node, n) {
      SetReplaces(rows, row, current);
    } else if node.setname {
      SetReplaces(rows, row, node.(setname := false));
    }
  }

  // ----- the other handlers -----

  /** A node gone offline: its row is marked so, if it was active. */
  lemma {:induction false} OfflineMarks(rows: Rows, addr: nat, read: int, row: Row)
    requires Good(rows) && row in rows && row.addr == addr
    ensures var next := Handle(rows, Offline(addr, read)).state;
            if addr == 0 || !row.active then next == rows
            else Replaced(rows, next, addr, Rewritten(row, read).(active := false))
  {
    Found(rows, row);
    var node := Parse(row, read).(active := false);
    StoreBack(rows, addr, row, node);
    assert Stored(node) == Rewritten(row, read).(active := false);
  }

  // A fetched row stored back: refused at address 0.
  lemma {:induction false} StoreBack(rows: Rows, addr: nat, row: Row, node: Row)
    requires Good(rows) && row in rows && row.addr == addr && node.addr == row.addr && node.id == row.id
    ensures addr == 0 ==> Set(rows, addr, node) == rows
    ensures addr != 0 ==> Replaced(rows, Set(rows, addr, node), addr, Stored(node))
  {
    if addr != 0 { SetReplaces(rows, row, node); } else { SetKeeps(rows, RemovedNotice(None), row, node); }
  }

  /** What a response changes in its node's row: the parent, the firmware revision (none for -1), the
      name, which is then no longer to be fetched, or that the name is to be set again. */
  lemma {:induction false} ResponseStores(rows: Rows, addr: nat, edit: Edit, read: int, row: Row)
    requires Good(rows) && row in rows && row.addr == addr
    ensures var next, kept := Handle(rows, Response(addr, edit, read)).state, Rewritten(row, read);
            if addr == 0 then next == rows
            else match edit
              case Parent(id) => Replaced(rows, next, addr, kept.(parent := id))
              case Major(number) =>
                Replaced(rows, next, addr, kept.(firmware := if number == -1 then None else Some(number)))
              case Name(name) => Replaced(rows, next, addr, kept.(name := name, refresh := false))
              case Retry => Replaced(rows, next, addr, kept.(setname := true))
  {
    Found(rows, row);
    var node := edit.Apply(Parse(row, read));
    StoreBack(rows, addr, row, node);
    assert Handle(rows, Response(addr, edit, read)).state == Set(rows, addr, node);
  }

  /** A change of address made by another program is announced to the node with the row's ID, after
      the node at the old address, if online, has been told 0. */
  lemma {:induction false} MoveAnnounced(rows: Rows, to: nat, status: Option<Node>, read: int, row: Row)
    requires Good(rows) && row in rows && row.addr == to
    ensures Handle(rows, MovedNotice(false, to, status, read)).out ==
            (if status.None? then []
             else [Reply(0, status.value.id, status.value.engine, status.value.services.(valid := false))])
            + [Reply(to, row.id, row.engine, row.services.(valid := to != 0))]
    ensures Handle(rows, MovedNotice(true, to, status, read)).out == []
  {
    Found(rows, row);
  }

  /** Where there is no row nothing happens. */
  lemma {:induction false} NoRowNoStep(rows: Rows, e: Event)
    requires e.Offline? || e.Response? || e.MovedNotice?
    requires forall row :: row in rows ==> row.addr != if e.MovedNotice? then e.to else e.addr
    ensures Handle(rows, e).state == rows && Handle(rows, e).out == []
  {
    assert Select(rows, if e.MovedNotice? then e.to else e.addr).None?;
  }

  // ----- other programs -----

  /** A row moves to another address unless some row is there. */
  lemma {:induction false} MovedExactly(rows: Rows, row: Row, to: nat)
    requires Good(rows) && row in rows
    ensures var next := Handle(rows, Moved(row.addr, to)).state;
            if exists r :: r in rows && r.addr == to then next == rows
            else forall r :: r in next <==> r == row.(addr := to) || (r in rows && r.addr != row.addr)
  {
    var next := Move(rows, row.addr, to);
    if Select(rows, to).Some? {
      assert Select(rows, to).value in rows;
    } else {
      forall r ensures r in next <==> r == row.(addr := to) || (r in rows && r.addr != row.addr) {
        MovedMember(rows, row, to, r);
      }
    }
  }

  lemma {:induction false} MovedMember(rows: Rows, row: Row, to: nat, r: Row)
    requires Good(rows) && row in rows && Select(rows, to).None?
    ensures r in Move(rows, row.addr, to) <==> r == row.(addr := to) || (r in rows && r.addr != row.addr)
  {
    var next := Move(rows, row.addr, to);
    var k :| 0 <= k < |rows| && rows[k] == row;
    assert next[k] == row.(addr := to);
    if r in next {
      var i :| 0 <= i < |next| && next[i] == r;
      assert rows[i] in rows && (i != k ==> rows[i].addr != row.addr);
    }
    if r in rows && r.addr != row.addr {
      var i :| 0 <= i < |rows| && rows[i] == r;
      assert next[i] == r;
    }
  }

  /** The row at addr has become another, and the rows with its ID gave way. */
  ghost predicate Displaced(rows: Rows, next: Rows, addr: nat, row: Row) {
    forall r {:trigger r in next} {:trigger r in rows} ::
      r in next <==> r == row || (r in rows && r.addr != addr && r.id != row.id)
  }

  /** The row does not have the ID, and every row that has it gives way, being of the same known
      firmware revision. */
  ghost predicate MayTake(rows: Rows, row: Row, id: Id) {
    && row.id != id
    && forall r {:trigger r in rows} :: r in rows && r.id == id ==> row.firmware.Some? && r.firmware == row.firmware
  }

  /** A row gets the ID with the new unique part exactly if it may take it. */
  lemma {:induction false} RenamedExactly(rows: Rows, row: Row, uid: Word)
    requires Good(rows) && row in rows
    ensures var next, id := Handle(rows, Renamed(row.addr, uid)).state, row.id.(uid := uid);
            if MayTake(rows, row, id) then Displaced(rows, next, row.addr, row.(id := id)) else next == rows
  {
    RenameExactly(rows, row, uid, row.id.(uid := uid));
  }

  lemma {:induction false} RenameExactly(rows: Rows, row: Row, uid: Word, id: Id)
    requires Good(rows) && row in rows && id == row.id.(uid := uid)
    ensures MayTake(rows, row, id) ==> Displaced(rows, Rename(rows, row.addr, uid), row.addr, row.(id := id))
    ensures !MayTake(rows, row, id) ==> Rename(rows, row.addr, uid) == rows
  {
    Found(rows, row);
    assert NewId(rows, row.addr, uid) == id;
    RenamesExactly(rows, row, uid, id);
    if Renames(rows, row.addr, uid) { RenameDisplaces(rows, row, id); }
  }

  lemma {:induction false} RenamesExactly(rows: Rows, row: Row, uid: Word, id: Id)
    requires Good(rows) && row in rows && id == row.id.(uid := uid)
    ensures Renames(rows, row.addr, uid) <==> MayTake(rows, row, id)
  {
    Found(rows, row);
    var other := SelectId(rows, id);
    forall r | r in rows && r.id == id ensures other == Some(r) { Found(rows, r); }
  }

  lemma {:induction false} RenameDisplaces(rows: Rows, row: Row, id: Id)
    requires Good(rows) && row in rows && row.id != id
    ensures var other := SelectId(rows, id);
            var kept := if other.Some? then Delete(rows, other.value.addr) else rows;
            Displaced(rows, Reidentify(kept, row.addr, id), row.addr, row.(id := id))
  {
    var other := SelectId(rows, id);
    var kept := if other.Some? then Delete(rows, other.value.addr) else rows;
    var next := Reidentify(kept, row.addr, id);
    GiverApart(rows, row, id, other);
    forall r ensures r in next <==> r == row.(id := id) || (r in rows && r.addr != row.addr && r.id != id) {
      ReidentifyMember(kept, row, id, r);
    }
  }

  lemma {:induction false} ReidentifyMember(kept: Rows, row: Row, id: Id, r: Row)
    requires row in kept && forall r :: r in kept && r.addr == row.addr ==> r == row
    ensures r in Reidentify(kept, row.addr, id) <==> r == row.(id := id) || (r in kept && r.addr != row.addr)
  {
    var next := Reidentify(kept, row.addr, id);
    if r in next {
      var i :| 0 <= i < |next| && next[i] == r;
      assert kept[i] in kept;
    }
    if r == row.(id := id) {
      var k :| 0 <= k < |kept| && kept[k] == row;
      assert next[k] == r;
    } else if r in kept && r.addr != row.addr {
      var i :| 0 <= i < |kept| && kept[i] == r;
      assert next[i] == r;
    }
  }

  lemma {:induction false} GiverApart(rows: Rows, row: Row, id: Id, other: Option<Row>)
    requires Good(rows) && row in rows && row.id != id && other == SelectId(rows, id)
    ensures var kept := if other.Some? then Delete(rows, other.value.addr) else rows;
            && (forall r :: r in kept <==> r in rows && r.id != id)
            && (forall r :: r in kept && r.addr == row.addr ==> r == row)
  {
    if other.Some? { Found(rows, other.value); }
    forall r | r in rows ensures (r.addr == row.addr ==> r == row) && (r.id == id ==> other == Some(r))
                                 && (other.Some? && r.addr == other.value.addr ==> r == other.value)
    {
      Found(rows, r);
      Found(rows, row);
    }
  }
}
