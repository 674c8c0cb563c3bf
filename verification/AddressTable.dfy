/** The address table, the SQL table "addresses" (sql/schema.sql), as the address server reads and
    writes it (address/db.c) and as other programs change it. Its two unique keys, the address and
    the hardware ID, refuse a statement that would break them. */
module AddressTable {
  import opened Basics

  type Word = x: nat | x < 0x10000

  datatype Id = Id(man: Word, prod: Word, uid: Word)

  /** The services byte: its VALID bit and the other bits. */
  datatype Services = Services(valid: bool, kind: nat)

  /** struct db_node; firmware None is the -1 of FirmMajor. */
  datatype Row = Row(addr: nat, name: seq<Byte>, id: Id, engine: nat, services: Services, active: bool, parent: Id,
                     setname: bool, refresh: bool, firstSeen: int, lastSeen: int, requests: int, firmware: Option<int>)

  type Rows = seq<Row>

  // ----- the statements -----

  /** db_parserow: a time in the future is read as the present. */
  function Parse(row: Row, now: int): Row {
    if now < row.lastSeen then row.(lastSeen := now) else row
  }

  /** What db_setnode writes: the VALID bit is not stored. */
  function Stored(node: Row): Row {
    node.(services := node.services.(valid := false))
  }

  function Select(rows: Rows, addr: nat): (r: Option<Row>)
    ensures r.Some? ==> r.value in rows && r.value.addr == addr
    ensures r.None? ==> forall row :: row in rows ==> row.addr != addr
  {
    if |rows| == 0 then None else if rows[0].addr == addr then Some(rows[0]) else Select(rows[1..], addr)
  }

  function SelectId(rows: Rows, id: Id): (r: Option<Row>)
    ensures r.Some? ==> r.value in rows && r.value.id == id
    ensures r.None? ==> forall row :: row in rows ==> row.id != id
  {
    if |rows| == 0 then None else if rows[0].id == id then Some(rows[0]) else SelectId(rows[1..], id)
  }

  function Parsed(row: Option<Row>, now: int): Option<Row> {
    if row.Some? then Some(Parse(row.value, now)) else None
  }

  /** db_getnode and db_nodebyid. */
  function Get(rows: Rows, addr: nat, now: int): Option<Row> {
    Parsed(Select(rows, addr), now)
  }

  function ById(rows: Rows, id: Id, now: int): Option<Row> {
    Parsed(SelectId(rows, id), now)
  }

  /** UPDATE ... WHERE addr = node.addr */
  function Update(rows: Rows, node: Row): (r: Rows)
    ensures |r| == |rows|
    ensures forall i :: 0 <= i < |rows| ==> r[i] == if rows[i].addr == node.addr then Stored(node) else rows[i]
  {
    seq(|rows|, i requires 0 <= i < |rows| => if rows[i].addr == node.addr then Stored(node) else rows[i])
  }

  /** Whether the keys let a db_setnode through: a row inserted must have a new address and a new
      ID; an UPDATE must not give a row the ID of another. */
  predicate Accepts(rows: Rows, addr: nat, node: Row) {
    if addr != 0 then
      Select(rows, node.addr).Some? && SelectId(rows, node.id).Some? ==> SelectId(rows, node.id).value.addr == node.addr
    else
      Select(rows, node.addr).None? && SelectId(rows, node.id).None?
  }

  /** db_setnode: address 0 asks for an INSERT; the UPDATE goes by the node's own address. */
  function Set(rows: Rows, addr: nat, node: Row): Rows {
    if !Accepts(rows, addr, node) then rows
    else if addr != 0 then Update(rows, node)
    else rows + [Stored(node)]
  }

  /** DELETE ... WHERE addr = addr */
  function Delete(rows: Rows, addr: nat): (r: Rows)
    ensures forall row :: row in r <==> row in rows && row.addr != addr
  {
    if |rows| == 0 then []
    else if rows[0].addr == addr then Delete(rows[1..], addr)
    else [rows[0]] + Delete(rows[1..], addr)
  }

  /** UPDATE ... SET addr = to WHERE addr = from, by someone else. */
  function Move(rows: Rows, from: nat, to: nat): (r: Rows)
    ensures |r| == |rows|
    ensures forall i :: 0 <= i < |rows| ==>
              r[i] == if rows[i].addr == from && Select(rows, to).None? then rows[i].(addr := to) else rows[i]
  {
    seq(|rows|, i requires 0 <= i < |rows| =>
      if rows[i].addr == from && Select(rows, to).None? then rows[i].(addr := to) else rows[i])
  }

  /** The row at addr with another ID. */
  function Reidentify(rows: Rows, addr: nat, id: Id): (r: Rows)
    ensures |r| == |rows|
    ensures forall i :: 0 <= i < |rows| ==> r[i] == if rows[i].addr == addr then rows[i].(id := id) else rows[i]
  {
    seq(|rows|, i requires 0 <= i < |rows| => if rows[i].addr == addr then rows[i].(id := id) else rows[i])
  }

  /** The ID that the row at addr would get by a new unique part. */
  function NewId(rows: Rows, addr: nat, uid: Word): Id {
    if Select(rows, addr).None? then Id(0, 0, uid) else Select(rows, addr).value.id.(uid := uid)
  }

  /** Whether it gets it: nobody else may have it, unless with the same firmware revision. */
  predicate Renames(rows: Rows, addr: nat, uid: Word) {
    && Select(rows, addr).Some? && Select(rows, addr).value.id.uid != uid
    && var row, other := Select(rows, addr).value, SelectId(rows, NewId(rows, addr, uid));
    && (other.None? || (row.firmware.Some? && other.value.firmware == row.firmware))
  }

  /** UPDATE ... SET id = (man, prod, uid) WHERE addr = addr, by someone else: a row of the same
      firmware revision that has that ID gives way (sql/triggers.sql, before_addresses_change). */
  function Rename(rows: Rows, addr: nat, uid: Word): Rows {
    if !Renames(rows, addr, uid) then rows
    else
      var id := NewId(rows, addr, uid);
      var other := SelectId(rows, id);
      Reidentify(if other.Some? then Delete(rows, other.value.addr) else rows, addr, id)
  }

  // ----- what the table keeps -----

  /** No two rows share an address or a hardware ID. */
  predicate Good(rows: Rows) {
    forall i, j :: 0 <= i < j < |rows| ==> rows[i].addr != rows[j].addr && rows[i].id != rows[j].id
  }

  /** id is in the table under addr. */
  predicate Has(rows: Rows, addr: nat, id: Id) {
    exists i :: 0 <= i < |rows| && rows[i].addr == addr && rows[i].id == id
  }

  lemma {:induction false} HasOne(rows: Rows, a: nat, b: nat, i: Id, j: Id)
    requires Good(rows) && Has(rows, a, i) && Has(rows, b, j)
    ensures a == b <==> i == j
  {
  }

  /** The same addresses and IDs, row by row. */
  predicate SameKeys(rows: Rows, next: Rows) {
    |next| == |rows| && forall i :: 0 <= i < |rows| ==> next[i].addr == rows[i].addr && next[i].id == rows[i].id
  }

  lemma {:induction false} SameKeysKeep(rows: Rows, next: Rows)
    requires SameKeys(rows, next)
    ensures Good(rows) ==> Good(next)
    ensures forall a, i :: Has(next, a, i) <==> Has(rows, a, i)
  {
    forall a, i ensures Has(next, a, i) <==> Has(rows, a, i) {
      if Has(rows, a, i) {
        var k :| 0 <= k < |rows| && rows[k].addr == a && rows[k].id == i;
        assert next[k].addr == a && next[k].id == i;
      }
      if Has(next, a, i) {
        var k :| 0 <= k < |next| && next[k].addr == a && next[k].id == i;
        assert rows[k].addr == a && rows[k].id == i;
      }
    }
  }

  /** Storing a changed row back under its own address and ID. */
  lemma {:induction false} UpdateKeepsKeys(rows: Rows, row: Row, node: Row)
    requires Good(rows) && row in rows && node.addr == row.addr && node.id == row.id
    ensures SameKeys(rows, Update(rows, node))
  {
    var k :| 0 <= k < |rows| && rows[k] == row;
    forall i | 0 <= i < |rows| ensures Update(rows, node)[i].id == rows[i].id {
      if rows[i].addr == node.addr { assert i == k; }
    }
  }

  lemma {:induction false} InsertKeeps(rows: Rows, node: Row)
    requires Good(rows) && Accepts(rows, 0, node)
    ensures Good(Set(rows, 0, node))
    ensures forall a, i :: Has(Set(rows, 0, node), a, i) <==> Has(rows, a, i) || (a == node.addr && i == node.id)
  {
    var next := Set(rows, 0, node);
    assert forall i :: 0 <= i < |rows| ==> next[i] == rows[i] && rows[i] in rows;
    assert next[|rows|] == Stored(node);
    forall a, i ensures Has(next, a, i) <==> Has(rows, a, i) || (a == node.addr && i == node.id) {
      if Has(rows, a, i) {
        var k :| 0 <= k < |rows| && rows[k].addr == a && rows[k].id == i;
        assert next[k].addr == a && next[k].id == i;
      }
      if Has(next, a, i) {
        var k :| 0 <= k < |next| && next[k].addr == a && next[k].id == i;
        assert k < |rows| ==> rows[k].addr == a && rows[k].id == i;
      }
    }
  }

  lemma {:induction false} MoveKeeps(rows: Rows, from: nat, to: nat)
    requires Good(rows)
    ensures Good(Move(rows, from, to))
    ensures forall a, i :: Has(rows, a, i) && a != from ==> Has(Move(rows, from, to), a, i)
  {
    var next := Move(rows, from, to);
    assert forall i :: 0 <= i < |rows| ==> rows[i] in rows;
    forall a, i | Has(rows, a, i) && a != from ensures Has(next, a, i) {
      var k :| 0 <= k < |rows| && rows[k].addr == a && rows[k].id == i;
      assert next[k].addr == a && next[k].id == i;
    }
  }

  lemma {:induction false} ReidentifyKeeps(rows: Rows, addr: nat, id: Id)
    requires Good(rows) && SelectId(rows, id).None?
    ensures Good(Reidentify(rows, addr, id))
    ensures forall a, i :: Has(rows, a, i) && a != addr ==> Has(Reidentify(rows, addr, id), a, i)
  {
    var next := Reidentify(rows, addr, id);
    assert forall i :: 0 <= i < |rows| ==> rows[i] in rows;
    forall a, i | Has(rows, a, i) && a != addr ensures Has(next, a, i) {
      var k :| 0 <= k < |rows| && rows[k].addr == a && rows[k].id == i;
      assert next[k].addr == a && next[k].id == i;
    }
  }

  lemma {:induction false} DeleteKeeps(rows: Rows, addr: nat)
    requires Good(rows)
    ensures Good(Delete(rows, addr))
    ensures forall a, i :: Has(rows, a, i) && a != addr ==> Has(Delete(rows, addr), a, i)
  {
    DeleteGood(rows, addr);
    var next := Delete(rows, addr);
    forall a, i | Has(rows, a, i) && a != addr ensures Has(next, a, i) {
      var k :| 0 <= k < |rows| && rows[k].addr == a && rows[k].id == i;
      assert rows[k] in next;
    }
  }

  lemma {:induction false} DeleteGood(rows: Rows, addr: nat)
    requires Good(rows)
    ensures Good(Delete(rows, addr))
  {
    if |rows| > 0 {
      var rest := Delete(rows[1..], addr);
      DeleteGood(rows[1..], addr);
      if rows[0].addr != addr {
        forall j | 0 <= j < |rest| ensures rest[j].addr != rows[0].addr && rest[j].id != rows[0].id {
          assert rest[j] in rest;
          assert rest[j] in rows[1..];
        }
      }
    }
  }

  /** The address whose row gives way to a new ID, or whose row gets it. */
  predicate RenameTakes(rows: Rows, addr: nat, uid: Word, a: nat) {
    && Renames(rows, addr, uid)
    && (a == addr || (SelectId(rows, NewId(rows, addr, uid)).Some?
                      && SelectId(rows, NewId(rows, addr, uid)).value.addr == a))
  }

  lemma {:induction false} RenameKeeps(rows: Rows, addr: nat, uid: Word)
    requires Good(rows)
    ensures Good(Rename(rows, addr, uid))
    ensures forall a, i :: Has(rows, a, i) && !RenameTakes(rows, addr, uid, a) ==> Has(Rename(rows, addr, uid), a, i)
  {
    if Renames(rows, addr, uid) {
      var id := NewId(rows, addr, uid);
      var other := SelectId(rows, id);
      if other.Some? {
        DeleteKeeps(rows, other.value.addr);
        GivesWay(rows, other.value);
        ReidentifyKeeps(Delete(rows, other.value.addr), addr, id);
      } else {
        ReidentifyKeeps(rows, addr, id);
      }
    }
  }

  lemma {:induction false} GivesWay(rows: Rows, row: Row)
    requires Good(rows) && row in rows
    ensures SelectId(Delete(rows, row.addr), row.id).None?
  {
    Found(rows, row);
    forall other | other in Delete(rows, row.addr) ensures other.id != row.id {
      Found(rows, other);
    }
  }

  // ----- reading back -----

  /** In a good table a row is found under its address and under its ID. */
  lemma {:induction false} Found(rows: Rows, row: Row)
    requires Good(rows) && row in rows
    ensures Select(rows, row.addr) == Some(row) && SelectId(rows, row.id) == Some(row)
  {
    var k :| 0 <= k < |rows| && rows[k] == row;
    var a, i := Select(rows, row.addr).value, SelectId(rows, row.id).value;
    var l :| 0 <= l < |rows| && rows[l] == a;
    var m :| 0 <= m < |rows| && rows[m] == i;
    assert l == k && m == k;
  }

  function Min(a: int, b: int): int { if a < b then a else b }

  /** db_getnode gives a node exactly if it is the row of that address, seen at the present at the
      latest. */
  lemma {:induction false} GetExactly(rows: Rows, addr: nat, now: int, node: Row)
    requires Good(rows)
    ensures Get(rows, addr, now) == Some(node)
       <==> exists row :: row in rows && row.addr == addr && node == row.(lastSeen := Min(row.lastSeen, now))
  {
    if row :| row in rows && row.addr == addr && node == row.(lastSeen := Min(row.lastSeen, now)) {
      Found(rows, row);
    }
  }

  /** db_nodebyid, the same by ID. */
  lemma {:induction false} ByIdExactly(rows: Rows, id: Id, now: int, node: Row)
    requires Good(rows)
    ensures ById(rows, id, now) == Some(node)
       <==> exists row :: row in rows && row.id == id && node == row.(lastSeen := Min(row.lastSeen, now))
  {
    if row :| row in rows && row.id == id && node == row.(lastSeen := Min(row.lastSeen, now)) {
      Found(rows, row);
    }
  }

  /** A fetched row stored back, or a row inserted, is what the two queries then give, without its
      VALID bit; every other address and ID gives what it gave before. */
  lemma {:induction false} SetThenGet(rows: Rows, addr: nat, node: Row, now: int)
    requires Good(rows) && Accepts(rows, addr, node) && (addr != 0 ==> Has(rows, node.addr, node.id))
    ensures var next := Set(rows, addr, node);
            && Get(next, node.addr, now) == ById(next, node.id, now) == Some(Parse(Stored(node), now))
            && (forall a :: a != node.addr ==> Get(next, a, now) == Get(rows, a, now))
            && (forall i :: i != node.id ==> ById(next, i, now) == ById(rows, i, now))
  {
    var next := Set(rows, addr, node);
    NextGood(rows, addr, node);
    Found(next, Stored(node));
    forall a | a != node.addr ensures Select(next, a) == Select(rows, a) {
      if Select(rows, a).Some? { Found(next, Select(rows, a).value); }
      if Select(next, a).Some? { Found(rows, Select(next, a).value); }
    }
    forall i | i != node.id ensures SelectId(next, i) == SelectId(rows, i) {
      if SelectId(rows, i).Some? { Found(next, SelectId(rows, i).value); }
      if SelectId(next, i).Some? { Found(rows, SelectId(next, i).value); }
    }
  }

  // The rows after a statement that was let through: the others, and the one stored.
  lemma {:induction false} NextGood(rows: Rows, addr: nat, node: Row)
    requires Good(rows) && Accepts(rows, addr, node) && (addr != 0 ==> Has(rows, node.addr, node.id))
    ensures Good(Set(rows, addr, node))
    ensures forall row :: row in Set(rows, addr, node)
                     <==> row == Stored(node) || (row in rows && row.addr != node.addr && row.id != node.id)
  {
    var next := Set(rows, addr, node);
    if addr == 0 {
      InsertKeeps(rows, node);
      assert forall row :: row in next <==> row in rows || row == Stored(node);
    } else {
      var k :| 0 <= k < |rows| && rows[k].addr == node.addr && rows[k].id == node.id;
      UpdateKeepsKeys(rows, rows[k], node);
      SameKeysKeep(rows, next);
      forall row
        ensures row in next <==> row == Stored(node) || (row in rows && row.addr != node.addr && row.id != node.id)
      {
        UpdateMember(rows, node, k, row);
      }
    }
  }

  lemma {:induction false} UpdateMember(rows: Rows, node: Row, k: nat, row: Row)
    requires Good(rows) && k < |rows| && rows[k].addr == node.addr && rows[k].id == node.id
    ensures row in Update(rows, node)
       <==> row == Stored(node) || (row in rows && row.addr != node.addr && row.id != node.id)
  {
    var next := Update(rows, node);
    if row in next {
      var l :| 0 <= l < |next| && next[l] == row;
      assert rows[l] in rows;
    }
    if row == Stored(node) {
      assert next[k] == row;
    } else if row in rows && row.addr != node.addr && row.id != node.id {
      var l :| 0 <= l < |rows| && rows[l] == row;
      assert next[l] == row;
    }
  }
}
