/** The address server: its handlers as atomic steps over the address table, and the address
    replies they broadcast (address/main.c, address/db.c). */
module AddressServer {
  import opened Basics
  import opened AddressTable

  /** An address response message. */
  datatype Reply = Reply(addr: nat, id: Id, engine: nat, services: Services)

  /** A node as the MambaNet library reports it. */
  datatype Node = Node(addr: nat, id: Id, engine: nat, services: Services)

  /** What the server handles, with the clock readings it takes on the way and the fields it
      leaves uninitialised; Removed, Moved and Renamed are other programs changing the table. */
  datatype Event =
    | Info(addr: nat, id: Id, services: Services, read: int, check: int, store: int, firmware: Option<int>)
    | Online(node: Node, readAddr: int, readId: int, store: int, setname: bool, requests: int)
    | Offline(addr: nat, read: int)
    | Response(addr: nat, edit: Edit, read: int)
    | Removed(addr: nat)
    | RemovedNotice(status: Option<Node>)
    | Moved(from: nat, to: nat)
    | MovedNotice(myself: bool, to: nat, status: Option<Node>, read: int)
    | Renamed(addr: nat, uid: Word)

  /** What a node's response, or its silence, changes in its row: mSensorDataResponse (hardware
      parent, firmware major revision), mActuatorDataResponse, mAcknowledgeTimeout. */
  datatype Edit = Parent(id: Id) | Major(number: int) | Name(name: seq<Byte>) | Retry {
    function Apply(node: Row): Row {
      match this
      case Parent(id) => node.(parent := id)
      case Major(number) => node.(firmware := if number == -1 then None else Some(number))
      case Name(name) => node.(name := name, refresh := false)
      case Retry => node.(setname := true)
    }
  }

  /** The table after an event, the replies sent, and how many of the server's statements the keys
      of the table refused. */
  datatype Result = Result(state: Rows, out: seq<Reply>, refused: nat)

  function Quiet(rows: Rows, out: seq<Reply>): Result {
    Result(rows, out, 0)
  }

  function Refusal(rows: Rows, addr: nat, node: Row): nat {
    if Accepts(rows, addr, node) then 0 else 1
  }

  /** One db_setnode. */
  function Put(rows: Rows, addr: nat, node: Row, out: seq<Reply>): Result {
    Result(Set(rows, addr, node), out, Refusal(rows, addr, node))
  }

  /** set_address */
  function Respond(addr: nat, id: Id, engine: nat, services: Services): Reply {
    Reply(addr, id, engine, services.(valid := addr != 0))
  }

  function RespondRow(addr: nat, row: Row): Reply {
    Respond(addr, row.id, row.engine, row.services)
  }

  function RespondNode(status: Option<Node>): seq<Reply> {
    if status.None? then [] else [Respond(0, status.value.id, status.value.engine, status.value.services)]
  }

  predicate RealId(id: Id) {
    id.man != 0 && id.prod != 0 && id.uid != 0
  }

  // ----- the least free address -----

  predicate IsFirstFree(rows: Rows, addr: nat) {
    addr >= 1 && Select(rows, addr).None? && forall b :: 1 <= b < addr ==> Select(rows, b).Some?
  }

  function Numbers(n: nat): (s: set<nat>)
    ensures |s| == n
    ensures forall b :: b in s <==> 1 <= b <= n
  {
    if n == 0 then {} else Numbers(n - 1) + {n}
  }

  lemma {:induction false} Pigeonhole(rows: Rows, n: nat)
    requires forall b :: 1 <= b <= n ==> Select(rows, b).Some?
    ensures n <= |rows|
  {
    Covered(rows, Numbers(n));
  }

  lemma {:induction false} Covered(rows: Rows, s: set<nat>)
    requires forall b :: b in s ==> Select(rows, b).Some?
    ensures |s| <= |rows|
  {
    if |rows| == 0 {
      assert forall b :: Select(rows, b).None?;
      assert s == {};
    } else {
      Covered(rows[1..], s - {rows[0].addr});
    }
  }

  /** db_newaddress */
  function FirstFree(rows: Rows, addr: nat): (free: nat)
    requires addr >= 1 && forall b :: 1 <= b < addr ==> Select(rows, b).Some?
    ensures IsFirstFree(rows, free) && free <= |rows| + 1
    decreases |rows| + 1 - addr
  {
    Pigeonhole(rows, addr - 1);
    if Select(rows, addr).None? then addr
    else
      Pigeonhole(rows, addr);
      FirstFree(rows, addr + 1)
  }

  lemma {:induction false} OneFirstFree(rows: Rows, a: nat, b: nat)
    requires IsFirstFree(rows, a) && IsFirstFree(rows, b)
    ensures a == b
  {
  }

  // ----- the handlers -----

  /** The row for an ID the table does not have. */
  function NewRow(rows: Rows, e: Event): Row
    requires e.Info?
  {
    Row(FirstFree(rows, 1), [], e.id, 0, e.services, false, Id(0, 0, 0), false, true, e.store, e.store, 1, e.firmware)
  }

  // An address request from an ID the table has is answered if its row was last seen more than
  // 5 seconds ago.

  function Answered(node: Row, check: int, store: int): Row {
    if check - node.lastSeen > 5 then node.(lastSeen := store, requests := node.requests + 1)
    else node.(requests := node.requests + 1)
  }

  function Answers(node: Row, check: int): seq<Reply> {
    if check - node.lastSeen > 5 then [RespondRow(node.addr, node)] else []
  }

  /** mReceiveMessage, for an address information message. */
  function HandleInfo(rows: Rows, e: Event): Result
    requires e.Info?
  {
    if e.addr > 0 && e.services.valid then
      match Get(rows, e.addr, e.read)
      case Some(node) => Put(rows, node.addr, node.(lastSeen := e.store), [])
      case None => Quiet(rows, [])
    else if !RealId(e.id) then Quiet(rows, [])
    else
      match ById(rows, e.id, e.read)
      case Some(node) => Put(rows, node.addr, Answered(node, e.check, e.store), Answers(node, e.check))
      case None => Put(rows, 0, NewRow(rows, e), [RespondRow(NewRow(rows, e).addr, NewRow(rows, e))])
  }

  /** The row for a node that came online on its own. */
  function OnlineRow(e: Event): Row
    requires e.Online?
  {
    Row(e.node.addr, [], e.node.id, e.node.engine, e.node.services, true, Id(0, 0, 0), e.setname, true,
        e.store, e.store, e.requests, None)
  }

  predicate Differs(node: Row, n: Node) {
    !node.active || node.services != n.services || node.engine != n.engine
  }

  function Refreshed(node: Row, n: Node): Row {
    node.(active := true, services := n.services, engine := n.engine)
  }

  /** A node online in the row it has: up to two statements. */
  function Welcome(rows: Rows, node: Row, n: Node): Result {
    if Differs(node, n) then
      var current := Refreshed(node, n);
      var first := Set(rows, n.addr, current);
      if current.setname then
        Result(Set(first, n.addr, current.(setname := false)), [],
               Refusal(rows, n.addr, current) + Refusal(first, n.addr, current.(setname := false)))
      else
        Put(rows, n.addr, current, [])
    else if node.setname then Put(rows, n.addr, node.(setname := false), [])
    else Quiet(rows, [])
  }

  /** node_online, as mAddressTableChange calls it. */
  function HandleOnline(rows: Rows, e: Event): Result
    requires e.Online?
  {
    var n := e.node;
    if !RealId(n.id) then Quiet(rows, [])
    else
      var byAddr, byId := Get(rows, n.addr, e.readAddr), ById(rows, n.id, e.readId);
      if byAddr != byId then Quiet(rows, [Respond(0, n.id, n.engine, n.services)])
      else if byAddr.None? then Put(rows, 0, OnlineRow(e), [])
      else Welcome(rows, byAddr.value, n)
  }

  function HandleResponse(rows: Rows, addr: nat, edit: Edit, read: int): Result {
    match Get(rows, addr, read)
    case Some(node) => Put(rows, addr, edit.Apply(node), [])
    case None => Quiet(rows, [])
  }

  /** mAddressTableChange, for a node gone offline. */
  function HandleOffline(rows: Rows, addr: nat, read: int): Result {
    match Get(rows, addr, read)
    case Some(node) => if node.active then Put(rows, addr, node.(active := false), []) else Quiet(rows, [])
    case None => Quiet(rows, [])
  }

  function HandleMovedNotice(rows: Rows, e: Event): Result
    requires e.MovedNotice?
  {
    match Get(rows, e.to, e.read)
    case Some(node) =>
      if e.myself then Quiet(rows, []) else Quiet(rows, RespondNode(e.status) + [RespondRow(e.to, node)])
    case None => Quiet(rows, [])
  }

  function Handle(rows: Rows, e: Event): Result {
    match e
    case Info(_, _, _, _, _, _, _) => HandleInfo(rows, e)
    case Online(_, _, _, _, _, _) => HandleOnline(rows, e)
    case Offline(addr, read) => HandleOffline(rows, addr, read)
    case Response(addr, edit, read) => HandleResponse(rows, addr, edit, read)
    case Removed(addr) => Quiet(Delete(rows, addr), [])
    case RemovedNotice(status) => Quiet(rows, RespondNode(status))
    case Moved(from, to) => Quiet(Move(rows, from, to), [])
    case MovedNotice(_, _, _, _) => HandleMovedNotice(rows, e)
    case Renamed(addr, uid) => Quiet(Rename(rows, addr, uid), [])
  }

  // ----- what every step keeps -----

  /** The event takes the address, or the ID that went with it, away from the row that has it. */
  predicate Takes(rows: Rows, e: Event, addr: nat) {
    || (e.Removed? && e.addr == addr)
    || (e.Moved? && e.from == addr)
    || (e.Renamed? && RenameTakes(rows, e.addr, e.uid, addr))
  }

  ghost predicate KeepsTable(rows: Rows, e: Event, next: Rows) {
    && Good(next)
    && forall a, i :: Has(rows, a, i) && !Takes(rows, e, a) ==> Has(next, a, i)
  }

  lemma {:induction false} SetKeeps(rows: Rows, e: Event, row: Row, node: Row)
    requires Good(rows) && row in rows && node.addr == row.addr && node.id == row.id
    ensures KeepsTable(rows, e, Set(rows, node.addr, node))
    ensures Has(Set(rows, node.addr, node), node.addr, node.id)
    ensures Accepts(rows, node.addr, node) <==> node.addr != 0
  {
    Found(rows, row);
    InRows(rows, row);
    if node.addr != 0 {
      UpdateKeepsKeys(rows, row, node);
      SameKeysKeep(rows, Update(rows, node));
    }
  }

  predicate Truthful(next: Rows, replies: seq<Reply>) {
    forall r :: r in replies && r.addr != 0 ==> Has(next, r.addr, r.id)
  }

  lemma {:induction false} InRows(rows: Rows, row: Row)
    requires row in rows
    ensures Has(rows, row.addr, row.id)
  {
  }

  lemma {:induction false} TruthfulReply(next: Rows, node: Row, check: int)
    requires Has(next, node.addr, node.id)
    ensures Truthful(next, Answers(node, check))
  {
  }

  lemma {:induction false} NewRowKeeps(rows: Rows, e: Event)
    requires e.Info? && Good(rows) && SelectId(rows, e.id).None?
    ensures Accepts(rows, 0, NewRow(rows, e))
    ensures KeepsTable(rows, e, Set(rows, 0, NewRow(rows, e)))
    ensures Has(Set(rows, 0, NewRow(rows, e)), NewRow(rows, e).addr, e.id)
  {
    InsertKeeps(rows, NewRow(rows, e));
  }

  lemma {:induction false} InfoKeeps(rows: Rows, e: Event)
    requires e.Info? && Good(rows)
    ensures KeepsTable(rows, e, HandleInfo(rows, e).state) && Truthful(HandleInfo(rows, e).state, HandleInfo(rows, e).out)
  {
    if e.addr > 0 && e.services.valid {
      var row := Select(rows, e.addr);
      if row.Some? { SetKeeps(rows, e, row.value, Parse(row.value, e.read).(lastSeen := e.store)); }
    } else if RealId(e.id) {
      var row := SelectId(rows, e.id);
      if row.Some? {
        var node := Parse(row.value, e.read);
        SetKeeps(rows, e, row.value, Answered(node, e.check, e.store));
        TruthfulReply(Set(rows, node.addr, Answered(node, e.check, e.store)), node, e.check);
      } else {
        NewRowKeeps(rows, e);
      }
    }
  }

  lemma {:induction false} ResponseKeeps(rows: Rows, e: Event)
    requires e.Response? && Good(rows)
    ensures KeepsTable(rows, e, HandleResponse(rows, e.addr, e.edit, e.read).state)
  {
    var row := Select(rows, e.addr);
    if row.Some? { SetKeeps(rows, e, row.value, e.edit.Apply(Parse(row.value, e.read))); }
  }

  lemma {:induction false} OfflineKeeps(rows: Rows, e: Event)
    requires e.Offline? && Good(rows)
    ensures KeepsTable(rows, e, HandleOffline(rows, e.addr, e.read).state)
  {
    var row := Select(rows, e.addr);
    if row.Some? { SetKeeps(rows, e, row.value, Parse(row.value, e.read).(active := false)); }
  }

  lemma {:induction false} NoticeKeeps(rows: Rows, e: Event)
    requires e.MovedNotice? && Good(rows)
    ensures HandleMovedNotice(rows, e).state == rows && Truthful(rows, HandleMovedNotice(rows, e).out)
  {
    var row := Select(rows, e.to);
    if row.Some? { InRows(rows, row.value); }
  }

  lemma {:induction false} WelcomeKeeps(rows: Rows, e: Event, row: Row, node: Row, n: Node)
    requires Good(rows) && row in rows && n.addr == node.addr == row.addr && node.id == row.id
    ensures KeepsTable(rows, e, Welcome(rows, node, n).state)
  {
    if Differs(node, n) {
      var current := Refreshed(node, n);
      SetKeeps(rows, e, row, current);
      if current.setname { SetAgain(rows, e, Set(rows, n.addr, current), current.(setname := false)); }
    } else if node.setname {
      SetKeeps(rows, e, row, node.(setname := false));
    }
  }

  lemma {:induction false} SetAgain(rows: Rows, e: Event, first: Rows, node: Row)
    requires KeepsTable(rows, e, first) && Has(first, node.addr, node.id)
    ensures KeepsTable(rows, e, Set(first, node.addr, node))
  {
    var k :| 0 <= k < |first| && first[k].addr == node.addr && first[k].id == node.id;
    SetKeeps(first, RemovedNotice(None), first[k], node);
  }

  lemma {:induction false} OnlineKeeps(rows: Rows, e: Event)
    requires e.Online? && Good(rows)
    ensures KeepsTable(rows, e, HandleOnline(rows, e).state)
  {
    var n := e.node;
    var byAddr, byId := Get(rows, n.addr, e.readAddr), ById(rows, n.id, e.readId);
    if RealId(n.id) && byAddr == byId {
      if byAddr.None? {
        InsertKeeps(rows, OnlineRow(e));
      } else {
        WelcomeKeeps(rows, e, Select(rows, n.addr).value, byAddr.value, n);
      }
    }
  }

  /** Every step keeps the addresses and the IDs apart, keeps every row whose address nobody takes
      away, and answers an ID with no address but its row's. */
  lemma {:induction false} StepKeeps(rows: Rows, e: Event)
    requires Good(rows)
    ensures KeepsTable(rows, e, Handle(rows, e).state) && Truthful(Handle(rows, e).state, Handle(rows, e).out)
  {
    match e
    case Info(_, _, _, _, _, _, _) => InfoKeeps(rows, e);
    case Online(_, _, _, _, _, _) => OnlineKeeps(rows, e);
    case Offline(_, _) => OfflineKeeps(rows, e);
    case Response(_, _, _) => ResponseKeeps(rows, e);
    case Removed(addr) => DeleteKeeps(rows, addr);
    case RemovedNotice(status) =>
    case Moved(from, to) => MoveKeeps(rows, from, to);
    case MovedNotice(_, _, _, _) => NoticeKeeps(rows, e);
    case Renamed(addr, uid) => RenameKeeps(rows, addr, uid);
  }

  // ----- refused statements -----

  /** The event makes the server store back a row it fetched, and that row has the address 0. */
  predicate StoresBackZero(rows: Rows, e: Event) {
    match e
    case Info(addr, id, services, _, _, _, _) =>
      !(addr > 0 && services.valid) && RealId(id) && SelectId(rows, id).Some? && SelectId(rows, id).value.addr == 0
    case Online(n, readAddr, readId, _, _, _) =>
      && n.addr == 0 && RealId(n.id) && Get(rows, 0, readAddr) == ById(rows, n.id, readId)
      && var node := Get(rows, 0, readAddr); node.Some? && (Differs(node.value, n) || node.value.setname)
    case Offline(addr, _) => addr == 0 && Select(rows, 0).Some? && Select(rows, 0).value.active
    case Response(addr, _, _) => addr == 0 && Select(rows, 0).Some?
    case _ => false
  }

  /** The keys of the table refuse a statement of the server exactly when it stores back a row
      whose address is 0, which db_setnode takes for an INSERT; the table is then left as it was. */
  lemma {:induction false} RefusedExactly(rows: Rows, e: Event)
    requires Good(rows)
    ensures Handle(rows, e).refused > 0 <==> StoresBackZero(rows, e)
    ensures Handle(rows, e).refused > 0 ==> Handle(rows, e).state == rows
  {
    match e
    case Info(_, _, _, _, _, _, _) => InfoRefused(rows, e);
    case Online(_, _, _, _, _, _) => OnlineRefused(rows, e);
    case Offline(addr, read) =>
      var row := Select(rows, addr);
      if row.Some? { SetKeeps(rows, e, row.value, Parse(row.value, read).(active := false)); }
    case Response(addr, edit, read) =>
      var row := Select(rows, addr);
      if row.Some? { SetKeeps(rows, e, row.value, edit.Apply(Parse(row.value, read))); }
    case _ =>
  }

  lemma {:induction false} InfoRefused(rows: Rows, e: Event)
    requires e.Info? && Good(rows)
    ensures HandleInfo(rows, e).refused > 0 <==> StoresBackZero(rows, e)
    ensures HandleInfo(rows, e).refused > 0 ==> HandleInfo(rows, e).state == rows
  {
    if e.addr > 0 && e.services.valid {
      var row := Select(rows, e.addr);
      if row.Some? { SetKeeps(rows, e, row.value, Parse(row.value, e.read).(lastSeen := e.store)); }
    } else if RealId(e.id) {
      var row := SelectId(rows, e.id);
      if row.Some? {
        SetKeeps(rows, e, row.value, Answered(Parse(row.value, e.read), e.check, e.store));
      } else {
        NewRowKeeps(rows, e);
      }
    }
  }

  lemma {:induction false} OnlineRefused(rows: Rows, e: Event)
    requires e.Online? && Good(rows)
    ensures HandleOnline(rows, e).refused > 0 <==> StoresBackZero(rows, e)
    ensures HandleOnline(rows, e).refused > 0 ==> HandleOnline(rows, e).state == rows
  {
    var n := e.node;
    var byAddr, byId := Get(rows, n.addr, e.readAddr), ById(rows, n.id, e.readId);
    if RealId(n.id) && byAddr == byId && byAddr.Some? {
      WelcomeRefused(rows, e, Select(rows, n.addr).value, byAddr.value, n);
    }
  }

  lemma {:induction false} WelcomeRefused(rows: Rows, e: Event, row: Row, node: Row, n: Node)
    requires Good(rows) && row in rows && n.addr == node.addr == row.addr && node.id == row.id
    ensures Welcome(rows, node, n).refused > 0 <==> n.addr == 0 && (Differs(node, n) || node.setname)
    ensures Welcome(rows, node, n).refused > 0 ==> Welcome(rows, node, n).state == rows
  {
    var current := Refreshed(node, n);
    SetKeeps(rows, e, row, current);
    var first := Set(rows, n.addr, current);
    var k :| 0 <= k < |first| && first[k].addr == n.addr && first[k].id == node.id;
    SetKeeps(first, e, first[k], current.(setname := false));
    SetKeeps(rows, e, row, node.(setname := false));
  }

  // ----- runs -----

  /** A history of the server: its table before and after each event, and the replies to each. */
  datatype Run = Run(tables: seq<Rows>, events: seq<Event>, replies: seq<seq<Reply>>) {
    predicate Sized() {
      |tables| == |events| + 1 && |replies| == |events|
    }

    predicate Happens(k: nat)
      requires Sized() && k < |events|
    {
      var o := Handle(tables[k], events[k]);
      tables[k + 1] == o.state && replies[k] == o.out
    }

    /** It starts from a good table, and every event is handled. */
    predicate Valid() {
      Sized() && Good(tables[0]) && forall k {:trigger Happens(k)} :: 0 <= k < |events| ==> Happens(k)
    }
  }

  /** In every reachable state no two rows share an address or an ID. */
  lemma {:induction false} AlwaysGood(run: Run, k: nat)
    requires run.Valid() && k <= |run.events|
    ensures Good(run.tables[k])
  {
    if k > 0 {
      AlwaysGood(run, k - 1);
      assert run.Happens(k - 1);
      StepKeeps(run.tables[k - 1], run.events[k - 1]);
    }
  }

  lemma {:induction false} Persists(run: Run, i: nat, j: nat, addr: nat, id: Id)
    requires run.Valid() && i <= j <= |run.events|
    requires Has(run.tables[i], addr, id) && forall k :: i <= k < j ==> !Takes(run.tables[k], run.events[k], addr)
    ensures Has(run.tables[j], addr, id)
    decreases j - i
  {
    if i < j {
      AlwaysGood(run, i);
      assert run.Happens(i);
      StepKeeps(run.tables[i], run.events[i]);
      Persists(run, i + 1, j, addr, id);
    }
  }

  lemma {:induction false} ReplyHasRow(run: Run, k: nat, r: Reply)
    requires run.Valid() && k < |run.events| && r in run.replies[k] && r.addr != 0
    ensures Good(run.tables[k + 1]) && Has(run.tables[k + 1], r.addr, r.id)
    ensures forall addr :: !Takes(run.tables[k], run.events[k], addr)
  {
    AlwaysGood(run, k);
    assert run.Happens(k);
    StepKeeps(run.tables[k], run.events[k]);
  }

  /** Any two non-zero replies carry the same address exactly when they answer the same ID, as long
      as nobody takes the first one's address, or its ID, away in between. */
  lemma {:induction false} OneAddressPerId(run: Run, i: nat, j: nat, r: Reply, q: Reply)
    requires run.Valid() && i <= j < |run.events|
    requires r in run.replies[i] && q in run.replies[j] && r.addr != 0 && q.addr != 0
    requires forall k :: i < k < j ==> !Takes(run.tables[k], run.events[k], r.addr)
    ensures r.addr == q.addr <==> r.id == q.id
  {
    ReplyHasRow(run, i, r);
    ReplyHasRow(run, j, q);
    Persists(run, i + 1, j + 1, r.addr, r.id);
    HasOne(run.tables[j + 1], r.addr, q.addr, r.id, q.id);
  }

  // ----- the rate of replies -----

  /** Every clock reading the event takes is at least T. */
  predicate Since(e: Event, T: int) {
    match e
    case Info(_, _, _, read, check, store, _) => read >= T && check >= T && store >= T
    case Online(_, readAddr, readId, store, _, _) => readAddr >= T && readId >= T && store >= T
    case Offline(_, read) => read >= T
    case Response(_, _, read) => read >= T
    case MovedNotice(_, _, _, read) => read >= T
    case _ => true
  }

  predicate SeenSince(rows: Rows, id: Id, T: int) {
    forall row :: row in rows && row.id == id ==> row.lastSeen >= T
  }

  lemma {:induction false} SetSeen(rows: Rows, addr: nat, node: Row, id: Id, T: int)
    requires SeenSince(rows, id, T) && (node.id == id ==> node.lastSeen >= T)
    ensures SeenSince(Set(rows, addr, node), id, T)
  {
  }

  lemma {:induction false} InfoSeen(rows: Rows, e: Event, id: Id, T: int)
    requires e.Info? && SeenSince(rows, id, T) && Since(e, T)
    ensures SeenSince(HandleInfo(rows, e).state, id, T)
  {
    if e.addr > 0 && e.services.valid {
      var row := Select(rows, e.addr);
      if row.Some? { SetSeen(rows, row.value.addr, Parse(row.value, e.read).(lastSeen := e.store), id, T); }
    } else if RealId(e.id) {
      var row := SelectId(rows, e.id);
      if row.Some? {
        SetSeen(rows, row.value.addr, Answered(Parse(row.value, e.read), e.check, e.store), id, T);
      } else {
        SetSeen(rows, 0, NewRow(rows, e), id, T);
      }
    }
  }

  lemma {:induction false} OnlineSeen(rows: Rows, e: Event, id: Id, T: int)
    requires e.Online? && SeenSince(rows, id, T) && Since(e, T)
    ensures SeenSince(HandleOnline(rows, e).state, id, T)
  {
    var n := e.node;
    var byAddr, byId := Get(rows, n.addr, e.readAddr), ById(rows, n.id, e.readId);
    if RealId(n.id) && byAddr == byId {
      if byAddr.None? {
        SetSeen(rows, 0, OnlineRow(e), id, T);
      } else {
        WelcomeSeen(rows, byAddr.value, n, id, T);
      }
    }
  }

  lemma {:induction false} WelcomeSeen(rows: Rows, node: Row, n: Node, id: Id, T: int)
    requires SeenSince(rows, id, T) && (node.id == id ==> node.lastSeen >= T)
    ensures SeenSince(Welcome(rows, node, n).state, id, T)
  {
    var current := Refreshed(node, n);
    SetSeen(rows, n.addr, current, id, T);
    SetSeen(Set(rows, n.addr, current), n.addr, current.(setname := false), id, T);
    SetSeen(rows, n.addr, node.(setname := false), id, T);
  }

  lemma {:induction false} MoveSeen(rows: Rows, from: nat, to: nat, id: Id, T: int)
    requires SeenSince(rows, id, T)
    ensures SeenSince(Move(rows, from, to), id, T)
  {
    var next := Move(rows, from, to);
    forall row | row in next && row.id == id ensures row.lastSeen >= T {
      var k :| 0 <= k < |next| && next[k] == row;
      assert rows[k] in rows;
    }
  }

  lemma {:induction false} RenameSeen(rows: Rows, addr: nat, uid: Word, id: Id, T: int)
    requires SeenSince(rows, id, T) && (Renames(rows, addr, uid) ==> NewId(rows, addr, uid) != id)
    ensures SeenSince(Rename(rows, addr, uid), id, T)
  {
    if Renames(rows, addr, uid) {
      var other := SelectId(rows, NewId(rows, addr, uid));
      var kept := if other.Some? then Delete(rows, other.value.addr) else rows;
      var next := Reidentify(kept, addr, NewId(rows, addr, uid));
      forall row | row in next && row.id == id ensures row.lastSeen >= T {
        var k :| 0 <= k < |next| && next[k] == row;
        assert kept[k] in kept && kept[k] in rows;
      }
    }
  }

  /** The event removes id's row, or changes which row has that ID. */
  predicate Removes(rows: Rows, e: Event, id: Id) {
    || (e.Removed? && Has(rows, e.addr, id))
    || (e.Renamed? && Renames(rows, e.addr, e.uid) && (Has(rows, e.addr, id) || NewId(rows, e.addr, e.uid) == id))
  }

  lemma {:induction false} StepSeen(rows: Rows, e: Event, id: Id, T: int)
    requires SeenSince(rows, id, T) && Since(e, T) && !Removes(rows, e, id)
    ensures SeenSince(Handle(rows, e).state, id, T)
  {
    match e
    case Info(_, _, _, _, _, _, _) => InfoSeen(rows, e, id, T);
    case Online(_, _, _, _, _, _) => OnlineSeen(rows, e, id, T);
    case Offline(addr, read) =>
      var row := Select(rows, addr);
      if row.Some? { SetSeen(rows, addr, Parse(row.value, read).(active := false), id, T); }
    case Response(addr, edit, read) =>
      var row := Select(rows, addr);
      if row.Some? { SetSeen(rows, addr, edit.Apply(Parse(row.value, read)), id, T); }
    case Moved(from, to) => MoveSeen(rows, from, to, id, T);
    case Renamed(addr, uid) => RenameSeen(rows, addr, uid, id, T);
    case _ =>
  }

  lemma {:induction false} StaysSeen(run: Run, i: nat, j: nat, id: Id, T: int)
    requires run.Valid() && i <= j <= |run.events| && SeenSince(run.tables[i], id, T)
    requires forall k :: i <= k < j ==> Since(run.events[k], T) && !Removes(run.tables[k], run.events[k], id)
    ensures SeenSince(run.tables[j], id, T)
    decreases j - i
  {
    if i < j {
      assert run.Happens(i);
      StepSeen(run.tables[i], run.events[i], id, T);
      StaysSeen(run, i + 1, j, id, T);
    }
  }

  predicate Known(rows: Rows, id: Id) {
    exists row :: row in rows && row.id == id
  }

  lemma {:induction false} KnownHas(rows: Rows, id: Id)
    ensures Known(rows, id) <==> exists addr :: Has(rows, addr, id)
  {
    if row :| row in rows && row.id == id { InRows(rows, row); }
    if addr :| Has(rows, addr, id) {
      var k :| 0 <= k < |rows| && rows[k].addr == addr && rows[k].id == id;
      assert rows[k] in rows;
    }
  }

  lemma {:induction false} StepKnown(rows: Rows, e: Event, id: Id)
    requires Good(rows) && Known(rows, id) && !Removes(rows, e, id)
    ensures Known(Handle(rows, e).state, id)
  {
    var row :| row in rows && row.id == id;
    InRows(rows, row);
    var next := Handle(rows, e).state;
    if e.Moved? {
      var k :| 0 <= k < |rows| && rows[k] == row;
      assert next[k] in next && next[k].id == id;
    } else {
      StepKeeps(rows, e);
      NotTaken(rows, e, row);
      assert Has(next, row.addr, id);
      KnownHas(next, id);
    }
  }

  lemma {:induction false} NotTaken(rows: Rows, e: Event, row: Row)
    requires Good(rows) && row in rows && !Removes(rows, e, row.id) && !e.Moved?
    ensures !Takes(rows, e, row.addr)
  {
    Found(rows, row);
    InRows(rows, row);
  }

  lemma {:induction false} StaysKnown(run: Run, i: nat, j: nat, id: Id)
    requires run.Valid() && i <= j <= |run.events| && Known(run.tables[i], id)
    requires forall k :: i <= k < j ==> !Removes(run.tables[k], run.events[k], id)
    ensures Known(run.tables[j], id)
    decreases j - i
  {
    if i < j {
      AlwaysGood(run, i);
      assert run.Happens(i);
      StepKnown(run.tables[i], run.events[i], id);
      StaysKnown(run, i + 1, j, id);
    }
  }

  /** An answered request leaves its row marked with the time it stored. */
  lemma {:induction false} AnswerStamps(rows: Rows, e: Event, r: Reply)
    requires Good(rows) && e.Info? && r in HandleInfo(rows, e).out && r.addr != 0
    ensures Known(HandleInfo(rows, e).state, r.id) && SeenSince(HandleInfo(rows, e).state, r.id, e.store)
  {
    var next := HandleInfo(rows, e).state;
    var row := SelectId(rows, e.id);
    if row.Some? {
      var node := Answered(Parse(row.value, e.read), e.check, e.store);
      SetKeeps(rows, e, row.value, node);
      StampRow(rows, row.value, node);
    } else {
      NewRowKeeps(rows, e);
      assert next[|rows|] == Stored(NewRow(rows, e)) && next[|rows|] in next;
    }
  }

  lemma {:induction false} StampRow(rows: Rows, row: Row, node: Row)
    requires Good(rows) && row in rows && node.addr == row.addr && node.id == row.id
    ensures Known(Update(rows, node), row.id) && SeenSince(Update(rows, node), row.id, node.lastSeen)
  {
    var next := Update(rows, node);
    var k :| 0 <= k < |rows| && rows[k] == row;
    assert next[k] in next && next[k].id == row.id;
    forall other | other in next && other.id == row.id ensures other.lastSeen >= node.lastSeen {
      var l :| 0 <= l < |next| && next[l] == other;
      assert l == k;
    }
  }

  /** A request of an ID seen at T or later is answered only more than 5 seconds after T. */
  lemma {:induction false} AnswerWaits(rows: Rows, e: Event, r: Reply, T: int)
    requires e.Info? && r in HandleInfo(rows, e).out && Since(e, T)
    requires Known(rows, r.id) && SeenSince(rows, r.id, T)
    ensures e.check > T + 5
  {
  }

  /** With a clock that does not go back, after a non-zero answer the same ID is answered again only
      more than 5 seconds later, as long as its row stays. */
  lemma {:induction false} AnswersApart(run: Run, i: nat, j: nat, r: Reply, q: Reply)
    requires run.Valid() && i < j < |run.events| && run.events[i].Info? && run.events[j].Info?
    requires r in run.replies[i] && q in run.replies[j] && r.id == q.id && r.addr != 0
    requires forall k :: i < k <= j ==> Since(run.events[k], run.events[i].store)
    requires forall k :: i < k < j ==> !Removes(run.tables[k], run.events[k], r.id)
    ensures run.events[j].check > run.events[i].store + 5
  {
    var T := run.events[i].store;
    AlwaysGood(run, i);
    assert run.Happens(i) && run.Happens(j);
    AnswerStamps(run.tables[i], run.events[i], r);
    StaysSeen(run, i + 1, j, r.id, T);
    StaysKnown(run, i + 1, j, r.id);
    AnswerWaits(run.tables[j], run.events[j], q, T);
  }

  /** The event is an address request of id, which has no valid address. */
  predicate Requests(e: Event, id: Id) {
    e.Info? && e.id == id && RealId(id) && !(e.addr > 0 && e.services.valid)
  }

  /** The answer to it that carries the address 0, given the row as it is stored. */
  function ZeroAnswer(row: Row, read: int, check: int): seq<Reply> {
    if check - Min(row.lastSeen, read) > 5 then [Respond(0, row.id, row.engine, row.services)] else []
  }

  /** A row with the address 0 is never stamped: however many requests its ID makes, the table stays
      the same and each request is judged by the time stored in the first place, so that once it is
      more than 5 seconds past, all are answered, with the address 0, however close together. */
  lemma {:induction false} ZeroAddressNotLimited(run: Run, row: Row, k: nat)
    requires run.Valid() && row in run.tables[0] && row.addr == 0 && k <= |run.events|
    requires forall i :: 0 <= i < |run.events| ==> Requests(run.events[i], row.id)
    ensures run.tables[k] == run.tables[0]
    ensures k < |run.events| ==>
              && Requests(run.events[k], row.id)
              && run.replies[k] == ZeroAnswer(row, run.events[k].read, run.events[k].check)
  {
    if k > 0 {
      ZeroAddressNotLimited(run, row, k - 1);
      assert run.Happens(k - 1);
      ZeroRequest(run.tables[0], run.events[k - 1], row);
    }
    if k < |run.events| {
      assert run.Happens(k);
      ZeroRequest(run.tables[0], run.events[k], row);
    }
  }

  lemma {:induction false} ZeroRequest(rows: Rows, e: Event, row: Row)
    requires Good(rows) && row in rows && row.addr == 0 && Requests(e, row.id)
    ensures Handle(rows, e).state == rows && Handle(rows, e).out == ZeroAnswer(row, e.read, e.check)
  {
    Found(rows, row);
    SetKeeps(rows, e, row, Answered(Parse(row, e.read), e.check, e.store));
  }

  /** After a row is removed its node is told so if it is online, and whenever its ID asks again it is
      answered at once, with the least address that is free then, which it keeps. */
  lemma {:induction false} RemovalReissues(rows: Rows, row: Row, status: Option<Node>, e: Event)
    requires Good(rows) && row in rows && Requests(e, row.id)
    ensures var next := Handle(rows, Removed(row.addr)).state;
            var free := FirstFree(next, 1);
            && Handle(next, RemovedNotice(status)).state == next
            && Handle(next, RemovedNotice(status)).out == (if status.None? then []
                 else [Reply(0, status.value.id, status.value.engine, status.value.services.(valid := false))])
            && Handle(next, e).out == [Reply(free, row.id, 0, e.services.(valid := true))]
            && Has(Handle(next, e).state, free, row.id)
  {
    var next := Delete(rows, row.addr);
    DeleteKeeps(rows, row.addr);
    GivesWay(rows, row);
    NewRowKeeps(next, e);
  }

  /** The server's handlers, each under the database lock. */
  class Server {
    var rows: Rows          // the table "addresses"
    var sent: seq<Reply>    // every address response broadcast
    ghost var refused: nat  // how many statements the table's keys refused

    constructor (table: Rows)
      ensures rows == table && sent == [] && refused == 0
    {
      rows, sent, refused := table, [], 0;
    }

    /** The handler did what the event's step says. */
    twostate predicate Did(e: Event)
      reads this
    {
      && rows == Handle(old(rows), e).state && sent == old(sent) + Handle(old(rows), e).out
      && refused == old(refused) + Handle(old(rows), e).refused
    }

    method GetNode(addr: nat, now: int) returns (node: Option<Row>)
      ensures node == Get(rows, addr, now)
      ensures node.Some? ==> node.value.addr == addr && node.value.lastSeen <= now && Has(rows, addr, node.value.id)
      ensures node.None? ==> forall row :: row in rows ==> row.addr != addr
    {
      var row := Select(rows, addr);
      node := if row.None? then None else Some(Parse(row.value, now));
    }

    method NodeById(id: Id, now: int) returns (node: Option<Row>)
      ensures node == ById(rows, id, now)
      ensures node.Some? ==> node.value.id == id && node.value.lastSeen <= now && Has(rows, node.value.addr, id)
      ensures node.None? ==> forall row :: row in rows ==> row.id != id
    {
      var row := SelectId(rows, id);
      node := if row.None? then None else Some(Parse(row.value, now));
    }

    /** db_setnode; the callers ignore what it returns. */
    method SetNode(addr: nat, node: Row) returns (ok: bool)
      modifies this`rows, this`refused
      ensures ok == Accepts(old(rows), addr, node)
      ensures rows == Set(old(rows), addr, node) && refused == old(refused) + Refusal(old(rows), addr, node)
    {
      ok := Accepts(rows, addr, node);
      if !ok {
        refused := refused + 1;
      } else if addr != 0 {
        rows := Update(rows, node);
      } else {
        rows := rows + [Stored(node)];
      }
    }

    /** The least address from 1 that no row has; never more than one past the number of rows. */
    method NewAddress() returns (addr: nat)
      ensures IsFirstFree(rows, addr) && addr <= |rows| + 1
      ensures addr == FirstFree(rows, 1)
    {
      addr := 1;
      while Select(rows, addr).Some?
        invariant addr >= 1 && forall b :: 1 <= b < addr ==> Select(rows, b).Some?
        decreases |rows| + 1 - addr
      {
        Pigeonhole(rows, addr);
        addr := addr + 1;
      }
      Pigeonhole(rows, addr - 1);
      OneFirstFree(rows, addr, FirstFree(rows, 1));
    }

    method SetAddress(addr: nat, id: Id, engine: nat, services: Services)
      modifies this`sent
      ensures sent == old(sent) + [Respond(addr, id, engine, services)]
    {
      var serv := services;
      if addr == 0 {
        serv := serv.(valid := false);
      } else {
        serv := serv.(valid := true);
      }
      sent := sent + [Reply(addr, id, engine, serv)];
    }

    /** mReceiveMessage, for an address information message. */
    method ReceiveMessage(addr: nat, id: Id, services: Services, read: int, check: int, store: int, firmware: Option<int>)
      modifies this
      ensures Did(Info(addr, id, services, read, check, store, firmware))
    {
      if addr > 0 && services.valid {
        var found := GetNode(addr, read);
        if found.Some? {
          var _ := SetNode(found.value.addr, found.value.(lastSeen := store));
        }
        return;
      }
      if id.man == 0 || id.prod == 0 || id.uid == 0 {
        return;
      }
      var known := NodeById(id, read);
      if known.Some? {
        AnswerKnown(known.value, check, store);
      } else {
        var free := NewAddress();
        var node := Row(free, [], id, 0, services, false, Id(0, 0, 0), false, true, store, store, 1, firmware);
        SetAddress(node.addr, node.id, node.engine, node.services);
        var _ := SetNode(0, node);
      }
    }

    method AnswerKnown(known: Row, check: int, store: int)
      modifies this
      ensures sent == old(sent) + Answers(known, check)
      ensures rows == Set(old(rows), known.addr, Answered(known, check, store))
      ensures refused == old(refused) + Refusal(old(rows), known.addr, Answered(known, check, store))
    {
      var node := known;
      if check - node.lastSeen > 5 {
        SetAddress(node.addr, node.id, node.engine, node.services);
        node := node.(lastSeen := store);
      }
      node := node.(requests := node.requests + 1);
      var _ := SetNode(node.addr, node);
    }

    method NodeOnline(n: Node, readAddr: int, readId: int, store: int, setname: bool, requests: int)
      modifies this
      ensures Did(Online(n, readAddr, readId, store, setname, requests))
    {
      if n.id.man != 0 && n.id.prod != 0 && n.id.uid != 0 {
        var byAddr := GetNode(n.addr, readAddr);
        var byId := NodeById(n.id, readId);
        if (byAddr.Some? && byId.None?) || (byAddr.None? && byId.Some?)
           || (byAddr.Some? && byId.Some? && byAddr.value != byId.value) {
          SetAddress(0, n.id, n.engine, n.services);
          return;
        }
        if byAddr.None? {
          var _ := SetNode(0, Row(n.addr, [], n.id, n.engine, n.services, true, Id(0, 0, 0), setname, true,
                         store, store, requests, None));
        } else {
          var node := byAddr.value;
          if !node.active || node.services != n.services || node.engine != n.engine {
            node := node.(active := true, services := n.services, engine := n.engine);
            var _ := SetNode(n.addr, node);
          }
          if node.setname {
            node := node.(setname := false);
            var _ := SetNode(n.addr, node);
          }
        }
      }
    }

    /** mAddressTableChange: a node came online or changed, or the one at an address went offline. */
    method AddressTableChange(before: Option<nat>, after: Option<Node>, readAddr: int, readId: int, store: int,
        setname: bool, requests: int)
      modifies this
      ensures after.Some? ==> Did(Online(after.value, readAddr, readId, store, setname, requests))
      ensures after.None? && before.Some? ==> Did(Offline(before.value, readAddr))
      ensures after.None? && before.None? ==> rows == old(rows) && sent == old(sent)
    {
      if after.Some? {
        NodeOnline(after.value, readAddr, readId, store, setname, requests);
      }
      if before.Some? && after.None? {
        var found := GetNode(before.value, readAddr);
        if found.Some? && found.value.active {
          var _ := SetNode(before.value, found.value.(active := false));
        }
      }
    }

    /** mSensorDataResponse, mActuatorDataResponse and mAcknowledgeTimeout. */
    method StoreResponse(addr: nat, edit: Edit, read: int)
      modifies this
      ensures Did(Response(addr, edit, read))
    {
      var found := GetNode(addr, read);
      if found.Some? {
        var _ := SetNode(addr, edit.Apply(found.value));
      }
    }

    /** db_event_removed: a row was deleted, and the node at its address is or is not online. */
    method EventRemoved(status: Option<Node>)
      modifies this
      ensures Did(RemovedNotice(status))
    {
      if status.Some? {
        SetAddress(0, status.value.id, status.value.engine, status.value.services);
      }
    }

    /** db_event_setaddress: a row was moved to a new address. */
    method EventSetAddress(myself: bool, to: nat, status: Option<Node>, read: int)
      modifies this
      ensures Did(MovedNotice(myself, to, status, read))
    {
      if myself { return; }
      var found := GetNode(to, read);
      if found.None? { return; }
      if status.Some? {
        SetAddress(0, status.value.id, status.value.engine, status.value.services);
      }
      SetAddress(to, found.value.id, found.value.engine, found.value.services);
    }
  }
}
