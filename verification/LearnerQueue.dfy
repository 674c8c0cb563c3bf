/** The learner's request queue, a linked list of which a window at the front is in flight
    (learner/main.c, add_queue, process_queue, remove_queue and the offline loop). */
module LearnerQueue {
  const GET_NUM := 5

  /** act is 0 for sensor data and 1 for object information. */
  datatype Request = Request(act: nat, addr: nat, obj: nat)

  /** struct get_action */
  class Action {
    const request: Request
    var active: bool
    var next: Action?

    constructor (request: Request)
      ensures this.request == request && !active && next == null
    {
      this.request, active, next := request, false, null;
    }
  }

  function Requests(s: seq<Action>): (r: seq<Request>)
    ensures |r| == |s| && forall i :: 0 <= i < |s| ==> r[i] == s[i].request
  {
    seq(|s|, i requires 0 <= i < |s| => s[i].request)
  }

  /** A list without those of its first m nodes that are of one address. */
  function Without(s: seq<Action>, m: nat, addr: nat): (t: seq<Action>)
    ensures |t| <= |s|
  {
    if s == [] then []
    else
      var last := s[|s| - 1];
      Without(s[..|s| - 1], m, addr) + if |s| <= m && last.request.addr == addr then [] else [last]
  }

  // How many of the first m nodes are of other addresses.
  function StillFlying(s: seq<Action>, m: nat, addr: nat): nat {
    if s == [] then 0
    else StillFlying(s[..|s| - 1], m, addr) + if |s| <= m && s[|s| - 1].request.addr != addr then 1 else 0
  }

  class Queue {
    var getQueue: Action?
    var sent: seq<Request>           // what went out on the network, oldest first
    ghost var spine: seq<Action>     // the list
    ghost var flying: nat            // how many of them are in flight
    ghost var added: seq<Request>    // all requests ever added
    ghost var nodes: set<Action>     // all nodes ever made
    ghost var place: map<Action, nat> // where in the list they are

    ghost predicate Linked()
      reads this, nodes
    {
      && getQueue == (if spine == [] then null else spine[0])
      && (forall i :: 0 <= i < |spine| ==> spine[i] in nodes)
      && (forall i :: 0 <= i < |spine| ==> spine[i] in place && place[spine[i]] == i)
      && (forall i {:trigger spine[i].next} :: 0 <= i < |spine| ==>
            spine[i].next == if i + 1 < |spine| then spine[i + 1] else null)
    }

    /** The requests in flight are the first ones, at most GET_NUM of them; every request added was
        sent or waits, in the order of adding. */
    ghost predicate Valid()
      reads this, nodes
    {
      && Linked() && flying <= GET_NUM && flying <= |spine|
      && (forall i :: 0 <= i < |spine| ==> (spine[i].active <==> i < flying))
      && added == sent + Requests(spine[flying..])
    }

    constructor ()
      ensures Valid() && spine == [] && added == []
    {
      getQueue, sent, spine, flying, added, nodes, place := null, [], [], 0, [], {}, map[];
    }

    /** add_queue */
    method Add(request: Request)
      requires Valid()
      modifies this`getQueue, this`spine, this`added, this`nodes, this`place, nodes`next
      ensures Valid() && flying == old(flying) && sent == old(sent)
      ensures |spine| == old(|spine|) + 1 && spine[..old(|spine|)] == old(spine)
      ensures fresh(spine[old(|spine|)]) && spine[old(|spine|)].request == request
      ensures added == old(added) + [request] && fresh(nodes - old(nodes))
    {
      var node := new Action(request);
      AddLast(sent, spine, flying, node);
      Append(node);
      added := added + [request];
    }

    method Append(node: Action)
      requires Linked() && node !in nodes && node.next == null
      modifies this`getQueue, this`spine, this`nodes, this`place, nodes`next
      ensures Linked() && spine == old(spine) + [node] && nodes == old(nodes) + {node}
    {
      if getQueue == null {
        getQueue := node;
      } else {
        var last := Last();
        last.next := node;
      }
      nodes, place := nodes + {node}, place[node := |spine|];
      spine := spine + [node];
    }

    // The walk to the end of the list.
    method Last() returns (last: Action)
      requires Linked() && spine != []
      ensures last == spine[|spine| - 1]
    {
      last := getQueue;
      ghost var i := 0;
      while last.next != null
        invariant 0 <= i < |spine| && last == spine[i]
        decreases |spine| - i
      {
        last := last.next;
        i := i + 1;
      }
    }

    /** process_queue, when the node's valid flag is seen set by the first `up` of the looks taken
        at it, and not after. */
    method Process(up: nat)
      requires Valid()
      modifies this`sent, this`flying, nodes`active
      ensures Valid() && spine == old(spine) && added == old(added)
      ensures flying == Max(old(flying), Min(old(flying) + up, Min(GET_NUM, |spine|)))
      ensures sent == old(sent) + Requests(spine[old(flying)..flying])
    {
      var a, i, looks := getQueue, 0, 0;
      while a != null && i < GET_NUM
        invariant i <= |spine| && i <= GET_NUM && a == (if i < |spine| then spine[i] else null)
        invariant Valid() && added == old(added)
        invariant looks == Max(0, i - old(flying))
        invariant flying == old(flying) + Min(up, looks)
      {
        if !a.active {
          if looks < up { Fly(a); }
          looks := looks + 1;
        }
        a := a.next;
        i := i + 1;
      }
      SentSince(old(sent), old(flying), sent, flying, spine);
    }

    // One request goes out.
    method Fly(a: Action)
      requires Valid() && flying < |spine| && a == spine[flying] && flying < GET_NUM
      modifies this`sent, this`flying, a`active
      ensures Valid() && flying == old(flying) + 1
    {
      WaitsOneLess(sent, spine, flying);
      sent := sent + [a.request];
      a.active := true;
      flying := flying + 1;
    }

    /** remove_queue: it finds the first matching request in flight, wherever that is. */
    method Remove(addr: nat, obj: nat) returns (found: bool, ghost at: nat)
      requires Valid()
      modifies this`getQueue, this`spine, this`flying, this`place, nodes`next
      ensures Valid() && sent == old(sent) && added == old(added)
      ensures found <==> exists i :: 0 <= i < old(|spine|) && old(spine[i].active)
                                    && Matches(old(spine)[i], addr, obj)
      ensures !found ==> spine == old(spine) && flying == old(flying)
      ensures found ==> at < old(flying) && Matches(old(spine)[at], addr, obj)
                        && spine == old(spine)[..at] + old(spine)[at + 1..] && flying == old(flying) - 1
      ensures found ==> forall i :: 0 <= i < at ==> !Matches(old(spine)[i], addr, obj)
    {
      var n, last;
      found, n, last, at := Search(addr, obj);
      if found {
        DroppedFlying(spine, at, flying);
        Unlink(n, last, at);
        flying := flying - 1;
      }
    }

    // The search in the window.
    method Search(addr: nat, obj: nat) returns (found: bool, n: Action?, last: Action?, ghost at: nat)
      requires Valid()
      ensures found ==> at < flying && n == spine[at] && Matches(n, addr, obj) && (at > 0 ==> last == spine[at - 1])
      ensures forall k :: 0 <= k < (if found then at else |spine|) && spine[k].active ==> !Matches(spine[k], addr, obj)
    {
      n, last := getQueue, getQueue;
      var i := 0;
      while n != null && i < GET_NUM
        invariant i <= |spine| && i <= GET_NUM && n == (if i < |spine| then spine[i] else null)
        invariant i > 0 ==> last == spine[i - 1]
        invariant forall k :: 0 <= k < i && spine[k].active ==> !Matches(spine[k], addr, obj)
      {
        if n.active && n.request.addr == addr && n.request.obj == obj { break; }
        last := n;
        n := n.next;
        i := i + 1;
      }
      at := i;
      found := !(n == null || i == GET_NUM);
    }

    // The two ways of taking a node out of the list.
    method Unlink(n: Action, last: Action?, ghost at: nat)
      requires Linked() && at < |spine| && n == spine[at] && (at > 0 ==> last == spine[at - 1])
      modifies this`getQueue, this`spine, this`place, nodes`next
      ensures Linked() && spine == old(spine)[..at] + old(spine)[at + 1..]
    {
      if getQueue == n {
        getQueue := n.next;
      } else {
        last.next := n.next;
      }
      spine := spine[..at] + spine[at + 1..];
      place := map a | a in place :: if place[a] > at then place[a] - 1 else place[a];
    }

    /** mAddressTableChange when a node goes offline: exactly its requests in flight are dropped. */
    method Offline(addr: nat)
      requires Valid()
      modifies this`getQueue, this`spine, this`flying, this`place, nodes`next
      ensures Valid() && sent == old(sent) && added == old(added)
      ensures spine == Without(old(spine), old(flying), addr)
      ensures flying == StillFlying(old(spine), old(flying), addr)
    {
      ghost var done, rest, m := [], spine, flying;
      var n := getQueue;
      assert done + rest == spine && Without(done, m, addr) + rest == spine;
      while n != null
        invariant n == (if rest == [] then null else rest[0])
        invariant Valid() && sent == old(sent) && added == old(added) && done + rest == old(spine)
        invariant spine == Without(done, m, addr) + rest
        invariant flying == StillFlying(done, m, addr) + Max(0, m - |done|)
        decreases |rest|
      {
        ghost var x, more := rest[0], rest[1..];
        assert rest == [x] + more && done + [x] + more == old(spine);
        n := LookAt(n, addr, done, more, m);
        done, rest := done + [x], more;
      }
      assert done == old(spine);
    }

    // One round of that loop.
    method LookAt(n: Action, addr: nat, ghost done: seq<Action>, ghost more: seq<Action>, ghost m: nat) returns (a: Action?)
      requires Valid() && spine == Without(done, m, addr) + ([n] + more) && m <= |done| + 1 + |more|
      requires flying == StillFlying(done, m, addr) + Max(0, m - |done|)
      modifies this`getQueue, this`spine, this`flying, this`place, nodes`next
      ensures Valid() && sent == old(sent) && added == old(added)
      ensures spine == Without(done + [n], m, addr) + more
      ensures flying == StillFlying(done + [n], m, addr) + Max(0, m - |done| - 1)
      ensures a == if more == [] then null else more[0]
    {
      ghost var kept := Without(done, m, addr);
      WithoutSnoc(done, n, m, addr);
      WithoutFront(done, m, addr);
      AroundNode(kept, n, more);
      a := n.next;
      if n.request.addr == addr {
        DropFirst(n, kept, more, |done| < m);
      }
    }

    // One call of remove_queue in that loop. Nothing of the address is left in flight before n.
    method DropFirst(n: Action, ghost kept: seq<Action>, ghost more: seq<Action>, ghost inFlight: bool)
      requires Valid() && spine == kept + ([n] + more) && inFlight == (|kept| < flying)
      requires forall i :: 0 <= i < Min(|kept|, flying) ==> kept[i].request.addr != n.request.addr
      modifies this`getQueue, this`spine, this`flying, this`place, nodes`next
      ensures Valid() && sent == old(sent) && added == old(added)
      ensures spine == if inFlight then kept + more else old(spine)
      ensures flying == if inFlight then old(flying) - 1 else old(flying)
    {
      AroundNode(kept, n, more);
      var found, at := Remove(n.request.addr, n.request.obj);
      assert inFlight ==> Matches(old(spine)[|kept|], n.request.addr, n.request.obj);
    }
  }

  lemma {:induction false} AroundNode(kept: seq<Action>, n: Action, more: seq<Action>)
    ensures var s, k := kept + ([n] + more), |kept|;
            && |s| == k + 1 + |more| && s[k] == n && (more != [] ==> s[k + 1] == more[0])
            && s[..k] + s[k + 1..] == kept + more && kept + [n] + more == s
            && forall i :: 0 <= i < k ==> s[i] == kept[i]
  {
  }

  lemma {:induction false} WithoutSnoc(s: seq<Action>, n: Action, m: nat, addr: nat)
    ensures Without(s + [n], m, addr) == Without(s, m, addr) + if |s| < m && n.request.addr == addr then [] else [n]
    ensures StillFlying(s + [n], m, addr) == StillFlying(s, m, addr) + if |s| < m && n.request.addr != addr then 1 else 0
  {
    assert (s + [n])[..|s|] == s;
  }

  // The nodes still in flight are the first of those kept, and are of other addresses.
  lemma {:induction false} WithoutFront(s: seq<Action>, m: nat, addr: nat)
    ensures var kept, f := Without(s, m, addr), StillFlying(s, m, addr);
            && f <= |kept| && (|s| <= m ==> f == |kept|)
            && forall i :: 0 <= i < f ==> kept[i].request.addr != addr
  {
    if s != [] { WithoutFront(s[..|s| - 1], m, addr); }
  }

  function Min(a: int, b: int): int { if a < b then a else b }
  function Max(a: int, b: int): int { if a > b then a else b }

  predicate Matches(a: Action, addr: nat, obj: nat) { a.request.addr == addr && a.request.obj == obj }

  lemma {:induction false} DroppedFlying(spine: seq<Action>, at: nat, f: nat)
    requires at < f <= |spine|
    ensures (spine[..at] + spine[at + 1..])[f - 1..] == spine[f..]
  {
  }

  // What went out while the window grew.
  lemma {:induction false} SentSince(s0: seq<Request>, f0: nat, s1: seq<Request>, f1: nat, spine: seq<Action>)
    requires f0 <= f1 <= |spine| && s0 + Requests(spine[f0..]) == s1 + Requests(spine[f1..])
    ensures s1 == s0 + Requests(spine[f0..f1])
  {
    assert |s1| == |s0| + f1 - f0;
    assert s1 == (s0 + Requests(spine[f0..]))[..|s1|];
    assert Requests(spine[f0..])[..f1 - f0] == Requests(spine[f0..f1]);
  }

  lemma {:induction false} WaitsOneLess(sent: seq<Request>, spine: seq<Action>, f: nat)
    requires f < |spine|
    ensures sent + Requests(spine[f..]) == sent + [spine[f].request] + Requests(spine[f + 1..])
  {
    assert spine[f..] == [spine[f]] + spine[f + 1..];
  }

  lemma {:induction false} AddLast(sent: seq<Request>, spine: seq<Action>, f: nat, node: Action)
    requires f <= |spine|
    ensures sent + Requests((spine + [node])[f..]) == sent + Requests(spine[f..]) + [node.request]
  {
    assert (spine + [node])[f..] == spine[f..] + [node];
  }
}
