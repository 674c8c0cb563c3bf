/** Change notification with a cursor and re-entrant callbacks
    (common/common.c, sql_exec and sql_processnotifies). */
module ChangeNotify {
  /** A row of recent_changes. */
  datatype Change = Change(time: nat, event: string, argument: string)

  // A row about to become visible: how much later than the row before it was made.
  datatype Arrival = Arrival(gap: nat, event: string, argument: string)

  /** What happens around one call of sql_exec: the rows other transactions make visible before
      the query runs, whether it fails, and what sql_processnotifies then meets. */
  datatype Call = Call(arrivals: seq<Arrival>, fails: bool, after: Round)

  /** What a call of sql_processnotifies meets: no notification, or one; then its own query, and
      for each row the calls of sql_exec that the callbacks make. */
  datatype Round = Quiet | Notified(query: Call, callbacks: seq<Callback>) {
    /** No callback asks the database anything. */
    predicate Silent() {
      Notified? ==> forall c <- callbacks :: c.calls == []
    }
  }
  datatype Callback = Callback(calls: seq<Call>)

  /** The rows of a batch: the first is later than everything before it, the others are not
      earlier than their predecessor. */
  function Stamp(latest: nat, arrivals: seq<Arrival>): (rows: seq<Change>)
    ensures |rows| == |arrivals|
    ensures forall i :: 0 <= i < |rows| ==> rows[i].time > latest
    ensures InOrder(rows)
    decreases |arrivals|
  {
    if arrivals == [] then []
    else
      var n := |arrivals| - 1;
      var before := Stamp(latest, arrivals[..n]);
      var previous := if n == 0 then latest + 1 else before[n - 1].time;
      before + [Change(previous + arrivals[n].gap, arrivals[n].event, arrivals[n].argument)]
  }

  predicate UpTo(rows: seq<Change>, t: nat) {
    forall r {:trigger r in rows} :: r in rows ==> r.time <= t
  }

  /** Rows that were not seen are later than t. */
  predicate NoneMissed(rows: seq<Change>, seen: seq<Change>, t: nat) {
    forall r {:trigger r in rows} :: r in rows ==> r in seen || r.time > t
  }

  /** The rows later than from, and not later than to, have been handled. */
  predicate Dispatched(rows: seq<Change>, from: nat, to: nat, handled: seq<Change>) {
    forall r {:trigger r in rows} :: r in rows && from < r.time <= to ==> r in handled
  }

  /** The rows later than from have been handled. */
  predicate Served(rows: seq<Change>, from: nat, handled: seq<Change>) {
    forall r {:trigger r in rows} :: r in rows && r.time > from ==> r in handled
  }

  predicate InOrder(rows: seq<Change>) {
    forall i, j :: 0 <= i < j < |rows| ==> rows[i].time <= rows[j].time
  }

  /** SELECT ... WHERE timestamp > $1 ORDER BY timestamp, on rows kept in that order. */
  function Newer(rows: seq<Change>, cursor: nat): (newer: seq<Change>)
    ensures forall r :: r in newer <==> r in rows && r.time > cursor
  {
    if rows == [] then []
    else
      var rest := Newer(rows[1..], cursor);
      if rows[0].time > cursor then [rows[0]] + rest else rest
  }

  /** newer is the last part of rows, and the cursor lies between it and all before. */
  predicate LaterThan(newer: seq<Change>, rows: seq<Change>, cursor: nat) {
    && |newer| <= |rows| && newer == rows[|rows| - |newer|..]
    && (forall i :: 0 <= i < |rows| - |newer| ==> rows[i].time <= cursor)
    && (forall i :: |rows| - |newer| <= i < |rows| ==> rows[i].time > cursor)
  }

  /** On rows in order the query finds the last part, in that order. */
  lemma {:induction false} NewerIsLater(rows: seq<Change>, cursor: nat)
    requires InOrder(rows)
    ensures LaterThan(Newer(rows, cursor), rows, cursor)
  {
    if rows != [] {
      var rest := Newer(rows[1..], cursor);
      NewerIsLater(rows[1..], cursor);
      if rows[0].time > cursor {
        AllLater(rest, rows[1..], cursor, rows[0].time);
        assert [rows[0]] + rows[1..] == rows;
      } else {
        forall i | 0 <= i < |rows| - |rest| ensures rows[i].time <= cursor {
          assert i > 0 ==> rows[i] == rows[1..][i - 1];
        }
      }
    }
  }

  lemma {:induction false} AllLater(newer: seq<Change>, rows: seq<Change>, cursor: nat, first: nat)
    requires LaterThan(newer, rows, cursor) && first > cursor
    requires forall i :: 0 <= i < |rows| ==> rows[i].time >= first
    ensures newer == rows
  {
    if rows != [] { assert rows[0].time >= first; }
  }

  lemma {:induction false} LaterMembers(newer: seq<Change>, rows: seq<Change>, cursor: nat)
    requires LaterThan(newer, rows, cursor)
    ensures forall r :: r in newer <==> r in rows && r.time > cursor
  {
    var k := |rows| - |newer|;
    assert rows == rows[..k] + newer;
    assert forall i :: 0 <= i < |newer| ==> newer[i] == rows[k + i];
  }

  lemma {:induction false} LastIsLatest(newer: seq<Change>, rows: seq<Change>, cursor: nat)
    requires LaterThan(newer, rows, cursor) && InOrder(rows) && newer != []
    ensures newer[|newer| - 1].time > cursor && UpTo(rows, newer[|newer| - 1].time)
  {
    assert newer[|newer| - 1] == rows[|rows| - 1];
  }

  class Notifier {
    var rows: seq<Change>        // recent_changes, oldest first
    var lastNotify: nat          // the cursor, sql_lastnotify
    const start: nat             // the cursor as sql_open set it
    var latest: nat              // no later row has been made
    var handled: seq<Change>     // the rows dispatched, in that order

    /** Nothing at or below the cursor has been missed. */
    ghost predicate Valid()
      reads this
    {
      && InOrder(rows) && UpTo(rows, latest)
      && start <= lastNotify <= latest
      && Dispatched(rows, start, lastNotify, handled)
      && (forall r {:trigger r in handled} :: r in handled ==> r in rows && r.time > start)
    }

    // The cursor starts at the newest row, or at the present if that is later.
    constructor (rows: seq<Change>, start: nat)
      requires InOrder(rows) && UpTo(rows, start)
      ensures Valid() && this.rows == rows && this.start == start && lastNotify == start && handled == []
    {
      this.rows, this.start, lastNotify, latest, handled := rows, start, start, start, [];
    }

    /** What every call keeps: rows and dispatches only accumulate, and a row that was not visible
        before is later than all that were. */
    twostate predicate Extends()
      reads this
    {
      && Within(old(rows), rows) && Within(old(handled), handled) && old(latest) <= latest
      && NoneMissed(rows, old(rows), old(latest))
    }

    // Other transactions commit.
    method Arrive(arrivals: seq<Arrival>)
      requires Valid()
      modifies this`rows, this`latest
      ensures Valid() && rows == old(rows) + Stamp(old(latest), arrivals)
      ensures latest == LatestOf(old(latest), arrivals)
    {
      var batch := Stamp(latest, arrivals);
      BatchInOrder(rows, latest, arrivals);
      rows := rows + batch;
      latest := LatestOf(latest, arrivals);
    }

    /** sql_exec of any query. If it is the query for new rows, those are its result. */
    method SqlExec(call: Call, select: bool) returns (ok: bool, result: seq<Change>, ghost log: seq<Change>)
      requires Valid()
      modifies this`rows, this`lastNotify, this`latest, this`handled
      ensures Valid() && Extends() && ok == !call.fails
      ensures ok && select ==> LaterThan(result, VisibleTo(old(rows), old(latest), call), old(lastNotify))
      ensures Within(VisibleTo(old(rows), old(latest), call), rows) && LatestOf(old(latest), call.arrivals) <= latest
      ensures NoneMissed(rows, VisibleTo(old(rows), old(latest), call), LatestOf(old(latest), call.arrivals))
      ensures handled == old(handled) + log && (ok && call.after.Quiet? ==> log == [])
      decreases call, 0
    {
      Arrive(call.arrivals);
      log := [];
      result := [];
      ok := !call.fails;
      if ok {
        if select {
          result := Newer(rows, lastNotify);
          NewerIsLater(rows, lastNotify);
        }
        ghost var found;
        found, log := ProcessNotifies(call.after);
      }
    }

    /** sql_processnotifies. After a notification whose query worked, every row that was visible
        to the query has been dispatched; and whatever nested calls do to the cursor, nothing is
        ever missed. */
    method ProcessNotifies(round: Round) returns (ghost found: seq<Change>, ghost log: seq<Change>)
      requires Valid()
      modifies this`rows, this`lastNotify, this`latest, this`handled
      ensures Valid() && Extends()
      ensures round.Notified? && !round.query.fails ==>
                Served(VisibleTo(old(rows), old(latest), round.query), start, handled)
      // the visible rows later than the cursor are dispatched oldest first, and then no visible row
      // is later than the cursor
      ensures handled == old(handled) + log
      ensures round.Notified? && !round.query.fails ==>
                var visible := VisibleTo(old(rows), old(latest), round.query);
                && LaterThan(found, visible, old(lastNotify)) && InTurn(found, log)
                && (found != [] ==> lastNotify == visible[|visible| - 1].time
                                    && UpTo(visible, lastNotify))
      ensures round.Quiet? ==> log == [] && rows == old(rows) && lastNotify == old(lastNotify)
      // and nothing else is dispatched, unless there are nested calls
      ensures round.Notified? && !round.query.fails && round.query.after.Quiet? && round.Silent() ==> log == found
      decreases round, 2
    {
      log, found := [], [];
      if round.Quiet? { return; }
      ghost var seen, newest := VisibleTo(rows, latest, round.query), LatestOf(latest, round.query.arrivals);
      ghost var cursor := lastNotify;
      VisibleInOrder(rows, latest, round.query);
      var ok, result;
      ok, result, log := SqlExec(round.query, true);
      if !ok { return; }
      found := result;
      ghost var more := DispatchAll(result, round, seen, cursor, newest);
      InTurnLater(result, log, more);
      Assoc(old(handled), log, more);
      NothingBefore(log, more);
      log := log + more;
      MoveCursor(result, seen, cursor, newest);
    }

    // What is left to do after the loop.
    method MoveCursor(result: seq<Change>, ghost seen: seq<Change>, ghost cursor: nat, ghost newest: nat)
      requires Valid() && LaterThan(result, seen, cursor) && start <= cursor && InOrder(seen) && UpTo(seen, newest)
      requires newest <= latest && NoneMissed(rows, seen, newest) && Served(seen, start, handled)
      modifies this`lastNotify
      ensures Valid()
      ensures result != [] ==> lastNotify == seen[|seen| - 1].time && UpTo(seen, lastNotify)
    {
      if |result| > 0 {
        LastIsLatest(result, seen, cursor);
        assert result[|result| - 1] in seen;
        CursorMoves(rows, seen, newest, start, result[|result| - 1].time, handled);
        lastNotify := result[|result| - 1].time;
      }
    }

    /** The loop over the rows found. */
    method DispatchAll(result: seq<Change>, round: Round, ghost seen: seq<Change>, ghost cursor: nat, ghost newest: nat)
      returns (ghost log: seq<Change>)
      requires Valid() && round.Notified? && Within(seen, rows) && LaterThan(result, seen, cursor) && start <= cursor
      requires newest <= latest && NoneMissed(rows, seen, newest)
      requires Dispatched(seen, start, cursor, handled)
      modifies this`rows, this`lastNotify, this`latest, this`handled
      ensures Valid() && Extends()
      ensures newest <= latest && NoneMissed(rows, seen, newest)
      ensures Served(seen, start, handled)
      ensures handled == old(handled) + log && InTurn(result, log)
      ensures round.Silent() ==> log == result
      decreases round, 1
    {
      log := [];
      ghost var was := handled;
      LaterMembers(result, seen, cursor);
      for i := 0 to |result|
        invariant Valid() && Extends()
        invariant newest <= latest && NoneMissed(rows, seen, newest)
        invariant handled == was + log && InTurn(result[..i], log)
        invariant round.Silent() ==> log == result[..i]
      {
        assert result[i] in result;
        ghost var more := Dispatch(result[i], round, i);
        NextInTurn(result, i, log, more);
        Assoc(was, log, more);
        log := log + more;
      }
      assert result[..|result|] == result;
      InTurnMembers(result, log);
    }

    /** The callbacks for one row, with the calls of sql_exec they make. */
    method Dispatch(row: Change, round: Round, i: nat) returns (ghost log: seq<Change>)
      requires Valid() && round.Notified? && row in rows && row.time > start
      modifies this`rows, this`lastNotify, this`latest, this`handled
      ensures Valid() && Extends() && handled == old(handled) + log && [row] <= log
      ensures round.Silent() ==> log == [row]
      decreases round, 0
    {
      handled := handled + [row];
      log := [row];
      if i < |round.callbacks| {
        var calls := round.callbacks[i].calls;
        assert round.Silent() ==> calls == [];
        for j := 0 to |calls|
          invariant Valid() && Extends() && handled == old(handled) + log && [row] <= log
          invariant calls == [] ==> log == [row]
        {
          ghost var more;
          var ok, result;
          ok, result, more := SqlExec(calls[j], false);
          Assoc(old(handled), log, more);
          log := log + more;
        }
      }
    }
  }

  /** The elements of a occur in b in the same order, with others in between. */
  predicate InTurn(a: seq<Change>, b: seq<Change>)
    decreases |b|
  {
    if a == [] then true
    else if b == [] then false
    else if a[|a| - 1] == b[|b| - 1] && InTurn(a[..|a| - 1], b[..|b| - 1]) then true
    else InTurn(a, b[..|b| - 1])
  }

  lemma {:induction false} InTurnGrows(a: seq<Change>, b: seq<Change>, more: seq<Change>)
    requires InTurn(a, b)
    ensures InTurn(a, b + more)
    decreases |more|
  {
    if more == [] {
      assert b + more == b;
    } else {
      InTurnGrows(a, b, more[..|more| - 1]);
      assert (b + more)[..|b + more| - 1] == b + more[..|more| - 1];
    }
  }

  lemma {:induction false} InTurnMembers(a: seq<Change>, b: seq<Change>)
    requires InTurn(a, b)
    ensures Within(a, b)
    decreases |b|
  {
    if a != [] {
      var a', b' := a[..|a| - 1], b[..|b| - 1];
      if a[|a| - 1] == b[|b| - 1] && InTurn(a', b') { InTurnMembers(a', b'); } else { InTurnMembers(a, b'); }
      assert a == a' + [a[|a| - 1]];
    }
  }

  lemma {:induction false} Assoc(a: seq<Change>, b: seq<Change>, c: seq<Change>)
    ensures a + b + c == a + (b + c)
  {
  }

  lemma {:induction false} NothingBefore(a: seq<Change>, b: seq<Change>)
    ensures a == [] ==> a + b == b
  {
  }

  lemma {:induction false} InTurnLater(a: seq<Change>, before: seq<Change>, b: seq<Change>)
    requires InTurn(a, b)
    ensures InTurn(a, before + b)
    decreases |b|
  {
    if a != [] {
      assert (before + b)[..|before + b| - 1] == before + b[..|b| - 1];
      if a[|a| - 1] == b[|b| - 1] && InTurn(a[..|a| - 1], b[..|b| - 1]) {
        InTurnLater(a[..|a| - 1], before, b[..|b| - 1]);
      } else {
        InTurnLater(a, before, b[..|b| - 1]);
      }
    }
  }

  lemma {:induction false} NextInTurn(a: seq<Change>, i: nat, log: seq<Change>, more: seq<Change>)
    requires i < |a| && InTurn(a[..i], log) && [a[i]] <= more
    ensures InTurn(a[..i + 1], log + more)
  {
    var next := log + [a[i]];
    assert a[..i + 1][..i] == a[..i] && next[..|log|] == log;
    InTurnGrows(a[..i + 1], next, more[1..]);
    assert next + more[1..] == log + more;
  }

  predicate Within(a: seq<Change>, b: seq<Change>) { forall r <- a :: r in b }

  // The rows a query finds in the table.
  function VisibleTo(rows: seq<Change>, latest: nat, call: Call): seq<Change> {
    rows + Stamp(latest, call.arrivals)
  }

  lemma {:induction false} VisibleInOrder(rows: seq<Change>, latest: nat, call: Call)
    requires InOrder(rows) && UpTo(rows, latest)
    ensures InOrder(VisibleTo(rows, latest, call))
    ensures UpTo(VisibleTo(rows, latest, call), LatestOf(latest, call.arrivals))
  {
    BatchInOrder(rows, latest, call.arrivals);
  }

  lemma {:induction false} BatchInOrder(rows: seq<Change>, latest: nat, arrivals: seq<Arrival>)
    requires InOrder(rows) && UpTo(rows, latest)
    ensures InOrder(rows + Stamp(latest, arrivals)) && UpTo(rows + Stamp(latest, arrivals), LatestOf(latest, arrivals))
  {
    var batch := Stamp(latest, arrivals);
    assert forall i :: 0 <= i < |rows| ==> rows[i] in rows;
    assert UpTo(batch, LatestOf(latest, arrivals));
  }

  /** The cursor may move to any time up to which everything made has been seen and served. */
  lemma {:induction false} CursorMoves(rows: seq<Change>, seen: seq<Change>, newest: nat, start: nat, to: nat,
      handled: seq<Change>)
    requires NoneMissed(rows, seen, newest) && Served(seen, start, handled) && to <= newest
    ensures Dispatched(rows, start, to, handled)
  {
    forall r | r in rows && start < r.time <= to ensures r in handled {
      assert r in seen;
    }
  }

  function LatestOf(latest: nat, arrivals: seq<Arrival>): (t: nat)
    ensures t >= latest && UpTo(Stamp(latest, arrivals), t)
  {
    if arrivals == [] then latest
    else
      var rows := Stamp(latest, arrivals);
      assert UpTo(rows, rows[|rows| - 1].time);
      rows[|rows| - 1].time
  }
}
