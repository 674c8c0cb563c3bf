/** The fader's table of levels by position, computed from the table of positions by level
    (engine/db.c, db_read_db_to_position). */
module FaderTable {
  const LEVELS := 1500     // tenths of a decibel from -140 up
  const POSITIONS := 1024

  /** dB2Position, unsigned shorts. */
  type Positions = t: seq<nat> | |t| == LEVELS witness seq(LEVELS, _ => 0)

  // The level, in decibels, of an index of dB2Position.
  function Level(d: nat): real { (d as real - 1400.0) / 10.0 }

  // The last of the first n indices that holds position p, or -1.
  function LastOf(t: Positions, p: nat, n: nat): (d: int)
    requires n <= LEVELS
    ensures -1 <= d < n && (d >= 0 ==> t[d] == p)
    ensures forall k :: d < k < n ==> t[k] != p
  {
    if n == 0 then -1 else if t[n - 1] == p then n - 1 else LastOf(t, p, n - 1)
  }

  /** The index whose level is stored for position p: the last one that holds p, or what the
      position before got. */
  function Chosen(t: Positions, p: nat): (d: nat)
    ensures d < LEVELS
  {
    var last := LastOf(t, p, |t|);
    if last >= 0 then last else if p == 0 then 0 else Chosen(t, p - 1)
  }

  /** The nested loops; dB is carried from one position to the next. */
  method FillPosition2dB(dB2Position: Positions, position2dB: array<real>)
    requires position2dB.Length == POSITIONS
    modifies position2dB
    ensures forall p :: 0 <= p < POSITIONS ==> position2dB[p] == Level(Chosen(dB2Position, p))
  {
    var dB := -140.0;
    ghost var level := 0;
    for cntPosition := 0 to POSITIONS
      invariant level == (if cntPosition == 0 then 0 else Chosen(dB2Position, cntPosition - 1)) && dB == Level(level)
      invariant forall p :: 0 <= p < cntPosition ==> position2dB[p] == Level(Chosen(dB2Position, p))
    {
      dB, level := ScanLevels(dB2Position, cntPosition, dB, level);
      assert level == Chosen(dB2Position, cntPosition);
      position2dB[cntPosition] := dB;
    }
  }

  /** The inner loop. */
  method ScanLevels(dB2Position: Positions, position: nat, carried: real, ghost from: nat)
    returns (dB: real, ghost level: nat)
    requires carried == Level(from)
    ensures dB == Level(level)
    ensures var last := LastOf(dB2Position, position, |dB2Position|); level == if last >= 0 then last else from
  {
    dB, level := carried, from;
    for entry := 0 to |dB2Position|
      invariant dB == Level(level)
      invariant var last := LastOf(dB2Position, position, entry); level == if last >= 0 then last else from
    {
      if dB2Position[entry] == position {
        dB, level := ((entry - 1400) as real) / 10.0, entry;
      }
    }
  }

  /** Position p lies at or above level d exactly when d is not above the level stored for p. */
  ghost predicate Adjoint(t: Positions) {
    forall d, p :: 0 <= d < LEVELS && 0 <= p < POSITIONS ==> (t[d] <= p <==> d <= Chosen(t, p))
  }

  /** Positions that a fader can take never decrease with the level, and the lowest level has
      position 0. */
  ghost predicate Ordered(t: Positions) {
    t[0] == 0 && forall i, j :: 0 <= i < j < LEVELS && t[j] < POSITIONS ==> t[i] <= t[j]
  }

  /** The stored levels are the upper adjoint of the position table exactly when that table is
      ordered. */
  lemma {:induction false} AdjointExactlyOrdered(t: Positions)
    ensures Adjoint(t) <==> Ordered(t)
  {
    if Ordered(t) {
      forall p | 0 <= p < POSITIONS
        ensures forall d :: 0 <= d < LEVELS ==> (t[d] <= p <==> d <= Chosen(t, p))
      {
        AdjointAt(t, p);
      }
    }
    if Adjoint(t) {
      assert 0 <= Chosen(t, 0);
      forall i, j | 0 <= i < j < LEVELS && t[j] < POSITIONS
        ensures t[i] <= t[j]
      {
        assert j <= Chosen(t, t[j]);
      }
    }
  }

  lemma {:induction false} AdjointAt(t: Positions, p: nat)
    requires Ordered(t) && p < POSITIONS
    ensures forall d :: 0 <= d < LEVELS ==> (t[d] <= p <==> d <= Chosen(t, p))
  {
    if LastOf(t, p, |t|) < 0 {
      assert p > 0;
      AdjointAt(t, p - 1);
    }
  }

  /** Of an ordered table the stored levels never decrease, and every position the table uses is
      stored with a level that leads back to it. */
  lemma {:induction false} LevelsOfPositions(t: Positions, p: nat, q: nat)
    requires Ordered(t) && p <= q < POSITIONS
    ensures Level(Chosen(t, p)) <= Level(Chosen(t, q))
    ensures p in t ==> t[Chosen(t, p)] == p
  {
    AdjointAt(t, p);
    AdjointAt(t, q);
    assert t[Chosen(t, p)] <= p;
  }

  /** Reading the table in, a level is rounded to its index: back from every level to its own index. */
  lemma {:induction false} IndexOfLevel(d: nat)
    requires d < LEVELS
    ensures (Level(d) * 10.0 + 0.5).Floor + 1400 == d
    ensures Level(0) == -140.0 && Level(1400) == 0.0
  {
    assert Level(d) * 10.0 == d as real - 1400.0;
    assert (d as real - 1400.0 + 0.5) == (d - 1400) as real + 0.5;
  }
}
