/**
 * The zero-write de-duplication rule of the agent's speed store, stated on
 * plain sequences of speed updates. The class in agent.dfy keeps its history
 * log equal to `Written(0.0, updates)`, so every law proved here is a law of
 * the history table the agent fills.
 */
module Dedup {

  /** A history row is written unless this speed and the last recorded one are both zero. */
  predicate ShouldWrite(speed: real, lastRecorded: real) {
    speed != 0.0 || lastRecorded != 0.0
  }

  /** The last element of `s`, or `d` when `s` is empty. */
  function LastOr(d: real, s: seq<real>): real {
    if s == [] then d else s[|s| - 1]
  }

  /** The recorded speed after the updates `s`, starting from recorded speed `r0`. */
  function RecordedAfter(r0: real, s: seq<real>): real
    decreases |s|
  {
    if s == [] then r0
    else
      var prev := RecordedAfter(r0, s[..|s| - 1]);
      if ShouldWrite(s[|s| - 1], prev) then s[|s| - 1] else prev
  }

  /** The speeds of the rows written, in order, by the updates `s` from recorded speed `r0`. */
  function Written(r0: real, s: seq<real>): seq<real>
    decreases |s|
  {
    if s == [] then []
    else
      var p := s[..|s| - 1];
      var w := Written(r0, p);
      if ShouldWrite(s[|s| - 1], RecordedAfter(r0, p)) then w + [s[|s| - 1]] else w
  }

  /**
   * Independent reference definition: an update is kept unless it is zero and
   * the update before it (or the initial recorded speed `prev`) was zero too.
   */
  function Kept(prev: real, s: seq<real>): seq<real>
    decreases |s|
  {
    if s == [] then []
    else (if ShouldWrite(s[0], prev) then [s[0]] else []) + Kept(s[0], s[1..])
  }

  /** No two neighbouring rows are both zero. */
  predicate NoAdjacentZeros(w: seq<real>) {
    forall i :: 0 <= i < |w| - 1 ==> w[i] != 0.0 || w[i + 1] != 0.0
  }

  /**
   * After at least one update the recorded speed equals the last update:
   * a zero that is not written is skipped only because the recorded speed
   * already was zero.
   */
  lemma RecordedIsLastUpdate(r0: real, s: seq<real>)
    ensures RecordedAfter(r0, s) == LastOr(r0, s)
  {
  }

  /** The recorded speed is the speed of the last written row, or `r0` if none was written. */
  lemma {:induction false} RecordedIsLastRow(r0: real, s: seq<real>)
    ensures RecordedAfter(r0, s) == LastOr(r0, Written(r0, s))
    decreases |s|
  {
    if s != [] {
      var p := s[..|s| - 1];
      RecordedIsLastRow(r0, p);
    }
  }

  /** Appending one update to the reference definition. */
  lemma {:induction false} KeptSnoc(prev: real, s: seq<real>, x: real)
    ensures Kept(prev, s + [x]) == Kept(prev, s) + (if ShouldWrite(x, LastOr(prev, s)) then [x] else [])
    decreases |s|
  {
    var tail := if ShouldWrite(x, LastOr(prev, s)) then [x] else [];
    if s == [] {
      assert [x][1..] == [];
    } else {
      var t := s + [x];
      assert t[0] == s[0] && t[1..] == s[1..] + [x];
      assert LastOr(s[0], s[1..]) == LastOr(prev, s);
      KeptSnoc(s[0], s[1..], x);
      var head := if ShouldWrite(s[0], prev) then [s[0]] else [];
      calc {
        Kept(prev, t);
        head + Kept(s[0], s[1..] + [x]);
        head + (Kept(s[0], s[1..]) + tail);
        (head + Kept(s[0], s[1..])) + tail;
        Kept(prev, s) + tail;
      }
    }
  }

  /** The history the rule produces is exactly the reference definition. */
  lemma {:induction false} WrittenIsKept(r0: real, s: seq<real>)
    ensures Written(r0, s) == Kept(r0, s)
    decreases |s|
  {
    if s != [] {
      var p := s[..|s| - 1];
      var x := s[|s| - 1];
      assert p + [x] == s;
      WrittenIsKept(r0, p);
      RecordedIsLastUpdate(r0, p);
      KeptSnoc(r0, p, x);
    }
  }

  /**
   * Starting from recorded speed zero (the process start), no two
   * neighbouring rows are zero and the first row written is non-zero.
   */
  lemma {:induction false} NoZeroRuns(s: seq<real>)
    ensures NoAdjacentZeros(Written(0.0, s))
    ensures Written(0.0, s) != [] ==> Written(0.0, s)[0] != 0.0
    decreases |s|
  {
    if s != [] {
      var p := s[..|s| - 1];
      var x := s[|s| - 1];
      NoZeroRuns(p);
      RecordedIsLastRow(0.0, p);
      var w := Written(0.0, p);
      if ShouldWrite(x, RecordedAfter(0.0, p)) {
        assert Written(0.0, s) == w + [x];
        if x == 0.0 {
          assert LastOr(0.0, w) != 0.0;
        }
      }
    }
  }

  /** The reference history of `s` is that of a prefix followed by that of the rest. */
  lemma {:induction false} KeptSplit(prev: real, s: seq<real>, i: nat)
    requires i <= |s|
    ensures Kept(prev, s) == Kept(prev, s[..i]) + Kept(LastOr(prev, s[..i]), s[i..])
    decreases i
  {
    if i == 0 {
      assert s[..0] == [] && s[0..] == s;
    } else {
      KeptSplit(s[0], s[1..], i - 1);
      assert s[..i][0] == s[0] && s[..i][1..] == s[1..][..i - 1];
      assert s[1..][i - 1..] == s[i..];
      assert LastOr(s[0], s[1..][..i - 1]) == LastOr(prev, s[..i]);
    }
  }

  /**
   * Every written row is an update and there are no more rows than updates;
   * a non-zero update at position `i` is written, as the row that follows
   * the rows written for the updates before it.
   */
  lemma {:induction false} KeptRows(prev: real, s: seq<real>)
    ensures |Kept(prev, s)| <= |s|
    ensures forall x :: x in Kept(prev, s) ==> x in s
    ensures forall i :: 0 <= i < |s| && s[i] != 0.0 ==>
      |Kept(prev, s[..i])| < |Kept(prev, s)| && Kept(prev, s)[|Kept(prev, s[..i])|] == s[i]
    decreases |s|
  {
    if s != [] {
      KeptRows(s[0], s[1..]);
      forall i | 0 <= i < |s| && s[i] != 0.0
        ensures |Kept(prev, s[..i])| < |Kept(prev, s)| && Kept(prev, s)[|Kept(prev, s[..i])|] == s[i]
      {
        KeptSplit(prev, s, i);
        var rest := s[i..];
        assert rest[0] == s[i];
        assert Kept(LastOr(prev, s[..i]), rest) == [s[i]] + Kept(s[i], rest[1..]);
      }
    }
  }

  /** Updates 5, 0, 0, 0, 7 from the initial state write exactly the rows 5, 0, 7. */
  lemma OutageExample()
    ensures Written(0.0, [5.0, 0.0, 0.0, 0.0, 7.0]) == [5.0, 0.0, 7.0]
  {
    var s := [5.0, 0.0, 0.0, 0.0, 7.0];
    WrittenIsKept(0.0, s);
    assert s[1..] == [0.0, 0.0, 0.0, 7.0];
    assert s[1..][1..] == [0.0, 0.0, 7.0];
    assert s[1..][1..][1..] == [0.0, 7.0];
    assert s[1..][1..][1..][1..] == [7.0];
    assert Kept(0.0, [7.0]) == [7.0];
    assert Kept(0.0, [0.0, 7.0]) == [7.0];
    assert Kept(0.0, [0.0, 0.0, 7.0]) == [7.0];
    assert Kept(5.0, [0.0, 0.0, 0.0, 7.0]) == [0.0, 7.0];
  }
}
