/**
  Device selection by position: devices are numbered from 1 in enumeration
  order, and the selector picks one position, or every position when it is 0.
 */
module DeviceSelection {

  /** Whether the device at 1-based position k is processed under selector s. */
  predicate Selected(s: int, k: nat)
  {
    s == 0 || k == s
  }

  /** The 1-based positions among the first n that selector s picks, in order. */
  function SelectedPositions(s: int, n: nat): (ps: seq<nat>)
    ensures forall i :: 0 <= i < |ps| ==> 1 <= ps[i] <= n && Selected(s, ps[i])
  {
    if n == 0 then []
    else SelectedPositions(s, n - 1) + (if Selected(s, n) then [n] else [])
  }

  predicate Increasing(ps: seq<nat>)
  {
    forall i, j :: 0 <= i < j < |ps| ==> ps[i] < ps[j]
  }

  /** Every selected position up to n is listed. */
  lemma {:induction false} SelectedPositionsComplete(s: int, n: nat)
    ensures forall k :: 1 <= k <= n && Selected(s, k) ==> k in SelectedPositions(s, n)
  {
    if n > 0 {
      SelectedPositionsComplete(s, n - 1);
      var prev := SelectedPositions(s, n - 1);
      var ps := SelectedPositions(s, n);
      forall k | 1 <= k <= n && Selected(s, k)
        ensures k in ps
      {
        if k < n {
          assert k in prev;
          assert ps == prev + (if Selected(s, n) then [n] else []);
        } else {
          assert ps == prev + [n];
        }
      }
    }
  }

  /** The selection lists positions in enumeration order. */
  lemma {:induction false} SelectedPositionsIncreasing(s: int, n: nat)
    ensures Increasing(SelectedPositions(s, n))
  {
    if n > 0 {
      SelectedPositionsIncreasing(s, n - 1);
      var prev := SelectedPositions(s, n - 1);
      var ps := SelectedPositions(s, n);
      forall i, j | 0 <= i < j < |ps|
        ensures ps[i] < ps[j]
      {
        if j < |prev| {
          assert ps[i] == prev[i] && ps[j] == prev[j];
        } else {
          assert ps[j] == n;
          assert ps[i] == prev[i] && prev[i] <= n - 1;
        }
      }
    }
  }

  /** Selector 0 picks all n devices, 1..n picks one, anything else none. */
  lemma {:induction false} SelectedCount(s: int, n: nat)
    ensures |SelectedPositions(s, n)| == if s == 0 then n else if 1 <= s <= n then 1 else 0
  {
    if n > 0 {
      SelectedCount(s, n - 1);
    }
  }

  /** The positions 1..n, as list mode prints them. */
  function Positions(n: nat): (ps: seq<nat>)
    ensures |ps| == n
    ensures forall i :: 0 <= i < n ==> ps[i] == i + 1
  {
    seq(n, i => i + 1)
  }

  /** The selection is empty exactly when no position up to n is selected. */
  lemma NoneSelectedIff(s: int, n: nat)
    ensures |SelectedPositions(s, n)| == 0 <==> forall k :: 1 <= k <= n ==> !Selected(s, k)
  {
    var ps := SelectedPositions(s, n);
    SelectedPositionsComplete(s, n);
    if |ps| > 0 {
      assert 1 <= ps[0] <= n && Selected(s, ps[0]);
    }
  }

  /** Where a selected position sits in the selection. */
  lemma PositionIndex(s: int, n: nat, k: nat) returns (i: nat)
    requires 1 <= k <= n && Selected(s, k)
    ensures i < |SelectedPositions(s, n)| && SelectedPositions(s, n)[i] == k
  {
    SelectedPositionsComplete(s, n);
    var ps := SelectedPositions(s, n);
    assert k in ps;
    i :| 0 <= i < |ps| && ps[i] == k;
  }
}
