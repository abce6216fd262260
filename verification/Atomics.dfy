/**
  The compare-exchange loops.  Before each attempt another thread may store to the counter, and a
  weak exchange may miss for no reason; the loop still takes effect in one step, on the value the
  successful exchange found.
 */
module Atomics {
  import opened Bytes

  /** What stands in the way of one attempt. */
  datatype Attempt = Stored(value: nat) | Missed

  /** The value found after the first `tries` attempts. */
  function Found(start: nat, attempts: seq<Attempt>, tries: nat): (value: nat)
    requires tries <= |attempts|
    ensures (forall k :: 0 <= k < tries ==> attempts[k].Missed?) ==> value == start
  {
    if tries == 0 then start
    else
      match attempts[tries - 1]
      case Stored(value) => value
      case Missed => Found(start, attempts, tries - 1)
  }

  /** Attempts that miss without any interference. */
  function Misses(n: nat): (attempts: seq<Attempt>)
    ensures |attempts| == n && forall k :: 0 <= k < n ==> attempts[k].Missed?
  {
    seq(n, _ => Missed)
  }

  /** `bump_high_water`, `note_in_flight`: raises the mark, never lowers it. */
  method RaiseMark(start: nat, mark: nat, attempts: seq<Attempt>) returns (after: nat, tries: nat)
    ensures tries <= |attempts| && after == Max(Found(start, attempts, tries), mark)
    ensures (forall k :: 0 <= k < |attempts| ==> attempts[k].Missed?) ==> after == Max(start, mark)
  {
    var value, seen := start, start;
    tries := 0;
    while mark > seen
      invariant tries <= |attempts| && seen == value == Found(start, attempts, tries)
      decreases |attempts| - tries, mark > seen
    {
      var missed := false;
      if tries < |attempts| {
        match attempts[tries] {
          case Stored(v) => value := v;
          case Missed => missed := true;
        }
        tries := tries + 1;
      }
      if !missed && value == seen {
        value := mark;
        break;
      }
      seen := value;
    }
    after := value;
  }

  /** `saturating_sub`: subtracts in one step and stops at zero instead of wrapping. */
  method SubtractSaturating(start: nat, n: nat, attempts: seq<Attempt>) returns (after: nat, tries: nat)
    ensures tries <= |attempts| && after == SaturatingSub(Found(start, attempts, tries), n)
    ensures (forall k :: 0 <= k < |attempts| ==> attempts[k].Missed?) ==> after == SaturatingSub(start, n)
  {
    var value, seen := start, start;
    tries := 0;
    while true
      invariant tries <= |attempts| && seen == value == Found(start, attempts, tries)
      decreases |attempts| - tries
    {
      var missed := false;
      if tries < |attempts| {
        match attempts[tries] {
          case Stored(v) => value := v;
          case Missed => missed := true;
        }
        tries := tries + 1;
      }
      if !missed && value == seen {
        value := SaturatingSub(seen, n);
        break;
      }
      seen := value;
    }
    after := value;
  }

  /** The loops where no other thread stores, whatever the number of misses. */
  method RaiseAlone(start: nat, mark: nat) returns (after: nat)
    ensures after == Max(start, mark)
  {
    var misses: nat := *;
    var tries;
    after, tries := RaiseMark(start, mark, Misses(misses));
  }

  method SubtractAlone(start: nat, n: nat) returns (after: nat)
    ensures after == SaturatingSub(start, n)
  {
    var misses: nat := *;
    var tries;
    after, tries := SubtractSaturating(start, n, Misses(misses));
  }
}
