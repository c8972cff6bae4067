/** Progress over a tree of files copied at once (`copy/engine.py`: `_Total`). */
module TreeProgress {

  function Sum(s: seq<int>): int { if s == [] then 0 else Sum(s[..|s| - 1]) + s[|s| - 1] }

  lemma {:induction false} SumUpdate(s: seq<int>, i: nat, x: int)
    requires i < |s|
    ensures Sum(s[i := x]) == Sum(s) - s[i] + x
    decreases |s|
  {
    var n := |s| - 1;
    if i == n {
      assert s[i := x][..n] == s[..n];
    } else {
      SumUpdate(s[..n], i, x);
      assert s[i := x][..n] == s[..n][i := x];
    }
  }

  /** One counter for all workers, each remembering what it last reported. */
  class Total {
    var done: int
    var seen: seq<int>

    ghost predicate Valid()
      reads this
    {
      done == Sum(seen)
    }

    constructor ()
      ensures Valid() && seen == []
    {
      done, seen := 0, [];
    }

    /** A callback for one more file. */
    method Worker() returns (id: nat)
      requires Valid()
      modifies this
      ensures Valid() && id == old(|seen|) && seen == old(seen) + [0]
    {
      id := |seen|;
      assert (seen + [0])[..|seen|] == seen;
      seen := seen + [0];
    }

    /** What the caller hears is always the sum of the last report of every file, so it
        never falls while no file's own count falls. */
    method Report(id: nat, count: int) returns (heard: int)
      requires Valid() && id < |seen|
      modifies this
      ensures Valid() && seen == old(seen)[id := count]
      ensures heard == Sum(seen)
      ensures count >= old(seen[id]) ==> heard >= Sum(old(seen))
    {
      SumUpdate(seen, id, count);
      done := done + count - seen[id];
      seen := seen[id := count];
      heard := done;
    }
  }
}
