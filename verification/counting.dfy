/** Cardinalities of the id sets that the roll-call totals count. */
module Counting {

  /** The ids `lo, lo + 1, ..., lo + n - 1` handed out to a block of `n` new rows. */
  function Range(lo: nat, n: nat): (r: set<nat>)
    ensures forall k :: k in r <==> lo <= k < lo + n
    ensures |r| == n
    decreases n
  {
    if n == 0 then {} else Range(lo, n - 1) + {lo + n - 1}
  }

  /** How many flags are set. */
  function CountTrue(flags: seq<bool>): (c: nat)
    ensures c <= |flags|
  {
    if |flags| == 0 then 0
    else CountTrue(flags[..|flags| - 1]) + (if flags[|flags| - 1] then 1 else 0)
  }

  /** The ids of a block whose flag is set: id `lo + i` stands for `flags[i]`. */
  function Selected(lo: nat, flags: seq<bool>): (r: set<nat>)
    ensures forall k :: k in r <==> lo <= k < lo + |flags| && flags[k - lo]
    ensures |r| == CountTrue(flags)
    decreases |flags|
  {
    if |flags| == 0 then {}
    else
      var n := |flags|;
      Selected(lo, flags[..n - 1]) + (if flags[n - 1] then {lo + n - 1} else {})
  }

  /** Splitting a set in two disjoint parts splits its size. */
  lemma PartitionSize<T>(all: set<T>, yes: set<T>, no: set<T>)
    requires all == yes + no
    requires yes !! no
    ensures |all| == |yes| + |no|
  {
  }

  /** A subset is no larger than its superset. */
  lemma {:induction false} SubsetSize<T>(small: set<T>, big: set<T>)
    requires small <= big
    ensures |small| <= |big|
    decreases |big|
  {
    if small != {} {
      var x :| x in small;
      SubsetSize(small - {x}, big - {x});
    }
  }
}
