/** Sequences changed at one position, and their elements. */
module Lists {
  function InsertAt<T>(xs: seq<T>, at: nat, x: T): (r: seq<T>)
    requires at <= |xs|
    ensures |r| == |xs| + 1 && r[at] == x
    ensures forall k :: 0 <= k < at ==> r[k] == xs[k]
    ensures forall k :: at < k < |r| ==> r[k] == xs[k - 1]
  {
    xs[..at] + [x] + xs[at..]
  }

  function RemoveAt<T>(xs: seq<T>, at: nat): (r: seq<T>)
    requires at < |xs|
    ensures |r| == |xs| - 1
    ensures forall k :: 0 <= k < at ==> r[k] == xs[k]
    ensures forall k :: at <= k < |r| ==> r[k] == xs[k + 1]
  {
    xs[..at] + xs[at + 1..]
  }

  function Elements<T>(xs: seq<T>): set<T> { set x | x in xs }
}
