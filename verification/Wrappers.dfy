// Types and functions that several models share.
module Wrappers {

  datatype Option<+T> = None | Some(value: T)

  // The sequence without its element at m.
  function Without<T>(s: seq<T>, m: nat): (r: seq<T>)
    requires m < |s|
    ensures |r| == |s| - 1
    ensures forall k {:trigger r[k]} :: 0 <= k < |r| ==> r[k] == s[if k < m then k else k + 1]
  {
    s[..m] + s[m + 1..]
  }
}
