/** The stock optional value, and an operation on sequences. */
module Common {

  datatype Option<+T> = None | Some(value: T)

  /** A sequence without its i-th element. */
  function Without<T>(s: seq<T>, i: nat): (r: seq<T>)
    requires i < |s|
    ensures |r| == |s| - 1
  {
    s[..i] + s[i + 1..]
  }
}
