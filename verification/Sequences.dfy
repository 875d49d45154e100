/** Shared by the modules that keep lists as sequences, and count in them. */
module Sequences {

  /** The sequence with the element at position i taken out. */
  function Without<T>(s: seq<T>, i: nat): seq<T>
    requires i < |s|
  {
    s[..i] + s[i + 1..]
  }

  function One(b: bool): nat {
    if b then 1 else 0
  }
}
