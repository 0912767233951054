// What several modules share: small helpers, and the sizes of param.h.
module Basics {
  datatype Option<+T> = None | Some(value: T)

  function Min(a: nat, b: nat): nat {
    if a < b then a else b
  }

  function Max(a: nat, b: nat): nat {
    if a > b then a else b
  }

  // s without its element i.
  function Without<T>(s: seq<T>, i: nat): (r: seq<T>)
    requires i < |s|
  {
    s[..i] + s[i + 1..]
  }

  const MAXOPBLOCKS: nat := 10
  const LOGSIZE: nat := 30 // three times MAXOPBLOCKS
  const NBUF: nat := 30    // the same
}
