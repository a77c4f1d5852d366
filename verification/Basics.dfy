/** Small definitions that several modules share. */
module Basics {

  datatype Option<T> = None | Some(value: T)

  function Least(a: nat, b: nat): nat {
    if a > b then b else a
  }

  lemma Regroup<T>(a: seq<T>, b: seq<T>, c: seq<T>)
    ensures (a + b) + c == a + (b + c)
  {
  }
}
