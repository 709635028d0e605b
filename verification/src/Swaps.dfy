/** Exchanging two entries of a list. */
module Swaps {

  function Exchange(i: nat, j: nat, k: nat): nat {
    if k == i then j else if k == j then i else k
  }

  function Swapped<T>(s: seq<T>, i: nat, j: nat): seq<T>
    requires i < |s| && j < |s|
  {
    s[i := s[j]][j := s[i]]
  }
}
