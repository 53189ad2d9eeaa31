/** The addresses of a heap that is a sequence of nodes. */
module AddressSet {
  function Below(n: nat): (s: set<nat>)
    ensures forall a: nat :: a in s <==> a < n
  {
    if n == 0 then {} else Below(n - 1) + {n - 1}
  }
}
