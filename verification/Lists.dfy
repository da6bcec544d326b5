/** Searching a list. */
module Lists {

  /** Where the first element of that kind stands; the list's length when there is none. */
  function FirstWhere<T>(xs: seq<T>, wanted: T -> bool): (i: nat)
    ensures i <= |xs| && (i < |xs| ==> wanted(xs[i]))
    ensures forall j | 0 <= j < i :: !wanted(xs[j])
  {
    if xs == [] || wanted(xs[0]) then 0 else 1 + FirstWhere(xs[1..], wanted)
  }
}
