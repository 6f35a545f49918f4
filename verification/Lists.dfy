/**
 Sequences of distinct elements, as the intrusive lists of the program hold them.
 */
module Lists {

  ghost predicate Distinct<T>(l: seq<T>) {
    forall i, j :: 0 <= i < j < |l| ==> l[i] != l[j]
  }

  ghost function Without<T>(l: seq<T>, i: int): (r: seq<T>)
    requires 0 <= i < |l|
    ensures |r| == |l| - 1
  {
    l[..i] + l[i + 1..]
  }
}
