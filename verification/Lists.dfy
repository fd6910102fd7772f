/** Searching a list for the first element with a key. */
module Lists {
  /** The position of the first element whose key is `k`, or -1. */
  function FirstWith<T>(s: seq<T>, key: T -> nat, k: nat): (r: int)
    ensures r == -1 || 0 <= r < |s|
    ensures 0 <= r ==> key(s[r]) == k && forall j :: 0 <= j < r ==> key(s[j]) != k
    ensures r == -1 ==> forall j :: 0 <= j < |s| ==> key(s[j]) != k
  {
    if s == [] then -1
    else if key(s[0]) == k then 0
    else
      var r := FirstWith(s[1..], key, k);
      if r == -1 then -1 else r + 1
  }
}
