/** `array.splice(index, 1)` on a copy of the array, as handleDeleteProduct
    uses it: the start position is normalised the way the ECMAScript
    definition of Array.prototype.splice normalises it (a negative index
    counts from the end, an index past the end removes nothing). */
module Splice {

  /** The position at which `splice(index, 1)` starts on an array of length `len`. */
  function SpliceStart(index: int, len: nat): (k: nat)
    ensures k <= len
    ensures 0 <= index < len ==> k == index
    ensures index >= len ==> k == len
    ensures index < 0 && len + index >= 0 ==> k == len + index
    ensures len + index < 0 ==> k == 0
  {
    if index < 0 then (if len + index < 0 then 0 else len + index)
    else if index < len then index
    else len
  }

  /** The array after `splice(index, 1)`. */
  function Spliced<T>(s: seq<T>, index: int): (r: seq<T>)
    ensures SpliceStart(index, |s|) == |s| ==> r == s
    ensures SpliceStart(index, |s|) < |s| ==>
      var k := SpliceStart(index, |s|);
      && |r| == |s| - 1
      && (forall j :: 0 <= j < k ==> r[j] == s[j])
      && (forall j :: k <= j < |r| ==> r[j] == s[j + 1])
      && multiset(r) + multiset{s[k]} == multiset(s)
  {
    var k := SpliceStart(index, |s|);
    if k == |s| then s
    else
      assert s == s[..k] + [s[k]] + s[k + 1..];
      s[..k] + s[k + 1..]
  }

  /** The delete buttons pass the position of their own entry, which is always
      in range: then exactly that entry is removed and the rest shift left. */
  lemma DeleteInRange<T>(s: seq<T>, i: int)
    requires 0 <= i < |s|
    ensures |Spliced(s, i)| == |s| - 1
    ensures forall j :: 0 <= j < i ==> Spliced(s, i)[j] == s[j]
    ensures forall j :: i <= j < |s| - 1 ==> Spliced(s, i)[j] == s[j + 1]
    ensures multiset(Spliced(s, i)) + multiset{s[i]} == multiset(s)
  {
  }
}
