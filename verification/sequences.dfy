/** Positional removal, the `filter((_, i) => i !== index)` idiom of both screens. */
module Sequences {

  /**
   * Keeps every element whose position differs from `index`. An `index`
   * outside `0 .. |s| - 1` matches no position, so nothing is removed.
   */
  function RemoveAt<T>(s: seq<T>, index: int): (r: seq<T>)
    ensures 0 <= index < |s| ==> r == s[..index] + s[index + 1..]
    ensures !(0 <= index < |s|) ==> r == s
  {
    if s == [] then []
    else (if index == 0 then [] else [s[0]]) + RemoveAt(s[1..], index - 1)
  }

  /** The elements after the removed position move one place to the front; those before stay put. */
  lemma RemoveAtShifts<T>(s: seq<T>, index: int)
    requires 0 <= index < |s|
    ensures |RemoveAt(s, index)| == |s| - 1
    ensures forall j :: 0 <= j < index ==> RemoveAt(s, index)[j] == s[j]
    ensures forall j :: index <= j < |s| - 1 ==> RemoveAt(s, index)[j] == s[j + 1]
  {
  }

  /** Every element of the result was an element of the input. */
  lemma RemoveAtSubset<T>(s: seq<T>, index: int, x: T)
    requires x in RemoveAt(s, index)
    ensures x in s
  {
  }
}
