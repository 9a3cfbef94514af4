/** Positional sequence edits shared by the embed-level and field-level operations. */
module Lists {
  /** `s.filter((_, k) => k !== i)`, keeping the elements left to right. */
  function RemoveIndex<T>(s: seq<T>, i: nat): seq<T>
    decreases |s|
  {
    if s == [] then []
    else RemoveIndex(s[..|s| - 1], i) + (if |s| - 1 != i then [s[|s| - 1]] else [])
  }

  /**
   * Filtering out position i deletes exactly that element when it exists,
   * shifts every later element down by one and keeps the order; an index past
   * the end changes nothing.
   */
  lemma {:induction false} RemoveIndexSpec<T>(s: seq<T>, i: nat)
    ensures |RemoveIndex(s, i)| == if i < |s| then |s| - 1 else |s|
    ensures forall j :: 0 <= j < |RemoveIndex(s, i)| ==> RemoveIndex(s, i)[j] == s[if j < i then j else j + 1]
    decreases |s|
  {
    if s != [] {
      RemoveIndexSpec(s[..|s| - 1], i);
    }
  }

  /** The same deletion, as slices. */
  lemma RemoveIndexSlices<T>(s: seq<T>, i: nat)
    ensures RemoveIndex(s, i) == if i < |s| then s[..i] + s[i + 1..] else s
  {
    RemoveIndexSpec(s, i);
  }
}
