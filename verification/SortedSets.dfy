/** `sorted(set(...))` of a list of integers. */
module SortedSets {

  ghost predicate Increasing(list: seq<int>) {
    forall i, j | 0 <= i < j < |list| :: list[i] < list[j]
  }

  /** `x` joins an increasing list at its place, unless it is there. */
  function Insert(x: int, list: seq<int>): (r: seq<int>)
    requires Increasing(list)
    ensures Increasing(r)
    ensures forall y :: y in r <==> y == x || y in list
  {
    if list == [] then [x]
    else if x < list[0] then [x] + list
    else if x == list[0] then list
    else
      assert list == [list[0]] + list[1..];
      var rest := Insert(x, list[1..]);
      assert forall k | 0 <= k < |rest| :: rest[k] in rest && list[0] < rest[k];
      [list[0]] + rest
  }

  /** The list's elements in increasing order, each once. */
  function SortedSet(list: seq<int>): (r: seq<int>)
    ensures Increasing(r)
    ensures forall y :: y in r <==> y in list
  {
    if list == [] then [] else
    assert list == [list[0]] + list[1..];
    Insert(list[0], SortedSet(list[1..]))
  }

  /** The elements of the list that `keep` selects. */
  function Filter(list: seq<int>, keep: int -> bool): (r: seq<int>)
    ensures forall y :: y in r <==> y in list && keep(y)
  {
    if list == [] then [] else
    assert list == [list[0]] + list[1..];
    (if keep(list[0]) then [list[0]] else []) + Filter(list[1..], keep)
  }
}
