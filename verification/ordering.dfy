/** Java-style three-way comparisons: `String.compareTo`, lexicographic comparison of string
    lists, and the helpers the comparators of the outliner share. Every comparator here is
    a total order in the strong form the outliner relies on: zero exactly on equal
    arguments, swapping the arguments negates the result, and `< 0` is transitive. */
module Ordering {

  /** `Integer.compare`-free difference of two enum ordinals, as `Enum.compareTo` returns. */
  function CompareOrdinals(a: nat, b: nat): (r: int)
    ensures r == 0 <==> a == b
    ensures r < 0 <==> a < b
  {
    a - b
  }

  /** `Boolean.compare`: false sorts before true. */
  function CompareBooleans(a: bool, b: bool): (r: int)
    ensures r == 0 <==> a == b
    ensures r < 0 <==> !a && b
  {
    if a == b then 0 else if a then 1 else -1
  }

  /** `String.compareTo`: the difference of the first differing characters, else the
      difference of the lengths. */
  function CompareStrings(a: string, b: string): int
    decreases |a|
  {
    if a == [] || b == [] then |a| - |b|
    else if a[0] != b[0] then a[0] as int - b[0] as int
    else CompareStrings(a[1..], b[1..])
  }

  lemma {:induction false} CompareStringsIsTotalOrder(a: string, b: string, c: string)
    ensures CompareStrings(a, b) == 0 <==> a == b
    ensures CompareStrings(b, a) == -CompareStrings(a, b)
    ensures CompareStrings(a, b) < 0 && CompareStrings(b, c) < 0 ==> CompareStrings(a, c) < 0
    decreases |a|
  {
    if a != [] && b != [] && c != [] {
      CompareStringsIsTotalOrder(a[1..], b[1..], c[1..]);
      if a[0] == b[0] {
        assert a == b <==> a[1..] == b[1..] by {
          assert a == [a[0]] + a[1..];
          assert b == [b[0]] + b[1..];
        }
      }
    } else if a != [] && b != [] {
      CompareStringsIsTotalOrder(a[1..], b[1..], a[1..]);
      if a[0] == b[0] {
        assert a == b <==> a[1..] == b[1..] by {
          assert a == [a[0]] + a[1..];
          assert b == [b[0]] + b[1..];
        }
      }
    }
  }

  /** Lexicographic comparison of string lists, a proper prefix sorting first. */
  function CompareStringLists(a: seq<string>, b: seq<string>): int
    decreases |a|
  {
    if a == [] || b == [] then |a| - |b|
    else if CompareStrings(a[0], b[0]) != 0 then CompareStrings(a[0], b[0])
    else CompareStringLists(a[1..], b[1..])
  }

  lemma {:induction false} CompareStringListsIsTotalOrder(a: seq<string>, b: seq<string>, c: seq<string>)
    ensures CompareStringLists(a, b) == 0 <==> a == b
    ensures CompareStringLists(b, a) == -CompareStringLists(a, b)
    ensures CompareStringLists(a, b) < 0 && CompareStringLists(b, c) < 0 ==> CompareStringLists(a, c) < 0
    decreases |a|
  {
    if a != [] && b != [] {
      var c' := if c == [] then a[1..] else c[1..];
      var c0 := if c == [] then a[0] else c[0];
      CompareStringListsIsTotalOrder(a[1..], b[1..], c');
      CompareStringsIsTotalOrder(a[0], b[0], c0);
      CompareStringsIsTotalOrder(b[0], c0, a[0]);
      CompareStringsIsTotalOrder(a[0], c0, b[0]);
      assert a == b <==> a[0] == b[0] && a[1..] == b[1..] by {
        assert a == [a[0]] + a[1..];
        assert b == [b[0]] + b[1..];
      }
    }
  }
}
