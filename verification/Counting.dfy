/** Counting the elements of a sequence that satisfy a test. */
module Counting {

  function Count<T>(items: seq<T>, test: T -> bool): (count: nat)
    ensures count <= |items|
  {
    if items == [] then 0 else (if test(items[0]) then 1 else 0) + Count(items[1..], test)
  }

  lemma {:induction false} CountAppend<T>(items: seq<T>, item: T, test: T -> bool)
    ensures Count(items + [item], test) == Count(items, test) + if test(item) then 1 else 0
  {
    if items == [] {
      assert items + [item] == [item];
    } else {
      CountAppend(items[1..], item, test);
      assert (items + [item])[1..] == items[1..] + [item];
    }
  }

  lemma {:induction false} CountUpdate<T>(items: seq<T>, index: nat, item: T, test: T -> bool)
    requires index < |items|
    ensures Count(items[index := item], test) + (if test(items[index]) then 1 else 0)
         == Count(items, test) + (if test(item) then 1 else 0)
  {
    if index == 0 {
      assert items[index := item][1..] == items[1..];
    } else {
      CountUpdate(items[1..], index - 1, item, test);
      assert items[index := item][1..] == items[1..][index - 1 := item];
    }
  }

  lemma {:induction false} CountNone<T>(items: seq<T>, test: T -> bool)
    requires forall i | 0 <= i < |items| :: !test(items[i])
    ensures Count(items, test) == 0
  {
    if items != [] {
      CountNone(items[1..], test);
    }
  }

  lemma {:induction false} CountImplies<T>(items: seq<T>, test: T -> bool, other: T -> bool)
    requires forall i | 0 <= i < |items| && test(items[i]) :: other(items[i])
    ensures Count(items, test) <= Count(items, other)
  {
    if items != [] {
      CountImplies(items[1..], test, other);
    }
  }
}
