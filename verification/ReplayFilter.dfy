/** The replay window (protocol/vmess/vmess.py:246-262). */
module ReplayFilter {
  import opened Bytes

  /** An authID. */
  type Item = bytes

  /** The last n elements. */
  function Tail(s: seq<Item>, n: int): seq<Item> {
    if n <= 0 then [] else if |s| <= n then s else s[|s| - n..]
  }

  predicate NoDuplicates(s: seq<Item>) {
    forall i, j :: 0 <= i < j < |s| ==> s[i] != s[j]
  }

  /** Items accepted from a sequence of calls: one is refused exactly when it is among the last
      `size` accepted. */
  function Accepted(size: int, items: seq<Item>): seq<Item> {
    if items == [] then []
    else
      var before, item := Accepted(size, items[..|items| - 1]), items[|items| - 1];
      if item in Tail(before, size) then before else before + [item]
  }

  class Filter {
    const size: int
    var seen: set<Item>
    var order: seq<Item>
    /** every item ever accepted, oldest first */
    ghost var accepted: seq<Item>

    /** The set and the list hold the same items, none twice, and they are the last ones accepted. */
    ghost predicate Valid()
      reads this
    {
      && order == Tail(accepted, size)
      && NoDuplicates(order)
      && seen == set x | x in order
    }

    constructor (size: int)
      ensures Valid() && this.size == size && accepted == []
    {
      this.size := size;
      seen, order, accepted := {}, [], [];
    }

    /** False means a replay. */
    method CheckAndAdd(item: Item) returns (fresh': bool)
      requires Valid()
      modifies this
      ensures Valid()
      ensures fresh' <==> item !in Tail(old(accepted), size)
      ensures accepted == old(accepted) + if fresh' then [item] else []
    {
      if item in seen {
        assert accepted + [] == accepted;
        return false;
      }
      seen := seen + {item};
      order := order + [item];
      accepted := accepted + [item];
      assert NoDuplicates(order) && seen == set x | x in order;
      if |order| > size {
        var first := order[0];
        DropOldest(order);
        order := order[1..];
        seen := seen - {first};
      }
      return true;
    }
  }

  lemma DropOldest(order: seq<Item>)
    requires order != [] && NoDuplicates(order)
    ensures NoDuplicates(order[1..])
    ensures (set x | x in order[1..]) == (set x | x in order) - {order[0]}
  {
    assert order == [order[0]] + order[1..];
  }

  /** The answers to a sequence of calls. */
  function Answers(size: int, items: seq<Item>): (r: seq<bool>)
    ensures |r| == |items|
  {
    if items == [] then []
    else
      var front := items[..|items| - 1];
      Answers(size, front) + [items[|items| - 1] !in Tail(Accepted(size, front), size)]
  }

  /** Every call is refused exactly when its item is among the last `size` accepted before it. */
  lemma {:induction false} AnswersAt(size: int, items: seq<Item>, j: nat)
    requires j < |items|
    ensures Answers(size, items)[j] <==> items[j] !in Tail(Accepted(size, items[..j]), size)
  {
    if j >= |items| - 1 {
    } else {
      AnswersAt(size, items[..|items| - 1], j);
      assert items[..|items| - 1][..j] == items[..j];
    }
  }

  lemma OneMore(size: int, items: seq<Item>, i: nat)
    requires i < |items|
    ensures
      var before := Accepted(size, items[..i]);
      var a := items[i] !in Tail(before, size);
      && Accepted(size, items[..i + 1]) == before + (if a then [items[i]] else [])
      && Answers(size, items[..i + 1]) == Answers(size, items[..i]) + [a]
  {
    assert items[..i + 1][..i] == items[..i];
    assert Accepted(size, items[..i]) + [] == Accepted(size, items[..i]);
  }

  /** Any sequence of calls on a new filter. */
  method CheckAll(size: int, items: seq<Item>) returns (answers: seq<bool>)
    ensures answers == Answers(size, items)
  {
    var filter := new Filter(size);
    answers := [];
    for i := 0 to |items|
      invariant filter.Valid() && filter.size == size && fresh(filter)
      invariant filter.accepted == Accepted(size, items[..i]) && answers == Answers(size, items[..i])
    {
      OneMore(size, items, i);
      var a := filter.CheckAndAdd(items[i]);
      answers := answers + [a];
    }
    assert items[..|items|] == items;
  }

  /** With a window that never overflows nothing is accepted twice. */
  lemma {:induction false} WithinTheWindowNothingRepeats(size: int, items: seq<Item>)
    requires |items| <= size
    ensures NoDuplicates(Accepted(size, items)) && |Accepted(size, items)| <= |items|
    ensures forall x :: x in items <==> x in Accepted(size, items)
  {
    if items == [] {
    } else {
      var front := items[..|items| - 1];
      WithinTheWindowNothingRepeats(size, front);
      assert items == front + [items[|items| - 1]];
    }
  }
}
