/** The child chain of a cJSON container: doubly linked nodes that behave as a sequence. */
module ChildList {
  import opened Seqs

  class Node {
    var next: Node?
    var prev: Node?

    constructor ()
      ensures next == null && prev == null
    {
      next, prev := null, null;
    }
  }

  function Successor(kids: seq<Node>, i: int): Node? {
    if 0 <= i + 1 < |kids| then kids[i + 1] else null
  }

  function Predecessor(kids: seq<Node>, i: int): Node? {
    if 0 < i <= |kids| then kids[i - 1] else null
  }

  class Parent {
    var child: Node?
    ghost var kids: seq<Node>

    /** `next` and `prev` mirror each other along the chain; the head has no `prev`. */
    ghost predicate Valid()
      reads this, kids
    {
      && Unique(kids)
      && child == Successor(kids, -1)
      && Forward() && Backward()
    }

    ghost predicate Forward()
      reads this`kids, kids`next
    {
      forall i {:trigger kids[i].next} :: 0 <= i < |kids| ==> kids[i].next == Successor(kids, i)
    }

    ghost predicate Backward()
      reads this`kids, kids`prev
    {
      forall i {:trigger kids[i].prev} :: 0 <= i < |kids| ==> kids[i].prev == Predecessor(kids, i)
    }

    constructor ()
      ensures Valid() && kids == []
    {
      child, kids := null, [];
    }

    /** `get_array_item`: the element at the index, or null behind the end. */
    method GetItem(index: nat) returns (item: Node?)
      requires Valid()
      ensures item == Successor(kids, index - 1)
    {
      item := child;
      var left := index;
      ghost var k := 0;
      while item != null && left > 0
        invariant 0 <= k <= |kids| && k + left == index && item == Successor(kids, k - 1)
        decreases left
      {
        left := left - 1;
        item := item.next;
        k := k + 1;
      }
    }

    method AddItem(item: Node)
      requires Valid() && item !in kids && item.next == null && item.prev == null
      modifies this, kids, item
      ensures Valid() && kids == old(kids) + [item]
    {
      if child == null {
        child := item;
      } else {
        var last := child;
        ghost var k := 0;
        while last.next != null
          invariant 0 <= k < |kids| && last == kids[k]
          decreases |kids| - k
        {
          last := last.next;
          k := k + 1;
        }
        last.next := item;
        item.prev := last;
      }
      kids := kids + [item];
    }

    method DetachViaPointer(item: Node, ghost k: nat)
      requires Valid() && k < |kids| && kids[k] == item
      modifies this, kids
      ensures Valid() && kids == RemoveAt(old(kids), k) && item.next == null && item.prev == null
    {
      hide Unique;
      OnlyAt(kids, k);
      RemoveUnique(kids, k);
      if item.prev != null {
        OnlyAt(kids, k - 1);
        item.prev.next := item.next;
      }
      if item.next != null {
        OnlyAt(kids, k + 1);
        item.next.prev := item.prev;
      }
      if item == child {
        child := item.next;
      }
      item.prev, item.next := null, null;
      kids := RemoveAt(kids, k);
      assert Forward();
      assert Backward();
    }

    method DetachItem(which: int) returns (item: Node?)
      requires Valid()
      modifies this, kids
      ensures Valid()
      ensures if 0 <= which < |old(kids)|
              then item == old(kids)[which] && kids == RemoveAt(old(kids), which)
                   && item.next == null && item.prev == null
              else item == null && kids == old(kids)
    {
      if which < 0 {
        return null;
      }
      item := GetItem(which);
      if item != null {
        DetachViaPointer(item, which);
      }
    }

    /** Insert in front of the element at `which`, or append if there is none. */
    method InsertItem(which: int, item: Node)
      requires Valid() && item !in kids && item.next == null && item.prev == null
      modifies this, kids, item
      ensures Valid()
      ensures kids == if which < 0 then old(kids)
                      else if which <= |old(kids)| then InsertAt(old(kids), which, item)
                      else old(kids) + [item]
    {
      if which < 0 {
        return;
      }
      var after := GetItem(which);
      if after == null {
        AddItem(item);
        return;
      }
      LinkBefore(item, after, which);
    }

    method LinkBefore(item: Node, after: Node, ghost k: nat)
      requires Valid() && item !in kids && k < |kids| && kids[k] == after
      modifies this, kids, item
      ensures Valid() && kids == InsertAt(old(kids), k, item)
    {
      hide Unique;
      OnlyAt(kids, k);
      InsertUnique(kids, k, item);
      item.next := after;
      item.prev := after.prev;
      after.prev := item;
      if after == child {
        child := item;
      } else {
        OnlyAt(kids, k - 1);
        item.prev.next := item;
      }
      kids := InsertAt(kids, k, item);
      assert Forward();
      assert Backward();
    }

    method ReplaceViaPointer(item: Node, replacement: Node, ghost k: nat)
      requires Valid() && k < |kids| && kids[k] == item
      requires replacement == item || replacement !in kids
      modifies this, kids, replacement
      ensures Valid() && kids == old(kids)[k := replacement]
      ensures replacement != item ==> item.next == null && item.prev == null
    {
      if replacement == item {
        return;
      }
      hide Unique;
      OnlyAt(kids, k);
      UpdateUnique(kids, k, replacement);
      replacement.next := item.next;
      replacement.prev := item.prev;
      if replacement.next != null {
        OnlyAt(kids, k + 1);
        replacement.next.prev := replacement;
      }
      if replacement.prev != null {
        OnlyAt(kids, k - 1);
        replacement.prev.next := replacement;
      }
      if child == item {
        child := replacement;
      }
      item.next, item.prev := null, null;
      kids := kids[k := replacement];
      assert Forward();
      assert Backward();
    }
  }
}
