/** Insertion and removal at an index. */
module Seqs {

  function InsertAt<T>(list: seq<T>, p: nat, x: T): (r: seq<T>)
    requires p <= |list|
    ensures |r| == |list| + 1
    ensures forall i :: 0 <= i < |r| ==> r[i] == if i < p then list[i] else if i == p then x else list[i - 1]
  {
    list[..p] + [x] + list[p..]
  }

  function RemoveAt<T>(list: seq<T>, k: nat): (r: seq<T>)
    requires k < |list|
    ensures |r| == |list| - 1
    ensures forall i :: 0 <= i < |r| ==> r[i] == if i < k then list[i] else list[i + 1]
  {
    list[..k] + list[k + 1..]
  }

  ghost predicate Unique<T>(list: seq<T>) {
    forall i, j :: 0 <= i < j < |list| ==> list[i] != list[j]
  }

  lemma OnlyAt<T>(list: seq<T>, k: nat)
    requires Unique(list) && k < |list|
    ensures forall i :: 0 <= i < |list| && i != k ==> list[i] != list[k]
  {
  }

  lemma RemoveUnique<T>(list: seq<T>, k: nat)
    requires Unique(list) && k < |list|
    ensures Unique(RemoveAt(list, k)) && list[k] !in RemoveAt(list, k)
    ensures forall x :: x in list && x != list[k] ==> x in RemoveAt(list, k)
    ensures forall x :: x in RemoveAt(list, k) ==> x in list
  {
    forall x | x in list && x != list[k]
      ensures x in RemoveAt(list, k)
    {
      var i :| 0 <= i < |list| && list[i] == x;
      assert RemoveAt(list, k)[if i < k then i else i - 1] == x;
    }
  }

  lemma InsertUnique<T>(list: seq<T>, p: nat, x: T)
    requires Unique(list) && p <= |list| && x !in list
    ensures Unique(InsertAt(list, p, x)) && x in InsertAt(list, p, x)
    ensures forall y :: y in list ==> y in InsertAt(list, p, x)
    ensures forall y :: y in InsertAt(list, p, x) ==> y in list || y == x
  {
    assert InsertAt(list, p, x)[p] == x;
    forall y | y in list
      ensures y in InsertAt(list, p, x)
    {
      var i :| 0 <= i < |list| && list[i] == y;
      assert InsertAt(list, p, x)[if i < p then i else i + 1] == y;
    }
  }

  lemma UpdateUnique<T>(list: seq<T>, k: nat, x: T)
    requires Unique(list) && k < |list| && x !in list
    ensures Unique(list[k := x])
  {
  }
}
