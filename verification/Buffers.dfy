/** What copy loops do: items stored over a buffer, one after the other. */
module Buffers {
  /** `items` copied over `buffer` from cell `at` on. */
  function Copied<T>(buffer: seq<T>, at: nat, items: seq<T>): (r: seq<T>)
    requires at + |items| <= |buffer|
    ensures |r| == |buffer|
    decreases |items|
  {
    if items == [] then buffer
    else
      var k := |items| - 1;
      Copied(buffer, at, items[..k])[at + k := items[k]]
  }

  lemma CopiedMore<T>(buffer: seq<T>, at: nat, items: seq<T>, k: nat)
    requires k < |items| && at + |items| <= |buffer|
    ensures Copied(buffer, at, items[..k])[at + k := items[k]] == Copied(buffer, at, items[..k + 1])
  {
    assert items[..k + 1][..k] == items[..k];
  }

  lemma CopiedSnoc<T>(buffer: seq<T>, at: nat, items: seq<T>, item: T)
    requires at + |items| < |buffer|
    ensures Copied(buffer, at, items + [item]) == Copied(buffer, at, items)[at + |items| := item]
  {
    assert (items + [item])[..|items|] == items;
  }

  lemma {:induction false} CopiedAt<T>(buffer: seq<T>, at: nat, items: seq<T>, i: nat)
    requires at + |items| <= |buffer| && i < |buffer|
    ensures Copied(buffer, at, items)[i] == if at <= i < at + |items| then items[i - at] else buffer[i]
    decreases |items|
  {
    if items != [] {
      CopiedAt(buffer, at, items[..|items| - 1], i);
    }
  }

  /** Cell by cell, what the buffer holds after the copy. */
  lemma CopiedCells<T>(buffer: seq<T>, at: nat, items: seq<T>)
    requires at + |items| <= |buffer|
    ensures forall i :: 0 <= i < |buffer| ==>
              Copied(buffer, at, items)[i] == if at <= i < at + |items| then items[i - at] else buffer[i]
  {
    forall i | 0 <= i < |buffer|
      ensures Copied(buffer, at, items)[i] == if at <= i < at + |items| then items[i - at] else buffer[i]
    {
      CopiedAt(buffer, at, items, i);
    }
  }

  /** The copied cells hold the items, the cells around them what they held. */
  lemma CopiedSlice<T>(buffer: seq<T>, at: nat, items: seq<T>)
    requires at + |items| <= |buffer|
    ensures Copied(buffer, at, items)[at..at + |items|] == items
    ensures Copied(buffer, at, items)[..at] == buffer[..at]
    ensures Copied(buffer, at, items)[at + |items|..] == buffer[at + |items|..]
  {
    CopiedCells(buffer, at, items);
  }

  lemma {:induction false} CopiedTwice<T>(buffer: seq<T>, at: nat, a: seq<T>, b: seq<T>)
    requires at + |a| + |b| <= |buffer|
    ensures Copied(Copied(buffer, at, a), at + |a|, b) == Copied(buffer, at, a + b)
    decreases |b|
  {
    if b == [] {
      assert a + b == a;
    } else {
      var k := |b| - 1;
      CopiedTwice(buffer, at, a, b[..k]);
      assert (a + b)[..|a| + k] == a + b[..k];
    }
  }

  /** Of a range around the copied cells, only those change. */
  lemma CopiedInside<T>(buffer: seq<T>, at: nat, items: seq<T>, start: nat, size: nat)
    requires start <= at && at + |items| <= start + size <= |buffer|
    ensures Copied(buffer, at, items)[start..start + size] == Copied(buffer[start..start + size], at - start, items)
  {
    CopiedCells(buffer, at, items);
    CopiedCells(buffer[start..start + size], at - start, items);
  }

  lemma CopiedOutside<T>(buffer: seq<T>, at: nat, items: seq<T>, start: nat, size: nat)
    requires at + |items| <= |buffer| && start + size <= |buffer|
    requires start + size <= at || at + |items| <= start
    ensures Copied(buffer, at, items)[start..start + size] == buffer[start..start + size]
  {
    CopiedCells(buffer, at, items);
  }
}
