/**
  The total value of a portfolio: the plain sum of the records' stored values.
  The record's kind plays no part; a liability is added with whatever sign it
  was stored with.
 */
module Totals {

  import opened Entities

  /** Reference definition of the total, as a right fold over the records. */
  function Sum(s: seq<Entity>): (total: real)
  {
    if |s| == 0 then 0.0 else s[0].currentValue + Sum(s[1..])
  }

  /** The total of a concatenation is the sum of the totals. */
  lemma {:induction false} SumAppend(a: seq<Entity>, b: seq<Entity>)
    ensures Sum(a + b) == Sum(a) + Sum(b)
    decreases |a|
  {
    if |a| == 0 {
      assert a + b == b;
    } else {
      assert (a + b)[1..] == a[1..] + b;
      SumAppend(a[1..], b);
    }
  }

  /** Removing the record at position `j` subtracts exactly its value. */
  lemma SumRemoveAt(s: seq<Entity>, j: nat)
    requires j < |s|
    ensures Sum(s) == Sum(s[..j] + s[j + 1..]) + s[j].currentValue
  {
    RemoveAt(s, j);
    SumAppend(s[..j] + [s[j]], s[j + 1..]);
    SumAppend(s[..j], [s[j]]);
    SumAppend(s[..j], s[j + 1..]);
  }

  /** The total does not depend on the order of the records. */
  lemma {:induction false} SumPermutation(a: seq<Entity>, b: seq<Entity>)
    requires multiset(a) == multiset(b)
    ensures Sum(a) == Sum(b)
    decreases |a|
  {
    if |a| == 0 {
      assert |multiset(b)| == 0;
      assert b == [];
    } else {
      var x := a[0];
      assert x in multiset(b);
      var j :| 0 <= j < |b| && b[j] == x;
      var rest := b[..j] + b[j + 1..];
      RemoveAt(b, j);
      assert a == [x] + a[1..];
      assert multiset(a[1..]) == multiset(a) - multiset{x};
      SumPermutation(a[1..], rest);
      SumRemoveAt(b, j);
      assert Sum(a) == x.currentValue + Sum(a[1..]);
    }
  }

  /** Appending a record raises the total by exactly that record's stored
      value, whatever its kind. */
  lemma SumAppendOne(s: seq<Entity>, e: Entity)
    ensures Sum(s + [e]) == Sum(s) + e.currentValue
  {
    SumAppend(s, [e]);
  }
}
