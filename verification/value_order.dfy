/**
  Ordering records by value, largest first. The comparison is the strict
  `a.currentValue > b.currentValue`, so records of equal value may end up in
  any relative order: only the order of the values is ever promised.
 */
module ValueOrder {

  import opened Entities

  /** Each value is at least the value after it. */
  ghost predicate Descending(v: seq<real>)
  {
    forall i :: 0 < i < |v| ==> v[i - 1] >= v[i]
  }

  /** Each record's value is at least the value of the record after it. */
  ghost predicate NonIncreasing(s: seq<Entity>)
  {
    Descending(Values(s))
  }

  /** Sorted by value, the first value bounds every later one. */
  lemma {:induction false} DescendingHeadIsMax(v: seq<real>, j: nat)
    requires Descending(v)
    requires j < |v|
    ensures v[0] >= v[j]
    decreases j
  {
    if j > 0 {
      DescendingHeadIsMax(v, j - 1);
    }
  }

  /** Two value sequences in descending order that hold the same values are
      the same sequence. */
  lemma {:induction false} DescendingUnique(a: seq<real>, b: seq<real>)
    requires multiset(a) == multiset(b)
    requires Descending(a) && Descending(b)
    ensures a == b
    decreases |a|
  {
    assert |a| == |multiset(a)| == |b|;
    if |a| > 0 {
      DescendingSameHead(a, b);
      RemoveAt(a, 0);
      RemoveAt(b, 0);
      assert a[..0] + a[1..] == a[1..];
      assert b[..0] + b[1..] == b[1..];
      DescendingUnique(a[1..], b[1..]);
    }
  }

  /** Two non-empty descending value sequences holding the same values start
      with the same (largest) value. */
  lemma DescendingSameHead(a: seq<real>, b: seq<real>)
    requires multiset(a) == multiset(b)
    requires Descending(a) && Descending(b)
    requires |a| > 0
    ensures |b| > 0 && a[0] == b[0]
  {
    assert a[0] in multiset(b);
    var j :| 0 <= j < |b| && b[j] == a[0];
    DescendingHeadIsMax(b, j);
    assert b[0] in multiset(a);
    var k :| 0 <= k < |a| && a[k] == b[0];
    DescendingHeadIsMax(a, k);
  }

  /** Any two value-ordered arrangements of the same records agree on the value
      at every position; they may differ only in which of several equal-valued
      records sits where. */
  lemma SortedOrderIsUnique(a: seq<Entity>, b: seq<Entity>)
    requires multiset(a) == multiset(b)
    requires NonIncreasing(a) && NonIncreasing(b)
    ensures Values(a) == Values(b)
  {
    PermutationKeepsValues(a, b);
    DescendingUnique(Values(a), Values(b));
  }

  /** Putting a record no smaller than the head in front keeps the order. */
  lemma ConsKeepsOrder(e: Entity, s: seq<Entity>)
    requires NonIncreasing(s)
    requires |s| == 0 || e.currentValue >= s[0].currentValue
    ensures NonIncreasing([e] + s)
  {
    assert Values([e] + s) == [e.currentValue] + Values(s);
  }

  /** Dropping the head keeps the order. */
  lemma TailKeepsOrder(s: seq<Entity>)
    requires NonIncreasing(s) && |s| > 0
    ensures NonIncreasing(s[1..])
  {
    assert Values(s[1..]) == Values(s)[1..];
  }

  /** Inserting `x` into a value-ordered sequence: `x` goes before the first
      record whose value it is at least. */
  function Insert(s: seq<Entity>, x: Entity): (r: seq<Entity>)
    requires NonIncreasing(s)
    ensures NonIncreasing(r)
    ensures multiset(r) == multiset(s) + multiset{x}
    ensures r[0] == x || (|s| > 0 && r[0] == s[0])
    decreases |s|
  {
    if |s| == 0 || x.currentValue >= s[0].currentValue then
      ConsKeepsOrder(x, s);
      [x] + s
    else
      TailKeepsOrder(s);
      var rest := Insert(s[1..], x);
      assert |s| > 1 ==> Values(s)[0] >= Values(s)[1];
      ConsKeepsOrder(s[0], rest);
      assert s == [s[0]] + s[1..];
      [s[0]] + rest
  }
}
