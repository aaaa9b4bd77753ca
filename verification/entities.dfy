/**
  A financial record of the portfolio. The source's class hierarchy (an abstract
  base with two subclasses that differ only in how they print themselves) becomes
  one tagged datatype: the subclass is the `kind` tag.
 */
module Entities {

  /** Which subclass the record was created as. */
  datatype Kind = Asset | Liability

  /** A record's name and current value are fixed by its constructor; the
      accessors of the source return these fields unchanged. A `double` value
      is modelled as an exact `real`. */
  datatype Entity = Entity(name: string, currentValue: real, kind: Kind)

  /** The values of a sequence of records, position by position. */
  function Values(s: seq<Entity>): (v: seq<real>)
    ensures |v| == |s|

  {
    seq(|s|, i requires 0 <= i < |s| => s[i].currentValue)
  }

  /** Two sequences holding the same records (in any order) hold the same
      multiset of values. */
  lemma {:induction false} PermutationKeepsValues(a: seq<Entity>, b: seq<Entity>)
    requires multiset(a) == multiset(b)
    ensures multiset(Values(a)) == multiset(Values(b))
    decreases |a|
  {
    if |a| == 0 {
      assert |multiset(b)| == 0;
      assert b == [];
    } else {
      var x := a[0];
      assert x in multiset(b);
      var j :| 0 <= j < |b| && b[j] == x;
      var rest := b[..j] + b[j + 1..];
      RemoveAt(b, j);
      RemoveAt(a, 0);
      assert a[..0] + a[1..] == a[1..];
      PermutationKeepsValues(a[1..], rest);
      ValuesRemoveAt(b, j);
      ValuesRemoveAt(a, 0);
    }
  }

  /** Removing the record at position `j` removes one copy of its value. */
  lemma ValuesRemoveAt(s: seq<Entity>, j: nat)
    requires j < |s|
    ensures multiset(Values(s)) == multiset(Values(s[..j] + s[j + 1..])) + multiset{s[j].currentValue}
  {
    var v := Values(s);
    assert Values(s[..j] + s[j + 1..]) == v[..j] + v[j + 1..];
    RemoveAt(v, j);
  }

  /** Splitting a sequence around position `j`: what remains holds every
      element but one copy of `s[j]`. */
  lemma RemoveAt<T>(s: seq<T>, j: nat)
    requires j < |s|
    ensures s == s[..j] + [s[j]] + s[j + 1..]
    ensures multiset(s[..j] + s[j + 1..]) == multiset(s) - multiset{s[j]}
  {
  }
}
