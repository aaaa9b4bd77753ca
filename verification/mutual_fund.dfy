/**
  The portfolio container: a fund name and an ordered list of records. Records
  are appended as given (no merging, no de-duplication), totalled by a plain
  left-to-right sum, reordered by value, largest first, and looked up by exact
  name.
 */
module MutualFunds {

  import opened Wrappers
  import opened Entities
  import opened Totals
  import opened ValueOrder
  import opened Search

  /** The fund name is only stored and printed; it never changes. */
  datatype MutualFund = MutualFund(fundName: string, entities: seq<Entity>)

  /** A new fund holds no records under the given fund name. */
  function NewFund(name: string): (r: MutualFund)
    ensures r.fundName == name && r.entities == []
  {
    MutualFund(name, [])
  }

  /** Appends `e` after every record already held. */
  function AddEntity(f: MutualFund, e: Entity): (r: MutualFund)
    ensures r.fundName == f.fundName
    ensures |r.entities| == |f.entities| + 1
    ensures r.entities[..|f.entities|] == f.entities
    ensures r.entities[|f.entities|] == e
  {
    f.(entities := f.entities + [e])
  }

  /** Adds up the stored values front to back, starting from zero. */
  method GetTotalValue(f: MutualFund) returns (total: real)
    ensures total == Sum(f.entities)
    ensures |f.entities| == 0 ==> total == 0.0
  {
    var s := f.entities;
    total := 0.0;
    var i := 0;
    while i < |s|
      invariant 0 <= i <= |s|
      invariant total == Sum(s[..i])
    {
      assert s[..i + 1] == s[..i] + [s[i]];
      SumAppendOne(s[..i], s[i]);
      total := total + s[i].currentValue;
      i := i + 1;
    }
    assert s[..i] == s;
  }

  /** Reorders the records so that values never increase along the list. The
      result holds the same records, so the total is unchanged; the relative
      order of records of equal value is left unspecified. */
  method SortPortfolioByValue(f: MutualFund) returns (r: MutualFund)
    ensures r.fundName == f.fundName
    ensures multiset(r.entities) == multiset(f.entities)
    ensures NonIncreasing(r.entities)
    ensures Sum(r.entities) == Sum(f.entities)
  {
    var s := f.entities;
    var sorted := [];
    var i := 0;
    while i < |s|
      invariant 0 <= i <= |s|
      invariant NonIncreasing(sorted)
      invariant multiset(sorted) == multiset(s[..i])
    {
      assert s[..i + 1] == s[..i] + [s[i]];
      sorted := Insert(sorted, s[i]);
      i := i + 1;
    }
    assert s[..i] == s;
    SumPermutation(sorted, s);
    r := f.(entities := sorted);
  }

  /** The first record named `n`, or nothing when no record has that name. */
  function FindEntityByName(f: MutualFund, n: string): (r: Option<Entity>)
    ensures r.None? <==> forall i :: 0 <= i < |f.entities| ==> f.entities[i].name != n
    ensures r.Some? ==> exists i: nat :: FirstMatch(f.entities, n, i) && f.entities[i] == r.value
  {
    match FindIndex(f.entities, n)
    case None => None
    case Some(i) => Some(f.entities[i])
  }

  /** A new fund totals zero and every lookup in it finds nothing. */
  lemma NewFundIsEmpty(name: string, n: string)
    ensures Sum(NewFund(name).entities) == 0.0
    ensures FindEntityByName(NewFund(name), n).None?
  {
  }

  /** Appending a record raises the total by that record's stored value; a
      liability's value is added as stored, with no change of sign. */
  lemma AddEntityTotal(f: MutualFund, e: Entity)
    ensures Sum(AddEntity(f, e).entities) == Sum(f.entities) + e.currentValue
  {
    SumAppendOne(f.entities, e);
  }

  /** Appending never merges: the number of records carrying the new record's
      name grows by exactly one, even when that name is already present. */
  lemma AddEntityNoDedup(f: MutualFund, e: Entity)
    ensures Count(AddEntity(f, e).entities, e.name) == Count(f.entities, e.name) + 1
  {
  }

  /** When the name is already present, lookup after the append still returns
      the earlier record, not the one just added. */
  lemma AddDuplicateFindsEarlier(f: MutualFund, e: Entity)
    requires FindIndex(f.entities, e.name).Some?
    ensures FindIndex(AddEntity(f, e).entities, e.name) == FindIndex(f.entities, e.name)
    ensures FindEntityByName(AddEntity(f, e), e.name) == FindEntityByName(f, e.name)
  {
  }

  /** When the name is new, lookup after the append returns exactly the record
      just added, with its value and kind. */
  lemma AddNewFindsIt(f: MutualFund, e: Entity)
    requires FindEntityByName(f, e.name).None?
    ensures FindEntityByName(AddEntity(f, e), e.name) == Some(e)
  {
  }
}
