/**
  Exact-name lookup: a front-to-back scan that stops at the first record whose
  name equals the one sought.
 */
module Search {

  import opened Wrappers
  import opened Entities

  /** Position `i` holds the first record named `n`. */
  ghost predicate FirstMatch(s: seq<Entity>, n: string, i: nat)
  {
    i < |s| && s[i].name == n && forall j :: 0 <= j < i ==> s[j].name != n
  }

  /** The scan from position `from` onward. */
  function FindFrom(s: seq<Entity>, n: string, from: nat): (r: Option<nat>)
    requires from <= |s|
    ensures r.None? ==> forall i :: from <= i < |s| ==> s[i].name != n
    ensures r.Some? ==> from <= r.value < |s| && s[r.value].name == n
    ensures r.Some? ==> forall i :: from <= i < r.value ==> s[i].name != n
    decreases |s| - from
  {
    if from == |s| then None
    else if s[from].name == n then Some(from)
    else FindFrom(s, n, from + 1)
  }

  /** The position of the first record named `n`, or nothing when no record
      carries that name. */
  function FindIndex(s: seq<Entity>, n: string): (r: Option<nat>)
    ensures r.None? <==> forall i :: 0 <= i < |s| ==> s[i].name != n
    ensures r.Some? ==> FirstMatch(s, n, r.value)
  {
    FindFrom(s, n, 0)
  }

  /** How many records carry the name `n`. */
  function Count(s: seq<Entity>, n: string): (c: nat)
  {
    if |s| == 0 then 0
    else Count(s[..|s| - 1], n) + (if s[|s| - 1].name == n then 1 else 0)
  }

  /** A name is found exactly when it occurs at least once. */
  lemma {:induction false} FoundIffCounted(s: seq<Entity>, n: string)
    ensures FindIndex(s, n).Some? <==> Count(s, n) > 0
    decreases |s|
  {
    if |s| > 0 {
      var init := s[..|s| - 1];
      FoundIffCounted(init, n);
      assert forall i :: 0 <= i < |init| ==> init[i] == s[i];
    }
  }
}
