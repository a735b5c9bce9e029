/** Plain facts about sequences that several modules lean on. */
module Sequences {

  /** No element occurs twice. */
  ghost predicate Distinct<T>(s: seq<T>) {
    forall i, j :: 0 <= i < j < |s| ==> s[i] != s[j]
  }

  lemma Associative<T>(a: seq<T>, b: seq<T>, c: seq<T>)
    ensures a + b + c == a + (b + c)
  {
  }

  /** Listing one element more lists the set with it. */
  lemma AddNew<T>(values: seq<T>, seen: set<T>, v: T)
    requires multiset(values) == multiset(seen) && v !in seen
    ensures multiset(values + [v]) == multiset(seen + {v})
  {
  }

  lemma OneMore<T>(all: seq<T>, i: nat)
    requires i < |all|
    ensures all[..i + 1] == all[..i] + [all[i]]
  {
  }
}
