/** Sums of the values of a finite map, and sizes of sets. */
module Totals {

  lemma {:induction false} SubsetSize(a: set<string>, b: set<string>)
    requires a <= b
    ensures |a| <= |b|
  {
    if a != {} {
      var x :| x in a;
      SubsetSize(a - {x}, b - {x});
    }
  }

  ghost function Sum(m: map<string, nat>): nat {
    if m == map[] then 0
    else
      var key :| key in m;
      m[key] + Sum(m - {key})
  }

  /** The sum does not depend on which entry is taken first. */
  lemma {:induction false} SumRemove(m: map<string, nat>, key: string)
    requires key in m
    ensures Sum(m) == m[key] + Sum(m - {key})
    decreases |m|
  {
    var first :| first in m && Sum(m) == m[first] + Sum(m - {first});
    if first != key {
      SumRemove(m - {first}, key);
      SumRemove(m - {key}, first);
      assert m - {first} - {key} == m - {key} - {first};
    }
  }

  lemma SumInsert(m: map<string, nat>, key: string, value: nat)
    requires key !in m
    ensures Sum(m[key := value]) == Sum(m) + value
  {
    SumRemove(m[key := value], key);
    assert m[key := value] - {key} == m;
  }

  /** `whole` holds the entries of the disjoint maps `a` and `b`. */
  ghost predicate Union(a: map<string, nat>, b: map<string, nat>, whole: map<string, nat>) {
    && a.Keys !! b.Keys
    && whole.Keys == a.Keys + b.Keys
    && (forall key :: key in a ==> whole[key] == a[key])
    && (forall key :: key in b ==> whole[key] == b[key])
  }

  lemma UnionWithout(a: map<string, nat>, b: map<string, nat>, whole: map<string, nat>, key: string)
    requires Union(a, b, whole) && key in b
    ensures Union(a, b - {key}, whole - {key})
  {
  }

  lemma SumUnionStep(a: map<string, nat>, b: map<string, nat>, whole: map<string, nat>, key: string)
    requires key in b && key in whole && whole[key] == b[key]
    requires Sum(whole - {key}) == Sum(a) + Sum(b - {key})
    ensures Sum(whole) == Sum(a) + Sum(b)
  {
    SumRemove(b, key);
    SumRemove(whole, key);
  }

  lemma SumUnionEmpty(a: map<string, nat>, b: map<string, nat>, whole: map<string, nat>)
    requires Union(a, b, whole) && b == map[]
    ensures Sum(whole) == Sum(a) + Sum(b)
  {
    assert whole == a;
  }

  lemma {:induction false} SumUnion(a: map<string, nat>, b: map<string, nat>, whole: map<string, nat>)
    requires Union(a, b, whole)
    ensures Sum(whole) == Sum(a) + Sum(b)
    decreases |b|
  {
    if b == map[] {
      SumUnionEmpty(a, b, whole);
    } else {
      var key :| key in b;
      UnionWithout(a, b, whole, key);
      SumUnion(a, b - {key}, whole - {key});
      SumUnionStep(a, b, whole, key);
    }
  }
}
