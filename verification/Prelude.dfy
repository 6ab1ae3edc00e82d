/** Small shared vocabulary: optional values and results with an error. */
module Prelude {
  datatype Option<+T> = None | Some(value: T)

  datatype Result<+T, +E> = Ok(value: T) | Err(error: E)

  function Lookup<K, V>(m: map<K, V>, k: K): Option<V> { if k in m then Some(m[k]) else None }

  ghost predicate Distinct<T>(s: seq<T>) {
    forall i, j :: 0 <= i < j < |s| ==> s[i] != s[j]
  }

  function Members<T>(s: seq<T>): set<T> { set x | x in s }

  /** A sequence without repetition that lists exactly the members of a finite set. */
  lemma ListMembers<T>(items: set<T>) returns (list: seq<T>)
    ensures forall x :: x in list <==> x in items
    ensures Distinct(list)
  {
    if items == {} {
      list := [];
    } else {
      var x :| x in items;
      var rest := ListMembers(items - {x});
      list := [x] + rest;
    }
  }
}
