/** Loops over a std::map, which yields its entries in key order, that look for a smallest value and use 0
  * for "not set yet". Such a loop starts over at every entry whose own value is 0.
  */
module OrderedMaps {

  /** What the loop has found so far, and the next value. */
  function Tighter(found: nat, x: nat): nat {
    if found == 0 || x < found then x else found
  }

  // ---------------------------------------------------------------- key order

  ghost predicate IsOrder<K(!new)>(less: (K, K) -> bool) {
    && (forall a, b :: less(a, b) ==> !less(b, a))
    && (forall a, b :: a == b || less(a, b) || less(b, a))
    && (forall a, b, c :: less(a, b) && less(b, c) ==> less(a, c))
  }

  ghost predicate IsFirst<K(!new)>(less: (K, K) -> bool, keys: set<K>, k: K) {
    k in keys && forall j :: j in keys && j != k ==> less(k, j)
  }

  ghost predicate IsLast<K(!new)>(less: (K, K) -> bool, keys: set<K>, k: K) {
    k in keys && forall j :: j in keys && j != k ==> less(j, k)
  }

  lemma {:induction false} FirstExists<K(!new)>(less: (K, K) -> bool, keys: set<K>)
    requires IsOrder(less) && keys != {}
    ensures exists k :: IsFirst(less, keys, k)
  {
    var k :| k in keys;
    var rest := keys - {k};
    assert keys == rest + {k};
    if rest == {} {
      assert IsFirst(less, keys, k);
    } else {
      FirstExists(less, rest);
      var first :| IsFirst(less, rest, first);
      assert IsFirst(less, keys, if less(k, first) then k else first);
    }
  }

  /** A walk in key order: some entries have been seen, the keys in todo come after them. */
  ghost predicate Walked<K(!new), V>(less: (K, K) -> bool, m: map<K, V>, seen: map<K, V>, todo: set<K>) {
    && todo !! seen.Keys && todo + seen.Keys == m.Keys
    && (forall k :: k in seen ==> seen[k] == m[k])
    && (forall k, j :: k in seen && j in todo ==> less(k, j))
  }

  lemma WalkNext<K(!new), V>(less: (K, K) -> bool, m: map<K, V>, seen: map<K, V>, todo: set<K>, k: K)
    requires Walked(less, m, seen, todo) && IsFirst(less, todo, k)
    ensures k in m && k !in seen && forall j :: j in seen ==> less(j, k)
    ensures Walked(less, m, seen[k := m[k]], todo - {k})
  {
  }

  lemma {:induction false} LastExists<K(!new)>(less: (K, K) -> bool, keys: set<K>)
    requires IsOrder(less) && keys != {}
    ensures exists k :: IsLast(less, keys, k)
  {
    var k :| k in keys;
    var rest := keys - {k};
    assert keys == rest + {k};
    if rest == {} {
      assert IsLast(less, keys, k);
    } else {
      LastExists(less, rest);
      var last :| IsLast(less, rest, last);
      assert IsLast(less, keys, if less(last, k) then k else last);
    }
  }

  // ---------------------------------------------------------------- what the loop finds

  /** The entry and all later ones are set. */
  ghost predicate Counts<K(!new), V>(less: (K, K) -> bool, f: V -> nat, m: map<K, V>, k: K) {
    k in m && f(m[k]) != 0 && forall j :: j in m && less(k, j) ==> f(m[j]) != 0
  }

  /** v is the smallest value of the entries that count, or 0 when none does. */
  ghost predicate IsFound<K(!new), V>(less: (K, K) -> bool, f: V -> nat, m: map<K, V>, v: nat) {
    && (v == 0 <==> forall k :: !Counts(less, f, m, k))
    && (v != 0 ==> exists k :: Counts(less, f, m, k) && f(m[k]) == v)
    && (forall k :: Counts(less, f, m, k) ==> v <= f(m[k]))
  }

  lemma CountsNext<K(!new), V>(less: (K, K) -> bool, f: V -> nat, seen: map<K, V>, k: K, v: V, j: K)
    requires IsOrder(less) && k !in seen && forall i :: i in seen ==> less(i, k)
    ensures Counts(less, f, seen[k := v], j) <==> f(v) != 0 && (j == k || Counts(less, f, seen, j))
  {
  }

  lemma IsFoundNext<K(!new), V>(less: (K, K) -> bool, f: V -> nat, seen: map<K, V>, k: K, v: V, found: nat)
    requires IsOrder(less) && k !in seen && forall j :: j in seen ==> less(j, k)
    requires IsFound(less, f, seen, found)
    ensures IsFound(less, f, seen[k := v], Tighter(found, f(v)))
  {
    var m := seen[k := v];
    forall j ensures Counts(less, f, m, j) <==> f(v) != 0 && (j == k || Counts(less, f, seen, j)) {
      CountsNext(less, f, seen, k, v, j);
    }
    if found != 0 {
      var j :| Counts(less, f, seen, j) && f(seen[j]) == found;
      assert f(v) != 0 ==> Counts(less, f, m, j) && f(m[j]) == found;
    }
    assert f(v) != 0 ==> Counts(less, f, m, k) && f(m[k]) == f(v);
  }

  lemma {:induction false} FoundExists<K(!new), V>(less: (K, K) -> bool, f: V -> nat, m: map<K, V>) returns (v: nat)
    requires IsOrder(less)
    ensures IsFound(less, f, m, v)
    decreases m.Keys
  {
    v := 0;
    if m != map[] {
      LastExists(less, m.Keys);
      var last :| IsLast(less, m.Keys, last);
      var rest := m - {last};
      v := FoundExists(less, f, rest);
      assert m == rest[last := m[last]];
      IsFoundNext(less, f, rest, last, m[last], v);
      v := Tighter(v, f(m[last]));
    }
  }

  /** The loop's result. */
  ghost function Found<K(!new), V>(less: (K, K) -> bool, f: V -> nat, m: map<K, V>): (v: nat)
    requires IsOrder(less)
    ensures IsFound(less, f, m, v)
  {
    assert exists v :: IsFound(less, f, m, v) by {
      var v := FoundExists(less, f, m);
    }
    var v :| IsFound(less, f, m, v);
    v
  }

  lemma FoundUnique<K(!new), V>(less: (K, K) -> bool, f: V -> nat, m: map<K, V>, v: nat)
    requires IsOrder(less) && IsFound(less, f, m, v)
    ensures v == Found(less, f, m)
  {
  }
}
